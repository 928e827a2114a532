// What wrapping and splitting styled lines must produce (src/common_ui.rs).
module StyledLayout {
  import opened StyledCells

  // ---- Splitting by newline --------------------------------------------------------------------

  datatype Range = Range(lo: nat, hi: nat)

  predicate IsNewline(c: Cell) { c.byte.code == NEWLINE }

  // A newline is shown as an empty cell.
  function Blank(c: Cell): Cell {
    if IsNewline(c) then Cell(SPACE, c.style) else c
  }

  function Blanked(cells: seq<Cell>): (r: seq<Cell>)
    ensures |r| == |cells|
  {
    seq(|cells|, i requires 0 <= i < |cells| => Blank(cells[i]))
  }

  // Ranges that follow each other from the start of the line.
  ghost predicate Contiguous(ranges: seq<Range>, end: nat) {
    && (forall j :: 0 <= j < |ranges| ==> ranges[j].lo <= ranges[j].hi <= end)
    && (forall j :: 0 <= j < |ranges| - 1 ==> ranges[j].hi == ranges[j + 1].lo)
    && (|ranges| > 0 ==> ranges[0].lo == 0 && ranges[|ranges| - 1].hi == end)
  }

  // Each range but the last ends with its only newline.
  ghost predicate NewlineEnds(cells: seq<Cell>, r: Range) {
    r.lo < r.hi <= |cells| && IsNewline(cells[r.hi - 1]) && forall p :: r.lo <= p < r.hi - 1 ==> !IsNewline(cells[p])
  }

  ghost predicate NoNewline(cells: seq<Cell>, lo: nat, hi: nat) {
    hi <= |cells| && forall p :: lo <= p < hi ==> !IsNewline(cells[p])
  }

  ghost predicate SplitInto(cells: seq<Cell>, ranges: seq<Range>, out: seq<seq<Cell>>) {
    && |ranges| == |out| > 0 && Contiguous(ranges, |cells|)
    && (forall j :: 0 <= j < |ranges| - 1 ==> NewlineEnds(cells, ranges[j]))
    && NoNewline(cells, ranges[|ranges| - 1].lo, |cells|)
    && (forall j :: 0 <= j < |out| ==> out[j] == Blanked(cells[ranges[j].lo..ranges[j].hi]))
  }

  // The state of the split before position `upto`: closed lines, and the staged start of the next one.
  ghost predicate SplitSoFar(cells: seq<Cell>, ranges: seq<Range>, out: seq<seq<Cell>>, lineStart: nat, upto: nat,
                             staged: seq<Cell>) {
    && |ranges| == |out| && lineStart <= upto <= |cells| && Contiguous(ranges, lineStart)
    && (|ranges| == 0 ==> lineStart == 0)
    && (forall j :: 0 <= j < |ranges| ==>
          NewlineEnds(cells, ranges[j]) && out[j] == Blanked(cells[ranges[j].lo..ranges[j].hi]))
    && NoNewline(cells, lineStart, upto) && staged == Blanked(cells[lineStart..upto])
  }

  lemma SplitStarts(cells: seq<Cell>)
    ensures SplitSoFar(cells, [], [], 0, 0, [])
  {
  }

  // Text without a newline is staged.
  lemma SplitStage(cells: seq<Cell>, ranges: seq<Range>, out: seq<seq<Cell>>, lineStart: nat, upto: nat,
                   staged: seq<Cell>, more: seq<Cell>)
    requires SplitSoFar(cells, ranges, out, lineStart, upto, staged)
    requires upto + |more| <= |cells| && cells[upto..upto + |more|] == more && NoNewline(more, 0, |more|)
    ensures SplitSoFar(cells, ranges, out, lineStart, upto + |more|, staged + more)
  {
  }

  // Text up to and including a newline closes a line.
  lemma SplitClose(cells: seq<Cell>, ranges: seq<Range>, out: seq<seq<Cell>>, lineStart: nat, upto: nat,
                   staged: seq<Cell>, more: seq<Cell>, newline: Cell)
    requires SplitSoFar(cells, ranges, out, lineStart, upto, staged)
    requires upto + |more| < |cells| && cells[upto..upto + |more|] == more && NoNewline(more, 0, |more|)
    requires cells[upto + |more|] == newline && IsNewline(newline)
    ensures
      var end := upto + |more| + 1;
      SplitSoFar(cells, ranges + [Range(lineStart, end)], out + [staged + more + [Blank(newline)]], end, end, [])
  {
    hide SplitSoFar, Blank;
    SplitStage(cells, ranges, out, lineStart, upto, staged, more);
    SplitNewline(cells, ranges, out, lineStart, upto + |more|, staged + more);
  }

  lemma SplitNewline(cells: seq<Cell>, ranges: seq<Range>, out: seq<seq<Cell>>, lineStart: nat, upto: nat,
                     staged: seq<Cell>)
    requires SplitSoFar(cells, ranges, out, lineStart, upto, staged)
    requires upto < |cells| && IsNewline(cells[upto])
    ensures SplitSoFar(cells, ranges + [Range(lineStart, upto + 1)], out + [staged + [Blank(cells[upto])]],
                       upto + 1, upto + 1, [])
  {
    assert staged + [Blank(cells[upto])] == Blanked(cells[lineStart..upto + 1]);
    assert Blanked(cells[upto + 1..upto + 1]) == [];
    hide Blanked, IsNewline;
  }

  // The last line.
  lemma SplitEnd(cells: seq<Cell>, ranges: seq<Range>, out: seq<seq<Cell>>, lineStart: nat, staged: seq<Cell>)
    requires SplitSoFar(cells, ranges, out, lineStart, |cells|, staged)
    ensures SplitInto(cells, ranges + [Range(lineStart, |cells|)], out + [staged])
  {
  }

  // ---- Wrapping --------------------------------------------------------------------------------

  // A reported output line: where its text starts on screen, and which bytes of which source line it has.
  datatype Piece = Piece(startX: nat, line: nat, lo: nat, hi: nat)

  // The indicators: start and end of a wrapped line, end of truncated text.
  datatype Marks = Marks(head: seq<Cell>, tail: seq<Cell>, cut: seq<Cell>)

  predicate InSource(src: seq<seq<Cell>>, p: Piece) {
    p.line < |src| && p.lo <= p.hi <= |src[p.line]| && (p.lo < p.hi || |src[p.line]| == 0)
  }

  function Emitted(src: seq<seq<Cell>>, m: Marks, p: Piece, cut: bool): seq<Cell>
    requires InSource(src, p)
  {
    (if p.lo > 0 then m.head else []) + src[p.line][p.lo..p.hi]
    + (if cut then m.cut else if p.hi < |src[p.line]| then m.tail else [])
  }

  // Where the text after a piece continues.
  predicate ContinuesAt(src: seq<seq<Cell>>, p: Piece, line: nat, pos: nat)
    requires InSource(src, p)
  {
    if p.hi < |src[p.line]| then line == p.line && pos == p.hi else line == p.line + 1 && pos == 0
  }

  ghost predicate Chained(src: seq<seq<Cell>>, pieces: seq<Piece>) {
    && (forall k :: 0 <= k < |pieces| ==> InSource(src, pieces[k]))
    && (|pieces| > 0 ==> pieces[0].line == 0 && pieces[0].lo == 0)
    && (forall k :: 0 <= k < |pieces| - 1 ==> ContinuesAt(src, pieces[k], pieces[k + 1].line, pieces[k + 1].lo))
  }

  // The next position to emit after the pieces.
  ghost predicate NextAt(src: seq<seq<Cell>>, pieces: seq<Piece>, line: nat, pos: nat)
    requires Chained(src, pieces)
  {
    if pieces == [] then line == 0 && pos == 0 else ContinuesAt(src, pieces[|pieces| - 1], line, pos)
  }

  function CellsWidth(cells: seq<Cell>): nat { Width(Bytes(cells)) }

  // saturating_sub
  function Minus(a: nat, b: nat): nat { if a > b then a - b else 0 }

  // One grapheme cluster.
  predicate OneCluster(text: String) {
    text != [] && forall i :: 0 < i < |text| ==> !text[i].clusterStart
  }

  // n bytes of the text are what goes on a line: all of it if it fits and no indicator has to follow, or else as many
  // whole clusters as fit before the indicator, but at least one.
  ghost predicate ChosenWell(text: String, width: nat, endWidth: nat, mayEnd: bool, n: nat) {
    && 0 < n <= |text| && Boundary(text, n)
    && if Width(text) <= width && mayEnd then n == |text|
       else
         && (Width(text[..n]) <= Minus(width, endWidth) || OneCluster(text[..n]))
         && forall i :: n < i <= |text| && Boundary(text, i) ==> Width(text[..i]) > Minus(width, endWidth)
  }

  // There is one such number.
  lemma ChosenUnique(text: String, width: nat, endWidth: nat, mayEnd: bool, n: nat, n': nat)
    requires ChosenWell(text, width, endWidth, mayEnd, n) && ChosenWell(text, width, endWidth, mayEnd, n')
    ensures n == n'
  {
  }

  // The line that is emitted is filled with text, as far as that goes.
  ghost predicate Filled(src: seq<seq<Cell>>, m: Marks, width: nat, p: Piece, cut: bool)
    requires InSource(src, p)
  {
    p.lo < p.hi ==>
      ChosenWell(Bytes(src[p.line][p.lo..]), Minus(width, p.startX), CellsWidth(if cut then m.cut else m.tail),
                 !(cut && p.line + 1 < |src|), p.hi - p.lo)
  }

  // One output line is right; `cut` says that the text is truncated after it.
  ghost predicate PieceOk(src: seq<seq<Cell>>, m: Marks, width: nat, p: Piece, out: seq<Cell>, cut: bool)
    requires InSource(src, p)
  {
    && out == Emitted(src, m, p, cut)
    && p.startX == (if p.lo > 0 then CellsWidth(m.head) else 0)
    && Filled(src, m, width, p, cut)
  }

  // Output so far, nothing truncated; the text goes on at (line, pos).
  ghost predicate SoFar(src: seq<seq<Cell>>, m: Marks, width: nat, maxLines: nat, pieces: seq<Piece>,
                        out: seq<seq<Cell>>, line: nat, pos: nat) {
    && Chained(src, pieces) && |out| == |pieces| && NextAt(src, pieces, line, pos)
    && (forall k :: 0 <= k < |pieces| ==> PieceOk(src, m, width, pieces[k], out[k], false))
    && |pieces| <= Most(1, maxLines) && (line < |src| ==> |pieces| < Most(1, maxLines))
  }

  // The promised result of line_wrap.
  ghost predicate Wrapped(src: seq<seq<Cell>>, m: Marks, width: nat, maxLines: nat, pieces: seq<Piece>,
                          out: seq<seq<Cell>>, cut: bool) {
    && Chained(src, pieces) && |out| == |pieces| <= Most(1, maxLines)
    && (forall k :: 0 <= k < |pieces| ==> PieceOk(src, m, width, pieces[k], out[k], cut && k == |pieces| - 1))
    && (if cut then |pieces| == Most(1, maxLines) && !NextAt(src, pieces, |src|, 0) else NextAt(src, pieces, |src|, 0))
  }

  // One more output line, nothing truncated.
  lemma EmitOne(src: seq<seq<Cell>>, m: Marks, width: nat, maxLines: nat, pieces: seq<Piece>, out: seq<seq<Cell>>,
                p: Piece, o: seq<Cell>, line: nat, pos: nat)
    requires SoFar(src, m, width, maxLines, pieces, out, p.line, p.lo) && InSource(src, p)
    requires PieceOk(src, m, width, p, o, false) && ContinuesAt(src, p, line, pos)
    requires line < |src| ==> |pieces| + 1 < maxLines
    ensures SoFar(src, m, width, maxLines, pieces + [p], out + [o], line, pos)
  {
  }

  // One more output line, after which the text is truncated.
  lemma EmitCut(src: seq<seq<Cell>>, m: Marks, width: nat, maxLines: nat, pieces: seq<Piece>, out: seq<seq<Cell>>,
                p: Piece, o: seq<Cell>)
    requires SoFar(src, m, width, maxLines, pieces, out, p.line, p.lo) && InSource(src, p)
    requires PieceOk(src, m, width, p, o, true) && !ContinuesAt(src, p, |src|, 0)
    requires |pieces| + 1 >= maxLines
    ensures Wrapped(src, m, width, maxLines, pieces + [p], out + [o], true)
  {
  }

  lemma EmitEnd(src: seq<seq<Cell>>, m: Marks, width: nat, maxLines: nat, pieces: seq<Piece>, out: seq<seq<Cell>>)
    requires SoFar(src, m, width, maxLines, pieces, out, |src|, 0)
    ensures Wrapped(src, m, width, maxLines, pieces, out, false)
  {
  }

  // ---- What wrapped text looks like ------------------------------------------------------------

  lemma EmittedWidth(src: seq<seq<Cell>>, m: Marks, p: Piece, cut: bool)
    requires InSource(src, p)
    ensures CellsWidth(Emitted(src, m, p, cut)) == (if p.lo > 0 then CellsWidth(m.head) else 0)
              + CellsWidth(src[p.line][p.lo..p.hi])
              + (if cut then CellsWidth(m.cut) else if p.hi < |src[p.line]| then CellsWidth(m.tail) else 0)
  {
    hide Bytes, Width;
    var head := if p.lo > 0 then m.head else [];
    var text := src[p.line][p.lo..p.hi];
    var tail := if cut then m.cut else if p.hi < |src[p.line]| then m.tail else [];
    BytesConcat(head + text, tail);
    BytesConcat(head, text);
    WidthConcat(Bytes(head) + Bytes(text), Bytes(tail));
    WidthConcat(Bytes(head), Bytes(text));
    NothingWide();
  }

  lemma NothingWide()
    ensures CellsWidth([]) == 0
  {
  }

  // The indicators fit next to each other.
  predicate MarksFit(m: Marks, width: nat) {
    CellsWidth(m.head) + Most(CellsWidth(m.tail), CellsWidth(m.cut)) <= width
  }

  lemma BytesSlice(cells: seq<Cell>, lo: nat, hi: nat)
    requires lo <= hi <= |cells|
    ensures Bytes(cells[lo..hi]) == Bytes(cells[lo..])[..hi - lo]
  {
  }

  // An output line is cut off exactly if it is the last that is allowed and the text goes on.
  lemma CutIs(src: seq<seq<Cell>>, m: Marks, width: nat, maxLines: nat, pieces: seq<Piece>, out: seq<seq<Cell>>,
              cut: bool, k: nat)
    requires Wrapped(src, m, width, maxLines, pieces, out, cut) && k < |pieces| && InSource(src, pieces[k])
    ensures cut && k == |pieces| - 1 <==>
              k + 1 == Most(1, maxLines) && (pieces[k].hi < |src[pieces[k].line]| || pieces[k].line + 1 < |src|)
  {
    hide PieceOk;
  }

  // No output line is too wide, unless it has a single grapheme of text.
  lemma LinesFit(src: seq<seq<Cell>>, m: Marks, width: nat, maxLines: nat, pieces: seq<Piece>, out: seq<seq<Cell>>,
                 cut: bool, k: nat)
    requires Wrapped(src, m, width, maxLines, pieces, out, cut) && MarksFit(m, width) && k < |pieces|
    requires InSource(src, pieces[k]) && src[pieces[k].line] != []
    ensures CellsWidth(out[k]) <= width || OneCluster(Bytes(src[pieces[k].line][pieces[k].lo..pieces[k].hi]))
  {
    var p, cutHere := pieces[k], cut && k == |pieces| - 1;
    CutIs(src, m, width, maxLines, pieces, out, cut, k);
    assert PieceOk(src, m, width, p, out[k], cutHere);
    hide Bytes, Width, Emitted, Chained, NextAt, OneCluster, Wrapped;
    EmittedWidth(src, m, p, cutHere);
    BytesSlice(src[p.line], p.lo, p.hi);
    var rest := Bytes(src[p.line][p.lo..]);
    assert rest[..|rest|] == rest;
  }

  // A source line that fits goes on one output line, as it is.
  lemma FittingLine(src: seq<seq<Cell>>, m: Marks, width: nat, p: Piece, out: seq<Cell>, cut: bool)
    requires InSource(src, p) && PieceOk(src, m, width, p, out, cut) && p.lo == 0
    requires CellsWidth(src[p.line]) <= width && !(cut && p.line + 1 < |src|)
    ensures p.startX == 0 && p.hi == |src[p.line]| && (!cut ==> out == src[p.line])
  {
    hide Width;
    assert src[p.line][0..] == src[p.line];
    assert src[p.line][0..|src[p.line]|] == src[p.line];
  }

  // Lines that all fit, in width and number, are left as they are.
  lemma {:induction false} FittingText(src: seq<seq<Cell>>, m: Marks, width: nat, maxLines: nat, pieces: seq<Piece>,
                                       out: seq<seq<Cell>>, cut: bool)
    requires Wrapped(src, m, width, maxLines, pieces, out, cut)
    requires |src| <= maxLines && forall i :: 0 <= i < |src| ==> CellsWidth(src[i]) <= width
    ensures !cut && out == src
  {
    hide CellsWidth, PieceOk, Emitted;
    var n := |pieces|;
    WholeLines(src, m, width, maxLines, pieces, out, cut, if cut then n - 1 else n);
    if cut {
      var p := pieces[n - 1];
      assert ContinuesAt(src, if n > 1 then pieces[n - 2] else p, p.line, p.lo) || n == 1;
      FittingLine(src, m, width, p, out[n - 1], cut);
    }
  }

  // The first n pieces are whole lines.
  lemma {:induction false} WholeLines(src: seq<seq<Cell>>, m: Marks, width: nat, maxLines: nat, pieces: seq<Piece>,
                                      out: seq<seq<Cell>>, cut: bool, n: nat)
    requires Wrapped(src, m, width, maxLines, pieces, out, cut) && n <= |pieces| && (cut ==> n < |pieces|)
    requires forall i :: 0 <= i < |src| ==> CellsWidth(src[i]) <= width
    ensures n <= |src|
    ensures forall k :: 0 <= k < n ==> pieces[k] == Piece(0, k, 0, |src[k]|) && out[k] == src[k]
  {
    hide CellsWidth, PieceOk, Emitted;
    if n > 0 {
      WholeLines(src, m, width, maxLines, pieces, out, cut, n - 1);
      var p := pieces[n - 1];
      assert InSource(src, p) && (n == 1 || ContinuesAt(src, pieces[n - 2], p.line, p.lo));
      FittingLine(src, m, width, p, out[n - 1], false);
    }
  }

  // ---- The result is determined ----------------------------------------------------------------

  // Two outputs that begin alike go on alike.
  lemma SamePiece(src: seq<seq<Cell>>, m: Marks, width: nat, maxLines: nat, a: seq<Piece>, outA: seq<seq<Cell>>,
                  cutA: bool, b: seq<Piece>, outB: seq<seq<Cell>>, cutB: bool, k: nat)
    requires Wrapped(src, m, width, maxLines, a, outA, cutA) && Wrapped(src, m, width, maxLines, b, outB, cutB)
    requires k < |a| && k < |b| && a[..k] == b[..k]
    ensures a[k] == b[k] && outA[k] == outB[k]
  {
    SamePlace(src, a, b, k);
    CutIs(src, m, width, maxLines, a, outA, cutA, k);
    CutIs(src, m, width, maxLines, b, outB, cutB, k);
    var p, q := a[k], b[k];
    var cutP, cutQ := cutA && k == |a| - 1, cutB && k == |b| - 1;
    assert PieceOk(src, m, width, p, outA[k], cutP) && PieceOk(src, m, width, q, outB[k], cutQ);
    hide CellsWidth, Width, Emitted, Wrapped, Chained, Filled;
    if p.lo < p.hi && q.lo < q.hi {
      SameEnd(src, m, width, p, q, cutP, cutQ, k + 1 == Most(1, maxLines));
    }
  }

  lemma SameEnd(src: seq<seq<Cell>>, m: Marks, width: nat, p: Piece, q: Piece, cutP: bool, cutQ: bool, last: bool)
    requires InSource(src, p) && InSource(src, q) && q == p.(hi := q.hi) && p.lo < p.hi && q.lo < q.hi
    requires Filled(src, m, width, p, cutP) && Filled(src, m, width, q, cutQ)
    requires cutP <==> last && (p.hi < |src[p.line]| || p.line + 1 < |src|)
    requires cutQ <==> last && (q.hi < |src[p.line]| || p.line + 1 < |src|)
    ensures p.hi == q.hi
  {
    hide CellsWidth, Width, Bytes;
    var text := Bytes(src[p.line][p.lo..]);
    assert text[..|text|] == text;
    if cutP == cutQ {
      ChosenUnique(text, Minus(width, p.startX), CellsWidth(if cutP then m.cut else m.tail),
                   !(cutP && p.line + 1 < |src|), p.hi - p.lo, q.hi - p.lo);
    }
  }

  // There is only one way to wrap a text.
  lemma {:induction false} WrapUnique(src: seq<seq<Cell>>, m: Marks, width: nat, maxLines: nat, a: seq<Piece>,
                                      outA: seq<seq<Cell>>, cutA: bool, b: seq<Piece>, outB: seq<seq<Cell>>, cutB: bool)
    requires Wrapped(src, m, width, maxLines, a, outA, cutA) && Wrapped(src, m, width, maxLines, b, outB, cutB)
    ensures a == b && outA == outB && cutA == cutB
  {
    hide PieceOk;
    if |a| <= |b| {
      SamePieces(src, m, width, maxLines, a, outA, cutA, b, outB, cutB, |a|);
      EndsThere(src, m, width, maxLines, a, outA, cutA, b, outB, cutB);
    } else {
      SamePieces(src, m, width, maxLines, b, outB, cutB, a, outA, cutA, |b|);
      EndsThere(src, m, width, maxLines, b, outB, cutB, a, outA, cutA);
    }
  }

  lemma {:induction false} SamePieces(src: seq<seq<Cell>>, m: Marks, width: nat, maxLines: nat, a: seq<Piece>,
                                      outA: seq<seq<Cell>>, cutA: bool, b: seq<Piece>, outB: seq<seq<Cell>>, cutB: bool,
                                      n: nat)
    requires Wrapped(src, m, width, maxLines, a, outA, cutA) && Wrapped(src, m, width, maxLines, b, outB, cutB)
    requires n <= |a| <= |b|
    ensures a[..n] == b[..n] && outA[..n] == outB[..n]
  {
    hide PieceOk, Chained, NextAt;
    if n > 0 {
      SamePieces(src, m, width, maxLines, a, outA, cutA, b, outB, cutB, n - 1);
      SamePiece(src, m, width, maxLines, a, outA, cutA, b, outB, cutB, n - 1);
      assert a[..n] == a[..n - 1] + [a[n - 1]] && b[..n] == b[..n - 1] + [b[n - 1]];
      assert outA[..n] == outA[..n - 1] + [outA[n - 1]] && outB[..n] == outB[..n - 1] + [outB[n - 1]];
    }
  }

  lemma EndsThere(src: seq<seq<Cell>>, m: Marks, width: nat, maxLines: nat, a: seq<Piece>, outA: seq<seq<Cell>>,
                  cutA: bool, b: seq<Piece>, outB: seq<seq<Cell>>, cutB: bool)
    requires Wrapped(src, m, width, maxLines, a, outA, cutA) && Wrapped(src, m, width, maxLines, b, outB, cutB)
    requires |a| <= |b| && a[..|a|] == b[..|a|] && outA[..|a|] == outB[..|a|]
    ensures a == b && outA == outB && cutA == cutB
  {
    var n := |a|;
    EndsAt(src, m, width, maxLines, a, outA, cutA, n);
    EndsAt(src, m, width, maxLines, b, outB, cutB, n);
    assert a == a[..n] && outA == outA[..n] && b[..|b|] == b && outB[..|b|] == outB;
  }

  predicate AtEnd(src: seq<seq<Cell>>, pieces: seq<Piece>) {
    if pieces == [] then src == []
    else var p := pieces[|pieces| - 1]; p.line < |src| && p.hi == |src[p.line]| && p.line + 1 == |src|
  }

  // The output ends where the text does or no more lines are allowed.
  lemma EndsAt(src: seq<seq<Cell>>, m: Marks, width: nat, maxLines: nat, pieces: seq<Piece>, out: seq<seq<Cell>>,
               cut: bool, n: nat)
    requires Wrapped(src, m, width, maxLines, pieces, out, cut) && n <= |pieces|
    ensures n == |pieces| <==> n == Most(1, maxLines) || AtEnd(src, pieces[..n])
    ensures n == |pieces| ==> (cut <==> !AtEnd(src, pieces[..n]))
  {
    hide PieceOk;
    if n < |pieces| {
      assert InSource(src, pieces[n]);
      if n > 0 {
        assert ContinuesAt(src, pieces[n - 1], pieces[n - 1 + 1].line, pieces[n - 1 + 1].lo);
      }
    } else {
      assert pieces[..n] == pieces;
    }
  }

  lemma SamePlace(src: seq<seq<Cell>>, a: seq<Piece>, b: seq<Piece>, k: nat)
    requires Chained(src, a) && Chained(src, b) && k < |a| && k < |b| && a[..k] == b[..k]
    ensures InSource(src, a[k]) && InSource(src, b[k]) && a[k].line == b[k].line && a[k].lo == b[k].lo
  {
    if k > 0 {
      assert a[..k][k - 1] == a[k - 1] && b[..k][k - 1] == b[k - 1];
      assert ContinuesAt(src, a[k - 1], a[k - 1 + 1].line, a[k - 1 + 1].lo);
      assert ContinuesAt(src, b[k - 1], b[k - 1 + 1].line, b[k - 1 + 1].lo);
    }
  }

  // ---- Content is preserved --------------------------------------------------------------------

  // The emitted text without indicators.
  function Content(src: seq<seq<Cell>>, pieces: seq<Piece>): seq<Cell>
    requires forall k :: 0 <= k < |pieces| ==> InSource(src, pieces[k])
  {
    if pieces == [] then []
    else
      var p := pieces[|pieces| - 1];
      assert InSource(src, p);
      Content(src, pieces[..|pieces| - 1]) + src[p.line][p.lo..p.hi]
  }

  function Flatten(src: seq<seq<Cell>>): seq<Cell> {
    if src == [] then [] else Flatten(src[..|src| - 1]) + src[|src| - 1]
  }

  // The text before a position.
  function Before(src: seq<seq<Cell>>, line: nat, pos: nat): seq<Cell>
    requires line <= |src| && (line < |src| ==> pos <= |src[line]|)
  {
    Flatten(src[..line]) + (if line < |src| then src[line][..pos] else [])
  }

  lemma PieceAdds(src: seq<seq<Cell>>, p: Piece, line: nat, pos: nat)
    requires InSource(src, p) && ContinuesAt(src, p, line, pos)
    ensures line <= |src| && (line < |src| ==> pos <= |src[line]|)
    ensures Before(src, p.line, p.lo) + src[p.line][p.lo..p.hi] == Before(src, line, pos)
  {
    assert src[p.line][..p.lo] + src[p.line][p.lo..p.hi] == src[p.line][..p.hi];
    if p.hi == |src[p.line]| {
      assert src[..p.line + 1][..p.line] == src[..p.line];
      assert src[p.line][..p.hi] == src[p.line];
      assert line < |src| ==> src[line][..pos] == [];
    }
  }

  lemma ChainedInit(src: seq<seq<Cell>>, pieces: seq<Piece>)
    requires Chained(src, pieces) && pieces != []
    ensures
      var init, p := pieces[..|pieces| - 1], pieces[|pieces| - 1];
      Chained(src, init) && NextAt(src, init, p.line, p.lo) && InSource(src, p)
  {
  }

  // With indicators removed, the output is the source text up to the position it stopped at.
  lemma {:induction false} ContentIsPrefix(src: seq<seq<Cell>>, pieces: seq<Piece>, line: nat, pos: nat)
    requires Chained(src, pieces) && NextAt(src, pieces, line, pos)
    ensures line <= |src| && (line < |src| ==> pos <= |src[line]|)
    ensures Content(src, pieces) == Before(src, line, pos)
  {
    if pieces == [] {
      assert src[..0] == [];
    } else {
      var init, p := pieces[..|pieces| - 1], pieces[|pieces| - 1];
      ChainedInit(src, pieces);
      hide Before, ContinuesAt;
      ContentIsPrefix(src, init, p.line, p.lo);
      PieceAdds(src, p, line, pos);
    }
  }

  // Nothing is lost or repeated by line_wrap unless it truncates.
  lemma WrapKeepsContent(src: seq<seq<Cell>>, m: Marks, width: nat, maxLines: nat, pieces: seq<Piece>,
                         out: seq<seq<Cell>>, cut: bool)
    requires Wrapped(src, m, width, maxLines, pieces, out, cut)
    ensures Content(src, pieces) <= Flatten(src)
    ensures !cut ==> Content(src, pieces) == Flatten(src)
  {
    hide PieceOk;
    if !cut {
      ContentIsPrefix(src, pieces, |src|, 0);
      assert src[..|src|] == src;
    } else {
      var p := pieces[|pieces| - 1];
      var line, pos := if p.hi < |src[p.line]| then p.line else p.line + 1, if p.hi < |src[p.line]| then p.hi else 0;
      ContentIsPrefix(src, pieces, line, pos);
      FlattenPrefix(src, line, pos);
    }
  }

  lemma {:induction false} FlattenPrefix(src: seq<seq<Cell>>, line: nat, pos: nat)
    requires line <= |src| && (line < |src| ==> pos <= |src[line]|)
    ensures Before(src, line, pos) <= Flatten(src)
  {
    if line == |src| {
      assert src[..line] == src;
    } else if line == |src| - 1 {
      assert src[line] == src[line][..pos] + src[line][pos..];
    } else {
      var init := src[..|src| - 1];
      FlattenPrefix(init, line, pos);
      assert init[..line] == src[..line];
    }
  }

  // ---- Splitting, then wrapping ----------------------------------------------------------------

  // A piece of a split line, as bytes of the original text.
  function Original(ranges: seq<Range>, p: Piece): Range
    requires p.line < |ranges|
  {
    Range(ranges[p.line].lo + p.lo, ranges[p.line].lo + p.hi)
  }

  // Consecutive pieces are consecutive in the original text.
  predicate Adjacent(ranges: seq<Range>, p: Piece, q: Piece) {
    p.line < |ranges| && q.line < |ranges| && Original(ranges, p).hi == Original(ranges, q).lo
  }

  lemma ComposedStep(ranges: seq<Range>, src: seq<seq<Cell>>, p: Piece, q: Piece)
    requires |src| == |ranges| && forall j :: 0 <= j < |ranges| - 1 ==> ranges[j].hi == ranges[j + 1].lo
    requires InSource(src, p) && InSource(src, q) && ContinuesAt(src, p, q.line, q.lo)
    requires ranges[p.line].lo <= ranges[p.line].hi && |src[p.line]| == ranges[p.line].hi - ranges[p.line].lo
    ensures Adjacent(ranges, p, q)
  {
  }

  // Composing the two reported mappings gives consecutive byte ranges of the original text, from its
  // start; without truncation they reach its end.
  lemma ComposedRanges(cells: seq<Cell>, ranges: seq<Range>, src: seq<seq<Cell>>, m: Marks, width: nat, maxLines: nat,
                       pieces: seq<Piece>, out: seq<seq<Cell>>, cut: bool)
    requires SplitInto(cells, ranges, src) && Wrapped(src, m, width, maxLines, pieces, out, cut)
    ensures forall k :: 0 <= k < |pieces| ==> pieces[k].line < |ranges| && Original(ranges, pieces[k]).hi <= |cells|
    ensures forall k, l :: 0 <= k && l == k + 1 < |pieces| ==> Adjacent(ranges, pieces[k], pieces[l])
    ensures |pieces| > 0 && Original(ranges, pieces[0]).lo == 0
    ensures !cut ==> Original(ranges, pieces[|pieces| - 1]).hi == |cells|
  {
    hide PieceOk, Blanked, Adjacent;
    forall j | 0 <= j < |src| ensures |src[j]| == ranges[j].hi - ranges[j].lo {
      assert src[j] == Blanked(cells[ranges[j].lo..ranges[j].hi]);
    }
    forall k, l | 0 <= k && l == k + 1 < |pieces| ensures Adjacent(ranges, pieces[k], pieces[l]) {
      assert InSource(src, pieces[k]) && InSource(src, pieces[l]);
      assert ContinuesAt(src, pieces[k], pieces[k + 1].line, pieces[k + 1].lo);
      ComposedStep(ranges, src, pieces[k], pieces[l]);
    }
  }
}
