// Meaning of styled text: bytes with a style each (src/common_ui.rs).
module StyledCells {
  // One byte of a string, with what grapheme segmentation says about it. The width of a grapheme
  // cluster is kept on its first byte. Segmentation is compositional: pieces cut at cluster starts keep it.
  datatype Byte = Byte(code: nat, charStart: bool, clusterStart: bool, width: nat)

  type String = seq<Byte>

  const NEWLINE: nat := 10
  const SPACE: Byte := Byte(32, true, true, 1)

  datatype Modifier = Bold | Underlined | Dim | Italic | SlowBlink | RapidBlink | Invert | Strikethrough

  datatype Color = Rgb(r: int, g: int, b: int) | Other(id: nat)

  datatype Style = Style(fg: Color, bg: Color, modifier: set<Modifier>)

  const PLAIN: Style := Style(Other(0), Other(0), {})

  datatype Amount = Amount(r: int, g: int, b: int)

  datatype StyleAdjustment =
    StyleAdjustment(addFg: Amount, addBg: Amount, addModifier: set<Modifier>, removeModifier: set<Modifier>)

  // StyleAdjustment::apply; amounts are i16 and the sum saturates, then is clamped to a byte.
  function AddClamped(x: int, y: int): int {
    var sum := if x + y > 32767 then 32767 else x + y;
    if sum < 0 then 0 else if sum > 255 then 255 else sum
  }

  function AddColor(c: Color, a: Amount): Color {
    match c
    case Rgb(r, g, b) => Rgb(AddClamped(r, a.r), AddClamped(g, a.g), AddClamped(b, a.b))
    case Other(_) => c
  }

  function Apply(a: StyleAdjustment, s: Style): Style {
    Style(AddColor(s.fg, a.addFg), AddColor(s.bg, a.addBg), s.modifier - a.removeModifier + a.addModifier)
  }

  // A color channel moved by an amount, as far as it goes.
  predicate Moved(x: int, amount: int, y: int) {
    0 <= y <= 255 && (y == x + amount || (y == 255 && x + amount > 255) || (y == 0 && x + amount < 0))
  }

  predicate MovedColor(c: Color, amount: Amount, d: Color) {
    if !c.Rgb? then d == c
    else d.Rgb? && Moved(c.r, amount.r, d.r) && Moved(c.g, amount.g, d.g) && Moved(c.b, amount.b, d.b)
  }

  // Each channel of foreground and background moves by the amount for it, within a byte; colors without channels stay;
  // a modifier is on if it is added, or was on and is not removed.
  lemma Applied(a: StyleAdjustment, s: Style)
    requires s.fg.Rgb? ==> 0 <= s.fg.r <= 255 && 0 <= s.fg.g <= 255 && 0 <= s.fg.b <= 255
    requires s.bg.Rgb? ==> 0 <= s.bg.r <= 255 && 0 <= s.bg.g <= 255 && 0 <= s.bg.b <= 255
    ensures MovedColor(s.fg, a.addFg, Apply(a, s).fg) && MovedColor(s.bg, a.addBg, Apply(a, s).bg)
    ensures forall x :: x in Apply(a, s).modifier <==> x in a.addModifier || (x in s.modifier && x !in a.removeModifier)
  {
  }

  datatype Span = Span(end: nat, style: Style)

  datatype Cell = Cell(byte: Byte, style: Style)

  function Least(a: nat, b: nat): nat { if a < b then a else b }

  function Most(a: nat, b: nat): nat { if a > b then a else b }

  // ---- Widths ----------------------------------------------------------------------------------

  function Width(s: String): nat {
    if s == [] then 0 else Width(s[..|s| - 1]) + s[|s| - 1].width
  }

  lemma {:induction false} WidthConcat(a: String, b: String)
    ensures Width(a + b) == Width(a) + Width(b)
  {
    if b == [] {
      assert a + b == a;
    } else {
      assert (a + b)[..|a + b| - 1] == a + b[..|b| - 1];
      WidthConcat(a, b[..|b| - 1]);
    }
  }

  lemma WidthSplit(s: String, i: nat, j: nat)
    requires i <= j <= |s|
    ensures Width(s[i..]) == Width(s[i..j]) + Width(s[j..])
    ensures Width(s[..j]) == Width(s[..i]) + Width(s[i..j])
  {
    hide Width;
    assert s[i..j] + s[j..] == s[i..] && s[..i] + s[i..j] == s[..j];
    WidthConcat(s[i..j], s[j..]);
    WidthConcat(s[..i], s[i..j]);
  }

  predicate Boundary(s: String, i: nat) {
    i == |s| || (i < |s| && s[i].clusterStart)
  }

  // The start of the next grapheme cluster.
  function NextCluster(s: String, i: nat): (j: nat)
    requires i < |s|
    ensures i < j <= |s| && Boundary(s, j)
    ensures forall k :: i < k < j ==> !s[k].clusterStart
    decreases |s| - i
  {
    if i + 1 == |s| || s[i + 1].clusterStart then i + 1 else NextCluster(s, i + 1)
  }

  // ---- Styles by position ----------------------------------------------------------------------

  ghost predicate Sorted(spans: seq<Span>) {
    forall i, j :: 0 <= i < j < |spans| ==> spans[i].end <= spans[j].end
  }

  function End(spans: seq<Span>): nat {
    if spans == [] then 0 else spans[|spans| - 1].end
  }

  // The style of byte p: that of the first span ending after it.
  function StyleAt(spans: seq<Span>, p: nat): Style {
    if spans == [] then PLAIN
    else if spans[0].end > p then spans[0].style
    else StyleAt(spans[1..], p)
  }

  lemma {:induction false} StyleAtAppend(a: seq<Span>, b: seq<Span>, p: nat)
    requires Sorted(a)
    ensures p < End(a) ==> StyleAt(a + b, p) == StyleAt(a, p)
    ensures p >= End(a) ==> StyleAt(a + b, p) == StyleAt(b, p)
  {
    if a == [] {
      assert a + b == b;
    } else {
      assert (a + b)[1..] == a[1..] + b;
      StyleAtAppend(a[1..], b, p);
      if |a| == 1 {
        assert a[1..] == [];
      }
    }
  }

  lemma StyleAtSpan(spans: seq<Span>, k: nat, p: nat)
    requires Sorted(spans) && 0 < k < |spans| && spans[k - 1].end <= p < spans[k].end
    ensures StyleAt(spans, p) == spans[k].style
  {
    assert spans == spans[..k] + ([spans[k]] + spans[k + 1..]);
    StyleAtAppend(spans[..k], [spans[k]] + spans[k + 1..], p);
  }

  function Cells(spans: seq<Span>, chars: String, lo: nat, hi: nat): (cells: seq<Cell>)
    requires lo <= hi <= |chars|
    ensures |cells| == hi - lo
  {
    seq(hi - lo, i requires 0 <= i < hi - lo => Cell(chars[lo + i], StyleAt(spans, lo + i)))
  }

  function Styled(s: String, style: Style): (cells: seq<Cell>)
    ensures |cells| == |s|
  {
    seq(|s|, i requires 0 <= i < |s| => Cell(s[i], style))
  }

  function Bytes(cells: seq<Cell>): (s: String)
    ensures |s| == |cells|
  {
    seq(|cells|, i requires 0 <= i < |cells| => cells[i].byte)
  }

  lemma BytesConcat(a: seq<Cell>, b: seq<Cell>)
    ensures Bytes(a + b) == Bytes(a) + Bytes(b)
  {
  }

  lemma BytesOfStyled(s: String, style: Style)
    ensures Bytes(Styled(s, style)) == s
  {
  }

  lemma CellsSplit(spans: seq<Span>, chars: String, lo: nat, mid: nat, hi: nat)
    requires lo <= mid <= hi <= |chars|
    ensures Cells(spans, chars, lo, hi) == Cells(spans, chars, lo, mid) + Cells(spans, chars, mid, hi)
  {
  }

  lemma CellsSlice(spans: seq<Span>, chars: String, lo: nat, hi: nat, i: nat, j: nat)
    requires lo <= hi <= |chars| && i <= j <= hi - lo
    ensures Cells(spans, chars, lo, hi)[i..j] == Cells(spans, chars, lo + i, lo + j)
  {
  }

  // Appending text does not change the cells of closed spans.
  lemma CellsKept(spans: seq<Span>, spans': seq<Span>, chars: String, chars': String, lo: nat, hi: nat)
    requires Sorted(spans) && spans <= spans' && chars <= chars' && lo <= hi <= End(spans) && hi <= |chars|
    ensures Cells(spans', chars', lo, hi) == Cells(spans, chars, lo, hi)
  {
    forall p | lo <= p < hi ensures StyleAt(spans', p) == StyleAt(spans, p) {
      assert spans' == spans + spans'[|spans|..];
      StyleAtAppend(spans, spans'[|spans|..], p);
    }
  }

  // A new span gives its style to the bytes it covers.
  lemma CellsAppended(spans: seq<Span>, chars: String, lo: nat, piece: String, style: Style)
    requires Sorted(spans) && End(spans) == |chars| && lo <= |chars|
    ensures
      var chars' := chars + piece;
      Cells(spans + [Span(|chars'|, style)], chars', lo, |chars'|) ==
          Cells(spans, chars, lo, |chars|) + Styled(piece, style)
  {
    var spans', chars' := spans + [Span(|chars + piece|, style)], chars + piece;
    CellsKept(spans, spans', chars, chars', lo, |chars|);
    CellsSplit(spans', chars', lo, |chars|, |chars'|);
    forall p | |chars| <= p < |chars'| ensures StyleAt(spans', p) == style {
      StyleAtAppend(spans, [Span(|chars'|, style)], p);
    }
    assert Cells(spans', chars', |chars|, |chars'|) == Styled(piece, style);
  }

  lemma SortedAppend(spans: seq<Span>, x: Span)
    requires Sorted(spans) && End(spans) <= x.end
    ensures Sorted(spans + [x]) && End(spans + [x]) == x.end
  {
  }

  // Closing a span over characters that are already there.
  lemma CellsExtended(spans: seq<Span>, chars: String, base: nat, mid: nat, end: nat, style: Style)
    requires Sorted(spans) && End(spans) == mid && base <= mid <= end <= |chars| && spans != []
    ensures Cells(spans + [Span(end, style)], chars, base, end)
            == Cells(spans, chars, base, mid) + Styled(chars[mid..end], style)
  {
    var spans' := spans + [Span(end, style)];
    SortedAppend(spans, Span(end, style));
    CellsKept(spans, spans', chars, chars, base, mid);
    CellsSplit(spans', chars, base, mid, end);
    CellsOfSpan(spans', chars, |spans|, mid, end);
  }

  // Within one span all cells have its style.
  lemma CellsOfSpan(spans: seq<Span>, chars: String, k: nat, lo: nat, hi: nat)
    requires Sorted(spans) && 0 < k < |spans| && spans[k - 1].end <= lo <= hi <= spans[k].end && hi <= |chars|
    ensures Cells(spans, chars, lo, hi) == Styled(chars[lo..hi], spans[k].style)
  {
    forall p | lo <= p < hi ensures StyleAt(spans, p) == spans[k].style {
      StyleAtSpan(spans, k, p);
    }
  }

  // ---- Copying between texts -------------------------------------------------------------------

  // The source adds the offset with wrap-around; every sum stays in range.
  function Shifted(spans: seq<Span>, offset: int): (r: seq<Span>)
    requires forall i :: 0 <= i < |spans| ==> spans[i].end + offset >= 0
    ensures |r| == |spans|
  {
    seq(|spans|, i requires 0 <= i < |spans| => Span(spans[i].end + offset, spans[i].style))
  }

  lemma {:induction false} StyleAtShifted(spans: seq<Span>, offset: int, p: nat)
    requires forall i :: 0 <= i < |spans| ==> spans[i].end + offset >= 0
    requires p + offset >= 0
    ensures StyleAt(Shifted(spans, offset), p + offset) == StyleAt(spans, p)
  {
    if spans != [] {
      assert Shifted(spans, offset)[1..] == Shifted(spans[1..], offset);
      StyleAtShifted(spans[1..], offset, p);
    }
  }

  // Styles of a run of spans, looked at alone.
  lemma StyleAtRun(spans: seq<Span>, lo: nat, hi: nat, p: nat)
    requires Sorted(spans) && lo <= hi < |spans| && spans[lo].end <= p < spans[hi].end
    ensures StyleAt(spans, p) == StyleAt(spans[lo + 1..hi + 1], p)
  {
    hide Sorted, StyleAt;
    var before, rest := spans[..lo + 1], spans[lo + 1..];
    SortedParts(spans, lo + 1);
    SortedParts(rest, hi - lo);
    assert spans == before + rest;
    StyleAtAppend(before, rest, p);
    var run := rest[..hi - lo];
    assert run == spans[lo + 1..hi + 1];
    assert rest == run + rest[hi - lo..];
    assert lo < hi && End(run) == spans[hi].end;
    StyleAtAppend(run, rest[hi - lo..], p);
  }

  lemma SortedParts(spans: seq<Span>, i: nat)
    requires Sorted(spans) && i <= |spans|
    ensures Sorted(spans[..i]) && Sorted(spans[i..])
  {
  }

  lemma RunSorted(from: seq<Span>, lo: nat, hi: nat, offset: int, at: nat)
    requires Sorted(from) && lo <= hi < |from| && offset == at - from[lo].end
    ensures var run := from[lo + 1..hi + 1]; Sorted(run) && forall i :: 0 <= i < |run| ==> run[i].end + offset >= at
  {
  }

  lemma ShiftedSorted(run: seq<Span>, offset: int, at: nat)
    requires Sorted(run) && forall i :: 0 <= i < |run| ==> run[i].end + offset >= at
    ensures var r := Shifted(run, offset); Sorted(r) && forall i :: 0 <= i < |r| ==> r[i].end >= at
  {
  }

  lemma JoinSorted(a: seq<Span>, b: seq<Span>, at: nat)
    requires Sorted(a) && Sorted(b) && End(a) == at && forall i :: 0 <= i < |b| ==> b[i].end >= at
    ensures Sorted(a + b)
  {
  }

  lemma ShiftedEnd(spans: seq<Span>, from: seq<Span>, lo: nat, hi: nat, offset: int)
    requires lo <= hi < |from| && End(spans) == from[lo].end + offset
    requires var run := from[lo + 1..hi + 1]; forall i :: 0 <= i < |run| ==> run[i].end + offset >= 0
    ensures End(spans + Shifted(from[lo + 1..hi + 1], offset)) == from[hi].end + offset
  {
  }

  // Spans appended at the end of the text, shifted to start there.
  lemma SortedJoin(spans: seq<Span>, from: seq<Span>, lo: nat, hi: nat, at: nat)
    requires Sorted(spans) && End(spans) == at && Sorted(from) && lo <= hi < |from|
    ensures
      var offset := at - from[lo].end;
      var run := from[lo + 1..hi + 1];
      && Sorted(run) && (forall i :: 0 <= i < |run| ==> run[i].end + offset >= at)
      && Sorted(spans + Shifted(run, offset)) && End(spans + Shifted(run, offset)) == at + from[hi].end - from[lo].end
  {
    hide Shifted, Sorted, End;
    var offset, run := at - from[lo].end, from[lo + 1..hi + 1];
    RunSorted(from, lo, hi, offset, at);
    ShiftedSorted(run, offset, at);
    JoinSorted(spans, Shifted(run, offset), at);
    ShiftedEnd(spans, from, lo, hi, offset);
  }

  lemma SameCells(spans: seq<Span>, chars: String, from: seq<Span>, fromChars: String, lo: nat, hi: nat, offset: int)
    requires lo <= hi <= |fromChars| && 0 <= lo + offset && hi + offset <= |chars|
    requires chars[lo + offset..hi + offset] == fromChars[lo..hi]
    requires forall q :: lo <= q < hi ==> StyleAt(spans, q + offset) == StyleAt(from, q)
    ensures Cells(spans, chars, lo + offset, hi + offset) == Cells(from, fromChars, lo, hi)
  {
    hide StyleAt;
    var x, y := chars[lo + offset..hi + offset], fromChars[lo..hi];
    forall p | lo + offset <= p < hi + offset
      ensures chars[p] == fromChars[p - offset] && StyleAt(spans, p) == StyleAt(from, p - offset)
    {
      var q := p - offset;
      assert x[q - lo] == y[q - lo];
      assert StyleAt(spans, q + offset) == StyleAt(from, q);
    }
  }

  // Appending shifted spans and their characters copies the cells.
  lemma CellsImported(spans: seq<Span>, chars: String, start: nat, from: seq<Span>, fromChars: String, lo: nat, hi: nat)
    requires Sorted(spans) && End(spans) == |chars| && start <= |chars|
    requires Sorted(from) && lo <= hi < |from| && from[hi].end <= |fromChars|
    ensures
      var offset := |chars| - from[lo].end;
      var piece := fromChars[from[lo].end..from[hi].end];
      && (forall i :: lo < i <= hi ==> from[i].end + offset >= |chars|)
      && Cells(spans + Shifted(from[lo + 1..hi + 1], offset), chars + piece, start, |chars + piece|)
         == Cells(spans, chars, start, |chars|) + Cells(from, fromChars, from[lo].end, from[hi].end)
      && Sorted(spans + Shifted(from[lo + 1..hi + 1], offset))
      && End(spans + Shifted(from[lo + 1..hi + 1], offset)) == |chars + piece|
  {
    var offset := |chars| - from[lo].end;
    var piece := fromChars[from[lo].end..from[hi].end];
    var run := from[lo + 1..hi + 1];
    var more := Shifted(run, offset);
    hide StyleAt, Cells;
    SortedJoin(spans, from, lo, hi, |chars|);
    CellsKept(spans, spans + more, chars, chars + piece, start, |chars|);
    CellsSplit(spans + more, chars + piece, start, |chars|, |chars + piece|);
    forall q | from[lo].end <= q < from[hi].end ensures StyleAt(spans + more, q + offset) == StyleAt(from, q) {
      StyleAtAppend(spans, more, q + offset);
      StyleAtShifted(run, offset, q);
      StyleAtRun(from, lo, hi, q);
    }
    SameCells(spans + more, chars + piece, from, fromChars, from[lo].end, from[hi].end, offset);
  }

  // Equal stretches have equal parts.
  lemma SubCells(spans: seq<Span>, chars: String, base: nat, from: seq<Span>, fromChars: String, start: nat, n: nat,
                 x: nat, y: nat)
    requires base + n <= |chars| && start + n <= |fromChars| && x <= y <= n
    requires Cells(spans, chars, base, base + n) == Cells(from, fromChars, start, start + n)
    ensures Cells(spans, chars, base + x, base + y) == Cells(from, fromChars, start + x, start + y)
  {
    CellsSlice(spans, chars, base, base + n, x, y);
    CellsSlice(from, fromChars, start, start + n, x, y);
  }

  // ---- Style adjustments -----------------------------------------------------------------------

  // A byte range counted from the start of the line, and what happens to the style there.
  datatype Adjustment = Adjustment(start: nat, end: nat, change: StyleAdjustment)

  predicate Covers(a: Adjustment, p: nat) { a.start <= p < a.end }

  ghost predicate SortedByStart(adjustments: seq<Adjustment>) {
    forall i, j :: 0 <= i < j < |adjustments| ==> adjustments[i].start <= adjustments[j].start
  }

  // Every adjustment covering p, applied in list order.
  function StyleWith(style: Style, adjustments: seq<Adjustment>, p: nat): Style {
    if adjustments == [] then style
    else
      var before := StyleWith(style, adjustments[..|adjustments| - 1], p);
      var a := adjustments[|adjustments| - 1];
      if Covers(a, p) then Apply(a.change, before) else before
  }

  // The first byte of the character that byte i belongs to.
  function CharFirst(s: String, i: nat): (first: nat)
    requires i < |s|
    ensures first <= i
  {
    if i == 0 || s[i].charStart then i else CharFirst(s, i - 1)
  }

  function Adjusted(cells: seq<Cell>, adjustments: seq<Adjustment>): (r: seq<Cell>)
    ensures |r| == |cells|
  {
    seq(|cells|, i requires 0 <= i < |cells| =>
      Cell(cells[i].byte, StyleWith(cells[i].style, adjustments, CharFirst(Bytes(cells), i))))
  }

  // Positions covered by the same adjustments get the same style.
  lemma {:induction false} SameCovers(style: Style, adjustments: seq<Adjustment>, p: nat, q: nat)
    requires forall i :: 0 <= i < |adjustments| ==> (Covers(adjustments[i], p) <==> Covers(adjustments[i], q))
    ensures StyleWith(style, adjustments, p) == StyleWith(style, adjustments, q)
  {
    if adjustments != [] {
      SameCovers(style, adjustments[..|adjustments| - 1], p, q);
    }
  }

  // Adjustments that do not reach p leave the style alone.
  lemma {:induction false} Uncovered(style: Style, adjustments: seq<Adjustment>, k: nat, p: nat)
    requires k <= |adjustments|
    requires forall i :: k <= i < |adjustments| ==> !Covers(adjustments[i], p)
    ensures StyleWith(style, adjustments, p) == StyleWith(style, adjustments[..k], p)
    decreases |adjustments|
  {
    if k < |adjustments| {
      var init := adjustments[..|adjustments| - 1];
      Uncovered(style, init, k, p);
      assert init[..k] == adjustments[..k];
    } else {
      assert adjustments[..k] == adjustments;
    }
  }

  lemma {:induction false} CharFirstFrom(s: String, start: nat, i: nat)
    requires start <= i < |s| && s[start].charStart
    ensures CharFirst(s, i) >= start
    decreases i
  {
    if i > start && !s[i].charStart {
      CharFirstFrom(s, start, i - 1);
    }
  }

  // Bytes after position `end` that start no character belong to one starting before `end`.
  lemma {:induction false} CharFirstBefore(s: String, end: nat, i: nat)
    requires 0 < end && i < |s|
    requires forall k :: end <= k <= i ==> !s[k].charStart
    ensures CharFirst(s, i) < end
    decreases i
  {
    if i >= end {
      CharFirstBefore(s, end, i - 1);
    }
  }

  // Between rstart and end the same adjustments apply.
  ghost predicate Uniform(adjustments: seq<Adjustment>, rstart: nat, end: nat) {
    forall i, p :: 0 <= i < |adjustments| && rstart <= p < end ==>
      (Covers(adjustments[i], p) <==> Covers(adjustments[i], rstart))
  }

  // A stretch of one source style, starting a character, on which the adjustments are uniform up to
  // `limit`, and whose bytes from `limit` on start no character, has one adjusted style.
  lemma SegmentStyled(cells: seq<Cell>, adjustments: seq<Adjustment>, rstart: nat, limit: nat, end: nat, style: Style)
    requires rstart < limit <= end <= |cells| && cells[rstart].byte.charStart
    requires Uniform(adjustments, rstart, limit)
    requires forall p :: limit <= p < end ==> !cells[p].byte.charStart
    requires forall p :: rstart <= p < end ==> cells[p].style == style
    ensures Adjusted(cells, adjustments)[rstart..end]
            == Styled(Bytes(cells)[rstart..end], StyleWith(style, adjustments, rstart))
  {
    var s := Bytes(cells);
    forall p | rstart <= p < end
      ensures StyleWith(style, adjustments, CharFirst(s, p)) == StyleWith(style, adjustments, rstart)
    {
      CharFirstFrom(s, rstart, p);
      CharFirstBefore(s, limit, p);
      SameCovers(style, adjustments, CharFirst(s, p), rstart);
    }
  }
}
