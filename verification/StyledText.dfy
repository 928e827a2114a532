// StyledText: an arena of styled lines with in-place append algorithms (src/common_ui.rs).
module StyledTexts {
  import opened StyledCells
  import opened StyledLayout

  ghost predicate SortedNats(s: seq<nat>) {
    forall i, j :: 0 <= i < j < |s| ==> s[i] <= s[j]
  }

  ghost predicate ValidText(lines: seq<nat>, spans: seq<Span>, chars: String) {
    && |lines| > 0 && |spans| > 0 && spans[0].end == 0
    && Sorted(spans) && End(spans) <= |chars|
    && SortedNats(lines) && lines[0] == 0 && lines[|lines| - 1] < |spans|
  }

  // The cells of a closed line.
  ghost function LineOf(lines: seq<nat>, spans: seq<Span>, chars: String, i: nat): seq<Cell>
    requires ValidText(lines, spans, chars) && i + 1 < |lines|
  {
    LineBound(lines, i + 1);
    SpanBound(spans, lines[i + 1]);
    Cells(spans, chars, spans[lines[i]].end, spans[lines[i + 1]].end)
  }

  // The lines from `start` on.
  ghost function LinesOf(lines: seq<nat>, spans: seq<Span>, chars: String, start: nat): (r: seq<seq<Cell>>)
    requires ValidText(lines, spans, chars) && start < |lines|
    ensures |r| == |lines| - 1 - start
  {
    seq(|lines| - 1 - start, k requires 0 <= k < |lines| - 1 - start => LineOf(lines, spans, chars, start + k))
  }

  class StyledText {
    // Line i contains spans [lines[i], lines[i+1]); span i contains chars [spans[i].end, spans[i+1].end)
    // with the style of spans[i+1].
    var lines: seq<nat>
    var spans: seq<Span>
    var chars: String

    ghost predicate Valid()
      reads this
    {
      ValidText(lines, spans, chars)
    }

    // Everything up to the staging line is closed, and no span is open in it.
    ghost predicate Ready()
      reads this
    {
      Valid() && End(spans) == |chars|
    }

    ghost predicate Closed()
      reads this
    {
      Ready() && lines[|lines| - 1] == |spans| - 1
    }

    constructor ()
      ensures Closed() && NumLines() == 0
    {
      lines := [0];
      spans := [Span(0, PLAIN)];
      chars := [];
    }

    function NumLines(): nat
      requires |lines| > 0
      reads this
    {
      |lines| - 1
    }

    function LineStart(i: nat): nat
      requires Valid() && i <= NumLines()
      reads this
    {
      LineBound(lines, i);
      spans[lines[i]].end
    }

    ghost function Line(i: nat): seq<Cell>
      requires Valid() && i < NumLines()
      reads this
    {
      LineOf(lines, spans, chars, i)
    }

    ghost function LinesFrom(start: nat): (r: seq<seq<Cell>>)
      requires Valid() && start <= NumLines()
      reads this
      ensures |r| == NumLines() - start
    {
      LinesOf(lines, spans, chars, start)
    }

    // The cells of the staging line.
    ghost function Staged(): seq<Cell>
      requires Valid()
      reads this
    {
      Cells(spans, chars, LineStart(NumLines()), |chars|)
    }

    // close_span
    method CloseSpan(style: Style)
      requires Valid()
      modifies this`spans
      ensures spans == if End(old(spans)) != |chars| then old(spans) + [Span(|chars|, style)] else old(spans)
    {
      if spans[|spans| - 1].end != |chars| {
        spans := spans + [Span(|chars|, style)];
      }
    }

    // styled_write!
    method Write(piece: String, style: Style)
      requires Ready()
      modifies this`spans, this`chars
      ensures Ready() && Grows(old(lines), old(spans), old(chars), lines, spans, chars)
      ensures Staged() == old(Staged()) + Styled(piece, style)
      ensures lines == old(lines) && forall i :: 0 <= i < NumLines() ==> Line(i) == old(Line(i))
      ensures forall start :: 0 <= start <= NumLines() ==> LinesFrom(start) == old(LinesFrom(start))
    {
      ghost var start := LineStart(NumLines());
      CellsAppended(spans, chars, start, piece, style);
      ghost var was := chars;
      chars := chars + piece;
      CloseSpan(style);
      if piece == [] {
        assert chars == was;
        assert Styled(piece, style) == [];
      }
      LinesKept(lines, old(spans), was, lines, spans, chars);
    }

    // close_line
    method CloseLine() returns (i: nat)
      requires Ready()
      modifies this`lines
      ensures Closed() && lines == old(lines) + [|spans| - 1]
      ensures i == old(NumLines()) && Line(i) == old(Staged()) && Staged() == []
      ensures forall k :: 0 <= k < i ==> Line(k) == old(Line(k))
      ensures forall start :: 0 <= start <= i ==> LinesFrom(start) == old(LinesFrom(start)) + [old(Staged())]
    {
      ghost var was := lines;
      lines := lines + [|spans| - 1];
      i := |lines| - 2;
      LinesKept(was, spans, chars, lines, spans, chars);
    }

    // ---- Importing from another text ---------------------------------------------------------

    // import_spans: adds the spans to the staging line.
    method ImportSpans(from: StyledText, lo: nat, hi: nat)
      requires Ready() && from != this && from.Valid() && lo <= hi < |from.spans|
      modifies this`spans, this`chars
      ensures Ready() && Grows(old(lines), old(spans), old(chars), lines, spans, chars)
      ensures |spans| == |old(spans)| + (hi - lo)
      ensures forall k :: |old(spans)| <= k < |spans| ==>
        spans[k].end == |old(chars)| + from.spans[k - |old(spans)| + 1 + lo].end - from.spans[lo].end
      ensures Staged() == old(Staged()) + Cells(from.spans, from.chars, from.spans[lo].end, from.spans[hi].end)
      ensures Cells(spans, chars, |old(chars)|, |chars|)
              == Cells(from.spans, from.chars, from.spans[lo].end, from.spans[hi].end)
    {
      hide Cells, Sorted;
      SpanBound(from.spans, hi);
      SpanBound(spans, lines[|lines| - 1]);
      CellsImported(spans, chars, LineStart(NumLines()), from.spans, from.chars, lo, hi);
      CellsImported(spans, chars, |chars|, from.spans, from.chars, lo, hi);
      NoCells(spans, chars, |chars|);
      AppendShifted(from.spans[lo + 1..hi + 1], |chars| - from.spans[lo].end);
      chars := chars + from.chars[from.spans[lo].end..from.spans[hi].end];
    }

    // The loop of import_spans.
    method AppendShifted(run: seq<Span>, offset: int)
      requires forall i :: 0 <= i < |run| ==> run[i].end + offset >= 0
      modifies this`spans
      ensures spans == old(spans) + Shifted(run, offset)
    {
      var start := |spans|;
      spans := spans + run;
      for i := start to |spans|
        invariant |spans| == start + |run| && start <= i
        invariant spans[..i] == (old(spans) + Shifted(run, offset))[..i]
        invariant spans[i..] == run[i - start..]
      {
        assert spans[i] == run[i - start..][0];
        spans := spans[i := Span(spans[i].end + offset, spans[i].style)];
      }
    }

    // import_lines: the copies have the same cells.
    method ImportLines(from: StyledText, lo: nat, hi: nat) returns (first: nat)
      requires Closed() && from != this && from.Valid() && lo <= hi <= from.NumLines()
      modifies this
      ensures Closed() && Grows(old(lines), old(spans), old(chars), lines, spans, chars)
      ensures first == old(NumLines()) && NumLines() == first + (hi - lo)
      ensures forall j :: first <= j < NumLines() ==> Line(j) == from.Line(lo + j - first)
    {
      LineBound(from.lines, lo);
      LineBound(from.lines, hi);
      ghost var wasLines, wasChars := lines, chars;
      var offset := |spans| - 1 - from.lines[lo];
      ImportSpans(from, from.lines[lo], from.lines[hi]);
      assert wasLines[|wasLines| - 1] == from.lines[lo] + offset;
      AppendShiftedLines(from.lines, lo, hi, offset);
      first := NumLines() - (hi - lo);
      forall j | first <= j < NumLines() ensures Line(j) == from.Line(lo + j - first) {
        ImportedLine(from, lo, hi, |wasChars|, first, j);
      }
    }

    // A copied line, given that all copied cells are right.
    lemma ImportedLine(from: StyledText, lo: nat, hi: nat, base: nat, first: nat, j: nat)
      requires Valid() && from.Valid() && lo <= hi <= from.NumLines()
      requires NumLines() == first + (hi - lo) && first <= j < NumLines() && base <= |chars|
      requires forall i :: first <= i <= NumLines() ==>
        LineStart(i) == base + from.LineStart(lo + i - first) - from.LineStart(lo)
      requires from.LineStart(lo) <= from.LineStart(hi) && |chars| == base + from.LineStart(hi) - from.LineStart(lo)
      requires Cells(spans, chars, base, |chars|)
               == Cells(from.spans, from.chars, from.LineStart(lo), from.LineStart(hi))
      ensures Line(j) == from.Line(lo + j - first)
    {
      hide Cells, Sorted;
      var i := lo + j - first;
      var s := from.LineStart(lo);
      assert LineStart(j) == base + from.LineStart(i) - s;
      assert LineStart(j + 1) == base + from.LineStart(i + 1) - s;
      from.StartsSorted(lo, i);
      from.StartsSorted(i, i + 1);
      from.StartsSorted(i + 1, hi);
      SubCells(spans, chars, base, from.spans, from.chars, s, from.LineStart(hi) - s,
               from.LineStart(i) - s, from.LineStart(i + 1) - s);
    }

    lemma StartsSorted(i: nat, j: nat)
      requires Valid() && i <= j <= NumLines()
      ensures LineStart(i) <= LineStart(j) <= |chars|
    {
    }

    // The loop of import_lines.
    method AppendShiftedLines(from: seq<nat>, lo: nat, hi: nat, offset: int)
      requires SortedNats(from) && lo <= hi < |from|
      requires |lines| > 0 && SortedNats(lines) && lines[|lines| - 1] == from[lo] + offset
      modifies this`lines
      ensures SortedNats(lines) && |lines| == |old(lines)| + (hi - lo) && old(lines) <= lines
      ensures forall k :: |old(lines)| - 1 <= k < |lines| ==> lines[k] == from[lo + 1 + k - |old(lines)|] + offset
    {
      var start := |lines|;
      ghost var was := lines;
      var run := from[lo + 1..hi + 1];
      forall i | 0 <= i < |run| ensures run[i] + offset >= 0 {
        assert from[lo] <= from[lo + 1 + i];
      }
      lines := lines + run;
      for i := start to |lines|
        invariant |lines| == start + |run| && start <= i
        invariant lines[..start] == was
        invariant forall k :: start <= k < i ==> lines[k] == run[k - start] + offset
        invariant forall k :: i <= k < |lines| ==> lines[k] == run[k - start]
      {
        lines := lines[i := lines[i] + offset];
      }
      LinesSorted(was, lines, from, start, lo, hi, offset);
    }

    // import_substring: the cells of the byte range, counted from the first of the spans, as far as the
    // spans go.
    method ImportSubstring(from: StyledText, lo: nat, hi: nat, rangeStart: nat, rangeEnd: nat)
      requires Ready() && from != this && from.Valid() && lo <= hi < |from.spans|
      modifies this`spans, this`chars
      ensures Ready() && Grows(old(lines), old(spans), old(chars), lines, spans, chars)
      ensures
        var start, stop := from.spans[lo].end, from.spans[hi].end;
        var a := Least(start + rangeStart, stop);
        var b := Most(a, Least(start + rangeEnd, stop));
        b <= |from.chars| && Staged() == old(Staged()) + Cells(from.spans, from.chars, a, b)
    {
      hide Cells, Sorted;
      SpanBound(from.spans, hi);
      var start := from.spans[lo].end;
      ghost var stop := from.spans[hi].end;
      ghost var a := Least(start + rangeStart, stop);
      ghost var b := Most(a, Least(start + rangeEnd, stop));
      SpansSorted(from.spans, lo, hi);
      NoCells(from.spans, from.chars, a);
      for k := lo to hi
        invariant Ready() && Grows(old(lines), old(spans), old(chars), lines, spans, chars)
        invariant from.spans[k].end <= stop
        invariant Staged() == old(Staged()) + Cells(from.spans, from.chars, a, Most(a, Least(from.spans[k].end, b)))
      {
        SpansSorted(from.spans, k, k + 1);
        SpansSorted(from.spans, k + 1, hi);
        var s := Most(from.spans[k].end, start + rangeStart);
        var e := Least(from.spans[k + 1].end, start + rangeEnd);
        if e <= s {
          continue;
        }
        CellsOfSpan(from.spans, from.chars, k + 1, s, e);
        CellsSplit(from.spans, from.chars, a, s, e);
        Write(from.chars[s..e], from.spans[k + 1].style);
      }
    }

    // import_line_with_adjustments: the text is copied, and every character gets its style with every
    // adjustment that covers its first byte, in list order.
    method ImportLineWithAdjustments(from: StyledText, line: nat, adjustments: seq<Adjustment>) returns (i: nat)
      requires Closed() && from != this && from.Valid() && line < from.NumLines()
      requires SortedByStart(adjustments) && from.CharAligned(line)
      modifies this
      ensures Closed() && Grows(old(lines), old(spans), old(chars), lines, spans, chars)
      ensures i == old(NumLines()) && NumLines() == i + 1
      ensures Line(i) == Adjusted(from.Line(line), adjustments)
    {
      ghost var cells := from.Line(line);
      ghost var wasSpans, wasChars := spans, chars;
      var base := |chars|;
      from.LineInside(line);
      chars := chars + from.chars[from.LineStart(line)..from.LineStart(line + 1)];
      AdjustingStarts(wasSpans, wasChars, base, cells, adjustments);
      AdjustSpans(from, line, adjustments, base, cells, wasSpans, wasChars);
      AdjustingEnds(wasSpans, wasChars, base, cells, adjustments);
      i := CloseLine();
    }

    lemma LineInside(line: nat)
      requires Valid() && line < NumLines()
      ensures line + 1 < |lines| && LineStart(line) <= LineStart(line + 1) <= |chars|
      ensures Bytes(Line(line)) == chars[LineStart(line)..LineStart(line + 1)]
      ensures lines[line] <= lines[line + 1] < |spans|
    {
    }

    // The loop over the spans of the line.
    method AdjustSpans(from: StyledText, line: nat, adjustments: seq<Adjustment>, base: nat, ghost cells: seq<Cell>,
                       ghost wasSpans: seq<Span>, ghost wasChars: String)
      requires from != this && from.Valid() && line < from.NumLines() && cells == from.Line(line)
      requires SortedByStart(adjustments) && from.CharAligned(line)
      requires Adjusting(wasSpans, wasChars, base, cells, adjustments, 0)
      modifies this`spans
      ensures Adjusting(wasSpans, wasChars, base, cells, adjustments, |cells|)
    {
      hide Cells, Adjusted, Bytes, Sorted, Adjusting, SpanCells;
      from.LineInside(line);
      var fromStart := from.LineStart(line);
      var first: nat := 0;
      for k := from.lines[line] to from.lines[line + 1]
        invariant fromStart <= from.spans[k].end
        invariant Adjusting(wasSpans, wasChars, base, cells, adjustments, from.spans[k].end - fromStart)
        invariant first <= |adjustments|
        invariant forall i :: 0 <= i < first ==> adjustments[i].end <= from.spans[k].end - fromStart
      {
        SpansSorted(from.spans, k, k + 1);
        SpansSorted(from.spans, k + 1, from.lines[line + 1]);
        from.SpanOfLine(line, k, fromStart);
        first := AdjustSpan(from.spans[k].end - fromStart, from.spans[k + 1].end - fromStart, from.spans[k + 1].style,
                            adjustments, first, base, cells, wasSpans, wasChars);
      }
    }

    lemma AdjustingStarts(wasSpans: seq<Span>, wasChars: String, base: nat, cells: seq<Cell>,
                          adjustments: seq<Adjustment>)
      requires Sorted(spans) && |spans| > 0 && wasSpans == spans && wasChars <= chars
      requires End(spans) == base == |wasChars| && chars[base..] == Bytes(cells) && |chars| == base + |cells|
      ensures Adjusting(wasSpans, wasChars, base, cells, adjustments, 0)
    {
    }

    lemma AdjustingEnds(wasSpans: seq<Span>, wasChars: String, base: nat, cells: seq<Cell>,
                        adjustments: seq<Adjustment>)
      requires Adjusting(wasSpans, wasChars, base, cells, adjustments, |cells|)
      requires |wasSpans| > 0 && wasSpans[0].end == 0
      requires |lines| > 0 && SortedNats(lines) && lines[0] == 0 && lines[|lines| - 1] == |wasSpans| - 1
      ensures Ready() && Staged() == Adjusted(cells, adjustments) && wasSpans <= spans && wasChars <= chars
    {
    }

    // All spans of the line end where characters do.
    ghost predicate CharAligned(line: nat)
      requires Valid() && line < NumLines()
      reads this
    {
      forall k :: lines[line] <= k <= lines[line + 1] < |spans| && spans[k].end < LineStart(line + 1) ==>
        spans[k].end < |chars| && chars[spans[k].end].charStart
    }

    // The cells of one span of a line.
    lemma SpanOfLine(line: nat, k: nat, fromStart: nat)
      requires Valid() && line < NumLines() && CharAligned(line) && fromStart == LineStart(line)
      requires lines[line] <= k < lines[line + 1] < |spans|
      requires fromStart <= spans[k].end <= spans[k + 1].end <= LineStart(line + 1)
      ensures
        var lo, hi := spans[k].end - fromStart, spans[k + 1].end - fromStart;
        hi <= |Line(line)| && SpanCells(Line(line), lo, hi, spans[k + 1].style)
    {
      hide Bytes, StyleAt, Adjusted;
      StartsSorted(line, line + 1);
      var cells := Line(line);
      forall q | spans[k].end - fromStart <= q < spans[k + 1].end - fromStart
        ensures cells[q].style == spans[k + 1].style
      {
        StyleAtSpan(spans, k + 1, fromStart + q);
      }
    }

    // The line being built: the first `upto` cells are adjusted, the rest of its text is not in a span yet.
    ghost predicate Adjusting(wasSpans: seq<Span>, wasChars: String, base: nat, cells: seq<Cell>,
                              adjustments: seq<Adjustment>, upto: nat)
      reads this
    {
      && Sorted(spans) && |spans| > 0 && upto <= |cells|
      && wasSpans <= spans && wasChars <= chars && |wasChars| == base && End(wasSpans) == base
      && |chars| == base + |cells| && chars[base..] == Bytes(cells)
      && End(spans) == base + upto
      && Cells(spans, chars, base, base + upto) == Adjusted(cells, adjustments)[..upto]
    }

    // The loop over one span. `first` skips leading adjustments that have ended.
    method AdjustSpan(lo: nat, hi: nat, style: Style, adjustments: seq<Adjustment>, first: nat, base: nat,
                      ghost cells: seq<Cell>, ghost wasSpans: seq<Span>, ghost wasChars: String) returns (i: nat)
      requires Adjusting(wasSpans, wasChars, base, cells, adjustments, lo)
      requires lo <= hi <= |cells| && SpanCells(cells, lo, hi, style)
      requires SortedByStart(adjustments) && first <= |adjustments|
      requires forall k :: 0 <= k < first ==> adjustments[k].end <= lo
      modifies this`spans
      ensures Adjusting(wasSpans, wasChars, base, cells, adjustments, hi)
      ensures i <= |adjustments| && forall k :: 0 <= k < i ==> adjustments[k].end <= hi
    {
      hide Cells, Adjusted, Sorted;
      i := first;
      var rstart := lo;
      while rstart < hi
        invariant lo <= rstart <= hi && SpanCells(cells, rstart, hi, style)
        invariant Adjusting(wasSpans, wasChars, base, cells, adjustments, rstart)
        invariant i <= |adjustments| && forall k :: 0 <= k < i ==> adjustments[k].end <= rstart
      {
        while i < |adjustments| && adjustments[i].end <= rstart
          invariant i <= |adjustments| && forall k :: 0 <= k < i ==> adjustments[k].end <= rstart
        {
          i := i + 1;
        }
        var segment, limit := SegmentStyle(adjustments, i, rstart, hi, style);
        var end := limit;
        while end < hi && !(base + end == |chars| || chars[base + end].charStart)
          invariant limit <= end <= hi
          invariant forall p :: limit <= p < end ==> !cells[p].byte.charStart
        {
          assert chars[base..][end] == cells[end].byte;
          end := end + 1;
        }
        assert end < hi ==> chars[base..][end] == cells[end].byte;
        AdjustStep(rstart, limit, end, hi, style, adjustments, base, cells, wasSpans, wasChars);
        spans := spans + [Span(base + end, segment)];
        rstart := end;
      }
    }

    // Closing a segment.
    lemma AdjustStep(rstart: nat, limit: nat, end: nat, hi: nat, style: Style, adjustments: seq<Adjustment>,
                     base: nat, cells: seq<Cell>, wasSpans: seq<Span>, wasChars: String)
      requires Adjusting(wasSpans, wasChars, base, cells, adjustments, rstart)
      requires rstart < limit <= end <= hi && SpanCells(cells, rstart, hi, style)
      requires Uniform(adjustments, rstart, limit)
      requires forall p :: limit <= p < end ==> !cells[p].byte.charStart
      requires end == hi || cells[end].byte.charStart
      ensures
        var spans' := spans + [Span(base + end, StyleWith(style, adjustments, rstart))];
        && Sorted(spans') && End(spans') == base + end && wasSpans <= spans'
        && Cells(spans', chars, base, base + end) == Adjusted(cells, adjustments)[..end]
      ensures SpanCells(cells, end, hi, style)
    {
      hide Adjusted, Uniform, Cells, Sorted, Styled, Bytes, StyleWith;
      var style' := StyleWith(style, adjustments, rstart);
      var adjusted := Adjusted(cells, adjustments);
      SegmentStyled(cells, adjustments, rstart, limit, end, style);
      SortedAppend(spans, Span(base + end, style'));
      CellsExtended(spans, chars, base, base + rstart, base + end, style');
      assert chars[base + rstart..base + end] == chars[base..][rstart..end];
      assert adjusted[..end] == adjusted[..rstart] + adjusted[rstart..end];
    }

    // The style of the segment starting at rstart, and where it must end.
    static method SegmentStyle(adjustments: seq<Adjustment>, i: nat, rstart: nat, hi: nat, spanStyle: Style)
      returns (style: Style, end: nat)
      requires i <= |adjustments| && rstart < hi && SortedByStart(adjustments)
      requires forall k :: 0 <= k < i ==> adjustments[k].end <= rstart
      ensures rstart < end <= hi && Uniform(adjustments, rstart, end)
      ensures style == StyleWith(spanStyle, adjustments, rstart)
    {
      style := spanStyle;
      end := hi;
      Uncovered(spanStyle, adjustments[..i], 0, rstart);
      assert adjustments[..i][..0] == [];
      for j := i to |adjustments|
        invariant rstart < end <= hi
        invariant style == StyleWith(spanStyle, adjustments[..j], rstart)
        invariant forall k :: 0 <= k < j ==> adjustments[k].start <= rstart || adjustments[k].end <= rstart
        invariant forall k :: 0 <= k < j && adjustments[k].end > rstart ==> end <= adjustments[k].end
      {
        var a := adjustments[j];
        if a.start > rstart {
          end := Least(end, a.start);
          Uncovered(spanStyle, adjustments, j, rstart);
          return;
        }
        assert adjustments[..j + 1][..j] == adjustments[..j];
        if a.end > rstart {
          end := Least(end, a.end);
          style := Apply(a.change, style);
        }
      }
      assert adjustments[..|adjustments|] == adjustments;
    }

    // ---- Splitting by newline ----------------------------------------------------------------

    // One span of a line, as text in its style.
    lemma LineSpan(line: nat, k: nat)
      requires Valid() && line < NumLines() && lines[line] <= k < lines[line + 1] < |spans|
      ensures LineStart(line) <= spans[k].end <= spans[k + 1].end <= LineStart(line + 1) <= |chars|
      ensures Line(line)[spans[k].end - LineStart(line)..spans[k + 1].end - LineStart(line)]
              == Styled(chars[spans[k].end..spans[k + 1].end], spans[k + 1].style)
    {
      StartsSorted(line, line + 1);
      SpansSorted(spans, lines[line], k);
      SpansSorted(spans, k, k + 1);
      SpansSorted(spans, k + 1, lines[line + 1]);
      hide Cells, Sorted;
      CellsSlice(spans, chars, LineStart(line), LineStart(line + 1), spans[k].end - LineStart(line),
          spans[k + 1].end - LineStart(line));
      CellsOfSpan(spans, chars, k + 1, spans[k].end, spans[k + 1].end);
    }

    ghost predicate Splitting(cells: seq<Cell>, first: nat, ranges: seq<Range>, lineStart: nat, upto: nat)
      reads this
    {
      Ready() && first <= NumLines() && SplitSoFar(cells, ranges, LinesFrom(first), lineStart, upto, Staged())
    }

    // split_by_newline_character
    method SplitByNewline(line: nat) returns (first: nat, ranges: seq<Range>)
      requires Closed() && line < NumLines()
      modifies this
      ensures Closed() && Grows(old(lines), old(spans), old(chars), lines, spans, chars)
      ensures first == old(NumLines()) <= NumLines() && forall i :: 0 <= i < first ==> Line(i) == old(Line(i))
      ensures SplitInto(old(Line(line)), ranges, LinesFrom(first))
    {
      hide Cells, Sorted, SplitSoFar;
      LineInside(line);
      first := NumLines();
      ranges := [];
      ghost var cells := Line(line);
      var start, end := LineStart(line), LineStart(line + 1);
      var lo, hi := lines[line], lines[line + 1];
      var lineStart := 0;
      NoCells(spans, chars, |chars|);
      SplitStarts(cells);
      for k := lo to hi
        invariant Grows(old(lines), old(spans), old(chars), lines, spans, chars)
        invariant start <= spans[k].end && Splitting(cells, first, ranges, lineStart, spans[k].end - start)
        invariant forall i :: 0 <= i < first ==> Line(i) == old(Line(i))
      {
        SpansSorted(spans, k, k + 1);
        lineStart, ranges := SplitSpan(line, cells, first, ranges, lineStart, start, k);
      }
      SplitEnd(cells, ranges, LinesFrom(first), lineStart, Staged());
      ghost var out, staged := LinesFrom(first), Staged();
      ranges := ranges + [Range(lineStart, end - start)];
      var i := CloseLine();
      assert LinesFrom(first) == out + [staged];
    }

    // The line up to the newline at n is done.
    method SplitAt(ghost cells: seq<Cell>, ghost first: nat, ghost ranges: seq<Range>, ghost lineStart: nat,
                   start: nat, i: nat, n: nat, style: Style)
      requires start <= i <= n < |chars| && chars[n].code == NEWLINE && forall p :: i <= p < n ==>
          chars[p].code != NEWLINE
      requires Splitting(cells, first, ranges, lineStart, i - start)
      requires n - start < |cells| && cells[i - start..n - start] == Styled(chars[i..n], style)
      requires cells[n - start] == Cell(chars[n], style)
      modifies this
      ensures Grows(old(lines), old(spans), old(chars), lines, spans, chars)
      ensures Splitting(cells, first, ranges + [Range(lineStart, n + 1 - start)], n + 1 - start, n + 1 - start)
      ensures forall i :: 0 <= i < first ==> Line(i) == old(Line(i))
    {
      hide Cells, Sorted, SplitSoFar, Styled, NoNewline, LinesOf;
      PlainText(chars, i, n, style);
      ghost var more := Styled(chars[i..n], style);
      ghost var newline := Cell(chars[n], style);
      ghost var out, staged := LinesFrom(first), Staged();
      SplitClose(cells, ranges, out, lineStart, i - start, staged, more, newline);
      Write(chars[i..n] + [SPACE], style);
      StyledSplit(old(chars)[i..n], style);
      assert staged + (more + [Cell(SPACE, style)]) == staged + more + [Blank(newline)];
      var closed := CloseLine();
    }

    // The loop body over one span.
    method SplitSpan(line: nat, ghost cells: seq<Cell>, first: nat, ranges: seq<Range>, lineStart: nat, start: nat,
                     k: nat)
      returns (lineStart': nat, ranges': seq<Range>)
      requires Valid() && line < first <= NumLines() && cells == Line(line) && start == LineStart(line)
      requires lines[line] <= k < lines[line + 1] < |spans| && start <= spans[k].end
      requires Splitting(cells, first, ranges, lineStart, spans[k].end - start)
      modifies this
      ensures Grows(old(lines), old(spans), old(chars), lines, spans, chars) && |spans| > k + 1
      ensures start <= spans[k + 1].end && Splitting(cells, first, ranges', lineStart', spans[k + 1].end - start)
      ensures forall i :: 0 <= i < first ==> Line(i) == old(Line(i))
    {
      hide Cells, Sorted, SplitSoFar, Styled;
      LineSpan(line, k);
      lineStart', ranges' := lineStart, ranges;
      var i := spans[k].end;
      var spanEnd, style := spans[k + 1].end, spans[k + 1].style;
      var n := FindNewline(chars, i, spanEnd);
      while n < spanEnd
        invariant i <= n <= spanEnd <= |chars| && n == FindNewline(chars, i, spanEnd)
        invariant Grows(old(lines), old(spans), old(chars), lines, spans, chars)
        invariant Splitting(cells, first, ranges', lineStart', i - start)
        invariant forall i :: 0 <= i < first ==> Line(i) == old(Line(i))
        decreases spanEnd - i
      {
        SpanPart(cells, old(chars), style, start, old(spans[k].end), spanEnd, i, n, chars);
        SplitAt(cells, first, ranges', lineStart', start, i, n, style);
        i := n + 1;
        ranges' := ranges' + [Range(lineStart', i - start)];
        lineStart' := i - start;
        n := FindNewline(chars, i, spanEnd);
      }
      SpanPart(cells, old(chars), style, start, old(spans[k].end), spanEnd, i, spanEnd, chars);
      StageRest(cells, first, ranges', lineStart', start, i, spanEnd, style);
    }

    // The rest of a span has no newline.
    method StageRest(ghost cells: seq<Cell>, ghost first: nat, ghost ranges: seq<Range>, ghost lineStart: nat,
                     start: nat, i: nat, n: nat, style: Style)
      requires start <= i <= n <= |chars| && forall p :: i <= p < n ==> chars[p].code != NEWLINE
      requires Splitting(cells, first, ranges, lineStart, i - start)
      requires n - start <= |cells| && cells[i - start..n - start] == Styled(chars[i..n], style)
      modifies this
      ensures Grows(old(lines), old(spans), old(chars), lines, spans, chars)
      ensures Splitting(cells, first, ranges, lineStart, n - start)
      ensures forall i :: 0 <= i < first ==> Line(i) == old(Line(i))
    {
      hide Cells, Sorted, SplitSoFar, Styled, NoNewline, LinesOf;
      PlainText(chars, i, n, style);
      SplitStage(cells, ranges, LinesFrom(first), lineStart, i - start, Staged(), Styled(chars[i..n], style));
      Write(chars[i..n], style);
    }

    // ---- Wrapping ----------------------------------------------------------------------------

    // Copies cells of this text, span by span, to the staging line.
    method CopyCells(ghost spans0: seq<Span>, ghost chars0: String, from: nat, end: nat, spanIdx: nat, spansEnd: nat)
      returns (spanIdx': nat)
      requires Ready() && spans0 <= spans && chars0 <= chars && Sorted(spans0) && End(spans0) <= |chars0|
      requires spanIdx <= spansEnd < |spans0| && spans0[spanIdx].end <= from <= end <= spans0[spansEnd].end
      modifies this`spans, this`chars
      ensures Ready() && Grows(old(lines), old(spans), old(chars), lines, spans, chars)
      ensures end <= |chars0| && Staged() == old(Staged()) + Cells(spans0, chars0, from, end)
      ensures forall start :: 0 <= start <= NumLines() ==> LinesFrom(start) == old(LinesFrom(start))
      ensures spanIdx' <= spansEnd && spans0[spanIdx'].end <= end
    {
      hide Cells, Sorted, Styled;
      SpanBound(spans0, spansEnd);
      NoCells(spans0, chars0, from);
      spanIdx' := spanIdx;
      var pos := from;
      while pos < end
        invariant from <= pos <= end && spanIdx' <= spansEnd && spans0[spanIdx'].end <= pos
        invariant Ready() && Grows(old(lines), old(spans), old(chars), lines, spans, chars)
        invariant Staged() == old(Staged()) + Cells(spans0, chars0, from, pos)
        invariant forall start :: 0 <= start <= NumLines() ==> LinesFrom(start) == old(LinesFrom(start))
        decreases end - pos, spansEnd - spanIdx'
      {
        var e, style := spans[spanIdx' + 1].end, spans[spanIdx' + 1].style;
        if e > pos {
          var next := Least(e, end);
          CellsOfSpan(spans0, chars0, spanIdx' + 1, pos, next);
          CellsSplit(spans0, chars0, from, pos, next);
          assert chars[pos..next] == chars0[pos..next];
          Write(chars[pos..next], style);
          pos := next;
        }
        if e <= end {
          spanIdx' := spanIdx' + 1;
        }
      }
    }

    // The text the wrapping reads, unchanged while lines are appended.
    ghost predicate Source(spans0: seq<Span>, chars0: String)
      requires Valid()
      reads this
    {
      spans0 <= spans && chars0 <= chars && Sorted(spans0) && End(spans0) <= |chars0|
    }

    // One iteration of the inner loop of line_wrap: one output line.
    method WrapPiece(ghost spans0: seq<Span>, ghost chars0: String, ghost src: seq<seq<Cell>>, line: nat,
                     lineStart: nat, lineEnd: nat, spansEnd: nat, pos: nat, spanIdx: nat, remaining: nat, width: nat,
                     lastLine: bool, more: bool, wrap: Indicator, truncation: Indicator)
      returns (p: Piece, spanIdx': nat, remaining': nat, cut: bool)
      requires Closed() && Source(spans0, chars0)
      requires spanIdx <= spansEnd < |spans0| && spans0[spanIdx].end <= pos &&
          lineStart <= pos < lineEnd == spans0[spansEnd].end
      requires lineEnd <= |chars0| && line < |src| && src[line] == Cells(spans0, chars0, lineStart, lineEnd)
      requires remaining == Width(chars0[pos..lineEnd]) && chars0[pos].clusterStart
      requires more <==> line + 1 < |src|
      modifies this
      ensures Closed() && Grows(old(lines), old(spans), old(chars), lines, spans, chars) &&
          NumLines() == old(NumLines()) + 1
      ensures p.line == line && p.lo == pos - lineStart && InSource(src, p) && p.hi > p.lo
      ensures PieceOk(src, MarksOf(wrap, truncation), width, p, Emitted(src, MarksOf(wrap, truncation), p, cut), cut)
      ensures forall start :: 0 <= start <= old(NumLines()) ==>
        LinesFrom(start) == old(LinesFrom(start)) + [Emitted(src, MarksOf(wrap, truncation), p, cut)]
      ensures cut <==> lastLine && (lineStart + p.hi < lineEnd || more)
      ensures spanIdx' <= spansEnd && spans0[spanIdx'].end <= lineStart + p.hi
      ensures lineStart + p.hi < lineEnd ==> chars0[lineStart + p.hi].clusterStart
      ensures remaining' == Width(chars0[lineStart + p.hi..lineEnd])
    {
      hide Cells, Sorted, Styled, Width, NextCluster, PieceOk, Emitted, LinesOf, ChosenWell, Minus;
      ghost var m := MarksOf(wrap, truncation);
      var endIndicator := if lastLine then truncation else wrap;
      var startX, n, w := StartPiece(spans0, chars0, pos, lineEnd, pos != lineStart, remaining, width, endIndicator,
                                     !(lastLine && more), wrap);
      remaining' := remaining - w;
      p := Piece(startX, line, pos - lineStart, pos + n - lineStart);
      cut := lastLine && (pos + n < lineEnd || more);
      spanIdx' := PutPiece(spans0, chars0, spansEnd, pos, n, spanIdx, pos + n < lineEnd ||
          (lastLine && more), endIndicator);
      EmittedIs(src, m, p, cut, spans0, chars0, lineStart, lineEnd, Line(NumLines() - 1));
      LineText(spans0, chars0, lineStart, lineEnd, p.lo);
      PieceIsOk(src, width, p, cut, wrap, truncation, lastLine, more, chars0[pos..lineEnd]);
    }

    // Writes the starting indicator if asked to, and decides how much text goes on the line.
    method StartPiece(ghost spans0: seq<Span>, ghost chars0: String, pos: nat, lineEnd: nat, continued: bool,
                      remaining: nat, width: nat, endIndicator: Indicator, mayEnd: bool, wrap: Indicator)
      returns (startX: nat, n: nat, w: nat)
      requires Closed() && Source(spans0, chars0) && pos < lineEnd <= |chars0|
      requires remaining == Width(chars0[pos..lineEnd]) && chars0[pos].clusterStart
      modifies this`spans, this`chars
      ensures Ready() && Grows(old(lines), old(spans), old(chars), lines, spans, chars) && lines == old(lines)
      ensures Staged() == if continued then Styled(wrap.start, wrap.style) else []
      ensures forall start :: 0 <= start <= NumLines() ==> LinesFrom(start) == old(LinesFrom(start))
      ensures startX == if continued then Width(wrap.start) else 0
      ensures 0 < n <= lineEnd - pos && w <= remaining && remaining - w == Width(chars0[pos + n..lineEnd])
      ensures pos + n < lineEnd ==> chars0[pos + n].clusterStart
      ensures ChosenWell(chars0[pos..lineEnd], Minus(width, startX), Width(endIndicator.end), mayEnd, n)
    {
      hide Cells, Sorted, Styled, Width, LinesOf, ChosenWell, Minus;
      NoCells(spans, chars, |chars|);
      startX := 0;
      if continued {
        Write(wrap.start, wrap.style);
        startX := Width(wrap.start);
      }
      PrefixSlice(chars0, chars, pos, lineEnd);
      n, w := ChooseEnd(chars[pos..lineEnd], remaining, Minus(width, startX), Width(endIndicator.end), mayEnd);
      ChosenPart(chars0, pos, lineEnd, n, w);
    }

    // Copies n bytes, adds an indicator if asked to, and closes the line.
    method PutPiece(ghost spans0: seq<Span>, ghost chars0: String, spansEnd: nat, pos: nat, n: nat, spanIdx: nat,
                    indicated: bool, indicator: Indicator) returns (spanIdx': nat)
      requires Ready() && Source(spans0, chars0)
      requires spanIdx <= spansEnd < |spans0| && spans0[spanIdx].end <= pos && pos + n <= spans0[spansEnd].end
      modifies this
      ensures Closed() && Grows(old(lines), old(spans), old(chars), lines, spans, chars) &&
          NumLines() == old(NumLines()) + 1
      ensures pos + n <= |chars0|
      ensures Line(NumLines() - 1) == old(Staged()) + Cells(spans0, chars0, pos, pos + n)
                                      + (if indicated then Styled(indicator.end, indicator.style) else [])
      ensures forall start :: 0 <= start <= old(NumLines()) ==>
        LinesFrom(start) == old(LinesFrom(start)) + [Line(NumLines() - 1)]
      ensures spanIdx' <= spansEnd && spans0[spanIdx'].end <= pos + n
    {
      hide Cells, Sorted, Styled, LinesOf;
      spanIdx' := CopyCells(spans0, chars0, pos, pos + n, spanIdx, spansEnd);
      if indicated {
        Write(indicator.end, indicator.style);
      }
      var i := CloseLine();
    }

    // One source line of line_wrap.
    method WrapLine(ghost spans0: seq<Span>, ghost chars0: String, ghost src: seq<seq<Cell>>, start: nat, line: nat,
                    lineStart: nat, lineEnd: nat, spansStart: nat, spansEnd: nat, width: nat, maxLines: nat,
                    more: bool, wrap: Indicator, truncation: Indicator, pieces: seq<Piece>)
      returns (pieces': seq<Piece>, cut: bool)
      requires Closed() && Source(spans0, chars0) && start <= NumLines()
      requires spansStart <= spansEnd < |spans0| &&
          spans0[spansStart].end == lineStart <= lineEnd == spans0[spansEnd].end
      requires lineEnd <= |chars0| && line < |src| && src[line] == Cells(spans0, chars0, lineStart, lineEnd)
      requires more <==> line + 1 < |src|
      requires lineStart < lineEnd ==> chars0[lineStart].clusterStart
      requires SoFar(src, MarksOf(wrap, truncation), width, maxLines, pieces, LinesFrom(start), line, 0)
      modifies this
      ensures Closed() && Grows(old(lines), old(spans), old(chars), lines, spans, chars) && start <= NumLines()
      ensures !cut ==> SoFar(src, MarksOf(wrap, truncation), width, maxLines, pieces', LinesFrom(start), line + 1, 0)
      ensures cut ==> Wrapped(src, MarksOf(wrap, truncation), width, maxLines, pieces', LinesFrom(start), true)
    {
      hide Cells, Sorted, Styled, LinesOf, SoFar, Wrapped, PieceOk, Emitted, Width;
      pieces', cut := pieces, false;
      if lineStart == lineEnd {
        pieces', cut := WrapEmptyLine(src, start, line, width, maxLines, more, wrap, truncation, pieces);
        return;
      }
      var pos: nat, spanIdx: nat := lineStart, spansStart;
      PrefixSlice(chars0, chars, pos, lineEnd);
      var remaining := Width(chars[pos..lineEnd]);
      while pos < lineEnd
        invariant lineStart <= pos <= lineEnd && spanIdx <= spansEnd && spans0[spanIdx].end <= pos
        invariant Closed() && Grows(old(lines), old(spans), old(chars), lines, spans, chars)
        invariant Source(spans0, chars0) && start <= NumLines()
        invariant remaining == Width(chars0[pos..lineEnd])
        invariant pos < lineEnd ==> chars0[pos].clusterStart
        invariant
          var atEnd := pos == lineEnd;
          SoFar(src, MarksOf(wrap, truncation), width, maxLines, pieces', LinesFrom(start),
                if atEnd then line + 1 else line, if atEnd then 0 else pos - lineStart)
      {
        ghost var before, out := pieces', LinesFrom(start);
        OutputCount(src, MarksOf(wrap, truncation), width, maxLines, pieces', out, line, pos - lineStart);
        var lastLine := NumLines() - start + 1 >= maxLines;
        var p;
        p, spanIdx, remaining, cut := WrapPiece(spans0, chars0, src, line, lineStart, lineEnd, spansEnd, pos, spanIdx,
                                                remaining, width, lastLine, more, wrap, truncation);
        pieces' := pieces' + [p];
        pos := lineStart + p.hi;
        NextPiece(src, MarksOf(wrap, truncation), width, maxLines, before, out, p, cut, lastLine, more);
        if cut {
          return;
        }
      }
    }

    // A source line without text.
    method WrapEmptyLine(ghost src: seq<seq<Cell>>, start: nat, line: nat, width: nat, maxLines: nat, more: bool,
                         wrap: Indicator, truncation: Indicator, pieces: seq<Piece>)
      returns (pieces': seq<Piece>, cut: bool)
      requires Closed() && start <= NumLines() && line < |src| && src[line] == [] && (more <==> line + 1 < |src|)
      requires SoFar(src, MarksOf(wrap, truncation), width, maxLines, pieces, LinesFrom(start), line, 0)
      modifies this
      ensures Closed() && Grows(old(lines), old(spans), old(chars), lines, spans, chars) && start <= NumLines()
      ensures !cut ==> SoFar(src, MarksOf(wrap, truncation), width, maxLines, pieces', LinesFrom(start), line + 1, 0)
      ensures cut ==> Wrapped(src, MarksOf(wrap, truncation), width, maxLines, pieces', LinesFrom(start), true)
    {
      hide Cells, Sorted, Styled, LinesOf, SoFar, Wrapped, PieceOk, Width;
      ghost var m := MarksOf(wrap, truncation);
      ghost var out := LinesFrom(start);
      OutputCount(src, m, width, maxLines, pieces, out, line, 0);
      var p := Piece(0, line, 0, 0);
      pieces' := pieces + [p];
      cut := NumLines() - start + 1 >= maxLines && more;
      var lastLine := NumLines() - start + 1 >= maxLines;
      EmptyPieceOk(src, m, width, p, cut);
      if cut {
        Write(truncation.end, truncation.style);
      }
      var i := CloseLine();
      NextPiece(src, m, width, maxLines, pieces, out, p, cut, lastLine, more);
    }

    // line_wrap: wraps the given lines; `pieces` are the reported positions.
    method LineWrap(lo: nat, hi: nat, width: nat, maxLines: nat, wrap: Indicator, truncation: Indicator)
      returns (first: nat, pieces: seq<Piece>, ghost cut: bool)
      requires Closed() && lo <= hi <= NumLines()
      requires forall k :: 0 <= k < hi - lo ==> WellSegmented(LinesFrom(lo)[k])
      modifies this
      ensures Closed() && Grows(old(lines), old(spans), old(chars), lines, spans, chars)
      ensures first == old(NumLines()) <= NumLines()
      ensures Wrapped(old(LinesFrom(lo)[..hi - lo]), MarksOf(wrap, truncation), width, maxLines, pieces,
          LinesFrom(first), cut)
    {
      hide Cells, Sorted, Styled, LinesOf, SoFar, Wrapped;
      first := NumLines();
      pieces := [];
      cut := false;
      ghost var src, spans0, chars0 := LinesFrom(lo)[..hi - lo], spans, chars;
      NothingWrapped(src, MarksOf(wrap, truncation), width, maxLines);
      assert LinesFrom(first) == [];
      for i := lo to hi
        invariant Closed() && Grows(old(lines), old(spans), old(chars), lines, spans, chars) && first <= NumLines()
        invariant SoFar(src, MarksOf(wrap, truncation), width, maxLines, pieces, LinesFrom(first), i - lo, 0)
      {
        SourceLine(old(lines), spans0, chars0, lines, spans, lo, hi, i);
        var stop;
        pieces, stop := WrapLine(spans0, chars0, src, first, i - lo, LineStart(i), LineStart(i + 1), lines[i],
            lines[i + 1],
                                 width, maxLines, i + 1 < hi, wrap, truncation, pieces);
        if stop {
          cut := true;
          return;
        }
      }
      EmitEnd(src, MarksOf(wrap, truncation), width, maxLines, pieces, LinesFrom(first));
    }
  }

  // A start-of-line and an end-of-line indicator, and their style.
  datatype Indicator = Indicator(start: String, end: String, style: Style)

  function MarksOf(wrap: Indicator, truncation: Indicator): Marks {
    Marks(Styled(wrap.start, wrap.style), Styled(wrap.end, wrap.style), Styled(truncation.end, truncation.style))
  }

  // str_prefix_with_width: the longest prefix of whole clusters within the width, and the next cluster.
  method StrPrefixWithWidth(s: String, width: nat) returns (n: nat, w: nat, next: nat, nextWidth: nat)
    requires Boundary(s, 0)
    ensures n <= |s| && Boundary(s, n) && w == Width(s[..n]) <= width
    ensures n == |s| ==> next == 0 && nextWidth == 0
    ensures n < |s| ==> next == NextCluster(s, n) - n && nextWidth == Width(s[n..n + next]) && w + nextWidth > width
    ensures forall i :: n < i <= |s| && Boundary(s, i) ==> Width(s[..i]) > width
  {
    n, w := 0, 0;
    while n < |s|
      invariant n <= |s| && w == Width(s[..n]) <= width
      invariant Boundary(s, n)
      decreases |s| - n
    {
      var end := NextCluster(s, n);
      WidthSplit(s, n, end);
      if w + Width(s[n..end]) > width {
        forall i | n < i <= |s| && Boundary(s, i) ensures Width(s[..i]) > width {
          WidthSplit(s, end, i);
        }
        return n, w, end - n, Width(s[n..end]);
      }
      n, w := end, w + Width(s[n..end]);
    }
    next, nextWidth := 0, 0;
  }

  // Where an output line ends: everything left if it fits, else as many clusters as fit before the
  // indicator, but at least one.
  method ChooseEnd(text: String, remaining: nat, width: nat, endWidth: nat, mayEnd: bool) returns (n: nat, w: nat)
    requires text != [] && text[0].clusterStart && remaining == Width(text)
    ensures 0 < n <= |text| && Boundary(text, n) && w == Width(text[..n]) <= remaining
    ensures ChosenWell(text, width, endWidth, mayEnd, n)
  {
    assert text[..|text|] == text;
    if remaining <= width && mayEnd {
      return |text|, remaining;
    }
    var next, nextWidth;
    n, w, next, nextWidth := StrPrefixWithWidth(text, Minus(width, endWidth));
    if n == 0 {
      n, w := next, nextWidth;
    }
    WidthSplit(text, 0, n);
    assert text[0..n] == text[..n] && text[0..] == text;
  }

  lemma LineText(spans: seq<Span>, chars: String, lo: nat, hi: nat, i: nat)
    requires lo <= hi <= |chars| && i <= hi - lo
    ensures Bytes(Cells(spans, chars, lo, hi)[i..]) == chars[lo + i..hi]
  {
  }

  lemma PrefixSlice(a: String, b: String, i: nat, j: nat)
    requires a <= b && i <= j <= |a|
    ensures b[i..j] == a[i..j]
  {
  }

  // What is left after the chosen part.
  lemma ChosenPart(chars: String, pos: nat, lineEnd: nat, n: nat, w: nat)
    requires pos < lineEnd <= |chars| && n <= lineEnd - pos && Boundary(chars[pos..lineEnd], n)
    requires w == Width(chars[pos..lineEnd][..n])
    ensures Width(chars[pos..lineEnd]) - w == Width(chars[pos + n..lineEnd])
    ensures chars[pos..lineEnd][..n] == chars[pos..pos + n]
    ensures pos + n < lineEnd ==> chars[pos + n].clusterStart
  {
    var text := chars[pos..lineEnd];
    WidthConcat(text[..n], text[n..]);
    assert text == text[..n] + text[n..];
    assert text[n..] == chars[pos + n..lineEnd];
  }

  // The staged cells are the output line.
  lemma EmittedIs(src: seq<seq<Cell>>, m: Marks, p: Piece, cut: bool, spans0: seq<Span>, chars0: String,
                  lineStart: nat, lineEnd: nat, staged: seq<Cell>)
    requires lineStart <= lineEnd <= |chars0| && p.line < |src| &&
        src[p.line] == Cells(spans0, chars0, lineStart, lineEnd)
    requires p.lo < p.hi <= lineEnd - lineStart
    requires staged == (if p.lo > 0 then m.head else []) + Cells(spans0, chars0, lineStart + p.lo, lineStart + p.hi)
                       + (if cut then m.cut else if lineStart + p.hi < lineEnd then m.tail else [])
    ensures InSource(src, p) && staged == Emitted(src, m, p, cut)
  {
  }

  lemma MarkWidths(wrap: Indicator, truncation: Indicator)
    ensures
      var m := MarksOf(wrap, truncation);
      CellsWidth(m.head) == Width(wrap.start) && CellsWidth(m.tail) == Width(wrap.end) &&
          CellsWidth(m.cut) == Width(truncation.end)
  {
    hide Styled, Bytes, Width;
    BytesOfStyled(wrap.start, wrap.style);
    BytesOfStyled(wrap.end, wrap.style);
    BytesOfStyled(truncation.end, truncation.style);
  }

  // What has been chosen with the indicator in mind that might follow is right for the one that does.
  lemma PieceIsOk(src: seq<seq<Cell>>, width: nat, p: Piece, cut: bool, wrap: Indicator, truncation: Indicator,
                  lastLine: bool, more: bool, text: String)
    requires InSource(src, p) && p.lo < p.hi && text == Bytes(src[p.line][p.lo..])
    requires p.startX == (if p.lo > 0 then Width(wrap.start) else 0)
    requires ChosenWell(text, Minus(width, p.startX), Width((if lastLine then truncation else wrap).end),
                        !(lastLine && more), p.hi - p.lo)
    requires cut <==> lastLine && (p.hi < |src[p.line]| || more)
    requires more <==> p.line + 1 < |src|
    ensures var m := MarksOf(wrap, truncation); PieceOk(src, m, width, p, Emitted(src, m, p, cut), cut)
  {
    hide Bytes, Width, Emitted, CellsWidth;
    MarkWidths(wrap, truncation);
    assert text[..|text|] == text;
  }

  lemma OutputCount(src: seq<seq<Cell>>, m: Marks, width: nat, maxLines: nat, pieces: seq<Piece>, out: seq<seq<Cell>>,
                    line: nat, pos: nat)
    requires SoFar(src, m, width, maxLines, pieces, out, line, pos)
    ensures |out| == |pieces|
  {
  }

  // The bookkeeping after one output line.
  lemma NextPiece(src: seq<seq<Cell>>, m: Marks, width: nat, maxLines: nat, pieces: seq<Piece>, out: seq<seq<Cell>>,
                  p: Piece, cut: bool, lastLine: bool, more: bool)
    requires SoFar(src, m, width, maxLines, pieces, out, p.line, p.lo) && InSource(src, p)
    requires PieceOk(src, m, width, p, Emitted(src, m, p, cut), cut)
    requires lastLine <==> |pieces| + 1 >= maxLines
    requires more <==> p.line + 1 < |src|
    requires cut <==> lastLine && (p.hi < |src[p.line]| || more)
    ensures cut ==> Wrapped(src, m, width, maxLines, pieces + [p], out + [Emitted(src, m, p, cut)], true)
    ensures
      var atEnd := p.hi == |src[p.line]|;
      !cut ==> SoFar(src, m, width, maxLines, pieces + [p], out + [Emitted(src, m, p, cut)],
                     if atEnd then p.line + 1 else p.line, if atEnd then 0 else p.hi)
  {
    hide SoFar, Wrapped, PieceOk, Emitted;
    var o := Emitted(src, m, p, cut);
    if cut {
      EmitCut(src, m, width, maxLines, pieces, out, p, o);
    } else {
      var atEnd := p.hi == |src[p.line]|;
      EmitOne(src, m, width, maxLines, pieces, out, p, o, if atEnd then p.line + 1 else p.line, if atEnd then 0
          else p.hi);
    }
  }

  lemma EmptyPieceOk(src: seq<seq<Cell>>, m: Marks, width: nat, p: Piece, cut: bool)
    requires p.line < |src| && src[p.line] == [] && p.lo == p.hi == p.startX == 0
    ensures Emitted(src, m, p, cut) == if cut then m.cut else []
    ensures InSource(src, p) && PieceOk(src, m, width, p, Emitted(src, m, p, cut), cut)
  {
  }

  lemma NothingWrapped(src: seq<seq<Cell>>, m: Marks, width: nat, maxLines: nat)
    ensures SoFar(src, m, width, maxLines, [], [], 0, 0)
  {
  }

  // A source line, by the positions it had and still has.
  lemma SourceLine(lines0: seq<nat>, spans0: seq<Span>, chars0: String, lines: seq<nat>, spans: seq<Span>, lo: nat,
                   hi: nat, i: nat)
    requires ValidText(lines0, spans0, chars0) && lines0 <= lines && spans0 <= spans && lo <= i < hi < |lines0|
    requires SortedNats(lines) && Sorted(spans)
    ensures lines[i] <= lines[i + 1] < |spans0| && spans0[lines[i]].end <= spans0[lines[i + 1]].end <= |chars0|
    ensures spans[lines[i]] == spans0[lines[i]] && spans[lines[i + 1]] == spans0[lines[i + 1]]
    ensures LinesOf(lines0, spans0, chars0, lo)[..hi - lo][i - lo]
            == Cells(spans0, chars0, spans0[lines[i]].end, spans0[lines[i + 1]].end)
    ensures WellSegmented(LinesOf(lines0, spans0, chars0, lo)[..hi - lo][i - lo])
            && spans0[lines[i]].end < spans0[lines[i + 1]].end ==>
              chars0[spans0[lines[i]].end].clusterStart
  {
    LineBound(lines0, i + 1);
    SpanBound(spans0, lines0[i + 1]);
    var all := LinesOf(lines0, spans0, chars0, lo);
    assert all[..hi - lo][i - lo] == all[i - lo] == LineOf(lines0, spans0, chars0, lo + (i - lo));
    assert lines0[i] == lines[i] && lines0[i + 1] == lines[i + 1];
  }

  // Segmentation of a line starts at its first byte.
  predicate WellSegmented(cells: seq<Cell>) {
    cells != [] ==> cells[0].byte.clusterStart
  }

  lemma PlainText(chars: String, i: nat, n: nat, style: Style)
    requires i <= n <= |chars| && forall p :: i <= p < n ==> chars[p].code != NEWLINE
    ensures NoNewline(Styled(chars[i..n], style), 0, |Styled(chars[i..n], style)|)
  {
  }

  lemma StyledSplit(piece: String, style: Style)
    ensures Styled(piece + [SPACE], style) == Styled(piece, style) + [Cell(SPACE, style)]
  {
  }

  // The first newline in [i, end), or end.
  function FindNewline(chars: String, i: nat, end: nat): (n: nat)
    requires i <= end <= |chars|
    ensures i <= n <= end && (forall p :: i <= p < n ==> chars[p].code != NEWLINE)
    ensures n < end ==> chars[n].code == NEWLINE
    decreases end - i
  {
    if i == end || chars[i].code == NEWLINE then i else FindNewline(chars, i + 1, end)
  }

  // Part of a span's text, found again in the line.
  lemma SpanPart(cells: seq<Cell>, was: String, style: Style, start: nat, spanStart: nat, spanEnd: nat, i: nat,
                 n: nat, chars: String)
    requires start <= spanStart <= i <= n <= spanEnd <= |was| && was <= chars && spanEnd - start <= |cells|
    requires cells[spanStart - start..spanEnd - start] == Styled(was[spanStart..spanEnd], style)
    ensures cells[i - start..n - start] == Styled(chars[i..n], style)
    ensures n < spanEnd ==> cells[n - start] == Cell(chars[n], style)
  {
    forall p | spanStart <= p < spanEnd ensures cells[p - start] == Cell(chars[p], style) {
      assert cells[p - start] == cells[spanStart - start..spanEnd - start][p - spanStart];
      assert was[spanStart..spanEnd][p - spanStart] == was[p] == chars[p];
    }
  }

  // A stretch of a line within one span.
  ghost predicate SpanCells(cells: seq<Cell>, lo: nat, hi: nat, style: Style) {
    && hi <= |cells|
    && (lo < hi ==> cells[lo].byte.charStart)
    && (forall p :: lo <= p < hi ==> cells[p].style == style)
    && (hi < |cells| ==> cells[hi].byte.charStart)
  }

  lemma SpansSorted(spans: seq<Span>, i: nat, j: nat)
    requires Sorted(spans) && i <= j < |spans|
    ensures spans[i].end <= spans[j].end
  {
  }

  lemma NoCells(spans: seq<Span>, chars: String, p: nat)
    requires p <= |chars|
    ensures Cells(spans, chars, p, p) == []
  {
  }

  lemma SpanBound(spans: seq<Span>, i: nat)
    requires Sorted(spans) && i < |spans|
    ensures spans[i].end <= End(spans)
  {
  }

  lemma LinesSorted(was: seq<nat>, lines: seq<nat>, from: seq<nat>, start: nat, lo: nat, hi: nat, offset: int)
    requires SortedNats(was) && SortedNats(from) && lo <= hi < |from| && start == |was| > 0
    requires |lines| == start + (hi - lo) && lines[..start] == was
    requires was[start - 1] == from[lo] + offset
    requires forall k :: start <= k < |lines| ==> lines[k] == from[lo + 1 + k - start] + offset
    ensures SortedNats(lines)
  {
  }

  // Growth leaves the closed lines alone.
  lemma LinesKept(lines: seq<nat>, spans: seq<Span>, chars: String, lines': seq<nat>, spans': seq<Span>, chars': String)
    requires ValidText(lines, spans, chars) && ValidText(lines', spans', chars')
    requires Grows(lines, spans, chars, lines', spans', chars')
    ensures forall i :: 0 <= i < |lines| - 1 ==> LineOf(lines', spans', chars', i) == LineOf(lines, spans, chars, i)
    ensures forall start :: 0 <= start < |lines| ==>
      LinesOf(lines', spans', chars', start)[..|lines| - 1 - start] == LinesOf(lines, spans, chars, start)
  {
    forall i | 0 <= i < |lines| - 1 ensures LineOf(lines', spans', chars', i) == LineOf(lines, spans, chars, i) {
      LineBound(lines, i + 1);
      SpanBound(spans, lines[i + 1]);
      CellsKept(spans, spans', chars, chars', spans[lines[i]].end, spans[lines[i + 1]].end);
    }
  }

  ghost predicate Grows(lines: seq<nat>, spans: seq<Span>, chars: String, lines': seq<nat>, spans': seq<Span>,
                        chars': String) {
    lines <= lines' && spans <= spans' && chars <= chars'
  }

  lemma LineBound(lines: seq<nat>, i: nat)
    requires SortedNats(lines) && i < |lines|
    ensures lines[i] <= lines[|lines| - 1]
  {
  }
}
