// Address ranges of a source-line step: the event sweep in Debugger::step and the in-place merge in
// clean_up_ranges, two algorithms for one canonical form (src/debugger.rs, src/disassembly.rs).
module StepRanges {
  datatype Range = Range(start: nat, end: nat)

  // ---- Meaning of a list of ranges -------------------------------------------------------------

  ghost predicate Ordered(ranges: seq<Range>) {
    forall i :: 0 <= i < |ranges| ==> ranges[i].start <= ranges[i].end
  }

  // Points are half-addresses: 2*a is the address a, 2*a+1 lies strictly between a and a+1. A range
  // covers its end point too, so ranges that merely touch cover a common point and belong together,
  // and an empty range still covers one point.
  predicate CoversPoint(r: Range, x: int) {
    2 * r.start <= x <= 2 * r.end
  }

  ghost predicate Covered(ranges: seq<Range>, x: int) {
    exists i :: 0 <= i < |ranges| && CoversPoint(ranges[i], x)
  }

  ghost predicate SameCover(a: seq<Range>, b: seq<Range>) {
    forall x: int :: Covered(a, x) <==> Covered(b, x)
  }

  ghost predicate Contains(ranges: seq<Range>, addr: nat) {
    exists i :: 0 <= i < |ranges| && ranges[i].start <= addr < ranges[i].end
  }

  // The assertion step() makes about its own result: a gap of at least one address between neighbours.
  ghost predicate Separated(ranges: seq<Range>) {
    forall i, j :: 0 <= i < j < |ranges| ==> ranges[i].end < ranges[j].start
  }

  ghost predicate Canonical(ranges: seq<Range>) {
    Ordered(ranges) && Separated(ranges)
  }

  lemma CoveredAppend(a: seq<Range>, r: Range, x: int)
    ensures Covered(a + [r], x) <==> Covered(a, x) || CoversPoint(r, x)
  {
    var b := a + [r];
    if Covered(a, x) {
      var i :| 0 <= i < |a| && CoversPoint(a[i], x);
      assert b[i] == a[i];
    }
    assert b[|a|] == r;
    if Covered(b, x) && !CoversPoint(r, x) {
      var i :| 0 <= i < |b| && CoversPoint(b[i], x);
      assert a[i] == b[i];
    }
  }

  lemma CoveredSplit(a: seq<Range>, x: int)
    requires a != []
    ensures Covered(a, x) <==> CoversPoint(a[0], x) || Covered(a[1..], x)
  {
  }

  // An address is inside some range exactly when the half-address after it is covered.
  lemma ContainsIsCovered(ranges: seq<Range>, addr: nat)
    ensures Contains(ranges, addr) <==> Covered(ranges, 2 * addr + 1)
  {
  }

  // There is only one canonical list for a set of points.
  lemma {:induction false} CanonicalUnique(a: seq<Range>, b: seq<Range>)
    requires Canonical(a) && Canonical(b) && SameCover(a, b)
    ensures a == b
  {
    if a == [] {
      if b != [] { HeadCovered(b); }
    } else if b == [] {
      HeadCovered(a);
    } else {
      HeadStart(a, b);
      HeadStart(b, a);
      HeadEnd(a, b);
      HeadEnd(b, a);
      forall x: int ensures Covered(a[1..], x) <==> Covered(b[1..], x) {
        TailCover(a, x);
        TailCover(b, x);
      }
      CanonicalUnique(a[1..], b[1..]);
      assert a == [a[0]] + a[1..] && b == [b[0]] + b[1..];
    }
  }

  lemma HeadCovered(a: seq<Range>)
    requires Canonical(a) && a != []
    ensures Covered(a, 2 * a[0].start)
  {
  }

  lemma HeadStart(a: seq<Range>, b: seq<Range>)
    requires Canonical(a) && Canonical(b) && SameCover(a, b) && a != [] && b != []
    ensures b[0].start <= a[0].start
  {
    HeadCovered(a);
    var i :| 0 <= i < |b| && CoversPoint(b[i], 2 * a[0].start);
    assert i > 0 ==> b[0].end < b[i].start;
  }

  lemma HeadEnd(a: seq<Range>, b: seq<Range>)
    requires Canonical(a) && Canonical(b) && SameCover(a, b) && a != [] && b != []
    requires a[0].start == b[0].start
    ensures b[0].end <= a[0].end
  {
    GapAfterHead(a);
    if a[0].end < b[0].end {
      assert CoversPoint(b[0], 2 * a[0].end + 1);
    }
  }

  lemma GapAfterHead(a: seq<Range>)
    requires Canonical(a) && a != []
    ensures !Covered(a, 2 * a[0].end + 1)
  {
  }

  lemma TailCover(a: seq<Range>, x: int)
    requires Canonical(a) && a != []
    ensures Covered(a[1..], x) <==> Covered(a, x) && x > 2 * a[0].end
  {
  }

  // ---- Sorting (sort_unstable of the standard library) -----------------------------------------

  ghost predicate SortedBy<T(!new)>(s: seq<T>, key: T -> int) {
    forall i, j :: 0 <= i <= j < |s| ==> key(s[i]) <= key(s[j])
  }

  function Insert<T>(s: seq<T>, x: T, key: T -> int): seq<T> {
    if s == [] || key(x) <= key(s[0]) then [x] + s else [s[0]] + Insert(s[1..], x, key)
  }

  function Sorted<T>(s: seq<T>, key: T -> int): seq<T> {
    if s == [] then [] else Insert(Sorted(s[1..], key), s[0], key)
  }

  lemma {:induction false} InsertKeeps<T>(s: seq<T>, x: T, key: T -> int)
    ensures multiset(Insert(s, x, key)) == multiset(s) + multiset{x}
  {
    if s != [] && key(x) > key(s[0]) {
      InsertKeeps(s[1..], x, key);
      assert s == [s[0]] + s[1..];
    }
  }

  lemma {:induction false} InsertSorts<T(!new)>(s: seq<T>, x: T, key: T -> int)
    requires SortedBy(s, key)
    ensures SortedBy(Insert(s, x, key), key)
  {
    if s != [] && key(x) > key(s[0]) {
      var rest := Insert(s[1..], x, key);
      InsertSorts(s[1..], x, key);
      InsertKeeps(s[1..], x, key);
      forall j | 0 <= j < |rest| ensures key(s[0]) <= key(rest[j]) {
        assert rest[j] in multiset(rest);
        assert rest[j] in s[1..] || rest[j] == x;
      }
    }
  }

  lemma {:induction false} SortedSorts<T(!new)>(s: seq<T>, key: T -> int)
    ensures SortedBy(Sorted(s, key), key)
    ensures multiset(Sorted(s, key)) == multiset(s)
  {
    if s != [] {
      SortedSorts(s[1..], key);
      InsertKeeps(Sorted(s[1..], key), s[0], key);
      InsertSorts(Sorted(s[1..], key), s[0], key);
      assert s == [s[0]] + s[1..];
    }
  }

  // The order of elements with equal keys is not promised.
  method SortUnstable<T(!new)>(s: seq<T>, key: T -> int) returns (r: seq<T>)
    ensures SortedBy(r, key)
    ensures multiset(r) == multiset(s)
  {
    SortedSorts(s, key);
    r := Sorted(s, key);
  }

  // ---- The event sweep -------------------------------------------------------------------------

  // sign -1 opens a range, 1 closes one.
  datatype Event = Event(addr: nat, sign: int)

  predicate ValidEvent(e: Event) { e.sign == -1 || e.sign == 1 }

  // Position of an event in the order of (address, sign) pairs: -1 before 1 at equal addresses.
  function Key(e: Event): int {
    2 * e.addr + (if e.sign < 0 then 0 else 1)
  }

  // Ranges opened minus ranges closed by the events with keys up to x.
  function Balance(events: seq<Event>, x: int): int {
    if events == [] then 0
    else (if Key(events[0]) <= x then -events[0].sign else 0) + Balance(events[1..], x)
  }

  function Events(ranges: seq<Range>): seq<Event> {
    if ranges == [] then []
    else [Event(ranges[0].start, -1), Event(ranges[0].end, 1)] + Events(ranges[1..])
  }

  lemma {:induction false} BalanceConcat(a: seq<Event>, b: seq<Event>, x: int)
    ensures Balance(a + b, x) == Balance(a, x) + Balance(b, x)
  {
    if a == [] {
      assert a + b == b;
    } else {
      assert (a + b)[1..] == a[1..] + b;
      BalanceConcat(a[1..], b, x);
    }
  }

  lemma BalanceSnoc(done: seq<Event>, e: Event, x: int)
    ensures Balance(done + [e], x) == Balance(done, x) + (if Key(e) <= x then -e.sign else 0)
  {
    BalanceConcat(done, [e], x);
    assert Balance([e][1..], x) == 0;
  }

  // Taking out one occurrence of an event.
  lemma BalanceWithout(events: seq<Event>, i: nat, x: int)
    requires i < |events|
    ensures Balance(events, x) == Balance([events[i]] + (events[..i] + events[i + 1..]), x)
    ensures multiset(events) == multiset([events[i]] + (events[..i] + events[i + 1..]))
  {
    var before, e, after := events[..i], [events[i]], events[i + 1..];
    assert events == before + (e + after);
    BalanceConcat(before, e + after, x);
    BalanceConcat(e, after, x);
    BalanceConcat(before, after, x);
    BalanceConcat(e, before + after, x);
  }

  lemma {:induction false} BalanceOfMultiset(a: seq<Event>, b: seq<Event>, x: int)
    requires multiset(a) == multiset(b)
    ensures Balance(a, x) == Balance(b, x)
  {
    if a == [] {
      assert |multiset(b)| == |b|;
    } else {
      assert a[0] in multiset(b);
      var i :| 0 <= i < |b| && b[i] == a[0];
      BalanceWithout(b, i, x);
      var rest := b[..i] + b[i + 1..];
      assert a == [a[0]] + a[1..] && ([b[i]] + rest)[1..] == rest;
      assert multiset(a[1..]) == multiset(a) - multiset{a[0]};
      assert multiset(rest) == multiset([b[i]] + rest) - multiset{b[i]};
      BalanceOfMultiset(a[1..], rest, x);
    }
  }

  // The balance at a point counts the ranges covering it.
  lemma {:induction false} BalanceCounts(ranges: seq<Range>, x: int)
    requires Ordered(ranges)
    ensures Balance(Events(ranges), x) >= 0
    ensures Balance(Events(ranges), x) > 0 <==> Covered(ranges, x)
  {
    if ranges != [] {
      BalanceCounts(ranges[1..], x);
      CoveredSplit(ranges, x);
      var pair := [Event(ranges[0].start, -1), Event(ranges[0].end, 1)];
      BalanceConcat(pair, Events(ranges[1..]), x);
      assert pair[1..] == [Event(ranges[0].end, 1)] && pair[1..][1..] == [];
      assert Balance(pair, x) == if CoversPoint(ranges[0], x) then 1 else 0;
    }
  }

  lemma {:induction false} EventsValid(ranges: seq<Range>)
    ensures forall i :: 0 <= i < |Events(ranges)| ==> ValidEvent(Events(ranges)[i])
  {
    if ranges != [] {
      EventsValid(ranges[1..]);
    }
  }

  lemma {:induction false} EventsAppend(a: seq<Range>, r: Range)
    ensures Events(a + [r]) == Events(a) + [Event(r.start, -1), Event(r.end, 1)]
  {
    if a == [] {
      assert a + [r] == [r];
      assert Events([r][1..]) == [];
    } else {
      assert (a + [r])[1..] == a[1..] + [r];
      EventsAppend(a[1..], r);
    }
  }

  // Closing events only lower the balance.
  lemma {:induction false} ClosingLowers(events: seq<Event>, x: int)
    requires forall i :: 0 <= i < |events| && Key(events[i]) <= x ==> events[i].sign == 1
    ensures Balance(events, x) <= 0
  {
    if events != [] {
      assert forall i :: 0 <= i < |events[1..]| ==> events[1..][i] == events[i + 1];
      ClosingLowers(events[1..], x);
    }
  }

  // Before every closing event at least one range is open.
  lemma OpenBeforeClose(events: seq<Event>, k: nat, x: int)
    requires k < |events| && events[k].sign == 1 && x == Key(events[k])
    requires SortedBy(events, Key)
    requires forall i :: 0 <= i < |events| ==> ValidEvent(events[i])
    requires Balance(events, x) >= 0
    ensures Balance(events[..k], x) >= 1
  {
    hide Balance;
    var rest := events[k + 1..];
    assert events == (events[..k] + [events[k]]) + rest;
    BalanceConcat(events[..k] + [events[k]], rest, x);
    BalanceSnoc(events[..k], events[k], x);
    forall i | 0 <= i < |rest| ensures Key(rest[i]) <= x ==> rest[i].sign == 1 {
      assert rest[i] == events[k + 1 + i] && Key(events[k]) <= Key(events[k + 1 + i]);
    }
    ClosingLowers(rest, x);
  }

  // What the sweep knows after the events with keys up to `last`: the finished ranges and the one
  // still open, if any, cover exactly the points of positive balance.
  ghost predicate Swept(done: seq<Event>, last: int, d: int, prev: nat, out: seq<Range>) {
    && d == Balance(done, last) >= 0
    && (forall i :: 0 <= i < |done| ==> Key(done[i]) <= last)
    && Canonical(out)
    && (forall i :: 0 <= i < |out| ==> 2 * out[i].end < last)
    && (d > 0 ==> 2 * prev <= last && forall i :: 0 <= i < |out| ==> out[i].end < prev)
    && (forall x: int :: Covered(out, x) || (d > 0 && 2 * prev <= x) <==> Balance(done, x) > 0)
  }

  lemma {:induction false} BalanceAtTop(events: seq<Event>, last: int, x: int)
    requires forall i :: 0 <= i < |events| ==> Key(events[i]) <= last
    requires last <= x
    ensures Balance(events, x) == Balance(events, last)
  {
    if events != [] {
      assert forall i :: 0 <= i < |events[1..]| ==> events[1..][i] == events[i + 1];
      BalanceAtTop(events[1..], last, x);
    }
  }

  lemma SweepStep(done: seq<Event>, last: int, d: int, prev: nat, out: seq<Range>, e: Event)
    requires Swept(done, last, d, prev, out) && last <= Key(e) && ValidEvent(e)
    requires e.sign == 1 ==> d > 0
    ensures
      var prev' := if d == 0 then e.addr else prev;
      var d' := d - e.sign;
      Swept(done + [e], Key(e), d', prev', if d' == 0 then out + [Range(prev', e.addr)] else out)
  {
    hide Balance;
    var prev' := if d == 0 then e.addr else prev;
    var d' := d - e.sign;
    var r := Range(prev', e.addr);
    var out' := if d' == 0 then out + [r] else out;
    BalanceSnoc(done, e, Key(e));
    BalanceAtTop(done, last, Key(e));
    forall x: int
      ensures Covered(out', x) || (d' > 0 && 2 * prev' <= x) <==> Balance(done + [e], x) > 0
    {
      BalanceSnoc(done, e, x);
      CoveredAppend(out, r, x);
      if Key(e) <= x {
        BalanceAtTop(done, last, x);
        assert !Covered(out, x);
      }
    }
  }

  lemma SweepStarts(sorted: seq<Event>)
    requires forall i :: 0 <= i < |sorted| ==> Key(sorted[i]) >= 0
    ensures Swept([], -1, 0, 0, [])
  {
  }

  lemma ClosingIsOpen(ranges: seq<Range>, sorted: seq<Event>, k: nat, last: int, d: int, prev: nat, out: seq<Range>)
    requires Ordered(ranges) && multiset(sorted) == multiset(Events(ranges)) && SortedBy(sorted, Key)
    requires forall i :: 0 <= i < |sorted| ==> ValidEvent(sorted[i])
    requires k < |sorted| && last <= Key(sorted[k]) && Swept(sorted[..k], last, d, prev, out)
    ensures sorted[k].sign == 1 ==> d > 0
  {
    hide Balance;
    var x := Key(sorted[k]);
    if sorted[k].sign == 1 {
      BalanceOfMultiset(sorted, Events(ranges), x);
      BalanceCounts(ranges, x);
      OpenBeforeClose(sorted, k, x);
      BalanceAtTop(sorted[..k], last, x);
    }
  }

  method SortedEvents(ranges: seq<Range>) returns (sorted: seq<Event>)
    ensures multiset(sorted) == multiset(Events(ranges)) && SortedBy(sorted, Key)
    ensures forall i :: 0 <= i < |sorted| ==> ValidEvent(sorted[i]) && Key(sorted[i]) >= 0
  {
    var events: seq<Event> := [];
    for i := 0 to |ranges|
      invariant events == Events(ranges[..i])
    {
      EventsAppend(ranges[..i], ranges[i]);
      assert ranges[..i + 1] == ranges[..i] + [ranges[i]];
      events := events + [Event(ranges[i].start, -1)];
      events := events + [Event(ranges[i].end, 1)];
    }
    assert ranges[..|ranges|] == ranges;
    EventsValid(ranges);
    sorted := SortUnstable(events, Key);
    forall i | 0 <= i < |sorted| ensures ValidEvent(sorted[i]) && Key(sorted[i]) >= 0 {
      assert sorted[i] in multiset(events);
    }
  }

  // The sweep of step(): the result is canonical and covers exactly what the input covers.
  method Sweep(ranges: seq<Range>) returns (out: seq<Range>)
    requires Ordered(ranges)
    ensures Canonical(out) && SameCover(out, ranges)
  {
    var sorted := SortedEvents(ranges);
    hide Swept, Balance, Canonical, SameCover;
    var d, prev := 0, 0;
    ghost var last := -1;
    out := [];
    SweepStarts(sorted);
    assert sorted[..0] == [];
    for k := 0 to |sorted|
      invariant Swept(sorted[..k], last, d, prev, out)
      invariant k < |sorted| ==> last <= Key(sorted[k])
    {
      var e := sorted[k];
      ClosingIsOpen(ranges, sorted, k, last, d, prev, out);
      SweepStep(sorted[..k], last, d, prev, out, e);
      assert sorted[..k + 1] == sorted[..k] + [e];
      if d == 0 {
        prev := e.addr;
      }
      d := d - e.sign;
      if d == 0 {
        out := out + [Range(prev, e.addr)];
      }
      last := Key(e);
    }
    assert sorted[..|sorted|] == sorted;
    SweepEnds(ranges, sorted, last, d, prev, out);
    assert d == 0;
  }

  lemma SweepEnds(ranges: seq<Range>, sorted: seq<Event>, last: int, d: int, prev: nat, out: seq<Range>)
    requires Ordered(ranges) && multiset(sorted) == multiset(Events(ranges))
    requires Swept(sorted, last, d, prev, out)
    ensures d == 0 && Canonical(out) && SameCover(out, ranges)
  {
    hide Balance;
    forall x: int ensures Balance(sorted, x) > 0 <==> Covered(ranges, x) {
      BalanceOfMultiset(sorted, Events(ranges), x);
      BalanceCounts(ranges, x);
    }
    if d > 0 {
      // No range reaches beyond the largest end.
      var far := FarPoint(ranges, 2 * prev);
      SweptAt(sorted, last, d, prev, out, far);
      assert false;
    }
  }

  lemma SweptAt(done: seq<Event>, last: int, d: int, prev: nat, out: seq<Range>, x: int)
    requires Swept(done, last, d, prev, out)
    ensures Covered(out, x) || (d > 0 && 2 * prev <= x) <==> Balance(done, x) > 0
  {
  }

  ghost function FarPoint(ranges: seq<Range>, from: int): (x: int)
    ensures x >= from && !Covered(ranges, x)
    ensures forall i :: 0 <= i < |ranges| ==> 2 * ranges[i].end < x
  {
    if ranges == [] then from
    else
      var rest := FarPoint(ranges[1..], from);
      assert forall i :: 1 <= i < |ranges| ==> ranges[i] == ranges[1..][i - 1];
      if rest <= 2 * ranges[0].end then 2 * ranges[0].end + 1 else rest
  }

  // ---- The in-place merge ----------------------------------------------------------------------

  function Start(r: Range): int { r.start }

  lemma CoveredByMembers(a: seq<Range>, b: seq<Range>, x: int)
    requires forall r :: r in a ==> r in b
    requires Covered(a, x)
    ensures Covered(b, x)
  {
    var i :| 0 <= i < |a| && CoversPoint(a[i], x);
    assert a[i] in b;
  }

  lemma SortingKeepsCover(a: seq<Range>, b: seq<Range>)
    requires multiset(a) == multiset(b)
    ensures SameCover(a, b)
    ensures Ordered(b) ==> Ordered(a)
  {
    assert forall r :: r in a <==> r in multiset(a);
    assert forall r :: r in b <==> r in multiset(b);
    forall x: int ensures Covered(a, x) <==> Covered(b, x) {
      if Covered(a, x) { CoveredByMembers(a, b, x); }
      if Covered(b, x) { CoveredByMembers(b, a, x); }
    }
    if Ordered(b) {
      forall i | 0 <= i < |a| ensures a[i].start <= a[i].end {
        assert a[i] in b;
      }
    }
  }

  function Merged(merged: seq<Range>, r: Range): seq<Range>
    requires merged != []
  {
    var j := |merged| - 1;
    if r.start > merged[j].end then merged + [r]
    else if r.end <= merged[j].end then merged
    else merged[j := Range(merged[j].start, r.end)]
  }

  // Merging one more range, which starts no earlier than the last merged one.
  lemma MergeStep(merged: seq<Range>, r: Range, x: int)
    requires Canonical(merged) && merged != [] && r.start <= r.end
    requires merged[|merged| - 1].start <= r.start
    ensures
      var next := Merged(merged, r);
      Canonical(next) && next != [] && next[|next| - 1].start <= r.start
      && (Covered(next, x) <==> Covered(merged, x) || CoversPoint(r, x))
  {
    var j := |merged| - 1;
    var init, top := merged[..j], merged[j];
    assert merged == init + [top];
    CoveredAppend(init, top, x);
    CoveredAppend(merged, r, x);
    var wide := Range(top.start, r.end);
    CoveredAppend(init, wide, x);
    assert merged[j := wide] == init + [wide];
  }

  lemma MergeOne(merged: seq<Range>, sorted: seq<Range>, i: nat)
    requires 0 < i < |sorted| && Ordered(sorted) && SortedBy(sorted, Start)
    requires Canonical(merged) && merged != [] && SameCover(merged, sorted[..i])
    requires merged[|merged| - 1].start <= sorted[i - 1].start
    ensures
      var next := Merged(merged, sorted[i]);
      Canonical(next) && next != [] && next[|next| - 1].start <= sorted[i].start
      && SameCover(next, sorted[..i + 1])
  {
    assert Start(sorted[i - 1]) <= Start(sorted[i]);
    MergeStep(merged, sorted[i], 0);
    assert sorted[..i + 1] == sorted[..i] + [sorted[i]];
    forall x: int ensures Covered(Merged(merged, sorted[i]), x) <==> Covered(sorted[..i + 1], x) {
      MergeStep(merged, sorted[i], x);
      CoveredAppend(sorted[..i], sorted[i], x);
    }
  }

  lemma MergeStarts(sorted: seq<Range>)
    requires sorted != [] && Ordered(sorted)
    ensures Canonical(sorted[..1]) && SameCover(sorted[..1], sorted[..1])
  {
  }

  lemma NoRanges(ranges: seq<Range>)
    requires ranges == []
    ensures Canonical(ranges[..0]) && SameCover(ranges[..0], ranges)
  {
  }

  lemma SameCoverTransitive(a: seq<Range>, b: seq<Range>, c: seq<Range>)
    requires SameCover(a, b) && SameCover(b, c)
    ensures SameCover(a, c)
  {
  }

  method SortByStart(ranges: array<Range>)
    requires Ordered(ranges[..])
    modifies ranges
    ensures Ordered(ranges[..]) && SortedBy(ranges[..], Start)
    ensures SameCover(ranges[..], old(ranges[..]))
  {
    var sorted := SortUnstable(ranges[..], Start);
    SortingKeepsCover(sorted, ranges[..]);
    assert |multiset(sorted)| == |multiset(ranges[..])|;
    forall i | 0 <= i < ranges.Length {
      ranges[i] := sorted[i];
    }
    assert ranges[..] == sorted;
  }

  method MergeNext(ranges: array<Range>, i: nat, j: nat) returns (j': nat)
    requires j < i < ranges.Length
    modifies ranges
    ensures j <= j' <= i && ranges[..j' + 1] == Merged(old(ranges[..j + 1]), old(ranges[i]))
    ensures ranges[i + 1..] == old(ranges[i + 1..])
  {
    j' := j;
    if ranges[i].start > ranges[j].end {
      j' := j + 1;
      ranges[j'] := ranges[i];
    } else if ranges[i].end <= ranges[j].end {
      // This range is contained in another.
    } else {
      ranges[j] := Range(ranges[j].start, ranges[i].end);
    }
  }

  // clean_up_ranges: sorts and compacts in place; the first n elements are the new contents.
  method CleanUpRanges(ranges: array<Range>) returns (n: nat)
    requires Ordered(ranges[..])
    modifies ranges
    ensures n <= ranges.Length
    ensures Canonical(ranges[..n]) && SameCover(ranges[..n], old(ranges[..]))
  {
    hide Canonical, SameCover, Covered, CoversPoint, Ordered, SortedBy, Merged;
    if ranges.Length == 0 {
      NoRanges(ranges[..]);
      return 0;
    }
    SortByStart(ranges);
    ghost var sorted := ranges[..];
    var j := 0;
    MergeStarts(sorted);
    assert ranges[..1] == sorted[..1];
    for i := 1 to ranges.Length
      invariant 0 <= j < i <= ranges.Length
      invariant ranges[i..] == sorted[i..]
      invariant Canonical(ranges[..j + 1])
      invariant ranges[j].start <= sorted[i - 1].start
      invariant SameCover(ranges[..j + 1], sorted[..i])
    {
      assert ranges[i] == ranges[i..][0] == sorted[i];
      MergeOne(ranges[..j + 1], sorted, i);
      j := MergeNext(ranges, i, j);
      assert ranges[i + 1..] == sorted[i + 1..];
    }
    n := j + 1;
    assert sorted[..ranges.Length] == sorted;
    SameCoverTransitive(ranges[..n], sorted, old(ranges[..]));
  }

  // The two algorithms agree: any two results meeting their contracts are the same list.
  lemma SweepAndMergeAgree(ranges: seq<Range>, swept: seq<Range>, merged: seq<Range>)
    requires Canonical(swept) && SameCover(swept, ranges)
    requires Canonical(merged) && SameCover(merged, ranges)
    ensures swept == merged
    ensures forall addr: nat :: Contains(merged, addr) <==> Contains(ranges, addr)
  {
    CanonicalUnique(swept, merged);
    forall addr: nat ensures Contains(merged, addr) <==> Contains(ranges, addr) {
      ContainsIsCovered(merged, addr);
      ContainsIsCovered(ranges, addr);
    }
  }

  // ---- Binary-search membership ----------------------------------------------------------------

  // partition_point(|r| r.end <= addr): the length of the prefix ending at or before addr.
  function PartitionPoint(ranges: seq<Range>, addr: nat): (i: nat)
    ensures i <= |ranges|
  {
    if ranges != [] && ranges[0].end <= addr then 1 + PartitionPoint(ranges[1..], addr) else 0
  }

  // The test of handle_step_stop.
  predicate InRanges(ranges: seq<Range>, addr: nat) {
    var i := PartitionPoint(ranges, addr);
    i < |ranges| && ranges[i].start <= addr
  }

  // The test of jump_target_may_be_outside_ranges for a known target.
  predicate MayBeOutside(ranges: seq<Range>, addr: nat) {
    var i := PartitionPoint(ranges, addr);
    i == |ranges| || ranges[i].start > addr
  }

  lemma {:induction false} MembershipIsContains(ranges: seq<Range>, addr: nat)
    requires Canonical(ranges)
    ensures InRanges(ranges, addr) <==> Contains(ranges, addr)
    ensures MayBeOutside(ranges, addr) <==> !Contains(ranges, addr)
  {
    if ranges != [] {
      assert forall i :: 0 < i < |ranges| ==> ranges[i] == ranges[1..][i - 1];
      if ranges[0].end <= addr {
        MembershipIsContains(ranges[1..], addr);
        if Contains(ranges[1..], addr) {
          var i :| 0 <= i < |ranges[1..]| && ranges[1..][i].start <= addr < ranges[1..][i].end;
          assert ranges[i + 1].start <= addr < ranges[i + 1].end;
        }
      } else {
        assert forall i :: 0 < i < |ranges| ==> ranges[0].end < ranges[i].start;
      }
    }
  }

  // On the list step() builds, both tests mean "inside (outside) every input range".
  lemma MembershipAgrees(input: seq<Range>, ranges: seq<Range>, addr: nat)
    requires Canonical(ranges) && SameCover(ranges, input)
    ensures InRanges(ranges, addr) <==> Contains(input, addr)
    ensures MayBeOutside(ranges, addr) <==> !Contains(input, addr)
  {
    MembershipIsContains(ranges, addr);
    ContainsIsCovered(ranges, addr);
    ContainsIsCovered(input, addr);
  }
}
