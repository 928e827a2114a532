// The rest of handle_step_stop: a line step that is to stop on statements only takes in the code between its own
// ranges and the next statement, with breakpoints of its own (src/debugger.rs).
module StatementSteps {
  import opened Options
  import opened StepBreakpoints
  import opened StepRanges
  import opened LineStep

  // What line information says of an address: the entry it belongs to, and where the next statement of another line
  // begins, if anywhere.
  datatype LineAt = LineAt(start: nat, statement: bool, sameLine: bool, until: Option<nat>)

  datatype Verdict =
    | Done
    | GoOn
    | Extended(ranges: seq<Range>, added: seq<StepBreakpoint>, syscalls: bool)

  predicate FrameDone(kind: StepKind, stepCfa: int, cfa: int) {
    if kind == Into then cfa != stepCfa else cfa > stepCfa
  }

  predicate RangesDone(kind: StepKind, stepCfa: int, ranges: seq<Range>, cfa: int, addr: nat) {
    kind != Out && (kind == Into || cfa == stepCfa) && !InRanges(ranges, addr)
  }

  // Together they are the judgement without regard to statements.
  lemma DoneIsEither(kind: StepKind, stepCfa: int, ranges: seq<Range>, cfa: int, addr: nat)
    ensures StepDone(kind, stepCfa, ranges, cfa, addr)
            <==> FrameDone(kind, stepCfa, cfa) || RangesDone(kind, stepCfa, ranges, cfa, addr)
  {
  }

  // They tell having left the frame, to a caller or into a callee, from having left the ranges in it.
  lemma WhichIsDone(kind: StepKind, base: nat, ranges: seq<Range>, start: Machine, m: Machine)
    requires Canonical(ranges) && GoodStack(start.frames) && GoodStack(m.frames) && |start.frames| > base
    requires var n := if |m.frames| <= base then |m.frames| else base + 1;
             m.frames[..n] == start.frames[..n]
    ensures var cfa := m.frames[|m.frames| - 1].cfa;
            && (FrameDone(kind, start.frames[base].cfa, cfa) <==>
                  |m.frames| <= base || (kind == Into && |m.frames| > base + 1))
            && (!FrameDone(kind, start.frames[base].cfa, cfa) ==>
                  (RangesDone(kind, start.frames[base].cfa, ranges, cfa, m.pc) <==>
                     kind != Out && |m.frames| == base + 1 && !Contains(ranges, m.pc)))
  {
    MembershipIsContains(ranges, m.pc);
    var n := |m.frames|;
    if n <= base {
      assert m.frames[n - 1] == m.frames[..n][n - 1] == start.frames[n - 1];
    } else {
      assert m.frames[base] == m.frames[..base + 1][base] == start.frames[base];
    }
  }

  // The user wants to stop at the beginning of a statement of another line.
  predicate StopsAt(line: LineAt, addr: nat) { line.statement && line.start == addr && !line.sameLine }

  function ExtensionTypes(kind: StepKind): set<StepBreakpointType> {
    if kind == Into then {AfterRange, JumpOut, StepBreakpointType.Call} else {AfterRange, JumpOut}
  }

  function Pushed(ranges: seq<Range>, line: LineAt): seq<Range>
    requires line.until.Some?
  {
    ranges + [Range(if line.statement then line.start + 1 else line.start, line.until.value)]
  }

  // The breakpoints for a new range: at its end, and on the instructions of it that are looked at.
  ghost predicate Guards(added: seq<StepBreakpoint>, kind: StepKind, code: Code, walk: Range, all: seq<Range>,
                         skipFirst: bool) {
    forall b :: b in added <==>
      b == StepBreakpoint(AfterRange, walk.end)
      || (b.addr in Visited(skipFirst, Walk(code, walk.start, walk.end)) && b.addr in code
          && match b.kind
             case Call => kind == Into && code[b.addr].flow.Call?
             case JumpOut => IsBranch(code[b.addr]) && JumpMayLeave(code[b.addr], all)
             case _ => false)
  }

  lemma GuardsArePlaced(added: seq<StepBreakpoint>, kind: StepKind, code: Code, walk: Range, all: seq<Range>,
                        skipFirst: bool)
    requires kind != Out
    ensures Guards(added, kind, code, walk, all, skipFirst) <==>
              forall b :: b in added <==>
                b == StepBreakpoint(AfterRange, walk.end)
                || PlacesOneOf(ExtensionTypes(kind), code, all, Visited(skipFirst, Walk(code, walk.start, walk.end)), b)
  {
    hide Walk;
  }

  // The code taken in may make a system call, or run a callee that does.
  ghost predicate MayWait(kind: StepKind, code: Code, walk: Range, skipFirst: bool) {
    exists a :: a in Visited(skipFirst, Walk(code, walk.start, walk.end)) && a in code &&
      (code[a].flow.Syscall? || (code[a].flow.Call? && kind != Into))
  }

  // handle_step_stop; line is what is known of the address.
  method HandleStepStop(kind: StepKind, stepCfa: int, ranges: seq<Range>, cfa: Option<int>, addr: nat,
                        onlyStatements: bool, line: Option<LineAt>, code: Code, readable: bool) returns (v: Verdict)
    ensures cfa.None? ==> v == if kind == Into then Done else GoOn
    ensures cfa.Some? ==> (v.GoOn? <==> !StepDone(kind, stepCfa, ranges, cfa.value, addr))
    ensures cfa.Some? && !onlyStatements ==> !v.Extended?
    ensures cfa.Some? && onlyStatements ==>
              (v.Extended? <==> !FrameDone(kind, stepCfa, cfa.value)
                                && RangesDone(kind, stepCfa, ranges, cfa.value, addr) && readable && line.Some?
                                && (line.value.sameLine || !line.value.statement || line.value.start != addr)
                                && line.value.until.Some?)
    ensures v.Extended? ==>
              && line.Some? && line.value.until.Some?
              && var l := line.value;
                 v.ranges == Pushed(ranges, l)
                 && Guards(v.added, kind, code, Range(l.start, l.until.value), v.ranges, l.statement)
                 && (v.syscalls <==> MayWait(kind, code, Range(l.start, l.until.value), l.statement))
  {
    if cfa.None? {
      return if kind == Into then Done else GoOn;
    }
    DoneIsEither(kind, stepCfa, ranges, cfa.value, addr);
    if FrameDone(kind, stepCfa, cfa.value) {
      return Done;
    }
    if !RangesDone(kind, stepCfa, ranges, cfa.value, addr) {
      return GoOn;
    }
    if !onlyStatements {
      return Done;
    }
    if line.None? || StopsAt(line.value, addr) || line.value.until.None? {
      return Done;
    }
    var l := line.value;
    var all := Pushed(ranges, l);
    hide Walk, PlacesOneOf, InRanges;
    var ok, added, syscalls := DetermineStepBreakpoints(code, readable, ExtensionTypes(kind),
        Range(l.start, l.until.value), all, l.statement);
    GuardsArePlaced(added, kind, code, Range(l.start, l.until.value), all, l.statement);
    v := if ok then Extended(all, added, syscalls) else Done;
  }

  // ---- The list of ranges ----------------------------------------------------------------------

  // What partition_point asks of a list before it is searched for an address.
  ghost predicate Partitioned(ranges: seq<Range>, addr: nat) {
    forall i, j :: 0 <= i < j < |ranges| && ranges[j].end <= addr ==> ranges[i].end <= addr
  }

  // The list may be searched for any address, and the search tells whether some range has it.
  ghost predicate Searchable(ranges: seq<Range>) {
    forall addr: nat :: Partitioned(ranges, addr) && (InRanges(ranges, addr) <==> Contains(ranges, addr))
  }

  lemma {:induction false} FirstEnding(ranges: seq<Range>, addr: nat, i: nat)
    requires i <= |ranges| && (i < |ranges| ==> ranges[i].end > addr)
    requires forall k :: 0 <= k < i ==> ranges[k].end <= addr
    ensures PartitionPoint(ranges, addr) == i
  {
    if i > 0 {
      assert forall k :: 0 <= k < i - 1 ==> ranges[1..][k] == ranges[k + 1];
      FirstEnding(ranges[1..], addr, i - 1);
    }
  }

  // A range pushed to a canonical list keeps it searchable if and only if it neither begins nor ends before the last.
  lemma PushedSearchableIff(ranges: seq<Range>, r: Range)
    requires Canonical(ranges) && ranges != [] && r.start < r.end
    requires ranges[|ranges| - 1].start < ranges[|ranges| - 1].end
    ensures var last := ranges[|ranges| - 1];
            Searchable(ranges + [r]) <==> last.start <= r.start && last.end <= r.end
  {
    var n, all := |ranges|, ranges + [r];
    var last := ranges[n - 1];
    if last.start <= r.start && last.end <= r.end {
      forall addr: nat ensures Partitioned(all, addr) && (InRanges(all, addr) <==> Contains(all, addr)) {
        PushedSearch(ranges, r, addr);
      }
    } else if r.end < last.end {
      assert all[n] == r && all[n - 1] == last;
      assert !Partitioned(all, r.end);
    } else {
      var addr := last.start - 1;
      assert all[n - 1] == last && all[n] == r && forall k :: 0 <= k < n - 1 ==> all[k] == ranges[k];
      FirstEnding(all, addr, n - 1);
      assert Contains(all, addr) && !InRanges(all, addr);
    }
  }

  lemma PushedSearch(ranges: seq<Range>, r: Range, addr: nat)
    requires Canonical(ranges) && ranges != [] && r.start < r.end
    requires var last := ranges[|ranges| - 1]; last.start <= r.start && last.end <= r.end
    ensures Partitioned(ranges + [r], addr) && (InRanges(ranges + [r], addr) <==> Contains(ranges + [r], addr))
  {
    var n, all := |ranges|, ranges + [r];
    MembershipIsContains(ranges, addr);
    PartitionPointIs(ranges, addr);
    var i := PartitionPoint(ranges, addr);
    assert forall k :: 0 <= k < n ==> all[k] == ranges[k];
    if i < n {
      FirstEnding(all, addr, i);
      assert ranges[i].start <= ranges[n - 1].start;
    } else {
      FirstEnding(all, addr, if r.end > addr then n else n + 1);
    }
    assert Contains(all, addr) <==> Contains(ranges, addr) || r.start <= addr < r.end by {
      assert all[n] == r;
      if Contains(ranges, addr) {
        var k :| 0 <= k < n && ranges[k].start <= addr < ranges[k].end;
        assert all[k] == ranges[k];
      }
    }
  }

  lemma {:induction false} PartitionPointIs(ranges: seq<Range>, addr: nat)
    requires Canonical(ranges)
    ensures var i := PartitionPoint(ranges, addr);
            && i <= |ranges| && (forall k :: 0 <= k < i ==> ranges[k].end <= addr)
            && (i < |ranges| ==> ranges[i].end > addr)
  {
    if ranges != [] && ranges[0].end <= addr {
      assert forall k :: 0 <= k < |ranges| - 1 ==> ranges[1..][k] == ranges[k + 1];
      PartitionPointIs(ranges[1..], addr);
    }
  }

  // Code that lies before the ranges of the step: once it has been taken in, the list may not be searched any more.
  lemma PushedBefore()
    ensures !Searchable([Range(100, 110)] + [Range(50, 60)])
  {
    PushedSearchableIff([Range(100, 110)], Range(50, 60));
  }

  // ---- The new range ---------------------------------------------------------------------------

  // The address that the step is not to stop at is in the ranges from now on, unless it is the beginning of a
  // statement (which then is of the line the step started on).
  lemma ExtensionCovers(ranges: seq<Range>, line: LineAt, addr: nat)
    requires line.until.Some?
    ensures Contains(Pushed(ranges, line), addr) <==>
              Contains(ranges, addr) ||
              (line.start <= addr < line.until.value && !(line.statement && addr == line.start))
  {
    var all := Pushed(ranges, line);
    assert all[|ranges|] == Range(if line.statement then line.start + 1 else line.start, line.until.value);
    assert forall k :: 0 <= k < |ranges| ==> all[k] == ranges[k];
  }

  // A thread in a new range stays in it, goes to another range, is in a callee that returns to it, has returned, or is
  // stopped. Its instruction must not be the one that was skipped.
  lemma ExtendedStep(kind: StepKind, base: nat, code: Code, walk: Range, all: seq<Range>, skipFirst: bool,
                     added: seq<StepBreakpoint>, m: Machine, m': Machine)
    requires kind != Out && GoodStack(m.frames) && |m.frames| == base + 1
    requires Tiles(code, walk.start, walk.end) && m.pc in Walk(code, walk.start, walk.end)
    requires m.pc in code && Executes(code[m.pc], m, m')
    requires Guards(added, kind, code, walk, all, skipFirst) && !(skipFirst && m.pc == walk.start)
    requires Searchable(all)
    ensures var walked := Walk(code, walk.start, walk.end);
            || Stops(added, m, m')
            || (|m'.frames| == base + 1 && (m'.pc in walked || (IsBranch(code[m.pc]) && Contains(all, m'.pc))))
            || (kind == Over && |m'.frames| == base + 2
                && (m'.frames[base + 1].ret in walked || m'.frames[base + 1].ret == walk.end))
            || |m'.frames| == base
  {
    var walked, insn := Walk(code, walk.start, walk.end), code[m.pc];
    WalkContinues(code, walk.start, walk.end, m.pc);
    assert m.pc in Visited(skipFirst, walked) by { InVisited(code, walk, skipFirst, m.pc); }
    hide Walk;
    if insn.flow.Call? {
      if kind == Into {
        assert PlacesOneOf(ExtensionTypes(kind), code, all, Visited(skipFirst, walked),
                           StepBreakpoint(StepBreakpointType.Call, m.pc));
      }
    } else if IsBranch(insn) && m'.pc !in walked && !Contains(all, m'.pc) {
      if m'.pc == m.pc + insn.len {
        AtEnd(added, walk, m');
      } else {
        assert PlacesOneOf(ExtensionTypes(kind), code, all, Visited(skipFirst, walked), StepBreakpoint(JumpOut, m.pc));
      }
    } else if m'.pc == walk.end {
      AtEnd(added, walk, m');
    }
  }

  lemma AtEnd(added: seq<StepBreakpoint>, walk: Range, m: Machine)
    requires StepBreakpoint(AfterRange, walk.end) in added && m.pc == walk.end
    ensures StandsOn(added, m)
  {
  }

  lemma InVisited(code: Code, walk: Range, skipFirst: bool, a: nat)
    requires a in Walk(code, walk.start, walk.end) && !(skipFirst && a == walk.start)
    ensures a in Visited(skipFirst, Walk(code, walk.start, walk.end))
  {
  }

  // The instruction that was skipped has no breakpoint, whatever it does.
  lemma FirstUnguarded(kind: StepKind, code: Code, walk: Range, all: seq<Range>, added: seq<StepBreakpoint>, m: Machine)
    requires Guards(added, kind, code, walk, all, true) && m.pc == walk.start && walk.start != walk.end
    ensures !SingleSteppedFrom(added, m)
  {
    if Decodes(code, walk.start, walk.end) {
      var rest := Walk(code, walk.start + code[walk.start].len, walk.end);
      if walk.start in rest {
        WalkStays(code, walk.start + code[walk.start].len, walk.end, walk.start);
      }
    }
  }

  // The step is into calls, and comes to another stretch of its own line that begins with one: the call is missed.
  function CallsFirst(): Code {
    map[100 := Insn(5, FlowKind.Call, Some(500)), 105 := Insn(5, Normal, None)]
  }

  lemma CallMissed(ranges: seq<Range>, added: seq<StepBreakpoint>) returns (m: Machine, m': Machine)
    requires Guards(added, Into, CallsFirst(), Range(100, 110), Pushed(ranges, LineAt(100, true, true, Some(110))),
        true)
    ensures m.pc == 100 && |m.frames| == 1 && GoodStack(m.frames) && Executes(CallsFirst()[100], m, m')
    ensures Escaped(Into, 0, Pushed(ranges, LineAt(100, true, true, Some(110))), m') && !Stops(added, m, m')
  {
    m, m' := Machine(100, [Frame(1000, 7)]), Machine(500, [Frame(1000, 7), Frame(900, 105)]);
    var code, all := CallsFirst(), Pushed(ranges, LineAt(100, true, true, Some(110)));
    FirstUnguarded(Into, code, Range(100, 110), all, added, m);
    if StandsOn(added, m') {
      var kind :| StepBreakpoint(kind, 500) in added;
      var at :| at == 500 && at in Visited(true, Walk(code, 100, 110));
      WalkStays(code, 100, 110, at);
    }
    assert m'.frames[..1] == m.frames;
    assert Executes(code[100], m, m');
  }
}
