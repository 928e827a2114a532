// A line step within a debugging session: its breakpoints get into the table, the thread traps on them, and the trap
// after which the step is over ends it.
module LineStepSession {
  import opened Options
  import opened DebuggeeMemory
  import opened BreakpointTable
  import opened StepBreakpoints
  import opened HandleBreakpoints
  import opened DebuggerModel
  import opened DebuggerSession
  import opened DebuggerState
  import opened StepRanges
  import LineStep
  import StatementSteps

  // Calls and branches that are decoded are not int3 instructions.
  ghost predicate NoInt3(code: LineStep.Code, memory: Memory) {
    forall a <- code.Keys :: code[a].flow.Call? || LineStep.IsBranch(code[a]) ==> OriginalByte(memory, a) != INT3
  }

  function AsSteps(bps: seq<LineStep.StepBreakpoint>): (steps: seq<(StepBreakpointType, nat)>)
    ensures |steps| == |bps| && forall i :: 0 <= i < |bps| ==> steps[i] == (bps[i].kind, bps[i].addr)
  {
    seq(|bps|, i requires 0 <= i < |bps| => (bps[i].kind, bps[i].addr))
  }

  lemma PlannedStepsAreNoInt3(types: set<StepBreakpointType>, code: LineStep.Code, ranges: seq<Range>,
                              ret: Option<nat>, bps: seq<LineStep.StepBreakpoint>, memory: Memory)
    requires LineStep.Planned(bps, types, code, ranges, ranges, ret) && NoInt3(code, memory)
    ensures forall p <- AsSteps(bps) :: NeedsSingleStep(p.0) ==> OriginalByte(memory, p.1) != INT3
  {
    var steps := AsSteps(bps);
    forall p | p in steps && NeedsSingleStep(p.0) ensures OriginalByte(memory, p.1) != INT3 {
      var i :| 0 <= i < |steps| && steps[i] == p;
      assert bps[i] in bps && LineStep.PlannedAt(types, code, ranges, ranges, ret, bps[i]);
    }
  }

  // The bytes before the instruction pointer are those of a system call, which may be in progress, or are not known.
  predicate AfterSyscall(memory: Memory, pc: nat) {
    var at := if pc >= 2 then pc - 2 else 0;
    at !in memory || at + 1 !in memory || (memory[at] == 0x0f && memory[at + 1] == 0x05)
  }

  // step(): the plan is made and carried out. Other threads stay suspended unless the step leaves its function, may do
  // a system call, or begins in one.
  method BeginLineStep(d: Debugger, tid: nat, kind: LineStep.StepKind, input: seq<Range>,
                       types: set<StepBreakpointType>, code: LineStep.Code, readable: bool, ret: Option<nat>)
                           returns (plan: LineStep.StepPlan, ok: bool)
    requires d.Sound() && Ordered(input) && NoInt3(code, d.code)
    modifies d, d.hardwareBreakpoints
    ensures d.Sound() && (ok ==> plan.Plan?)
    ensures ok ==>
      && Canonical(plan.ranges) && SameCover(plan.ranges, input)
      && LineStep.Planned(plan.breakpoints, types, code, plan.ranges, plan.ranges, ret)
      && tid in old(d.threads) && d.targetState == Stepping
      && d.stepping == Some(StepState(tid, kind != LineStep.Out && !plan.mayDoSyscalls &&
           !AfterSyscall(old(d.memory), old(d.threads)[tid].pc), false))
      && forall b <- plan.breakpoints :: Step(b.kind) in RefsAt(d.breakpointLocations, b.addr)
    ensures ok && plan.breakpoints != [] && !d.stoppingToHandleBreakpoints ==> ActiveOrFailed(d.breakpointLocations)
    ensures d.OthersStopped(old(d.threads), d.threads)
  {
    hide Debugger.Sound, LineStep.Planned, Canonical, SameCover, RefsAt, NoInt3, AfterSyscall;
    plan := LineStep.PlanStep(kind, input, types, code, readable, ret);
    if plan.Failed? {
      return plan, false;
    }
    PlannedStepsAreNoInt3(types, code, plan.ranges, ret, plan.breakpoints, d.code);
    var steps := AsSteps(plan.breakpoints);
    var keepOthers := kind != LineStep.Out && !plan.mayDoSyscalls && tid in d.threads &&
        !AfterSyscall(d.memory, d.threads[tid].pc);
    ok := d.StartStep(tid, steps, false, keepOthers);
    if ok {
      forall b | b in plan.breakpoints ensures Step(b.kind) in RefsAt(d.breakpointLocations, b.addr) {
        var i :| 0 <= i < |steps| && plan.breakpoints[i] == b;
        assert steps[i] in steps;
      }
    }
  }

  // The thread whose step is in progress is running and has nothing to report.
  ghost predicate OnStep(d: Debugger, tid: nat)
    reads d, d.hardwareBreakpoints
  {
    && d.Sound() && d.targetState == Stepping && d.stepping.Some? && d.stepping.value.tid == tid
    && tid in d.threads && d.threads[tid].state == Running && !d.threads[tid].exiting
  }

  // m differs from start in what happened above the stepped frame, or in that it has returned.
  ghost predicate SameBelow(base: nat, start: LineStep.Machine, m: LineStep.Machine) {
    && LineStep.GoodStack(start.frames) && LineStep.GoodStack(m.frames) && |start.frames| > base
    && var n := if |m.frames| <= base then |m.frames| else base + 1;
       m.frames[..n] == start.frames[..n]
  }

  // A trap of the stepped thread, which is then in state m. The step ends if and only if it is over there; a thread
  // that goes on from a call or jump-out breakpoint is single-stepped.
  method StepTrap(d: Debugger, tid: nat, si: SiCode, hwHits: set<nat>, stops: set<nat>, kind: LineStep.StepKind,
                  base: nat, ranges: seq<Range>, start: LineStep.Machine, m: LineStep.Machine)
    returns (hit: bool)
    requires OnStep(d, tid) && tid in d.causes && Reported(d.causes[tid], d.threads[tid], si, hwHits)
    requires m.pc == PcAfter(d.causes[tid], d.code, d.threads[tid])
    requires Canonical(ranges) && SameBelow(base, start, m)
    modifies d, d.hardwareBreakpoints
    ensures d.Sound() && tid in d.threads && d.threads[tid].pc == m.pc && d.causes == old(d.causes) - {tid}
    ensures hit <==> LineStep.Escaped(kind, base, ranges, m)
    ensures if hit then d.targetState == ProcessSuspended && d.stepping.None?
            else d.targetState == Stepping && d.stepping == old(d.stepping)
    ensures TrapAddr(old(d.threads)[tid], si, hwHits) >= 0
    ensures old(StepsOver(RefsAt(d.breakpointLocations, TrapAddr(d.threads[tid], si, hwHits)), d.stepping, tid)) ==>
              hit || d.threads[tid].singleStepping
    ensures !hit ==> d.code == old(d.code) && d.waitingForSymbols == old(d.waitingForSymbols)
                     && d.threads == old(d.threads)[tid := d.threads[tid]] && !d.threads[tid].exiting
    ensures !hit && !d.stoppingToHandleBreakpoints ==> d.threads[tid].state == Running
    ensures !hit && d.stoppingToHandleBreakpoints ==> d.threads[tid].state == Suspended
  {
    hide Debugger.Sound, Reported, PcAfter, RefsAt, Canonical, Spurious, TrapHit, StepsOver;
    LineStep.JudgementIsEscape(kind, base, ranges, start, m);
    var stepDone := LineStep.StepDone(kind, start.frames[base].cfa, ranges, m.frames[|m.frames| - 1].cfa, m.pc);
    ghost var t, locs, pool := d.threads[tid], d.breakpointLocations, d.breakpoints;
    var refresh: bool;
    hit, refresh := d.ProcessTrap(tid, si, hwHits, stops, stepDone, []);
    NoHitWhileIgnoring(RefsAt(locs, TrapAddr(t, si, hwHits)), d.hardwareBreakpoints[..],
                       OriginalByte(d.code, TrapAddr(t, si, hwHits)) == INT3, si, hwHits, Spurious(t, hwHits), stops,
                       pool);
  }

  lemma GuardsAreNoInt3(added: seq<LineStep.StepBreakpoint>, kind: LineStep.StepKind, code: LineStep.Code, walk: Range,
                        all: seq<Range>, skipFirst: bool, memory: Memory)
    requires StatementSteps.Guards(added, kind, code, walk, all, skipFirst) && NoInt3(code, memory)
    ensures forall p <- AsSteps(added) :: NeedsSingleStep(p.0) ==> OriginalByte(memory, p.1) != INT3
  {
    var steps := AsSteps(added);
    forall p | p in steps && NeedsSingleStep(p.0) ensures OriginalByte(memory, p.1) != INT3 {
      var i :| 0 <= i < |steps| && steps[i] == p;
      assert added[i] in added;
      assert LineStep.Places(StatementSteps.ExtensionTypes(kind), code, all, added[i]);
    }
  }

  // A trap of the stepped thread in a step that is to stop on statements only. The step ends if and only if it is
  // judged done; if it takes in more code, the breakpoints for that are in the table before the thread goes on.
  method StatementTrap(d: Debugger, tid: nat, si: SiCode, hwHits: set<nat>, stops: set<nat>, kind: LineStep.StepKind,
                       stepCfa: int, ranges: seq<Range>, cfa: Option<int>, addr: nat,
                       line: Option<StatementSteps.LineAt>, code: LineStep.Code, readable: bool)
    returns (hit: bool, v: StatementSteps.Verdict)
    requires OnStep(d, tid) && tid in d.causes && Reported(d.causes[tid], d.threads[tid], si, hwHits)
    requires addr == PcAfter(d.causes[tid], d.code, d.threads[tid]) && NoInt3(code, d.code)
    modifies d, d.hardwareBreakpoints
    ensures d.Sound() && tid in d.threads && d.threads[tid].pc == addr
    ensures hit <==> v.Done?
    ensures if hit then d.targetState == ProcessSuspended && d.stepping.None?
            else d.targetState == Stepping && d.stepping == old(d.stepping)
    ensures cfa.Some? ==> (v.GoOn? <==> !LineStep.StepDone(kind, stepCfa, ranges, cfa.value, addr))
    ensures v.Extended? && v.added != [] ==>
              d.stoppingToHandleBreakpoints && forall b <- v.added ::
                  Step(b.kind) in RefsAt(d.breakpointLocations, b.addr)
  {
    hide Debugger.Sound, Reported, PcAfter, RefsAt, Spurious, TrapHit, StepsOver, NoInt3, LineStep.StepDone;
    v := StatementSteps.HandleStepStop(kind, stepCfa, ranges, cfa, addr, true, line, code, readable);
    var more := [];
    if v.Extended? {
      GuardsAreNoInt3(v.added, kind, code, Range(line.value.start, line.value.until.value), v.ranges,
          line.value.statement, d.code);
      more := AsSteps(v.added);
    }
    hide StatementSteps.Guards;
    ghost var t, locs, pool := d.threads[tid], d.breakpointLocations, d.breakpoints;
    var refresh: bool;
    hit, refresh := d.ProcessTrap(tid, si, hwHits, stops, v.Done?, more);
    NoHitWhileIgnoring(RefsAt(locs, TrapAddr(t, si, hwHits)), d.hardwareBreakpoints[..],
                       OriginalByte(d.code, TrapAddr(t, si, hwHits)) == INT3, si, hwHits, Spurious(t, hwHits), stops,
                       pool);
    if v.Extended? {
      forall b | b in v.added ensures Step(b.kind) in RefsAt(d.breakpointLocations, b.addr) {
        var i :| 0 <= i < |more| && v.added[i] == b;
        assert more[i] in more;
      }
    }
  }

  // There is an active location where the thread stands, on an instruction that is not an int3.
  ghost predicate StandsOnArmed(d: Debugger, tid: nat)
    reads d
  {
    && tid in d.threads && OriginalByte(d.code, d.threads[tid].pc) != INT3
    && exists l <- d.breakpointLocations :: l.active && l.addr == d.threads[tid].pc
  }

  // What is reported of a hit there: of an int3, or of a slot.
  ghost predicate ReportsHit(d: Debugger, tid: nat, si: SiCode, hwHits: set<nat>)
    requires tid in d.threads
    reads d
  {
    if PatchedAt(d.breakpointLocations, d.threads[tid].pc) then (si == TrapBrkpt || si == Kernel) && hwHits == {}
    else si != User && hwHits != {} && !d.threads[tid].singleStepping
  }

  // A thread that stands on an armed location traps there.
  method RunsInto(d: Debugger, tid: nat, si: SiCode, hwHits: set<nat>)
    requires OnStep(d, tid) && tid !in d.causes && StandsOnArmed(d, tid) && ReportsHit(d, tid, si, hwHits)
    modifies d`threads, d`causes
    ensures OnStep(d, tid) && tid in d.causes && d.causes - {tid} == old(d.causes) - {tid}
    ensures Reported(d.causes[tid], d.threads[tid], si, hwHits)
    ensures PcAfter(d.causes[tid], d.code, d.threads[tid]) == old(d.threads)[tid].pc
    ensures TrapAddr(d.threads[tid], si, hwHits) == old(d.threads)[tid].pc
    ensures d.threads == old(d.threads)[tid := d.threads[tid]]
  {
    hide Debugger.Sound, PatchedAt, OriginalByte, Reported, PcAfter, TrapAddr;
    ByteThere(d, tid);
    var t := d.threads[tid];
    ghost var patched := PatchedAt(d.breakpointLocations, t.pc);
    d.Execute(tid, t.pc, Some(HardwareHit));
    HitIsReported(d.code, t, patched, si, hwHits);
  }

  lemma HitIsReported(code: Memory, t: Thread, patched: bool, si: SiCode, hwHits: set<nat>)
    requires OriginalByte(code, t.pc) != INT3 && !t.singleStepping
    requires if patched then (si == TrapBrkpt || si == Kernel) && hwHits == {} else si != User && hwHits != {}
    ensures var t' := if patched then t.(pc := t.pc + 1) else t;
            var cause := if patched then Int3(t.pc) else HardwareHit;
            Reported(cause, t', si, hwHits) && PcAfter(cause, code, t') == t.pc && TrapAddr(t', si, hwHits) == t.pc
  {
  }

  lemma ByteThere(d: Debugger, tid: nat)
    requires d.Sound() && StandsOnArmed(d, tid) && tid !in d.causes && d.threads[tid].state == Running &&
             !d.threads[tid].exiting
    ensures var t := d.threads[tid];
            if PatchedAt(d.breakpointLocations, t.pc) then
              t.pc in d.memory && d.memory[t.pc] == INT3 && !t.singleStepping
            else t.pc in d.memory ==> d.memory[t.pc] != INT3
  {
    assert ThreadOk(d.breakpointLocations, d.code, d.stoppingToHandleBreakpoints, NeedsStep(d.stepping, tid),
                    CauseOf(d.causes, tid), d.threads[tid]);
  }

  // The moment the step is over, the thread stands on a breakpoint of the plan: it is stopped there for good.
  method StopsOnBreakpoint(d: Debugger, tid: nat, si: SiCode, hwHits: set<nat>, stops: set<nat>,
                           kind: LineStep.StepKind, base: nat, ranges: seq<Range>, start: LineStep.Machine,
                           m: LineStep.Machine) returns (hit: bool)
    requires OnStep(d, tid) && tid !in d.causes && StandsOnArmed(d, tid) && ReportsHit(d, tid, si, hwHits)
    requires d.threads[tid].pc == m.pc && Canonical(ranges) && SameBelow(base, start, m)
    modifies d, d.hardwareBreakpoints
    ensures d.Sound() && tid in d.threads && d.threads[tid].pc == m.pc
    ensures hit <==> LineStep.Escaped(kind, base, ranges, m)
    ensures if hit then d.targetState == ProcessSuspended && d.stepping.None?
            else d.targetState == Stepping && d.stepping == old(d.stepping)
  {
    hide Debugger.Sound, Reported, PcAfter, Canonical, SameBelow, StandsOnArmed, ReportsHit;
    RunsInto(d, tid, si, hwHits);
    hit := StepTrap(d, tid, si, hwHits, stops, kind, base, ranges, start, m);
  }

  // The step is over one instruction after a call or jump-out breakpoint: the thread, the only one running, traps
  // there, is let go by a single instruction, and is then stopped for good. If dealing with the breakpoint fails, the
  // session ends.
  method StopsAfterSingleStep(d: Debugger, tid: nat, reports: seq<(SiCode, set<nat>)>, stops: set<nat>,
                              kind: LineStep.StepKind, base: nat, ranges: seq<Range>, start: LineStep.Machine,
                              m: LineStep.Machine, m': LineStep.Machine) returns (ok: bool, hit: bool)
    requires OnStep(d, tid) && d.causes == map[] && StandsOnArmed(d, tid) && d.threads[tid].pc == m.pc
    requires |reports| == 2 && ReportsHit(d, tid, reports[0].0, reports[0].1) && reports[1].0 != User
    requires StepsOver(RefsAt(d.breakpointLocations, m.pc), d.stepping, tid) && !d.waitingForSymbols
    requires forall x <- d.threads.Keys :: x != tid ==> d.threads[x].exiting || d.threads[x].state == Suspended
    requires Canonical(ranges) && SameBelow(base, start, m) && SameBelow(base, start, m')
    requires !LineStep.Escaped(kind, base, ranges, m) && LineStep.Escaped(kind, base, ranges, m')
    modifies d, d.hardwareBreakpoints
    ensures ok ==> hit && d.Sound() && d.targetState == ProcessSuspended && d.stepping.None?
    ensures ok ==> tid in d.threads && d.threads[tid].pc == m'.pc
  {
    hide Debugger.Sound, Reported, PcAfter, Canonical, SameBelow, ReportsHit, StepsOver, RefsAt, Rearmed, Marked;
    RunsInto(d, tid, reports[0].0, reports[0].1);
    hit := StepTrap(d, tid, reports[0].0, reports[0].1, stops, kind, base, ranges, start, m);
    ok := LetGo(d, tid);
    if ok {
      OneInstruction(d, tid, m'.pc, reports[1].0, reports[1].1);
      hit := StepTrap(d, tid, reports[1].0, reports[1].1, stops, kind, base, ranges, start, m');
    }
  }

  // Once the breakpoint the thread stands on has been dealt with, the thread runs in single-step mode.
  method LetGo(d: Debugger, tid: nat) returns (ok: bool)
    requires d.Sound() && d.targetState == Stepping && d.stepping.Some? && d.stepping.value.tid == tid &&
             !d.waitingForSymbols
    requires tid in d.threads && !d.threads[tid].exiting && d.threads[tid].singleStepping
    requires d.threads[tid].state == if d.stoppingToHandleBreakpoints then Suspended else Running
    requires forall x <- d.threads.Keys :: x != tid ==> d.threads[x].exiting || d.threads[x].state == Suspended
    modifies d`breakpointLocations, d`memory, d`breakpoints, d`registers, d`threads, d`stoppingToHandleBreakpoints,
             d.hardwareBreakpoints
    ensures ok ==> OnStep(d, tid) && d.threads[tid].singleStepping && d.threads[tid].pc == old(d.threads)[tid].pc
  {
    hide Debugger.Sound, Rearmed, KnownPcs, Marked, Debugger.SlotsPushed, PcsKnown;
    MarkedSame(d.threads, d.breakpointLocations, tid);
    ok := d.FinishEvents();
  }

  lemma MarkedSame(threads: map<nat, Thread>, locs: seq<Location>, tid: nat)
    requires tid in threads
    ensures var t := Marked(threads, locs);
            t.Keys == threads.Keys && t[tid].(ignoreNextHitAt := None) == threads[tid].(ignoreNextHitAt := None)
  {
  }

  // A thread in single-step mode executes one instruction.
  method OneInstruction(d: Debugger, tid: nat, pc: nat, ghost si: SiCode, ghost hwHits: set<nat>)
    requires OnStep(d, tid) && tid !in d.causes && d.threads[tid].singleStepping && si != User
    requires OriginalByte(d.code, d.threads[tid].pc) != INT3
    modifies d`threads, d`causes
    ensures OnStep(d, tid) && tid in d.causes && Reported(d.causes[tid], d.threads[tid], si, hwHits)
    ensures PcAfter(d.causes[tid], d.code, d.threads[tid]) == pc
  {
    NotPatchedThere(d, tid);
    hide Debugger.Sound, OriginalByte;
    d.Execute(tid, pc, None);
  }

  lemma NotPatchedThere(d: Debugger, tid: nat)
    requires OnStep(d, tid) && tid !in d.causes && d.threads[tid].singleStepping
    requires OriginalByte(d.code, d.threads[tid].pc) != INT3
    ensures var pc := d.threads[tid].pc; pc in d.memory ==> d.memory[pc] != INT3
  {
  }

  // ---------- The whole step ----------

  // Every step breakpoint of the plan is in the table and active.
  ghost predicate PlanArmed(d: Debugger, bps: seq<LineStep.StepBreakpoint>)
    reads d
  {
    && (forall b <- bps :: Step(b.kind) in RefsAt(d.breakpointLocations, b.addr))
    && (forall l <- d.breakpointLocations :: l.active)
  }

  lemma ArmedThere(d: Debugger, tid: nat, bps: seq<LineStep.StepBreakpoint>, b: LineStep.StepBreakpoint)
    requires PlanArmed(d, bps) && b in bps && tid in d.threads && d.threads[tid].pc == b.addr
    requires OriginalByte(d.code, b.addr) != INT3
    ensures StandsOnArmed(d, tid)
    ensures NeedsSingleStep(b.kind) && d.stepping.Some? && d.stepping.value.tid == tid ==>
              StepsOver(RefsAt(d.breakpointLocations, b.addr), d.stepping, tid)
  {
  }

  lemma BelowStays(base: nat, code: LineStep.Code, ranges: seq<Range>, start: LineStep.Machine, m: LineStep.Machine,
                   m': LineStep.Machine)
    requires LineStep.Held(base, code, ranges, start, m) && LineStep.Steps(code, ranges, m, m')
    requires LineStep.GoodStack(start.frames)
    ensures SameBelow(base, start, m) && SameBelow(base, start, m')
  {
    var insn: LineStep.Insn :| LineStep.Executes(insn, m, m');
    LineStep.ExecutesKeepsGood(insn, m, m');
    var n := if |m'.frames| <= base then |m'.frames| else base + 1;
    assert m'.frames[..n] == m.frames[..n] == m.frames[..base + 1][..n] == start.frames[..n];
  }

  // Where the thread is when its last trap but one, or its last, of the step comes.
  ghost function LastStop(bps: seq<LineStep.StepBreakpoint>, run: seq<LineStep.Machine>, k: nat): LineStep.Machine
    requires 0 < k < |run|
  {
    if LineStep.StandsOn(bps, run[k]) then run[k] else run[k - 1]
  }

  // What is known of the program, of the plan, and of a run that the step covers up to state k.
  ghost predicate RunOfStep(kind: LineStep.StepKind, base: nat, input: seq<Range>, types: set<StepBreakpointType>,
                            code: LineStep.Code, ranges: seq<Range>, ret: nat, bps: seq<LineStep.StepBreakpoint>,
                            run: seq<LineStep.Machine>, k: nat) {
    && kind != LineStep.Out && Canonical(ranges) && SameCover(ranges, input)
    && LineStep.Tiled(code, ranges) && LineStep.TypesSuffice(kind, types, code, ranges)
    && LineStep.Planned(bps, types, code, ranges, ranges, Some(ret))
    && LineStep.Execution(code, ranges, run) && 0 < k < |run|
    && LineStep.Held(base, code, ranges, run[0], run[0]) && !LineStep.Escaped(kind, base, input, run[0])
    && ret == run[0].frames[base].ret
    && (forall i :: 0 <= i < |run| - 1 ==> LineStep.LandsWell(base, code, ranges, run[i], run[i + 1]))
    && LineStep.FirstEscape(kind, base, input, run, k)
  }

  lemma LastStopIs(kind: LineStep.StepKind, base: nat, input: seq<Range>, types: set<StepBreakpointType>,
                   code: LineStep.Code, ranges: seq<Range>, ret: nat, bps: seq<LineStep.StepBreakpoint>,
                   run: seq<LineStep.Machine>, k: nat)
    requires RunOfStep(kind, base, input, types, code, ranges, ret, bps, run, k)
    ensures Canonical(ranges) && SameBelow(base, run[0], run[k - 1]) && SameBelow(base, run[0], run[k])
    ensures !LineStep.Escaped(kind, base, ranges, run[k - 1]) && LineStep.Escaped(kind, base, ranges, run[k])
    ensures LineStep.Stops(bps, run[k - 1], run[k])
  {
    hide Canonical, SameCover, LineStep.Planned, LineStep.TypesSuffice, LineStep.Tiled, LineStep.LandsWell,
         LineStep.Escaped, LineStep.Steps;
    LineStep.LineStepIsExact(kind, base, input, types, code, ranges, Some(ret), bps, run, k);
    forall i | 0 <= i <= k
      ensures LineStep.Escaped(kind, base, ranges, run[i]) <==> LineStep.Escaped(kind, base, input, run[i])
    {
      LineStep.EscapeAgrees(kind, base, input, ranges, run[i]);
    }
    LineStep.HeldUntil(kind, base, types, code, ranges, Some(ret), bps, run, k - 1);
    BelowStays(base, code, ranges, run[0], run[k - 1], run[k]);
  }

  lemma NoInt3There(types: set<StepBreakpointType>, code: LineStep.Code, ranges: seq<Range>, ret: nat,
                    bps: seq<LineStep.StepBreakpoint>, b: LineStep.StepBreakpoint, memory: Memory)
    requires LineStep.Planned(bps, types, code, ranges, ranges, Some(ret)) && NoInt3(code, memory)
    requires b in bps && NeedsSingleStep(b.kind)
    ensures OriginalByte(memory, b.addr) != INT3
  {
  }

  // A line step, from its plan to its end. Whatever the program does, the step is over for the first time in state k
  // of the run; the thread then stands on an armed breakpoint of the plan, or did so one instruction before; and from
  // there the debugger stops it for good in that very state. If dealing with the breakpoint fails, the session ends.
  method LineStepEnds(d: Debugger, tid: nat, reports: seq<(SiCode, set<nat>)>, stops: set<nat>,
                      kind: LineStep.StepKind, base: nat, input: seq<Range>, types: set<StepBreakpointType>,
                      code: LineStep.Code, ranges: seq<Range>, ret: nat, bps: seq<LineStep.StepBreakpoint>,
                      run: seq<LineStep.Machine>, k: nat, onBreakpoint: bool) returns (ok: bool, hit: bool)
    requires RunOfStep(kind, base, input, types, code, ranges, ret, bps, run, k) && NoInt3(code, d.code)
    requires OnStep(d, tid) && d.causes == map[] && !d.waitingForSymbols && PlanArmed(d, bps)
    requires forall x <- d.threads.Keys :: x != tid ==> d.threads[x].exiting || d.threads[x].state == Suspended
    requires onBreakpoint == LineStep.StandsOn(bps, run[k])
    requires d.threads[tid].pc == LastStop(bps, run, k).pc && OriginalByte(d.code, run[k].pc) != INT3
    requires |reports| == 2 && ReportsHit(d, tid, reports[0].0, reports[0].1) && reports[1].0 != User
    modifies d, d.hardwareBreakpoints
    ensures ok ==> hit && d.Sound() && d.targetState == ProcessSuspended && d.stepping.None?
    ensures ok ==> tid in d.threads && d.threads[tid].pc == run[k].pc
  {
    hide Debugger.Sound, Canonical, SameBelow, ReportsHit, PlanArmed, NoInt3, LineStep.Escaped, RefsAt, StandsOnArmed,
         StepsOver, OriginalByte;
    LastStopIs(kind, base, input, types, code, ranges, ret, bps, run, k);
    hide LineStep.Planned, SameCover, LineStep.Tiled, LineStep.TypesSuffice, LineStep.Execution, LineStep.Held,
         LineStep.LandsWell, LineStep.FirstEscape;
    if onBreakpoint {
      ghost var on :| LineStep.StepBreakpoint(on, run[k].pc) in bps;
      ArmedThere(d, tid, bps, LineStep.StepBreakpoint(on, run[k].pc));
      hit := StopsOnBreakpoint(d, tid, reports[0].0, reports[0].1, stops, kind, base, ranges, run[0], run[k]);
      ok := true;
    } else {
      ghost var at := run[k - 1].pc;
      ghost var b := if LineStep.StepBreakpoint(StepBreakpointType.Call, at) in bps
                     then LineStep.StepBreakpoint(StepBreakpointType.Call, at)
                         else LineStep.StepBreakpoint(JumpOut, at);
      NoInt3There(types, code, ranges, ret, bps, b, d.code);
      ArmedThere(d, tid, bps, b);
      ok, hit := StopsAfterSingleStep(d, tid, reports, stops, kind, base, ranges, run[0], run[k - 1], run[k]);
    }
  }
}
