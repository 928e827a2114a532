// What must hold of threads and of the step in progress over a whole debugging session, and how a SIGTRAP is told
// apart by elimination.
module DebuggerSession {
  import opened Options
  import opened DebuggeeMemory
  import opened BreakpointTable
  import opened StepBreakpoints
  import opened HandleBreakpoints
  import opened BreakpointHistory
  import opened Placement
  import opened DebuggerModel

  // ---------- Causes of a trap ----------

  // Why a running thread really stopped with SIGTRAP. Int3(at): it executed the byte 0xcc there.
  datatype Cause = Int3(at: nat) | HardwareHit | SingleStepped | SentSignal

  datatype SiCode = User | TrapBrkpt | TrapTrace | TrapOther | Kernel

  // What the kernel and the CPU report for a cause. si_code is unreliable: a finished single step may be reported as
  // TRAP_BRKPT, and int3 as SI_KERNEL. hwHits are the low bits of DR6.
  predicate Reported(cause: Cause, t: Thread, si: SiCode, hwHits: set<nat>) {
    match cause
    case Int3(at) => (si == TrapBrkpt || si == Kernel) && hwHits == {}
    case HardwareHit => si != User && hwHits != {}
    case SingleStepped => si != User && t.singleStepping
    case SentSignal => si == User && hwHits == {}
  }

  // The injected int3 was hit, rather than one of the program's own.
  predicate IsOwnInt3(cause: Cause, code: Memory) {
    cause.Int3? && OriginalByte(code, cause.at) != INT3
  }

  predicate StoppedOnSoftware(si: SiCode, hwHits: set<nat>, singleStepping: bool) {
    (si == TrapBrkpt || si == Kernel) && hwHits == {} && !singleStepping
  }

  // The byte the program has at an address, as found in the table or else in memory.
  function ProgramByte(locs: seq<Location>, memory: Memory, addr: nat): bv8 {
    var i := LowerBound(locs, addr);
    if i < |locs| && locs[i].addr == addr then locs[i].originalByte else OriginalByte(memory, addr)
  }

  // Where the handler leaves the thread's instruction pointer.
  function PcAfterTrap(locs: seq<Location>, memory: Memory, t: Thread, si: SiCode, hwHits: set<nat>): nat {
    if StoppedOnSoftware(si, hwHits, t.singleStepping) && t.pc > 0 && ProgramByte(locs, memory, t.pc - 1) != INT3
    then t.pc - 1 else t.pc
  }

  // ---------- Threads ----------

  // needsStep: the thread is the one to be stepped one instruction at a time. A thread is never single-stepped from
  // an injected int3, or it is not resumed before handle_breakpoints.
  ghost predicate ThreadOk(locs: seq<Location>, code: Memory, handling: bool, needsStep: bool, cause: Option<Cause>,
                           t: Thread) {
    !t.exiting ==>
      && (t.state == Suspended ==> t.rip == Some(t.pc) && (cause.Some? ==> t.trapQueued))
      && (t.state == Running && needsStep ==> t.singleStepping)
      && ((t.singleStepping || needsStep) && cause.None? && !(t.state == Suspended && handling) ==>
          !PatchedAt(locs, t.pc))
      && (cause.Some? ==> CauseOk(code, cause.value, t))
  }

  ghost predicate CauseOk(code: Memory, cause: Cause, t: Thread) {
    && (cause.Int3? ==> t.pc == cause.at + 1)
    && (IsOwnInt3(cause, code) && !t.trapQueued ==> !t.singleStepping)
    && (cause == SingleStepped ==> t.singleStepping)
  }

  predicate NeedsStep(stepping: Option<StepState>, tid: nat) {
    stepping.Some? && stepping.value.singleSteps && stepping.value.tid == tid
  }

  function CauseOf(causes: map<nat, Cause>, tid: nat): Option<Cause> {
    if tid in causes then Some(causes[tid]) else None
  }

  // A thread that has been stopped by something else than a trap, which may be due.
  function Stopped(t: Thread, trapDue: bool): Thread {
    t.(state := Suspended, rip := Some(t.pc), trapQueued := trapDue)
  }

  // A thread once it has been let run, in single-step mode if that is due.
  function Resumed(t: Thread, needsStep: bool): Thread {
    if t.state == Running then t
    else t.(state := Running, singleStepping := t.singleStepping || needsStep, afterUserDebugTrap := false)
  }

  ghost predicate ThreadsOk(locs: seq<Location>, code: Memory, handling: bool, stepping: Option<StepState>,
                            causes: map<nat, Cause>, threads: map<nat, Thread>) {
    forall tid :: tid in threads ==>
        ThreadOk(locs, code, handling, NeedsStep(stepping, tid), CauseOf(causes, tid), threads[tid])
  }

  // Once live threads have stopped for the first time, their debug registers are all set, or writing them has failed.
  ghost predicate Covered(threads: map<nat, Thread>, registers: map<nat, Registers>) {
    forall tid <- threads.Keys ::
      threads[tid].exiting || threads[tid].waitingForInitialStop || SetOrFailed(registers, tid)
  }

  ghost predicate SetOrFailed(registers: map<nat, Registers>, tid: nat) {
    tid in registers && (registers[tid].programmed || registers[tid].failedWrites > 0)
  }

  // Failed writes are only counted up, and these threads remain set or failed.
  ghost predicate StaySet(registers: map<nat, Registers>, registers': map<nat, Registers>, tids: set<nat>) {
    forall tid <- registers.Keys ::
      && tid in registers' && registers'[tid].failedWrites >= registers[tid].failedWrites
      && (tid in tids && SetOrFailed(registers, tid) ==> SetOrFailed(registers', tid))
  }

  ghost predicate SomeWriteFailed(registers: map<nat, Registers>, registers': map<nat, Registers>) {
    exists tid :: MoreFailed(registers, registers', tid)
  }

  predicate MoreFailed(registers: map<nat, Registers>, registers': map<nat, Registers>, tid: nat) {
    tid in registers' && registers'[tid].failedWrites > if tid in registers then registers[tid].failedWrites else 0
  }

  predicate SetNow(registers: map<nat, Registers>, registers': map<nat, Registers>, tid: nat) {
    tid in registers' && (registers'[tid].programmed || MoreFailed(registers, registers', tid))
  }

  lemma StaySetTrans(a: map<nat, Registers>, b: map<nat, Registers>, c: map<nat, Registers>, tids: set<nat>)
    requires StaySet(a, b, tids) && StaySet(b, c, tids)
    ensures StaySet(a, c, tids)
    ensures SomeWriteFailed(a, b) || SomeWriteFailed(b, c) ==> SomeWriteFailed(a, c)
  {
    if tid :| MoreFailed(a, b, tid) {
      assert MoreFailed(a, c, tid);
    }
    if tid :| MoreFailed(b, c, tid) {
      assert MoreFailed(a, c, tid);
    }
  }

  // The registers of one thread have been written.
  lemma OneWritten(registers: map<nat, Registers>, registers': map<nat, Registers>, tid: nat, tids: set<nat>)
    requires registers - {tid} == registers' - {tid}
    requires SetNow(registers, registers', tid)
    requires tid in registers ==> registers'[tid].failedWrites >= registers[tid].failedWrites
    ensures StaySet(registers, registers', tids)
    ensures forall x :: x != tid && x in registers ==> x in registers' && registers'[x] == registers[x]
  {
    forall x | x in registers && x != tid ensures x in registers' && registers'[x] == registers[x] {
      OthersUnchanged(registers, registers', tid, x);
    }
  }

  lemma OneMoreWritten(registers0: map<nat, Registers>, registers: map<nat, Registers>,
                       registers': map<nat, Registers>, tid: nat, done: set<nat>, tids: set<nat>)
    requires registers - {tid} == registers' - {tid} && SetNow(registers, registers', tid)
    requires tid in registers ==> registers'[tid].failedWrites >= registers[tid].failedWrites
    requires StaySet(registers0, registers, tids) && forall x <- done :: SetNow(registers0, registers, x)
    ensures StaySet(registers0, registers', tids)
    ensures forall x <- done + {tid} :: SetNow(registers0, registers', x)
    ensures SomeWriteFailed(registers0, registers) ==> SomeWriteFailed(registers0, registers')
    ensures MoreFailed(registers, registers', tid) ==> SomeWriteFailed(registers0, registers')
  {
    OneWritten(registers, registers', tid, tids);
    StaySetTrans(registers0, registers, registers', tids);
  }

  // Threads outside tids do not count as set any more.
  lemma OthersUnset(registers0: map<nat, Registers>, registers: map<nat, Registers>, registers': map<nat, Registers>,
                    tids: set<nat>)
    requires StaySet(registers0, registers, tids) && StaySet(registers, registers', tids)
    requires forall tid <- tids :: SetNow(registers0, registers, tid) && tid in registers' &&
                 registers'[tid] == registers[tid]
    ensures StaySet(registers0, registers', tids)
    ensures forall tid <- tids :: SetNow(registers0, registers', tid)
    ensures SomeWriteFailed(registers0, registers) ==> SomeWriteFailed(registers0, registers')
  {
    StaySetTrans(registers0, registers, registers', tids);
  }

  lemma CoveredUpdate(threads: map<nat, Thread>, registers: map<nat, Registers>, tid: nat, t: Thread)
    requires Covered(threads, registers) && (tid in threads || t.waitingForInitialStop)
    requires tid in threads && !t.exiting && !t.waitingForInitialStop ==>
               SetOrFailed(registers, tid) || (!threads[tid].exiting && !threads[tid].waitingForInitialStop)
    ensures Covered(threads[tid := t], registers)
  {
  }

  lemma CoveredGrows(threads: map<nat, Thread>, registers: map<nat, Registers>, registers': map<nat, Registers>,
                     tids: set<nat>)
    requires Covered(threads, registers) && StaySet(registers, registers', tids)
    requires forall tid <- threads.Keys :: !threads[tid].exiting ==> tid in tids
    ensures Covered(threads, registers')
  {
  }

  lemma CoveredMeans(threads: map<nat, Thread>, registers: map<nat, Registers>)
    requires Covered(threads, registers)
    ensures forall tid <- threads.Keys ::
              threads[tid].exiting || threads[tid].waitingForInitialStop || SetOrFailed(registers, tid)
  {
  }

  lemma CoveredRemove(threads: map<nat, Thread>, registers: map<nat, Registers>, tid: nat)
    requires Covered(threads, registers)
    ensures Covered(threads - {tid}, registers - {tid})
  {
  }

  // Threads that execute an injected int3 were not being single-stepped.
  lemma ExecutedInt3(t: Table, code: Memory, handling: bool, needsStep: bool, thread: Thread)
    requires Inv(t, code) && ThreadOk(t.locations, code, handling, needsStep, None, thread)
    requires !thread.exiting && thread.state == Running
    requires thread.pc in t.memory && t.memory[thread.pc] == INT3
    ensures OriginalByte(code, thread.pc) != INT3 ==> PatchedAt(t.locations, thread.pc) && !thread.singleStepping
  {
  }

  lemma ProgramByteIsOriginal(t: Table, code: Memory, addr: nat)
    requires Inv(t, code) && UpToDate(t.locations, code)
    ensures ProgramByte(t.locations, t.memory, addr) == OriginalByte(code, addr)
  {
  }

  // Where a thread is to go on after a trap: at the patched instruction if it hit the debugger's own int3.
  function RightPc(cause: Cause, code: Memory, t: Thread): nat {
    if IsOwnInt3(cause, code) then cause.at else t.pc
  }

  // The debugger's own int3 was hit, but by the time the trap is reported the thread counts as single-stepping.
  predicate Misread(cause: Cause, code: Memory, t: Thread) {
    IsOwnInt3(cause, code) && t.singleStepping
  }

  // The handler puts the instruction pointer where it belongs if and only if it does not mistake an int3 for a
  // finished single step, which needs a trap that was queued behind another stop.
  lemma TrapClassification(t: Table, code: Memory, handling: bool, needsStep: bool, cause: Cause, thread: Thread,
                           si: SiCode, hwHits: set<nat>)
    requires Inv(t, code) && UpToDate(t.locations, code) &&
        ThreadOk(t.locations, code, handling, needsStep, Some(cause), thread) && !thread.exiting
    requires Reported(cause, thread, si, hwHits)
    ensures PcAfterTrap(t.locations, t.memory, thread, si, hwHits) == RightPc(cause, code, thread)
            <==> !Misread(cause, code, thread)
    ensures Misread(cause, code, thread) ==>
              thread.trapQueued && PcAfterTrap(t.locations, t.memory, thread, si, hwHits) == thread.pc
    ensures StoppedOnSoftware(si, hwHits, thread.singleStepping) ==> cause.Int3?
  {
  }

  // Unless handle_breakpoints is due, a stopped thread may be let run.
  lemma OkToResume(locs: seq<Location>, code: Memory, stepping: Option<StepState>, causes: map<nat, Cause>,
                   threads: map<nat, Thread>, tid: nat)
    requires ThreadsOk(locs, code, false, stepping, causes, threads) && tid in threads
    ensures var t := threads[tid];
            !t.exiting && tid !in causes && (t.singleStepping || NeedsStep(stepping, tid)) ==> !PatchedAt(locs, t.pc)
  {
  }

  lemma TrapReadRight(locs: seq<Location>, code: Memory, handling: bool, stepping: Option<StepState>, causes: map<nat,
                      Cause>, threads: map<nat, Thread>, tid: nat)
    requires ThreadsOk(locs, code, handling, stepping, causes, threads)
    requires tid in threads && tid in causes && !threads[tid].exiting
    ensures var t, cause := threads[tid], causes[tid];
            && (PcAfter(cause, code, t) == RightPc(cause, code, t) <==> !Misread(cause, code, t))
            && (!t.trapQueued ==> !Misread(cause, code, t))
  {
  }

  // ---------- References ----------

  // Step references exist only during a step, and never ask to single-step over an int3. The references to
  // breakpoints are where active breakpoints ask for them.
  ghost predicate RefsOk(locs: seq<Location>, stepping: bool, pool: Pool) {
    StepRefsOk(locs, stepping) && Placed(locs, pool)
  }

  ghost predicate StepRefsOk(locs: seq<Location>, stepping: bool) {
    forall l <- locs, r <- l.breakpoints :: RefOk(l, r, stepping)
  }

  ghost predicate RefOk(l: Location, r: BreakpointRef, stepping: bool) {
    r.Step? ==> stepping && (NeedsSingleStep(r.t) ==> l.originalByte != INT3)
  }

  // What is referred to exists and is active.
  lemma Referred(locs: seq<Location>, pool: Pool, l: Location, r: BreakpointRef)
    requires Placed(locs, pool) && l in locs && r in l.breakpoints && r.Id?
    ensures Wants(pool, r.id, l.addr, r.level)
  {
    assert HasRef(locs, l.addr, Id(r.id, r.level));
  }

  // No location that was not there before is an active software location now.
  ghost predicate PatchesShrink(a: seq<Location>, b: seq<Location>) {
    forall x :: PatchedAt(b, x) ==> PatchedAt(a, x)
  }

  lemma ThreadsOkShrink(a: seq<Location>, b: seq<Location>, code: Memory, handling: bool, stepping: Option<StepState>,
                        causes: map<nat, Cause>, threads: map<nat, Thread>)
    requires ThreadsOk(a, code, handling, stepping, causes, threads) && PatchesShrink(a, b)
    ensures ThreadsOk(b, code, handling, stepping, causes, threads)
  {
  }

  lemma FailedShrinks(a: seq<Location>, b: seq<Location>)
    requires SomeFailed(a, b)
    ensures PatchesShrink(a, b)
  {
  }

  lemma FailedRefsOk(a: seq<Location>, b: seq<Location>, stepping: bool, pool: Pool, pool': Pool)
    requires RefsOk(a, stepping, pool) && SomeFailed(a, b) && KeepsRefs(pool, a, b) && PoolStays(pool, pool')
    ensures RefsOk(b, stepping, pool')
  {
    FailedKeepsRefs(a, b, pool);
    SameRefsPlaced(a, b, pool);
    PoolStaysPlaced(b, pool, pool');
    forall l, r | l in b && r in l.breakpoints ensures RefOk(l, r, stepping) {
      var i :| 0 <= i < |b| && b[i] == l;
      assert MayHaveFailed(a[i], b[i]) && a[i] in a && RefOk(a[i], r, stepping);
    }
  }

  // Only references to data breakpoints may go, and there are none.
  lemma FailedKeepsRefs(a: seq<Location>, b: seq<Location>, pool: Pool)
    requires Placed(a, pool) && SomeFailed(a, b) && KeepsRefs(pool, a, b)
    ensures SameReferences(a, b)
  {
    forall addr: nat, r: BreakpointRef ensures HasRef(b, addr, r) <==> HasRef(a, addr, r) {
      if HasRef(a, addr, r) {
        var i :| 0 <= i < |a| && a[i].addr == addr && r in a[i].breakpoints;
        assert MayHaveFailed(a[i], b[i]) && KeepsRefsAt(pool, a[i], b[i]) && b[i] in b;
        if r.Id? {
          Referred(a, pool, a[i], r);
        }
      }
      if HasRef(b, addr, r) {
        var i :| 0 <= i < |b| && b[i].addr == addr && r in b[i].breakpoints;
        assert MayHaveFailed(a[i], b[i]) && a[i] in a;
      }
    }
  }

  lemma PoolStaysPlaced(locs: seq<Location>, pool: Pool, pool': Pool)
    requires Placed(locs, pool) && PoolStays(pool, pool')
    ensures Placed(locs, pool')
  {
    hide HasRef;
    assert forall id: nat, addr: nat, level: nat :: Wants(pool', id, addr, level) <==> Wants(pool, id, addr, level);
  }

  lemma AddLocationShrinks(t: Table, ref: BreakpointRef, addr: nat)
    ensures PatchesShrink(t.locations, AddLocation(t, ref, addr).locations)
  {
  }

  lemma OriginalBytes(t: Table, code: Memory)
    requires UpToDate(t.locations, code)
    ensures forall l <- t.locations :: l.originalByte == OriginalByte(code, l.addr)
  {
  }

  // A reference is the new one, at its address, or it was there before.
  lemma {:induction false} RefOrigin(t: Table, ref: BreakpointRef, addr: nat, l: Location, r: BreakpointRef)
    requires l in AddLocation(t, ref, addr).locations && r in l.breakpoints
    ensures (r == ref && l.addr == addr)
            || exists l0 <- t.locations :: r in l0.breakpoints && l0.addr == l.addr && l0.originalByte == l.originalByte
  {
  }

  lemma {:induction false} AddLocationStepRefs(t: Table, code: Memory, ref: BreakpointRef, addr: nat, stepping: bool)
    requires Inv(t, code) && UpToDate(t.locations, code) && StepRefsOk(t.locations, stepping)
    requires ref.Step? ==> stepping && (NeedsSingleStep(ref.t) ==> OriginalByte(code, addr) != INT3)
    ensures StepRefsOk(AddLocation(t, ref, addr).locations, stepping)
  {
    hide Inv, OriginalByte, AddLocation, UpToDate;
    var locs' := AddLocation(t, ref, addr).locations;
    AddLocationUpToDate(t, code, ref, addr);
    OriginalBytes(AddLocation(t, ref, addr), code);
    forall l, r | l in locs' && r in l.breakpoints
      ensures RefOk(l, r, stepping)
    {
      RefOrigin(t, ref, addr, l, r);
      if !(r == ref && l.addr == addr) {
        var l0 :| l0 in t.locations && r in l0.breakpoints && l0.addr == l.addr && l0.originalByte == l.originalByte;
        assert RefOk(l0, r, stepping);
      }
    }
  }

  lemma DropKeepsStepRefs(locs: seq<Location>, drop: BreakpointRef -> bool, stepping: bool)
    requires StepRefsOk(locs, stepping)
    ensures StepRefsOk(DropRefs(locs, drop), stepping)
  {
    var locs' := DropRefs(locs, drop);
    forall l, r | l in locs' && r in l.breakpoints
      ensures RefOk(l, r, stepping)
    {
      var i :| 0 <= i < |locs'| && locs'[i] == l;
      RetainedMembers(locs[i].breakpoints, drop, r);
      assert locs[i] in locs && RefOk(locs[i], r, stepping);
    }
  }

  lemma DropStepsRefsOk(locs: seq<Location>, stepping: bool, pool: Pool)
    requires RefsOk(locs, stepping, pool)
    ensures RefsOk(DropRefs(locs, IsStep), false, pool)
  {
    var locs' := DropRefs(locs, IsStep);
    DropStepsPlaced(locs, pool);
    forall l, r | l in locs' && r in l.breakpoints
      ensures RefOk(l, r, false)
    {
      var i :| 0 <= i < |locs'| && locs'[i] == l;
      RetainedMembers(locs[i].breakpoints, IsStep, r);
    }
  }

  lemma DropRefsShrinks(locs: seq<Location>, drop: BreakpointRef -> bool)
    ensures PatchesShrink(locs, DropRefs(locs, drop))
  {
  }

  lemma AddStepsOk(t: Table, code: Memory, steps: seq<(StepBreakpointType, nat)>, pool: Pool)
    requires Inv(t, code) && UpToDate(t.locations, code) && RefsOk(t.locations, true, pool)
    requires forall p <- steps :: NeedsSingleStep(p.0) ==> OriginalByte(code, p.1) != INT3
    ensures RefsOk(AddSteps(t, steps).locations, true, pool) && PatchesShrink(t.locations, AddSteps(t, steps).locations)
  {
    hide StepRefsOk, Placed, Inv, UpToDate;
    AddStepsPlaced(t, steps, pool);
    AddStepsStepRefs(t, code, steps);
  }

  lemma {:induction false} AddStepsStepRefs(t: Table, code: Memory, steps: seq<(StepBreakpointType, nat)>)
    requires Inv(t, code) && UpToDate(t.locations, code) && StepRefsOk(t.locations, true)
    requires forall p <- steps :: NeedsSingleStep(p.0) ==> OriginalByte(code, p.1) != INT3
    ensures StepRefsOk(AddSteps(t, steps).locations, true) && PatchesShrink(t.locations, AddSteps(t, steps).locations)
  {
    hide StepRefsOk, Inv, UpToDate;
    if steps != [] {
      var n := |steps| - 1;
      AddStepsStepRefs(t, code, steps[..n]);
      AddStepsKeeps(t, code, steps[..n]);
      AddStepsUpToDate(t, code, steps[..n]);
      var u := AddSteps(t, steps[..n]);
      assert steps[n] in steps;
      AddLocationStepRefs(u, code, Step(steps[n].0), steps[n].1, true);
      AddLocationShrinks(u, Step(steps[n].0), steps[n].1);
    }
  }

  lemma {:induction false} AddLocationsStepRefs(t: Table, code: Memory, id: nat, addrs: seq<(nat, nat)>, stepping: bool)
    requires Inv(t, code) && UpToDate(t.locations, code) && StepRefsOk(t.locations, stepping)
    ensures StepRefsOk(AddLocations(t, id, addrs).locations, stepping) &&
        PatchesShrink(t.locations, AddLocations(t, id, addrs).locations)
  {
    hide StepRefsOk, Inv, UpToDate;
    if addrs != [] {
      var n := |addrs| - 1;
      AddLocationsStepRefs(t, code, id, addrs[..n], stepping);
      AddLocationsKeeps(t, code, id, addrs[..n]);
      AddLocationsUpToDate(t, code, id, addrs[..n]);
      var u := AddLocations(t, id, addrs[..n]);
      AddLocationStepRefs(u, code, Id(id, addrs[n].1), addrs[n].0, stepping);
      AddLocationShrinks(u, Id(id, addrs[n].1), addrs[n].0);
    }
  }

  lemma HandleRefsOk(t: Table, code: Memory, pcs: set<nat>, stepTid: Option<nat>, stepping: bool, pool: Pool)
    requires Inv(t, code) && UpToDate(t.locations, code) && RefsOk(t.locations, stepping, pool)
    ensures Deactivatable(t) && RefsOk(Handle(t, pcs, stepTid).locations, stepping, pool)
  {
    HandledRefs(t, code, pcs, stepTid);
    SameRefsPlaced(t.locations, Handle(t, pcs, stepTid).locations, pool);
    HandleStepRefs(t, code, pcs, stepTid, stepping);
  }

  lemma HandleStepRefs(t: Table, code: Memory, pcs: set<nat>, stepTid: Option<nat>, stepping: bool)
    requires Inv(t, code) && UpToDate(t.locations, code) && StepRefsOk(t.locations, stepping)
    ensures Deactivatable(t) && StepRefsOk(Handle(t, pcs, stepTid).locations, stepping)
  {
    HandledRefs(t, code, pcs, stepTid);
    HandleUpToDate(t, code, pcs, stepTid);
    hide Inv, Handle, OriginalByte, NeedsSingleStep;
    var locs, locs' := t.locations, Handle(t, pcs, stepTid).locations;
    forall l, r | l in locs' && r in l.breakpoints
      ensures RefOk(l, r, stepping)
    {
      assert HasRef(locs', l.addr, r);
      var k :| k in locs && k.addr == l.addr && r in k.breakpoints;
      assert RefOk(k, r, stepping);
    }
  }

  lemma HandledThreadsOk(locs: seq<Location>, locs': seq<Location>, code: Memory, handling: bool,
                         stepping: Option<StepState>, causes: map<nat, Cause>, threads: map<nat, Thread>,
                         threads': map<nat, Thread>)
    requires ThreadsOk(locs, code, true, stepping, causes, threads)
    requires threads'.Keys == threads.Keys
    requires forall tid <- threads.Keys ::
        threads'[tid].(ignoreNextHitAt := None) == threads[tid].(ignoreNextHitAt := None)
    requires PcsKnown(threads') && NotOnPatch(threads', locs')
    ensures ThreadsOk(locs', code, handling, stepping, causes, threads')
  {
  }

  // One thread's entry changes.
  lemma ThreadsOkUpdate(locs: seq<Location>, code: Memory, handling: bool, handling': bool,
                        stepping: Option<StepState>, causes: map<nat, Cause>, causes': map<nat, Cause>,
                        threads: map<nat, Thread>, tid: nat, t: Thread)
    requires ThreadsOk(locs, code, handling, stepping, causes, threads) && (handling ==> handling')
    requires forall x :: x != tid ==> CauseOf(causes, x) == CauseOf(causes', x)
    requires ThreadOk(locs, code, handling', NeedsStep(stepping, tid), CauseOf(causes', tid), t)
    ensures ThreadsOk(locs, code, handling', stepping, causes', threads[tid := t])
  {
  }

  lemma ResumedIsFine(locs: seq<Location>, code: Memory, handling: bool, stepping: Option<StepState>,
                      causes: map<nat, Cause>, threads: map<nat, Thread>, tid: nat)
    requires ThreadsOk(locs, code, handling, stepping, causes, threads) && tid in threads
    requires var t := threads[tid];
             t.state == Suspended && !t.exiting && tid !in causes && (t.singleStepping || NeedsStep(stepping, tid)) ==>
               !PatchedAt(locs, t.pc)
    ensures ThreadsOk(locs, code, handling, stepping, causes,
                      threads[tid := Resumed(threads[tid], NeedsStep(stepping, tid))])
  {
  }

  lemma NoLongerWaiting(locs: seq<Location>, code: Memory, handling: bool, stepping: Option<StepState>,
                        causes: map<nat, Cause>, threads: map<nat, Thread>, tid: nat)
    requires ThreadsOk(locs, code, handling, stepping, causes, threads) && tid in threads
    ensures ThreadsOk(locs, code, handling, stepping, causes,
                      threads[tid := threads[tid].(waitingForInitialStop := false)])
  {
  }

  // A step ends, or handle_breakpoints becomes due.
  lemma ThreadsOkRelax(locs: seq<Location>, code: Memory, handling: bool, handling': bool,
                       stepping: Option<StepState>, stepping': Option<StepState>, causes: map<nat, Cause>,
                       threads: map<nat, Thread>)
    requires ThreadsOk(locs, code, handling, stepping, causes, threads) && (handling ==> handling')
    requires stepping' == stepping || stepping' == None
    ensures ThreadsOk(locs, code, handling', stepping', causes, threads)
  {
  }

  // With nothing running, every live thread is stopped at a known address.
  lemma StoppedThreads(locs: seq<Location>, code: Memory, stepping: Option<StepState>, causes: map<nat, Cause>,
                       threads: map<nat, Thread>)
    requires ThreadsOk(locs, code, true, stepping, causes, threads)
    requires forall tid <- threads.Keys :: !(threads[tid].state == Running && !threads[tid].exiting)
    ensures PcsKnown(threads)
  {
  }

  lemma MarkedThreads(threads: map<nat, Thread>, locs: seq<Location>)
    ensures var m := MarkUpTo(threads, locs, |locs|);
            && m.Keys == threads.Keys
            && (forall tid <- m.Keys :: m[tid].(ignoreNextHitAt := None) == threads[tid].(ignoreNextHitAt := None))
            && (PcsKnown(threads) ==> PcsKnown(m))
  {
  }

  // Exactly those threads are marked to ignore a hit that stand where a software location is about to be converted, and
  // do not stand there because of an int3 of the program.
  lemma MarkedIff(threads: map<nat, Thread>, locs: seq<Location>, tid: nat)
    requires tid in threads
    ensures Marked(threads, locs).Keys == threads.Keys
    ensures var t := threads[tid];
            var converted := exists l <- locs ::
              l.breakpoints != [] && !l.hardware && t.rip == Some(l.addr) && !t.afterUserDebugTrap;
            Marked(threads, locs)[tid] == if converted then t.(ignoreNextHitAt := t.rip) else t
  {
    forall l ensures l in Kept(locs) <==> l in locs && l.breakpoints != [] {
      KeptMembers(locs, l);
    }
    assert Kept(locs)[..|Kept(locs)|] == Kept(locs);
  }

  // When a step begins, its thread is stopped; it may stand on an injected int3 until that is handled.
  lemma StepBegins(locs: seq<Location>, code: Memory, handling: bool, causes: map<nat, Cause>, threads: map<nat,
                   Thread>, step: StepState, pool: Pool)
    requires ThreadsOk(locs, code, handling, None, causes, threads) && RefsOk(locs, false, pool)
    requires step.tid in threads && threads[step.tid].state == Suspended
    ensures ThreadsOk(locs, code, true, Some(step), causes, threads) && RefsOk(locs, true, pool)
  {
  }

  // If no software location is at the thread's address, it may be single-stepped right away.
  lemma StepFromUnpatched(t: Table, code: Memory, handling: bool, stepping: Option<StepState>, causes: map<nat,
                          Cause>, threads: map<nat, Thread>, tid: nat)
    requires Inv(t, code) && ThreadsOk(t.locations, code, true, stepping, causes, threads)
    requires stepping.Some? && stepping.value.tid == tid && tid in threads
    requires ThreadsOk(t.locations, code, handling, None, causes, threads)
    requires var i := LowerBound(t.locations, threads[tid].pc);
             i < |t.locations| && t.locations[i].addr == threads[tid].pc ==> t.locations[i].hardware
    ensures ThreadsOk(t.locations, code, handling, stepping, causes, threads)
  {
  }

  lemma StepWithoutSingleSteps(locs: seq<Location>, code: Memory, handling: bool, step: StepState, causes: map<nat,
                               Cause>, threads: map<nat, Thread>)
    requires ThreadsOk(locs, code, handling, None, causes, threads) && !step.singleSteps
    ensures ThreadsOk(locs, code, handling, Some(step), causes, threads)
  {
  }

  lemma NoStepRefs(locs: seq<Location>, pool: Pool)
    requires RefsOk(locs, false, pool)
    ensures forall l <- locs, r <- l.breakpoints :: r.Id?
  {
  }

  lemma RefsOkDuringStep(locs: seq<Location>, pool: Pool)
    requires RefsOk(locs, false, pool)
    ensures RefsOk(locs, true, pool)
  {
  }

  // A step to the cursor begins: it single-steps nothing, and adds references only.
  lemma CursorStepsOk(s: State, code: Memory, handling: bool, step: StepState, causes: map<nat, Cause>,
                      threads: map<nat, Thread>, steps: seq<(StepBreakpointType, nat)>)
    requires Good(s, code) && UpToDate(s.table.locations, code) && RefsOk(s.table.locations, false, s.pool)
    requires ThreadsOk(s.table.locations, code, handling, None, causes, threads) && !step.singleSteps
    requires forall p <- steps :: !NeedsSingleStep(p.0)
    ensures var t := AddSteps(s.table, steps);
            && Good(s.(table := t), code) && UpToDate(t.locations, code) && RefsOk(t.locations, true, s.pool)
            && ThreadsOk(t.locations, code, true, Some(step), causes, threads)
            && ThreadsOk(t.locations, code, handling, Some(step), causes, threads)
  {
    StepWithoutSingleSteps(s.table.locations, code, handling, step, causes, threads);
    ThreadsOkRelax(s.table.locations, code, handling, true, Some(step), Some(step), causes, threads);
    RefsOkDuringStep(s.table.locations, s.pool);
    AddStepsKeeps(s.table, code, steps);
    AddStepsUpToDate(s.table, code, steps);
    AddStepsOk(s.table, code, steps, s.pool);
    var locs := AddSteps(s.table, steps).locations;
    hide ThreadsOk;
    ThreadsOkShrink(s.table.locations, locs, code, true, Some(step), causes, threads);
    ThreadsOkShrink(s.table.locations, locs, code, handling, Some(step), causes, threads);
  }

  // A breakpoint changes that asks for no reference, before or after.
  lemma PoolGrows(locs: seq<Location>, stepping: bool, pool: Pool, id: nat, b: Breakpoint)
    requires !(b.active && !b.on.OnData?) && (id in pool ==> !(pool[id].active && !pool[id].on.OnData?))
    ensures RefsOk(locs, stepping, pool) ==> RefsOk(locs, stepping, pool[id := b])
  {
    if RefsOk(locs, stepping, pool) {
      PoolUpdatePlaced(locs, pool, id, b);
    }
  }

  lemma PoolSameRefsOk(locs: seq<Location>, stepping: bool, pool: Pool, id: nat, b: Breakpoint)
    requires id in pool && b.active == pool[id].active && b.on.OnData? == pool[id].on.OnData?
    requires b.addrs == pool[id].addrs
    ensures RefsOk(locs, stepping, pool) ==> RefsOk(locs, stepping, pool[id := b])
  {
    if RefsOk(locs, stepping, pool) {
      SameWantsPlaced(locs, pool, id, b);
    }
  }

  lemma StopOnReadRefsOk(s: State, id: nat, stopOnRead: bool, stepping: bool)
    requires id in s.pool && s.pool[id].on.OnData? && RefsOk(s.table.locations, stepping, s.pool)
    ensures var t := DeactivateBreakpoint(s.(pool := WithStopOnRead(s.pool, id, stopOnRead)), id);
            RefsOk(t.table.locations, stepping, t.pool)
  {
    var pool := WithStopOnRead(s.pool, id, stopOnRead);
    PoolSameRefsOk(s.table.locations, stepping, s.pool, id, pool[id]);
    DeactivateRefsOk(s.(pool := pool), id, stepping);
  }

  lemma DeactivateOnlyShrinks(s: State, id: nat)
    requires id in s.pool
    ensures PatchesShrink(s.table.locations, DeactivateBreakpoint(s, id).table.locations)
  {
  }

  predicate Activatable(b: Breakpoint) { b.enabled && !b.active }

  // Breakpoints that could be activated are on code whose addresses are not known yet.
  predicate NothingToActivate(pool: Pool, resolved: map<nat, seq<(nat, nat)>>) {
    forall id <- pool.Keys ::
      Activatable(pool[id]) ==> !pool[id].on.OnData? && pool[id].addrs.None? && id !in resolved
  }

  // Each member once, in some order.
  ghost predicate Permutes(order: seq<nat>, ids: set<nat>) {
    (forall id :: id in order <==> id in ids) && |order| == |ids|
  }

  lemma NoneActivated(s: State, resolved: map<nat, seq<(nat, nat)>>)
    ensures ActivateEach(s, [], resolved) == s
  {
  }

  lemma OneActivated(s: State, order: seq<nat>, id: nat, resolved: map<nat, seq<(nat, nat)>>)
    requires id in s.pool && Permutes(order, {id})
    ensures ActivateEach(s, order, resolved) == ActivateBreakpoint(s, id, Lookup(resolved, id))
  {
  }

  // Activating breakpoints that are disabled, active already or not resolved changes nothing.
  lemma {:induction false} NothingActivated(s: State, order: seq<nat>, resolved: map<nat, seq<(nat, nat)>>)
    requires NothingToActivate(s.pool, resolved)
    ensures ActivateEach(s, order, resolved) == s
  {
    if order != [] {
      NothingActivated(s, order[..|order| - 1], resolved);
    }
  }

  lemma OneMoreActivated(s: State, order: seq<nat>, id: nat, resolved: map<nat, seq<(nat, nat)>>)
    ensures var t := ActivateEach(s, order, resolved);
            id in t.pool ==> ActivateEach(s, order + [id], resolved) == ActivateBreakpoint(t, id, Lookup(resolved, id))
  {
  }

  lemma ActivateRefsOk(s: State, code: Memory, id: nat, resolved: Option<seq<(nat, nat)>>, stepping: bool)
    requires Good(s, code) && UpToDate(s.table.locations, code) && id in s.pool &&
        RefsOk(s.table.locations, stepping, s.pool)
    ensures var s' := ActivateBreakpoint(s, id, resolved);
            && RefsOk(s'.table.locations, stepping, s'.pool)
            && PatchesShrink(s.table.locations, s'.table.locations)
            && s'.pool.Keys == s.pool.Keys && s'.table.memory == s.table.memory
  {
    var s' := ActivateBreakpoint(s, id, resolved);
    hide StepRefsOk, Placed, UpToDate;
    ActivatePlaced(s, id, resolved);
    if s' != s {
      if !s.pool[id].on.OnData? {
        AddLocationsStepRefs(s.table, code, id, s'.pool[id].addrs.value, stepping);
        AddLocationsKeeps(s.table, code, id, s'.pool[id].addrs.value);
      }
    }
  }

  lemma DeactivateRefsOk(s: State, id: nat, stepping: bool)
    requires id in s.pool && RefsOk(s.table.locations, stepping, s.pool)
    ensures var s' := DeactivateBreakpoint(s, id);
            && RefsOk(s'.table.locations, stepping, s'.pool) && RefsOk(s'.table.locations, stepping, s'.pool - {id})
            && PatchesShrink(s.table.locations, s'.table.locations)
            && s'.pool.Keys == s.pool.Keys && !s'.pool[id].active
  {
    hide StepRefsOk, Placed;
    DeactivatePlaced(s, id);
    DropKeepsStepRefs(s.table.locations, RefersTo(id), stepping);
    DropRefsShrinks(s.table.locations, RefersTo(id));
  }

  lemma ThreadsOkRemove(locs: seq<Location>, code: Memory, handling: bool, stepping: Option<StepState>,
                        causes: map<nat, Cause>, threads: map<nat, Thread>, tid: nat)
    requires ThreadsOk(locs, code, handling, stepping, causes, threads)
    ensures ThreadsOk(locs, code, handling, stepping, causes, threads - {tid})
  {
  }

  lemma ThreadsOkCode(locs: seq<Location>, code: Memory, code': Memory, handling: bool, stepping: Option<StepState>,
                      causes: map<nat, Cause>, threads: map<nat, Thread>)
    requires ThreadsOk(locs, code, handling, stepping, causes, threads)
    requires forall tid <- causes.Keys :: causes[tid].Int3? ==>
        OriginalByte(code', causes[tid].at) == OriginalByte(code, causes[tid].at)
    ensures ThreadsOk(locs, code', handling, stepping, causes, threads)
  {
  }

  lemma Executed(t: Table, code: Memory, handling: bool, stepping: Option<StepState>, causes: map<nat, Cause>,
                 threads: map<nat, Thread>, tid: nat, pc: nat, trap: Option<Cause>)
    requires Inv(t, code) && ThreadsOk(t.locations, code, handling, stepping, causes, threads)
    requires tid in threads && tid !in causes && threads[tid].state == Running && !threads[tid].exiting
    requires trap.Some? ==> trap.value == HardwareHit || trap.value == SentSignal
    ensures var thread := threads[tid];
            if thread.pc in t.memory && t.memory[thread.pc] == INT3 then
              ThreadsOk(t.locations, code, handling, stepping, causes[tid := Int3(thread.pc)],
                  threads[tid := thread.(pc := thread.pc + 1)])
            else if thread.singleStepping then
              ThreadsOk(t.locations, code, handling, stepping, causes[tid := SingleStepped],
                  threads[tid := thread.(pc := pc)])
            else if trap.Some? then
              ThreadsOk(t.locations, code, handling, stepping, causes[tid := trap.value],
                  threads[tid := thread.(pc := pc)])
            else
              ThreadsOk(t.locations, code, handling, stepping, causes, threads[tid := thread.(pc := pc)])
  {
    hide Inv, ThreadsOk;
    var thread, needs := threads[tid], NeedsStep(stepping, tid);
    ThreadIsOk(t.locations, code, handling, stepping, causes, threads, tid);
    var trapped := thread.pc in t.memory && t.memory[thread.pc] == INT3;
    var thread' := thread.(pc := if trapped then thread.pc + 1 else pc);
    var causes' := if trapped then causes[tid := Int3(thread.pc)] else if thread.singleStepping
        then causes[tid := SingleStepped] else if trap.Some? then causes[tid := trap.value] else causes;
    ExecutedOne(t, code, handling, needs, thread, thread', trapped, CauseOf(causes', tid));
    hide ThreadOk;
    ThreadsOkUpdate(t.locations, code, handling, handling, stepping, causes, causes', threads, tid, thread');
  }

  lemma ThreadIsOk(locs: seq<Location>, code: Memory, handling: bool, stepping: Option<StepState>,
                   causes: map<nat, Cause>, threads: map<nat, Thread>, tid: nat)
    requires ThreadsOk(locs, code, handling, stepping, causes, threads) && tid in threads
    ensures ThreadOk(locs, code, handling, NeedsStep(stepping, tid), CauseOf(causes, tid), threads[tid])
  {
  }

  lemma ExecutedOne(t: Table, code: Memory, handling: bool, needsStep: bool, thread: Thread, thread': Thread,
                    trapped: bool, cause: Option<Cause>)
    requires Inv(t, code) && ThreadOk(t.locations, code, handling, needsStep, None, thread)
    requires thread.state == Running && !thread.exiting && thread' == thread.(pc := thread'.pc)
    requires trapped == (thread.pc in t.memory && t.memory[thread.pc] == INT3)
    requires trapped ==> thread'.pc == thread.pc + 1 && cause == Some(Int3(thread.pc))
    requires !trapped ==> if thread.singleStepping then cause == Some(SingleStepped)
                          else cause.None? || cause == Some(HardwareHit) || cause == Some(SentSignal)
    ensures ThreadOk(t.locations, code, handling, needsStep, cause, thread')
  {
    if trapped {
      ExecutedInt3(t, code, handling, needsStep, thread);
    }
    hide Inv, PatchedAt;
  }

  // ---------- Hits ----------

  function RefsAt(locs: seq<Location>, addr: nat): seq<BreakpointRef> {
    var i := LowerBound(locs, addr);
    if i < |locs| && locs[i].addr == addr then locs[i].breakpoints else []
  }

  predicate IsHidden(pool: Pool, id: nat) { id in pool && pool[id].hidden }

  // Whether references at the address hit stop the thread. The hidden one never does.
  predicate Stops(refs: seq<BreakpointRef>, spurious: bool, ignore: bool, stops: set<nat>, pool: Pool) {
    !spurious && !ignore && exists r <- refs :: r.Id? && r.id in stops && !IsHidden(pool, r.id)
  }

  // Whether they tell of libraries being loaded.
  predicate Refreshes(refs: seq<BreakpointRef>, spurious: bool, pool: Pool) {
    !spurious && exists r <- refs :: r.Id? && IsHidden(pool, r.id)
  }

  // Whether they ask to single-step the thread over the instruction there.
  predicate StepsOver(refs: seq<BreakpointRef>, stepping: Option<StepState>, tid: nat) {
    stepping.Some? && stepping.value.tid == tid && exists r <- refs :: r.Step? && NeedsSingleStep(r.t)
  }

  predicate DataStops(hw: seq<HardwareBreakpoint>, hwHits: set<nat>, ignore: bool, stops: set<nat>) {
    !ignore && exists k :: 0 <= k < |hw| && k in hwHits && DataSlot(hw[k]) && hw[k].dataBreakpointId.value in stops
  }

  // The address a trap is about: for a software breakpoint, one before the instruction pointer.
  function TrapAddr(t: Thread, si: SiCode, hwHits: set<nat>): int {
    if StoppedOnSoftware(si, hwHits, t.singleStepping) then t.pc - 1 else t.pc
  }

  // The same by the true cause: the int3, unless it counts as a finished single step, or else where the thread is.
  function Site(cause: Cause, t: Thread): nat {
    if cause.Int3? && !t.singleStepping then cause.at else t.pc
  }

  lemma TrapAddrIsSite(code: Memory, cause: Cause, t: Thread, si: SiCode, hwHits: set<nat>)
    requires CauseOk(code, cause, t) && Reported(cause, t, si, hwHits)
    ensures TrapAddr(t, si, hwHits) == Site(cause, t)
  {
  }

  // What is referred to at an address is what active breakpoints ask for there, and step breakpoints.
  lemma RefsAtAre(locs: seq<Location>, stepping: bool, pool: Pool, addr: nat)
    requires Sorted(locs) && RefsOk(locs, stepping, pool)
    ensures forall id, level :: Id(id, level) in RefsAt(locs, addr) <==> Wants(pool, id, addr, level)
    ensures !stepping ==> (RefsAt(locs, addr) == [] <==> forall id, level :: !Wants(pool, id, addr, level))
  {
    forall r ensures r in RefsAt(locs, addr) <==> HasRef(locs, addr, r) {
      if HasRef(locs, addr, r) {
        var i :| 0 <= i < |locs| && locs[i].addr == addr && r in locs[i].breakpoints;
        SortedFinds(locs, i);
      }
    }
    var refs := RefsAt(locs, addr);
    if refs != [] && !stepping {
      var l := locs[LowerBound(locs, addr)];
      assert RefOk(l, refs[0], stepping);
      assert Id(refs[0].id, refs[0].level) in refs;
    }
  }

  // Breakpoints of the user stop a thread at an address if one of those whose conditions hold is active there.
  ghost predicate AnyWanted(pool: Pool, addr: nat, stops: set<nat>) {
    exists id, level :: id in stops && Wants(pool, id, addr, level) && !pool[id].hidden
  }

  lemma StopsIsWanted(locs: seq<Location>, stepping: bool, pool: Pool, addr: nat, spurious: bool, stops: set<nat>)
    requires Sorted(locs) && RefsOk(locs, stepping, pool)
    ensures Stops(RefsAt(locs, addr), spurious, false, stops, pool) <==> !spurious && AnyWanted(pool, addr, stops)
  {
    RefsAtAre(locs, stepping, pool, addr);
    hide RefsOk, RefsAt;
    var refs := RefsAt(locs, addr);
    if exists r <- refs :: r.Id? && r.id in stops && !IsHidden(pool, r.id) {
      var r :| r in refs && r.Id? && r.id in stops && !IsHidden(pool, r.id);
      assert Id(r.id, r.level) in refs;
    }
  }

  // The thread was already standing at the address of the hardware breakpoint that it hit.
  predicate Spurious(t: Thread, hwHits: set<nat>) {
    hwHits != {} && t.ignoreNextHitAt == Some(t.pc)
  }

  // Whether a trap stops the process. refs: of the location there, if any; programTrap: the program itself has an
  // int3 there.
  predicate TrapHit(refs: seq<BreakpointRef>, hw: seq<HardwareBreakpoint>, programTrap: bool, si: SiCode,
                    hwHits: set<nat>, spurious: bool, ignore: bool, stops: set<nat>, pool: Pool) {
    || Stops(refs, spurious, ignore, stops, pool)
    || DataStops(hw, hwHits, ignore, stops)
    || ((programTrap || si == User) && refs == [] && !ignore)
  }

  // The same references at the same addresses.
  ghost predicate SameRefs(a: seq<Location>, b: seq<Location>) {
    |a| == |b| && forall i :: 0 <= i < |a| ==> SameRefsIn(a[i], b[i])
  }

  ghost predicate SameRefsIn(l: Location, m: Location) {
    l.addr == m.addr && forall r :: r in l.breakpoints <==> r in m.breakpoints
  }

  lemma SameRefsRefl(a: seq<Location>)
    ensures SameRefs(a, a)
  {
  }

  // Slots that the kernel refuses cost no reference: only data breakpoints are given up with their slots.
  lemma FailedSameRefs(a: seq<Location>, b: seq<Location>, stepping: bool, pool: Pool)
    requires RefsOk(a, stepping, pool) && SomeFailed(a, b) && KeepsRefs(pool, a, b)
    ensures SameRefs(a, b)
  {
    forall i | 0 <= i < |a| ensures SameRefsIn(a[i], b[i]) {
      assert MayHaveFailed(a[i], b[i]) && KeepsRefsAt(pool, a[i], b[i]);
      forall r | r in a[i].breakpoints ensures r in b[i].breakpoints {
        if r.Id? {
          Referred(a, pool, a[i], r);
        }
      }
    }
  }

  lemma SameRefsAt(a: seq<Location>, b: seq<Location>, addr: nat)
    requires SameRefs(a, b)
    ensures forall r :: r in RefsAt(a, addr) <==> r in RefsAt(b, addr)
  {
  }

  // The breakpoints referred to are as before.
  ghost predicate SameReferred(refs: seq<BreakpointRef>, a: Pool, b: Pool) {
    forall r <- refs :: r.Id? ==> (IsHidden(a, r.id) <==> IsHidden(b, r.id))
  }

  lemma RefsStay(locs: seq<Location>, stepping: bool, a: Pool, b: Pool, addr: nat)
    requires RefsOk(locs, stepping, a) && PoolStays(a, b)
    ensures SameReferred(RefsAt(locs, addr), a, b)
  {
    forall r | r in RefsAt(locs, addr) && r.Id? ensures IsHidden(a, r.id) <==> IsHidden(b, r.id) {
      Referred(locs, a, locs[LowerBound(locs, addr)], r);
    }
  }

  lemma SameTrapHit(a: seq<BreakpointRef>, b: seq<BreakpointRef>, hw: seq<HardwareBreakpoint>, programTrap: bool,
                    si: SiCode, hwHits: set<nat>, spurious: bool, ignore: bool, stops: set<nat>, pool: Pool,
                        pool': Pool)
    requires (forall r :: r in a <==> r in b) && SameReferred(a, pool, pool')
    ensures TrapHit(a, hw, programTrap, si, hwHits, spurious, ignore, stops, pool)
            <==> TrapHit(b, hw, programTrap, si, hwHits, spurious, ignore, stops, pool')
    ensures Refreshes(a, spurious, pool) <==> Refreshes(b, spurious, pool')
  {
    hide DataStops;
    if a != [] {
      assert a[0] in a;
    }
    if b != [] {
      assert b[0] in b;
    }
  }

  // What the mark on a thread costs: a hit on code that would have stopped it, and nothing else.
  lemma SwallowedIff(refs: seq<BreakpointRef>, hw: seq<HardwareBreakpoint>, programTrap: bool, si: SiCode,
                     hwHits: set<nat>, t: Thread, ignore: bool, stops: set<nat>, pool: Pool)
    ensures TrapHit(refs, hw, programTrap, si, hwHits, false, ignore, stops, pool)
            && !TrapHit(refs, hw, programTrap, si, hwHits, Spurious(t, hwHits), ignore, stops, pool)
            <==> Spurious(t, hwHits) && Stops(refs, false, ignore, stops, pool) && !DataStops(hw, hwHits, ignore, stops)
  {
  }

  lemma NoOverInt3(refs: seq<BreakpointRef>, original: bv8, stepping: Option<StepState>, tid: nat)
    requires forall r <- refs :: r.Step? && NeedsSingleStep(r.t) ==> original != INT3
    ensures StepsOver(refs, stepping, tid) ==> original != INT3
  {
  }

  lemma SameStepsOver(a: seq<BreakpointRef>, b: seq<BreakpointRef>, stepping: Option<StepState>, tid: nat)
    requires forall r :: r in a <==> r in b
    ensures StepsOver(a, stepping, tid) <==> StepsOver(b, stepping, tid)
  {
  }

  // While breakpoints are ignored, nothing stops the process.
  lemma NoHitWhileIgnoring(refs: seq<BreakpointRef>, hw: seq<HardwareBreakpoint>, programTrap: bool, si: SiCode,
                           hwHits: set<nat>, spurious: bool, stops: set<nat>, pool: Pool)
    ensures !TrapHit(refs, hw, programTrap, si, hwHits, spurious, true, stops, pool)
  {
  }

  lemma {:induction false} FoundAt(locs: seq<Location>, addr: nat, i: nat)
    requires i < |locs| && locs[i].addr == addr && forall k :: 0 <= k < i ==> locs[k].addr < addr
    ensures LowerBound(locs, addr) == i
  {
  }

  // Adding a reference puts it at its address, and loses none.
  lemma {:induction false} RefAdded(t: Table, ref: BreakpointRef, addr: nat)
    ensures ref in RefsAt(AddLocation(t, ref, addr).locations, addr)
  {
    FoundAt(AddLocation(t, ref, addr).locations, addr, LowerBound(t.locations, addr));
  }

  lemma {:induction false} RefKept(t: Table, ref: BreakpointRef, addr: nat, a: nat, r: BreakpointRef)
    requires r in RefsAt(t.locations, a)
    ensures r in RefsAt(AddLocation(t, ref, addr).locations, a)
  {
    var locs, locs' := t.locations, AddLocation(t, ref, addr).locations;
    var i, j := LowerBound(locs, addr), LowerBound(locs, a);
    hide LowerBound, OriginalByte;
    if |locs'| == |locs| {
      FoundAt(locs', a, j);
    } else if j < i {
      FoundAt(locs', a, j);
    } else {
      assert locs'[j + 1] == locs[j] && locs'[i].addr == addr;
      forall k | 0 <= k <= j ensures locs'[k].addr < a {
        assert k < i ==> locs'[k] == locs[k];
        assert k > i ==> locs'[k] == locs[k - 1];
      }
      FoundAt(locs', a, j + 1);
    }
  }

  lemma {:induction false} StepsAdded(t: Table, steps: seq<(StepBreakpointType, nat)>)
    ensures forall p <- steps :: Step(p.0) in RefsAt(AddSteps(t, steps).locations, p.1)
  {
    hide RefsAt, AddLocation;
    if steps != [] {
      var n := |steps| - 1;
      var u := AddSteps(t, steps[..n]);
      StepsAdded(t, steps[..n]);
      RefAdded(u, Step(steps[n].0), steps[n].1);
      forall p | p in steps ensures Step(p.0) in RefsAt(AddSteps(t, steps).locations, p.1) {
        if p != steps[n] {
          assert p in steps[..n];
          RefKept(u, Step(steps[n].0), steps[n].1, p.1, Step(p.0));
        }
      }
    }
  }

  // handle_breakpoints loses no reference but to data breakpoints whose slots are refused.
  lemma RearmedKeepsRefs(s: State, code: Memory, pcs: set<nat>, stepTid: Option<nat>, s': State, addr: nat,
                         r: BreakpointRef)
    requires Good(s, code) && Good(s', code) && Rearmed(s, pcs, stepTid, s')
    requires r in RefsAt(s.table.locations, addr) && !IsWatchRef(s.pool, r)
    ensures r in RefsAt(s'.table.locations, addr)
  {
    var l := s.table.locations[LowerBound(s.table.locations, addr)];
    var kept, locs' := Kept(s.table.locations), s'.table.locations;
    KeptMembers(s.table.locations, l);
    var k :| 0 <= k < |kept| && kept[k] == l;
    RearmedLocation(s, code, pcs, stepTid, s', k);
    SortedFinds(locs', k);
  }

  // Each location that is kept is still there, with its references.
  lemma RearmedLocation(s: State, code: Memory, pcs: set<nat>, stepTid: Option<nat>, s': State, k: nat)
    requires Good(s, code) && Good(s', code) && Rearmed(s, pcs, stepTid, s') && k < |Kept(s.table.locations)|
    ensures k < |s'.table.locations| && Sorted(s'.table.locations)
    ensures var l, l' := Kept(s.table.locations)[k], s'.table.locations[k];
            l'.addr == l.addr && KeepsRefsAt(s.pool, l, l')
  {
    HandleCorrect(s.table, code, pcs, stepTid);
    hide DataOk, PatchOk, SlotsOk, NoRetryOk, Handle, PoolStays, Kept;
    var u := Handle(s.table, pcs, stepTid);
    assert MayHaveFailed(u.locations[k], s'.table.locations[k]) &&
           KeepsRefsAt(s.pool, u.locations[k], s'.table.locations[k]);
  }

  lemma SortedFinds(locs: seq<Location>, k: nat)
    requires Sorted(locs) && k < |locs|
    ensures LowerBound(locs, locs[k].addr) == k
  {
  }

  lemma RearmedKeepsSteps(s: State, code: Memory, pcs: set<nat>, stepTid: Option<nat>, s': State,
                          steps: seq<(StepBreakpointType, nat)>)
    requires Good(s, code) && Good(s', code) && Rearmed(s, pcs, stepTid, s')
    requires forall p <- steps :: Step(p.0) in RefsAt(s.table.locations, p.1)
    ensures forall p <- steps :: Step(p.0) in RefsAt(s'.table.locations, p.1)
  {
    hide Good, Rearmed, RefsAt;
    forall p | p in steps ensures Step(p.0) in RefsAt(s'.table.locations, p.1) {
      RearmedKeepsRefs(s, code, pcs, stepTid, s', p.1, Step(p.0));
    }
  }

  // All threads are fine but one that has just stopped and may stand on an injected int3.
  ghost predicate ThreadsOkExcept(locs: seq<Location>, code: Memory, handling: bool, stepping: Option<StepState>,
                                  causes: map<nat, Cause>, threads: map<nat, Thread>, except: nat) {
    forall tid :: tid in threads && tid != except ==>
      ThreadOk(locs, code, handling, NeedsStep(stepping, tid), CauseOf(causes, tid), threads[tid])
  }

  // A thread whose trap has been taken note of.
  function AfterTrap(t: Thread, pc: nat): Thread {
    t.(state := Suspended, pc := pc, rip := Some(pc), singleStepping := false, ignoreNextHitAt := None,
        trapQueued := false)
  }

  // What a thread is like once its trap has been taken, whatever came of it. ownTrap: the program itself has an int3
  // there, so the thread counts as standing on it, though it is past it.
  predicate TrapTaken(before: Thread, after: Thread, ownTrap: bool) {
    && after.rip == Some(after.pc) && after.ignoreNextHitAt.None? && !after.trapQueued
    && after.exiting == before.exiting && after.waitingForInitialStop == before.waitingForInitialStop
    && if after.state == Running then !after.afterUserDebugTrap
       else (after.afterUserDebugTrap <==> before.afterUserDebugTrap || ownTrap)
  }

  function PcAfter(cause: Cause, code: Memory, t: Thread): nat {
    if Misread(cause, code, t) then t.pc else RightPc(cause, code, t)
  }

  // What ClassifyTrap needs to know to record a handled trap.
  lemma TrapHandled(t: Table, code: Memory, handling: bool, stepping: Option<StepState>, causes: map<nat, Cause>,
                    threads: map<nat, Thread>, tid: nat, si: SiCode, hwHits: set<nat>)
    requires Inv(t, code) && UpToDate(t.locations, code) &&
        ThreadsOk(t.locations, code, handling, stepping, causes, threads)
    requires tid in threads && threads[tid].state == Running && !threads[tid].exiting
    requires tid in causes && Reported(causes[tid], threads[tid], si, hwHits)
    ensures StoppedOnSoftware(si, hwHits, threads[tid].singleStepping) ==>
        threads[tid].pc > 0 && !NeedsStep(stepping, tid)
    ensures var pc := PcAfterTrap(t.locations, t.memory, threads[tid], si, hwHits);
            && pc == PcAfter(causes[tid], code, threads[tid])
            && var threads' := threads[tid := AfterTrap(threads[tid], pc)];
               && ThreadsOk(t.locations, code, true, stepping, causes - {tid}, threads')
               && ThreadsOkExcept(t.locations, code, handling, stepping, causes - {tid}, threads', tid)
  {
    var thread, cause := threads[tid], causes[tid];
    assert ThreadOk(t.locations, code, handling, NeedsStep(stepping, tid), CauseOf(causes, tid), thread);
    TrapClassification(t, code, handling, NeedsStep(stepping, tid), cause, thread, si, hwHits);
    assert forall x :: x != tid ==> CauseOf(causes, x) == CauseOf(causes - {tid}, x);
    var pc := PcAfterTrap(t.locations, t.memory, thread, si, hwHits);
    var thread' := AfterTrap(thread, pc);
    ThreadsOkUpdate(t.locations, code, handling, true, stepping, causes, causes - {tid}, threads, tid, thread');
    forall x | x in threads && x != tid
      ensures ThreadOk(t.locations, code, handling, NeedsStep(stepping, x), CauseOf(causes - {tid}, x), threads[x])
    {
      assert ThreadOk(t.locations, code, handling, NeedsStep(stepping, x), CauseOf(causes, x), threads[x]);
    }
  }

  lemma ThreadsOkExceptShrink(a: seq<Location>, b: seq<Location>, code: Memory, handling: bool,
                              stepping: Option<StepState>, causes: map<nat, Cause>, threads: map<nat, Thread>,
                              except: nat)
    requires ThreadsOkExcept(a, code, handling, stepping, causes, threads, except) && PatchesShrink(a, b)
    ensures ThreadsOkExcept(b, code, handling, stepping, causes, threads, except)
  {
  }

  lemma ThreadsOkComplete(locs: seq<Location>, code: Memory, handling: bool, stepping: Option<StepState>,
                          causes: map<nat, Cause>, threads: map<nat, Thread>, tid: nat)
    requires ThreadsOk(locs, code, true, stepping, causes, threads)
    requires ThreadsOkExcept(locs, code, handling, stepping, causes, threads, tid)
    requires tid in threads && !threads[tid].singleStepping
    requires NeedsStep(stepping, tid) && !handling ==> !PatchedAt(locs, threads[tid].pc)
    ensures ThreadsOk(locs, code, handling, stepping, causes, threads)
  {
  }

  lemma OneThere(locs: seq<Location>, idx: nat)
    requires Sorted(locs) && idx < |locs|
    ensures forall l <- locs :: l.addr == locs[idx].addr ==> l == locs[idx]
  {
  }

  lemma SortedGood(s: State, code: Memory)
    requires Good(s, code)
    ensures Sorted(s.table.locations)
  {
  }

  lemma NobodyThere(locs: seq<Location>, addr: nat)
    requires Sorted(locs)
    requires var i := LowerBound(locs, addr); i == |locs| || locs[i].addr != addr
    ensures forall l <- locs :: l.addr != addr
  {
  }

  lemma NothingAt(t: Table, code: Memory, addr: nat)
    requires Inv(t, code)
    requires var i := LowerBound(t.locations, addr); i == |t.locations| || t.locations[i].addr != addr
    ensures !PatchedAt(t.locations, addr)
  {
  }

  // A location is hit; if it is a software one, handle_breakpoints becomes due.
  lemma LocationHit(t: Table, code: Memory, idx: nat, handling': bool, handling: bool, stepping: Option<StepState>,
                    causes: map<nat, Cause>, threads: map<nat, Thread>, tid: nat, pool: Pool)
    requires Inv(t, code) && idx < |t.locations| && ThreadsOk(t.locations, code, true, stepping, causes, threads)
    requires RefsOk(t.locations, stepping.Some?, pool)
    requires ThreadsOkExcept(t.locations, code, handling', stepping, causes, threads, tid)
    requires handling == (handling' || !t.locations[idx].hardware)
    requires tid in threads && !threads[tid].singleStepping
    requires NeedsStep(stepping, tid) ==> t.locations[idx].addr == threads[tid].pc
    ensures CanDeactivate(t, idx)
    ensures forall u :: u == t || u == Deactivate(t, idx) ==>
              && ThreadsOk(u.locations, code, handling, stepping, causes, threads)
              && RefsOk(u.locations, stepping.Some?, pool)
              && (handling || !PatchedAt(u.locations, t.locations[idx].addr))
  {
    InvDeactivatable(t, code);
    var a := t.locations[idx].addr;
    if !handling {
      assert !PatchedAt(t.locations, a);
      hide ThreadsOk, ThreadsOkExcept;
      ThreadsOkComplete(t.locations, code, handling, stepping, causes, threads, tid);
    }
    hide Inv, ThreadsOk, ThreadsOkExcept, RefsOk, Deactivate;
    DeactivateShrinks(t, idx);
    ThreadsOkHandling(t.locations, code, handling, stepping, causes, threads);
    ThreadsOkShrink(t.locations, Deactivate(t, idx).locations, code, handling, stepping, causes, threads);
    DeactivatedRefsOk(t, idx, stepping.Some?, pool);
  }

  lemma ThreadsOkHandling(locs: seq<Location>, code: Memory, handling: bool, stepping: Option<StepState>,
                          causes: map<nat, Cause>, threads: map<nat, Thread>)
    requires ThreadsOk(locs, code, true, stepping, causes, threads)
    ensures handling ==> ThreadsOk(locs, code, handling, stepping, causes, threads)
  {
  }

  lemma DeactivatedRefsOk(t: Table, idx: nat, stepping: bool, pool: Pool)
    requires idx < |t.locations| && CanDeactivate(t, idx) && RefsOk(t.locations, stepping, pool)
    ensures RefsOk(Deactivate(t, idx).locations, stepping, pool)
  {
    SameLists(t.locations, Deactivate(t, idx).locations);
    SameRefsPlaced(t.locations, Deactivate(t, idx).locations, pool);
  }

  lemma DeactivateShrinks(t: Table, idx: nat)
    requires idx < |t.locations| && CanDeactivate(t, idx)
    ensures PatchesShrink(t.locations, Deactivate(t, idx).locations)
  {
  }

  lemma GoodAfterStaleHit(s: State, code: Memory, idx: nat)
    requires Good(s, code) && idx < |s.table.locations|
    ensures CanDeactivate(s.table, idx) && Good(s.(table := Deactivate(s.table, idx)), code)
  {
    InvDeactivatable(s.table, code);
    DeactivateKeeps(s.table, code, idx);
    DeactivateData(s.table, idx);
    FewerKeeps(s.pool, s.table.hardware, Deactivate(s.table, idx).hardware);
  }
}
