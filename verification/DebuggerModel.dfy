// Values that the debugger's state consists of, and the facts about them that its methods rest on.
module DebuggerModel {
  import opened Options
  import opened DebuggeeMemory
  import opened BreakpointTable
  import opened StepBreakpoints
  import opened HandleBreakpoints
  import opened DebugRegisters
  import opened BreakpointHistory

  datatype ThreadState = Running | Suspended

  // pc is where the thread really is; rip is the debugger's cached copy, if it has one. trapQueued: another stop was
  // reported first, and the SIGTRAP that is due will come when the thread is let run.
  datatype Thread = Thread(state: ThreadState, pc: nat, rip: Option<nat>, exiting: bool, singleStepping: bool,
                           afterUserDebugTrap: bool, ignoreNextHitAt: Option<nat>, trapQueued: bool,
                           waitingForInitialStop: bool)

  function NewThread(pc: nat): Thread { Thread(Running, pc, None, false, false, false, None, false, true) }

  datatype ProcessState = NoProcess | Starting | Exiting | ProcessRunning | ProcessSuspended | Stepping

  // process_ready
  predicate ProcessReadyAt(p: ProcessState) { p == ProcessRunning || p == ProcessSuspended || p == Stepping }

  datatype StepState = StepState(tid: nat, keepOtherThreadsSuspended: bool, singleSteps: bool)

  // What became of finding the code a pending step is to run to.
  datatype PendingResolution = InitialExec | StillLoading | NotFound | At(addrs: seq<(nat, nat)>)

  // Debug registers of one thread, as last written; programmed: the last attempt to set them all succeeded;
  // failedWrites: how many writes to them the kernel has not carried out so far.
  datatype Registers = Registers(addrs: seq<nat>, dr7: Control, programmed: bool, failedWrites: nat)

  datatype PokeResult = Poked | Rejected | NoSuchThread | OtherError

  // The step breakpoint types that make the thread single-step over the instruction they are on.
  predicate NeedsSingleStep(t: StepBreakpointType) { t == Call || t == JumpOut }

  // Marks the threads that stand at the first n locations, where these are about to become hardware.
  function MarkUpTo(threads: map<nat, Thread>, locs: seq<Location>, n: nat): map<nat, Thread>
    requires n <= |locs|
  {
    map tid | tid in threads ::
      var t := threads[tid];
      if t.rip.Some? && !t.afterUserDebugTrap && SoftLocationAt(locs[..n], t.rip.value)
      then t.(ignoreNextHitAt := t.rip) else t
  }

  // Threads once handle_breakpoints has been through locs.
  function Marked(threads: map<nat, Thread>, locs: seq<Location>): map<nat, Thread> {
    MarkUpTo(threads, Kept(locs), |Kept(locs)|)
  }

  // A software location that a thread stands on is about to become hardware: the thread may hit it right there, and
  // that hit is to be ignored.
  function MarkAt(threads: map<nat, Thread>, l: Location, pcs: set<nat>): map<nat, Thread> {
    if l.hardware || l.addr !in pcs then
      threads
    else
      map tid | tid in threads ::
        if threads[tid].rip == Some(l.addr) && !threads[tid].afterUserDebugTrap
        then threads[tid].(ignoreNextHitAt := Some(l.addr)) else threads[tid]
  }

  predicate SoftLocationAt(locs: seq<Location>, addr: nat) {
    exists l <- locs :: l.addr == addr && !l.hardware
  }

  // Threads differ at most in the hit they are to ignore.
  ghost predicate OnlyMarked(a: map<nat, Thread>, b: map<nat, Thread>) {
    a.Keys == b.Keys && forall tid <- a.Keys :: b[tid].(ignoreNextHitAt := None) == a[tid].(ignoreNextHitAt := None)
  }

  ghost predicate SameStates(a: map<nat, Thread>, b: map<nat, Thread>) {
    a.Keys == b.Keys && forall tid <- a.Keys :: b[tid].state == a[tid].state
  }

  // Threads are where they were, with the traps they had.
  ghost predicate SamePlaces(a: map<nat, Thread>, b: map<nat, Thread>) {
    a.Keys == b.Keys && forall tid <- a.Keys ::
      b[tid].pc == a[tid].pc && b[tid].exiting == a[tid].exiting && b[tid].trapQueued == a[tid].trapQueued &&
          b[tid].waitingForInitialStop == a[tid].waitingForInitialStop
  }

  lemma MarkedPlaces(a: map<nat, Thread>, b: map<nat, Thread>)
    requires OnlyMarked(a, b)
    ensures SamePlaces(a, b) && SameStates(a, b)
  {
  }

  lemma SameStatesTrans(a: map<nat, Thread>, b: map<nat, Thread>, c: map<nat, Thread>, tid: nat)
    requires SameStates(a, b) && SameStates(b, c) && tid in a
    ensures SameStates(a, c) && tid in c && c[tid].state == a[tid].state
  {
  }

  lemma SamePlacesRefl(a: map<nat, Thread>)
    ensures SamePlaces(a, a)
  {
  }

  lemma FlaggedPlaces(a: map<nat, Thread>, b: map<nat, Thread>, tid: nat)
    requires tid in a && exists flag :: b == a[tid := a[tid].(singleStepping := flag)]
    ensures SamePlaces(a, b) && SameStates(a, b)
  {
  }

  lemma SamePlacesTrans(a: map<nat, Thread>, b: map<nat, Thread>, c: map<nat, Thread>)
    requires SamePlaces(a, b) && SamePlaces(b, c)
    ensures SamePlaces(a, c)
  {
  }

  function KnownPcs(threads: map<nat, Thread>): set<nat> {
    set tid | tid in threads && threads[tid].rip.Some? :: threads[tid].rip.value
  }

  ghost predicate SlotsOnlyFreed(hw: seq<HardwareBreakpoint>, hw': seq<HardwareBreakpoint>) {
    |hw'| == |hw| && forall k :: 0 <= k < |hw| ==> hw'[k] == hw[k] || hw'[k] == FREE_SLOT
  }

  // Code breakpoints are as before; data breakpoints may have been deactivated.
  ghost predicate PoolStays(a: Pool, b: Pool) {
    a.Keys == b.Keys &&
    forall id <- a.Keys :: b[id] == a[id] || (a[id].on.OnData? && b[id] == a[id].(active := false))
  }

  // One breakpoint may have been activated, and data breakpoints deactivated.
  ghost predicate ActivatedPool(a: Pool, b: Pool, id: nat) {
    && a.Keys == b.Keys && (forall x <- a.Keys :: x != id && !a[x].on.OnData? ==> b[x] == a[x])
    && (id in a ==> b[id].on == a[id].on && (b[id].enabled == a[id].enabled || a[id].on.OnData?))
  }

  lemma NothingHappened(threads: map<nat, Thread>, pool: Pool, id: nat)
    ensures OnlyMarked(threads, threads) && ActivatedPool(pool, pool, id)
  {
  }

  lemma ActivatesPool(s: State, id: nat, resolved: Option<seq<(nat, nat)>>, pool: Pool)
    requires id in s.pool && PoolStays(ActivateBreakpoint(s, id, resolved).pool, pool)
    ensures ActivatedPool(s.pool, pool, id)
  {
  }

  lemma PoolStaysRefl(pool: Pool)
    ensures PoolStays(pool, pool)
  {
  }

  // Nothing changed but slots that the kernel refused, and what depends on them.
  ghost predicate OnlyRejected(a: State, b: State) {
    && OnlyRejectedExceptPushed(a, b)
    && SlotsOnlyFreed(a.table.hardware, b.table.hardware)
  }

  ghost predicate OnlyRejectedExceptPushed(a: State, b: State) {
    && b.table.memory == a.table.memory
    && SomeFailed(a.table.locations, b.table.locations)
    && KeepsRefs(a.pool, a.table.locations, b.table.locations)
    && PoolStays(a.pool, b.pool)
  }

  // What handle_breakpoints leaves, apart from slots that the kernel refuses.
  ghost predicate Rearmed(s: State, pcs: set<nat>, stepTid: Option<nat>, s': State) {
    && Deactivatable(s.table)
    && OnlyRejectedExceptPushed(State(Handle(s.table, pcs, stepTid), s.pool), s')
  }

  lemma OnlyRejectedRefl(a: State)
    ensures OnlyRejected(a, a)
  {
  }

  lemma OnlyRejectedTrans(a: State, b: State, c: State)
    requires OnlyRejected(a, b) && OnlyRejected(b, c)
    ensures OnlyRejected(a, c)
  {
  }

  lemma RejectPool(s: State, code: Memory, k: nat)
    requires Good(s, code) && k < |s.table.hardware|
    ensures Deactivatable(s.table) && PoolStays(s.pool, Reject(s, k).pool)
  {
  }

  // dr7 arms the slots in acc: those of the first n that apply to the thread. If not exact, it may also arm slots
  // that have been freed since.
  ghost predicate Collected(acc: seq<HardwareBreakpoint>, dr7: Control, hw: seq<HardwareBreakpoint>, n: nat, tid: nat,
                            exact: bool) {
    && |hw| == 4 == |acc| && SizesOk(acc) && dr7 == Dr7(acc, tid)
    && (forall k :: 0 <= k < 4 && k < n && Applies(hw[k], tid) ==> acc[k] == hw[k])
    && (forall k :: 0 <= k < 4 ==> acc[k] == FREE_SLOT || (k < n && Applies(acc[k], tid)))
    && (exact ==> forall k :: 0 <= k < 4 && k < n && !Applies(hw[k], tid) ==> acc[k] == FREE_SLOT)
  }

  lemma SlotIsValid(s: State, code: Memory, i: nat, head: seq<HardwareBreakpoint>, dr7: Control, tid: nat)
    requires Good(s, code) && Collected(head, dr7, s.table.hardware, 4, tid, false) && i < 4 &&
        Applies(s.table.hardware[i], tid)
    ensures SlotSizeOk(s.table.hardware[i]) && head[i] == s.table.hardware[i]
  {
  }

  ghost predicate AppliesBefore(head: seq<HardwareBreakpoint>, n: nat, tid: nat) {
    exists k :: 0 <= k < n && k < |head| && Applies(head[k], tid)
  }

  lemma AppliesBeforeNext(head: seq<HardwareBreakpoint>, dr7: Control, hw: seq<HardwareBreakpoint>, i: nat, tid: nat)
    requires Collected(head, dr7, hw, 4, tid, false) && i < 4 && Applies(hw[i], tid)
    ensures AppliesBefore(head, i + 1, tid)
  {
  }

  // Once an earlier slot was armed too, the bits of slot i alone are not what was refused.
  lemma OnlyOneCollected(head: seq<HardwareBreakpoint>, dr7: Control, hw: seq<HardwareBreakpoint>, tid: nat, i: nat)
    requires Collected(head, dr7, hw, 4, tid, false) && i < 4 && Applies(hw[i], tid) && SlotSizeOk(hw[i])
    requires AppliesBefore(head, i, tid)
    ensures OrSlot(NOTHING_ARMED, hw[i], i, tid) != dr7
  {
  }

  // dr7 arms slot i and no other.
  ghost predicate IsSlotAlone(dr7: Control, h: HardwareBreakpoint, i: nat, tid: nat)
    requires i < 4
  {
    SlotSizeOk(h) && dr7 == OrSlot(NOTHING_ARMED, h, i, tid)
  }

  lemma CollectNothing(hw: seq<HardwareBreakpoint>, tid: nat)
    requires |hw| == 4
    ensures Collected(ALL_FREE, NOTHING_ARMED, hw, 0, tid, true)
  {
  }

  lemma CollectAccept(acc: seq<HardwareBreakpoint>, dr7: Control, hw: seq<HardwareBreakpoint>, i: nat, tid: nat,
                      exact: bool)
    returns (acc': seq<HardwareBreakpoint>)
    requires Collected(acc, dr7, hw, i, tid, exact) && i < 4 && Applies(hw[i], tid) && SlotSizeOk(hw[i])
    ensures Collected(acc', OrSlot(dr7, hw[i], i, tid), hw, i + 1, tid, exact)
  {
    hide Dr7, OrSlot;
    Dr7OrSlot(acc, tid, i, hw[i]);
    acc' := acc[i := hw[i]];
  }

  lemma CollectSkip(acc: seq<HardwareBreakpoint>, dr7: Control, hw: seq<HardwareBreakpoint>, i: nat, tid: nat,
                    exact: bool)
    requires Collected(acc, dr7, hw, i, tid, exact) && i < 4 && !Applies(hw[i], tid)
    ensures Collected(acc, dr7, hw, i + 1, tid, exact)
  {
  }

  lemma CollectReject(acc: seq<HardwareBreakpoint>, dr7: Control, hw: seq<HardwareBreakpoint>,
                      hw': seq<HardwareBreakpoint>, i: nat, tid: nat, exact: bool)
    requires Collected(acc, dr7, hw, i, tid, exact) && i < 4 && SlotsOnlyFreed(hw, hw') && !hw'[i].active
    requires exact ==> hw' == hw[i := hw'[i]]
    ensures Collected(acc, dr7, hw', i + 1, tid, exact)
  {
  }

  lemma CollectedStays(acc: seq<HardwareBreakpoint>, dr7: Control, hw: seq<HardwareBreakpoint>,
                       hw': seq<HardwareBreakpoint>, tid: nat)
    requires Collected(acc, dr7, hw, 4, tid, false) && SlotsOnlyFreed(hw, hw')
    ensures Collected(acc, dr7, hw', 4, tid, false)
  {
  }

  lemma FreedAddrs(addrs: seq<nat>, hw: seq<HardwareBreakpoint>, hw': seq<HardwareBreakpoint>, tid: nat)
    requires |addrs| == 4 == |hw| && SlotsOnlyFreed(hw, hw')
    requires forall k :: 0 <= k < 4 && Applies(hw[k], tid) ==> addrs[k] == hw[k].addr
    ensures forall k :: 0 <= k < 4 && Applies(hw'[k], tid) ==> addrs[k] == hw'[k].addr
  {
  }

  lemma CollectedInexact(acc: seq<HardwareBreakpoint>, dr7: Control, hw: seq<HardwareBreakpoint>, n: nat, tid: nat,
                         exact: bool)
    requires Collected(acc, dr7, hw, n, tid, true)
    ensures Collected(acc, dr7, hw, n, tid, exact)
  {
  }

  lemma CollectedLoosely(acc: seq<HardwareBreakpoint>, dr7: Control, hw: seq<HardwareBreakpoint>, tid: nat, exact: bool)
    requires Collected(acc, dr7, hw, 4, tid, exact)
    ensures |hw| == 4 == |acc| && Collected(acc, dr7, hw, 4, tid, false)
  {
  }

  // A collected DR7 means what the slots ask for.
  lemma CollectedArms(acc: seq<HardwareBreakpoint>, dr7: Control, hw: seq<HardwareBreakpoint>, tid: nat, exact: bool)
    requires Collected(acc, dr7, hw, 4, tid, exact)
    ensures forall k :: 0 <= k < 4 && Applies(hw[k], tid) ==> ArmedFor(dr7.bits, k) == Meaning(hw[k], tid)
    ensures exact ==> forall k :: 0 <= k < 4 && !Applies(hw[k], tid) ==> ArmedFor(dr7.bits, k) == Disarmed
  {
    hide Dr7, ArmedFor;
    forall k | 0 <= k < 4
      ensures ArmedFor(dr7.bits, k) == Meaning(acc[k], tid)
    {
      Dr7RoundTrip(acc, tid, k);
    }
  }

  lemma CleanUpToNothing(t: Table)
    requires Deactivatable(t)
    ensures CleanUpTo(t, 0) == t
  {
  }

  lemma CleanUpToNext(t: Table, n: nat)
    requires Deactivatable(t) && n < |t.locations|
    ensures var u := CleanUpTo(t, n);
            && u.locations[n] == t.locations[n]
            && CleanUpTo(t, n + 1) == if t.locations[n].breakpoints == [] then Deactivate(u, n) else u
  {
    CleanUpToShape(t, n);
  }

  lemma KeptNext(u: Table, v: Table, n: nat)
    requires n < |u.locations| == |v.locations|
    requires v == u || (CanDeactivate(u, n) && v == Deactivate(u, n))
    ensures Kept(v.locations[..n + 1]) == Kept(u.locations[..n]) + if u.locations[n].breakpoints == [] then []
        else [v.locations[n]]
  {
    assert v.locations[..n + 1][..n] == u.locations[..n];
  }

  lemma OneChanged(a: seq<Location>, b: seq<Location>, res: nat, idx: nat)
    requires res <= idx < |a| == |b| && b == a[idx := b[idx]]
    ensures b[..res] == a[..res] && b[idx + 1..] == a[idx + 1..]
  {
  }

  lemma Swapped(a: seq<Location>, b: seq<Location>, res: nat, idx: nat)
    requires res <= idx < |a| && b == a[res := a[idx]][idx := a[res]]
    ensures b[..res + 1] == a[..res] + [a[idx]] && b[idx + 1..] == a[idx + 1..]
  {
  }

  lemma CanDeactivateSame(t: Table, u: Table, n: nat)
    requires Deactivatable(u) && n < |t.locations| == |u.locations|
    requires t.locations[n] == u.locations[n] && t.memory == u.memory && t.hardware == u.hardware
    ensures CanDeactivate(t, n) && CanDeactivate(u, n)
    ensures Deactivate(t, n).memory == Deactivate(u, n).memory && Deactivate(t, n).hardware == Deactivate(u, n).hardware
  {
  }

  lemma CanDeactivateAt(t: Table, n: nat)
    requires Deactivatable(t) && n < |t.locations|
    ensures CanDeactivate(t, n)
  {
  }

  lemma {:induction false} ConvertUpToRest(t: Table, n: nat, pcs: set<nat>)
    requires Deactivatable(t) && n <= |t.locations|
    ensures forall i :: n <= i < |t.locations| ==> ConvertUpTo(t, n, pcs).locations[i] == t.locations[i]
  {
    hide Deactivatable;
    if n > 0 {
      ConvertUpToRest(t, n - 1, pcs);
    }
  }

  lemma MarkNothing(threads: map<nat, Thread>, locs: seq<Location>)
    ensures MarkUpTo(threads, locs, 0) == threads
  {
  }

  lemma PrefixNext(locs: seq<Location>, n: nat)
    requires n < |locs|
    ensures locs[..n + 1] == locs[..n] + [locs[n]]
  {
  }

  lemma MarkNext(threads: map<nat, Thread>, locs: seq<Location>, n: nat, pcs: set<nat>)
    requires n < |locs| && pcs == KnownPcs(threads)
    ensures MarkUpTo(threads, locs, n + 1) == MarkAt(MarkUpTo(threads, locs, n), locs[n], pcs)
  {
    PrefixNext(locs, n);
    assert forall tid :: tid in threads && threads[tid].rip.Some? ==> threads[tid].rip.value in KnownPcs(threads);
  }

  // Each slot that applies to the thread has its address in the registers.
  ghost predicate HasAddrs(r: Registers, hw: seq<HardwareBreakpoint>, tid: nat) {
    && |hw| == 4 == |r.addrs|
    && forall k :: 0 <= k < 4 && Applies(hw[k], tid) ==> r.addrs[k] == hw[k].addr
  }

  // The registers arm every slot that applies to the thread, at its address and as it asks. If exact, they arm
  // nothing else.
  ghost predicate Arms(r: Registers, hw: seq<HardwareBreakpoint>, tid: nat, exact: bool) {
    && HasAddrs(r, hw, tid)
    && (forall k :: 0 <= k < 4 && Applies(hw[k], tid) ==> ArmedFor(r.dr7.bits, k) == Meaning(hw[k], tid))
    && (exact ==> forall k :: 0 <= k < 4 && !Applies(hw[k], tid) ==> ArmedFor(r.dr7.bits, k) == Disarmed)
  }

  // The registers arm every slot that has been pushed and applies to the thread.
  ghost predicate ArmsPushed(r: Registers, hw: seq<HardwareBreakpoint>, tid: nat) {
    && |hw| == 4 == |r.addrs|
    && forall k :: 0 <= k < 4 && hw[k].pushedToThreads && Applies(hw[k], tid) ==>
         r.addrs[k] == hw[k].addr && ArmedFor(r.dr7.bits, k) == Meaning(hw[k], tid)
  }

  function OneMoreFailed(r: Registers): Registers { r.(failedWrites := r.failedWrites + 1) }

  // What writes to registers have done to the rest: nothing, unless some of them failed.
  ghost predicate WentThrough(failed: nat, failed': nat, s: State, s': State) {
    failed' >= failed && (failed' == failed ==> s' == s)
  }

  function AllPushed(hw: seq<HardwareBreakpoint>): seq<HardwareBreakpoint> {
    seq(|hw|, k requires 0 <= k < |hw| => hw[k].(pushedToThreads := true))
  }

  ghost predicate PushedAfter(s: State, s': State) {
    s' == s || s' == s.(table := s.table.(hardware := AllPushed(s.table.hardware)))
  }

  ghost predicate AllArmed(registers: map<nat, Registers>, hw: seq<HardwareBreakpoint>) {
    forall tid <- registers.Keys :: registers[tid].programmed ==> ArmsPushed(registers[tid], hw, tid)
  }

  lemma AllStayArmed(registers: map<nat, Registers>, hw: seq<HardwareBreakpoint>, hw': seq<HardwareBreakpoint>)
    requires AllArmed(registers, hw) && SlotsRenewed(hw, hw')
    ensures AllArmed(registers, hw')
  {
  }

  // One thread's registers have been written, and slots at most freed.
  lemma OneProgrammed(registers: map<nat, Registers>, registers': map<nat, Registers>, tid: nat,
                      hw: seq<HardwareBreakpoint>, hw': seq<HardwareBreakpoint>, exact: bool)
    requires AllArmed(registers, hw) && SlotsRenewed(hw, hw')
    requires registers - {tid} == registers' - {tid} && tid in registers'
    requires registers'[tid].programmed ==> Arms(registers'[tid], hw', tid, exact)
    ensures AllArmed(registers', hw')
  {
    forall x | x in registers' && registers'[x].programmed ensures ArmsPushed(registers'[x], hw', x) {
      if x != tid {
        OthersUnchanged(registers, registers', tid, x);
        assert ArmsPushed(registers[x], hw, x);
      }
    }
  }

  lemma FreedIsRenewed(hw: seq<HardwareBreakpoint>, hw': seq<HardwareBreakpoint>)
    requires SlotsOnlyFreed(hw, hw')
    ensures SlotsRenewed(hw, hw')
  {
  }

  lemma StaysArmed(r: Registers, hw: seq<HardwareBreakpoint>, hw': seq<HardwareBreakpoint>, tid: nat)
    requires Arms(r, hw, tid, false) && SlotsOnlyFreed(hw, hw')
    ensures Arms(r, hw', tid, false)
  {
  }

  lemma ArmedInexact(r: Registers, hw: seq<HardwareBreakpoint>, tid: nat, exact: bool)
    requires Arms(r, hw, tid, exact)
    ensures Arms(r, hw, tid, false)
  {
  }

  lemma OthersUnchanged(r: map<nat, Registers>, r': map<nat, Registers>, tid: nat, x: nat)
    requires r - {tid} == r' - {tid} && x != tid
    ensures x in r <==> x in r'
    ensures x in r ==> r'[x] == r[x]
  {
    assert x in r - {tid} <==> x in r;
    assert x in r' - {tid} <==> x in r';
    assert x in r ==> (r - {tid})[x] == r[x];
    assert x in r' ==> (r' - {tid})[x] == r'[x];
  }

  lemma ProgrammedArms(r: Registers, hw: seq<HardwareBreakpoint>, tid: nat, exact: bool, programmed: bool)
    requires Arms(r, hw, tid, exact)
    ensures Arms(r.(programmed := programmed), hw, tid, exact)
  {
  }

  lemma PushedArms(r: Registers, hw: seq<HardwareBreakpoint>, hw': seq<HardwareBreakpoint>, tid: nat)
    requires Arms(r, hw, tid, false) && |hw'| == |hw|
    requires forall k :: 0 <= k < |hw| ==> hw'[k] == hw[k].(pushedToThreads := true)
    ensures Arms(r, hw', tid, false) && ArmsPushed(r, hw', tid)
  {
  }

  // Each location is hardware if and only if a thread stands on it, and active unless it has an error.
  ghost predicate Settled(locs: seq<Location>, pcs: set<nat>) {
    forall i :: 0 <= i < |locs| ==>
      && (locs[i].hardware <==> locs[i].addr in pcs)
      && (locs[i].error.None? <==> locs[i].active)
  }

  lemma SettledAfterFailures(a: seq<Location>, b: seq<Location>, pcs: set<nat>)
    requires Settled(a, pcs) && SomeFailed(a, b)
    ensures Settled(b, pcs)
  {
  }

  // Every location that is referred to is armed, unless that failed.
  predicate ActiveOrFailed(locs: seq<Location>) {
    forall l <- locs :: l.breakpoints != [] ==> l.active || l.error.Some?
  }

  lemma FailedStaysActive(a: seq<Location>, b: seq<Location>)
    requires SomeFailed(a, b)
    ensures ActiveOrFailed(a) ==> ActiveOrFailed(b)
  {
    if ActiveOrFailed(a) {
      forall l | l in b && l.breakpoints != [] ensures l.active || l.error.Some? {
        var i :| 0 <= i < |b| && b[i] == l;
        assert MayHaveFailed(a[i], b[i]) && a[i] in a && l.breakpoints[0] in a[i].breakpoints;
      }
    }
  }

  lemma RearmedIsActive(s: State, code: Memory, pcs: set<nat>, stepTid: Option<nat>, s': State)
    requires Good(s, code) && Rearmed(s, pcs, stepTid, s')
    ensures Settled(s'.table.locations, pcs) && ActiveOrFailed(s'.table.locations)
  {
    HandleSettles(s, code, pcs, stepTid);
    SettledAfterFailures(Handle(s.table, pcs, stepTid).locations, s'.table.locations, pcs);
    hide Handle;
    forall l | l in s'.table.locations ensures l.active || l.error.Some? {
      var i :| 0 <= i < |s'.table.locations| && s'.table.locations[i] == l;
    }
  }

  lemma HandleSettles(s: State, code: Memory, pcs: set<nat>, stepTid: Option<nat>)
    requires Good(s, code)
    ensures Deactivatable(s.table) && Settled(Handle(s.table, pcs, stepTid).locations, pcs)
  {
    HandleCorrect(s.table, code, pcs, stepTid);
  }

  lemma HandleKeepsOwned(s: State, code: Memory, pcs: set<nat>, stepTid: Option<nat>)
    requires Good(s, code)
    ensures Deactivatable(s.table)
    ensures DataOwned(s.pool, s.table.hardware) && Exclusive(s.table) ==>
              var t := Handle(s.table, pcs, stepTid); DataOwned(s.pool, t.hardware) && Exclusive(t)
  {
    InvDeactivatable(s.table, code);
    HandleData(s.table, pcs, stepTid);
    if DataOwned(s.pool, s.table.hardware) && Exclusive(s.table) {
      SameDataKeeps(s.pool, s.table.hardware, Handle(s.table, pcs, stepTid).hardware);
    }
  }

  // Live threads are all stopped, and their instruction pointers known.
  ghost predicate PcsKnown(threads: map<nat, Thread>) {
    forall tid :: tid in threads && !threads[tid].exiting ==>
        threads[tid].state == Suspended && threads[tid].rip == Some(threads[tid].pc)
  }

  // No live thread stands on an injected int3.
  ghost predicate NotOnPatch(threads: map<nat, Thread>, locs: seq<Location>) {
    forall tid :: tid in threads && !threads[tid].exiting ==> !PatchedAt(locs, threads[tid].pc)
  }

  lemma NobodyOnPatch(threads: map<nat, Thread>, kept: seq<Location>, locs: seq<Location>, pcs: set<nat>)
    requires pcs == KnownPcs(threads) && PcsKnown(threads) && Settled(locs, pcs)
    ensures NotOnPatch(MarkUpTo(threads, kept, |kept|), locs)
  {
  }

  lemma NotOnPatchAfterFailures(threads: map<nat, Thread>, a: seq<Location>, b: seq<Location>)
    requires NotOnPatch(threads, a) && SomeFailed(a, b)
    ensures NotOnPatch(threads, b)
  {
  }

  // The invariant holds between the stages of handle_breakpoints as well.
  lemma HandleStages(s: State, code: Memory, pcs: set<nat>, stepTid: Option<nat>)
    requires Good(s, code)
    ensures Deactivatable(s.table)
    ensures var c := Compact(s.table);
            && c.locations == Kept(s.table.locations)
            && Good(s.(table := c), code) && Deactivatable(c)
            && Good(s.(table := ConvertUpTo(c, |c.locations|, pcs)), code)
            && Good(s.(table := Handle(s.table, pcs, stepTid)), code)
  {
    var t := s.table;
    InvDeactivatable(t, code);
    CompactKeeps(t, code);
    CleanUpToData(t, |t.locations|);
    var c := Compact(t);
    InvDeactivatable(c, code);
    ConvertUpToKeeps(c, code, |c.locations|, pcs);
    ConvertUpToData(c, |c.locations|, pcs);
    var v := ConvertUpTo(c, |c.locations|, pcs);
    HandleCorrect(t, code, pcs, stepTid);
    ArmUpToData(v, |v.locations|, stepTid);
    hide Inv, Deactivatable;
    FewerKeeps(s.pool, t.hardware, c.hardware);
    FewerKeeps(s.pool, c.hardware, v.hardware);
    FewerKeeps(s.pool, v.hardware, Handle(t, pcs, stepTid).hardware);
  }

  lemma StagesUpToDate(s: State, code: Memory, pcs: set<nat>, stepTid: Option<nat>)
    requires Good(s, code) && UpToDate(s.table.locations, code)
    ensures Deactivatable(s.table) && UpToDate(Compact(s.table).locations, code)
    ensures var c := Compact(s.table);
            Deactivatable(c) && UpToDate(ConvertUpTo(c, |c.locations|, pcs).locations, code)
    ensures UpToDate(Handle(s.table, pcs, stepTid).locations, code)
  {
    HandleUpToDate(s.table, code, pcs, stepTid);
  }

  // An active software location at index n or later is at address a.
  ghost predicate PatchedFrom(locs: seq<Location>, n: nat, a: nat) {
    exists j :: n <= j < |locs| && SoftActive(locs[j]) && locs[j].addr == a
  }

  // buf is the code from start on, where locations before index n have been fixed up.
  ghost predicate DecodeOk(locs: seq<Location>, code: Memory, buf: seq<bv8>, start: nat, n: nat) {
    forall a :: start <= a < start + |buf| ==>
      a in code && buf[a - start] == if PatchedFrom(locs, n, a) then INT3 else code[a]
  }

  lemma LowerBoundRest(locs: seq<Location>, addr: nat)
    requires Sorted(locs)
    ensures forall j :: LowerBound(locs, addr) <= j < |locs| ==> locs[j].addr >= addr
  {
  }

  lemma DecodeStart(t: Table, code: Memory, buf: seq<bv8>, start: nat, n: nat)
    requires Inv(t, code) && n <= |t.locations|
    requires forall a :: start <= a < start + |buf| ==> a in t.memory && buf[a - start] == t.memory[a]
    requires forall j :: 0 <= j < n ==> t.locations[j].addr < start
    ensures DecodeOk(t.locations, code, buf, start, n)
  {
  }

  lemma DecodeNext(t: Table, code: Memory, buf: seq<bv8>, buf': seq<bv8>, start: nat, n: nat)
    requires Inv(t, code) && n < |t.locations| && start <= t.locations[n].addr < start + |buf|
    requires DecodeOk(t.locations, code, buf, start, n)
    requires buf' == if SoftActive(t.locations[n])
        then buf[t.locations[n].addr - start := t.locations[n].originalByte] else buf
    ensures DecodeOk(t.locations, code, buf', start, n + 1)
  {
  }

  lemma DecodeDone(t: Table, code: Memory, buf: seq<bv8>, start: nat, n: nat)
    requires Inv(t, code) && n <= |t.locations| && DecodeOk(t.locations, code, buf, start, n)
    requires n < |t.locations| ==> t.locations[n].addr >= start + |buf|
    ensures forall a :: start <= a < start + |buf| ==> a in code && buf[a - start] == code[a]
  {
  }

  // Memory differs from the original code only at active software locations.
  lemma PatchedByLocations(t: Table, code: Memory)
    requires Inv(t, code)
    ensures t.memory.Keys == code.Keys
    ensures forall a :: a in code && t.memory[a] != code[a] ==>
              exists l <- t.locations :: SoftActive(l) && l.addr == a
  {
  }

  // Every byte that differs is among those to restore.
  lemma AllRestored(locs: seq<Location>, toRestore: seq<(nat, bv8)>, before: Memory, after: Memory, code: Memory)
    requires before.Keys == after.Keys == code.Keys
    requires forall a :: a in code && before[a] != code[a] ==> exists l <- locs :: SoftActive(l) && l.addr == a
    requires forall l <- locs :: SoftActive(l) ==> (l.addr, l.originalByte) in toRestore
    requires forall a :: a in after ==> after[a] == before[a] || after[a] == code[a]
    requires forall m :: 0 <= m < |toRestore| && toRestore[m].0 in after ==>
               after[toRestore[m].0] == code[toRestore[m].0]
    ensures after == code
  {
    forall a | a in code ensures after[a] == code[a] {
      if before[a] != code[a] {
        var l :| l in locs && SoftActive(l) && l.addr == a;
        var m :| 0 <= m < |toRestore| && toRestore[m] == (l.addr, l.originalByte);
      }
    }
  }

  lemma WordStaysMapped(a: Memory, b: Memory, addr: nat)
    requires a.Keys == b.Keys && WordMapped(a, WordBase(addr))
    ensures WordMapped(b, WordBase(addr))
  {
  }

  lemma FirstFreeIs(hw: seq<HardwareBreakpoint>, k: nat)
    requires k <= |hw| && (forall m :: 0 <= m < k ==> hw[m].active) && (k < |hw| ==> !hw[k].active)
    ensures FirstFree(hw) == k
  {
  }
}
