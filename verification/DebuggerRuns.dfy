// Whole runs of a debugging session, from the start of the process.
module DebuggerRuns {
  import opened Options
  import opened DebuggeeMemory
  import opened BreakpointTable
  import opened StepBreakpoints
  import opened HandleBreakpoints
  import opened BreakpointHistory
  import opened Placement
  import opened DebugRegisters
  import opened DebuggerModel
  import opened DebuggerSession
  import opened DebuggerState

  const NOP: bv8 := 0x90

  const AT: nat := 4096

  predicate InText(a: nat) { a < 8192 }

  function Nops(): Memory { map a: nat | a < 8192 && InText(a) :: NOP }

  // The breakpoints once the user's own is active.
  function WithOwn(): Pool { DefaultPool()[3 := Breakpoint(OnInstruction, Some([(AT, 0)]), true, true, false)] }

  function Own(): seq<Location> { [Location(AT, NOP, false, false, [Id(3, 0)], None, false)] }

  // The only thread, once it has been let run.
  function TheThread(state: ThreadState, pc: nat): map<nat, Thread> {
    map[1 := Thread(state, pc, Some(pc), false, false, false, None, false, false)]
  }

  // A single thread, stopped by nothing, in a program of nops.
  ghost predicate Free(d: Debugger, pc: nat)
    reads d, d.hardwareBreakpoints
  {
    && d.Sound() && d.targetState == ProcessRunning && d.stepping.None? && d.pendingStep.None?
    && !d.stoppingToHandleBreakpoints && !d.waitingForSymbols
    && d.threads.Keys == {1} && !d.threads[1].exiting && d.threads[1].state == Running && !d.threads[1].singleStepping
    && !d.threads[1].waitingForInitialStop && d.threads[1].pc == pc && d.causes == map[] && d.code == Nops()
  }

  // There is a breakpoint at AT.
  ghost predicate Armed(d: Debugger, pc: nat)
    reads d, d.hardwareBreakpoints
  {
    && Free(d, pc) && d.breakpoints == WithOwn()
    && |d.breakpointLocations| == 1 && d.breakpointLocations[0].addr == AT &&
        Id(3, 0) in d.breakpointLocations[0].breakpoints
    && SoftActive(d.breakpointLocations[0])
  }

  lemma NothingRejected(a: State, b: State)
    requires OnlyRejected(a, b) && a.table.locations == [] && forall id <- a.pool.Keys :: !a.pool[id].on.OnData?
    ensures b.table.locations == [] && b.pool == a.pool
  {
  }

  method Started() returns (d: Debugger)
    ensures fresh(d) && fresh(d.hardwareBreakpoints) && Free(d, 0)
    ensures d.breakpointLocations == [] && d.breakpoints == DefaultPool()
    ensures d.threads == TheThread(Running, 0)
  {
    hide Debugger.Sound, DefaultPool, NothingToActivate, OneHidden;
    NothingYet();
    d := FirstStop();
    d.ProcessInitialExec(1, map[], NotFound, false);
  }

  // The process has been started; its only thread has stopped for the first time and goes on.
  method FirstStop() returns (d: Debugger)
    ensures fresh(d) && fresh(d.hardwareBreakpoints)
    ensures d.Sound() && d.PendingOk() && d.targetState == Starting && d.stepping.None? && d.pendingStep.None?
    ensures !d.stoppingToHandleBreakpoints && !d.waitingForSymbols && d.causes == map[] && d.code == Nops()
    ensures d.breakpointLocations == [] && d.breakpoints == DefaultPool()
    ensures d.threads == TheThread(Running, 0)
  {
    hide Debugger.Sound, DefaultPool, OnlyRejected, OneHidden;
    NothingYet();
    d := new Debugger(1, 0, Nops(), false, map[]);
    ghost var s0 := d.S();
    d.ProcessStop(1);
    NothingRejected(s0, d.S());
  }

  lemma NothingYet()
    ensures CarriedOver(map[]) && StartingPool(map[]) == DefaultPool() && NothingToActivate(DefaultPool(), map[])
    ensures forall id <- DefaultPool().Keys :: !DefaultPool()[id].on.OnData?
  {
  }

  // handle_breakpoints patches a mapped address that no thread stands at.
  lemma OneLocationArmed(s: State, code: Memory, pcs: set<nat>, s': State, addr: nat, ref: BreakpointRef)
    requires Good(s, code) && Rearmed(s, pcs, None, s') && Good(s', code)
    requires s.table.locations == [Location(addr, OriginalByte(code, addr), false, false, [ref], None, false)]
    requires WordMapped(code, WordBase(addr)) && forall id <- s.pool.Keys :: !s.pool[id].on.OnData?
    ensures |s'.table.locations| == 1 && s'.table.locations[0].addr == addr && s'.pool == s.pool
    ensures ref in s'.table.locations[0].breakpoints
    ensures if addr in pcs then s'.table.locations[0].hardware else SoftActive(s'.table.locations[0])
  {
    RearmedIsActive(s, code, pcs, None, s');
    var l := s.table.locations[0];
    HandleCorrect(s.table, code, pcs, None);
    var u := Handle(s.table, pcs, None);
    assert Kept(s.table.locations) == [l];
    assert MayHaveFailed(u.locations[0], s'.table.locations[0]) &&
        KeepsRefsAt(s.pool, u.locations[0], s'.table.locations[0]);
    if addr !in pcs {
      assert u.locations[0].addr == addr && !u.locations[0].noRetry && !u.locations[0].hardware;
      assert u.memory.Keys == code.Keys;
      assert WordMapped(u.memory, WordBase(addr));
      assert u.locations[0].active;
    }
  }

  lemma FirstBreakpoint(t: Table)
    requires t.locations == []
    ensures var s := ActivateBreakpoint(State(t, DefaultPool()[3 := NewBreakpoint(OnInstruction)]), 3,
                                        Some([(AT, 0)]));
            && s.table == t.(locations := [Location(AT, OriginalByte(t.memory, AT), false, false, [Id(3, 0)], None,
                false)])
            && s.pool == WithOwn()
  {
    var addrs := [(AT, 0)];
    assert addrs[..0] == [] && AddLocations(t, 3, []) == t;
    assert AddLocations(t, 3, addrs) == AddLocation(t, Id(3, 0), AT);
    assert ActivateBreakpoint(State(t, DefaultPool()[3 := NewBreakpoint(OnInstruction)]), 3, Some(addrs)).pool[3]
           == WithOwn()[3];
  }

  // The breakpoint is added while the thread runs.
  method AddFirst(d: Debugger)
    requires Free(d, 0) && d.breakpointLocations == [] && d.breakpoints == DefaultPool()
    modifies d`breakpointLocations, d`memory, d`breakpoints, d`registers, d`threads, d`stoppingToHandleBreakpoints,
             d`waitingForSymbols, d.hardwareBreakpoints
    ensures d.Sound() && d.threads == old(d.threads) && d.stoppingToHandleBreakpoints && !d.waitingForSymbols
    ensures d.breakpointLocations == Own() && d.breakpoints == WithOwn()
  {
    hide Debugger.Sound, Debugger.Valid, Good, ActivateBreakpoint, Rearmed, KnownPcs, OneHidden;
    Undisturbed(d);
    FirstBreakpoint(d.T());
    var added, ok := d.AddBreakpoint(3, OnInstruction, map[3 := [(AT, 0)]], false);
  }

  lemma Undisturbed(d: Debugger)
    requires Free(d, 0) && d.breakpointLocations == [] && d.breakpoints == DefaultPool()
    ensures OriginalByte(d.memory, AT) == NOP && d.AnyThreadRunning() && 3 !in d.breakpoints
  {
    OriginalOfNops(d.T());
    assert 1 in d.threads.Keys;
  }

  lemma OriginalOfNops(t: Table)
    requires Inv(t, Nops()) && t.locations == []
    ensures OriginalByte(t.memory, AT) == NOP
  {
  }

  // The breakpoint has been added, but not been dealt with.
  ghost predicate Added(d: Debugger)
    reads d, d.hardwareBreakpoints
  {
    && d.Sound() && d.targetState == ProcessRunning && d.stepping.None? && d.pendingStep.None?
    && d.stoppingToHandleBreakpoints && !d.waitingForSymbols && d.causes == map[] && d.code == Nops()
    && d.breakpointLocations == Own() && d.breakpoints == WithOwn()
  }

  // The thread gets to pc and is stopped there.
  method ReachAndStop(d: Debugger, pc: nat)
    requires Added(d) && d.threads == TheThread(Running, 0)
    modifies d`breakpointLocations, d`memory, d`breakpoints, d`registers, d`threads, d`causes, d.hardwareBreakpoints
    ensures Added(d) && d.threads == TheThread(Suspended, pc)
  {
    hide Debugger.Sound, Debugger.Valid, Good;
    IsNop(d, 0);
    d.Execute(1, pc, None);
    d.ProcessStop(1);
  }

  lemma IsNop(d: Debugger, a: nat)
    requires d.Sound() && d.code == Nops() && InText(a)
    requires forall l <- d.breakpointLocations :: !(SoftActive(l) && l.addr == a)
    ensures a in d.memory && d.memory[a] == NOP
  {
  }

  // The new breakpoint is dealt with while the thread stands at pc. If that fails, the session ends.
  method DealWith(d: Debugger, pc: nat) returns (ok: bool)
    requires Added(d) && d.threads == TheThread(Suspended, pc)
    modifies d`breakpointLocations, d`memory, d`breakpoints, d`registers, d`threads, d`stoppingToHandleBreakpoints,
             d.hardwareBreakpoints
    ensures ok ==> Free(d, pc) && d.breakpoints == WithOwn()
    ensures ok ==> |d.breakpointLocations| == 1 && d.breakpointLocations[0].addr == AT &&
                   Id(3, 0) in d.breakpointLocations[0].breakpoints
    ensures ok ==> if pc == AT then d.threads[1].ignoreNextHitAt == Some(AT) && d.breakpointLocations[0].hardware
                   else SoftActive(d.breakpointLocations[0])
  {
    hide Added, Debugger.Sound, Debugger.Valid, Rearmed, Marked;
    ghost var s1 := d.S();
    AddedMeans(d, pc);
    ok := FinishOne(d, pc);
    if ok {
      SoundIsGood(d);
      OneLocationArmed(s1, d.code, {pc}, d.S(), AT, Id(3, 0));
    }
  }

  lemma AddedMeans(d: Debugger, pc: nat)
    requires Added(d) && d.threads == TheThread(Suspended, pc)
    ensures d.breakpointLocations == Own() && d.breakpoints == WithOwn() && Good(d.S(), d.code) && d.code == Nops()
    ensures Own() == [Location(AT, OriginalByte(d.code, AT), false, false, [Id(3, 0)], None, false)]
    ensures WordMapped(d.code, WordBase(AT)) && KnownPcs(d.threads) == {pc} && !d.AnyThreadRunning()
  {
    SoundIsGood(d);
    OriginalNop();
    PcsOfOne(d.threads, pc);
  }

  method FinishOne(d: Debugger, pc: nat) returns (ok: bool)
    requires Added(d) && d.threads == TheThread(Suspended, pc) && KnownPcs(d.threads) == {pc}
    requires !d.AnyThreadRunning()
    modifies d`breakpointLocations, d`memory, d`breakpoints, d`registers, d`threads, d`stoppingToHandleBreakpoints,
             d.hardwareBreakpoints
    ensures ok ==> Free(d, pc) && Rearmed(old(d.S()), {pc}, None, d.S())
    ensures ok && pc == AT ==> d.threads[1].ignoreNextHitAt == Some(AT)
  {
    hide Debugger.Sound, Debugger.Valid, Good, Rearmed, KnownPcs, Marked;
    MarkedOne(d.threads, pc);
    ok := d.FinishEvents();
  }

  lemma OriginalNop()
    ensures OriginalByte(Nops(), AT) == NOP
  {
  }

  // The thread gets to pc and is stopped there for the new breakpoint, which is then dealt with.
  method StoppedAt(pc: nat) returns (d: Debugger, ok: bool)
    ensures fresh(d) && fresh(d.hardwareBreakpoints)
    ensures ok ==> Free(d, pc) && d.breakpoints == WithOwn()
    ensures ok ==> |d.breakpointLocations| == 1 && d.breakpointLocations[0].addr == AT &&
                   Id(3, 0) in d.breakpointLocations[0].breakpoints
    ensures ok ==> if pc == AT then d.threads[1].ignoreNextHitAt == Some(AT) && d.breakpointLocations[0].hardware
                   else SoftActive(d.breakpointLocations[0])
  {
    hide Debugger.Sound, Debugger.Valid, Good;
    d := Started();
    AddFirst(d);
    ReachAndStop(d, pc);
    ok := DealWith(d, pc);
  }

  lemma MarkedOne(threads: map<nat, Thread>, pc: nat)
    requires threads == TheThread(Suspended, pc)
    ensures var t := threads[1];
            Marked(threads, Own()) == map[1 := if pc == AT then t.(ignoreNextHitAt := Some(AT)) else t]
  {
    assert Kept(Own()) == Own();
    assert Own()[..1] == Own();
    assert SoftLocationAt(Own(), pc) <==> pc == AT by { assert Own()[0] in Own(); }
  }

  lemma SoundIsGood(d: Debugger)
    requires d.Sound()
    ensures Good(d.S(), d.code)
  {
  }

  lemma PcsOfOne(threads: map<nat, Thread>, pc: nat)
    requires threads.Keys == {1} && threads[1].rip == Some(pc)
    ensures KnownPcs(threads) == {pc}
  {
  }

  // The thread runs to the breakpoint and hits it.
  method Hit(d: Debugger)
    requires Armed(d, 0)
    modifies d`threads, d`causes
    ensures d.Sound() && d.causes == map[1 := Int3(AT)]
    ensures d.threads == old(d.threads)[1 := old(d.threads)[1].(pc := AT + 1)]
  {
    hide ThreadsOk, RefsOk, DataOk, AllArmed, Covered;
    assert d.memory[0] == NOP && d.memory[AT] == INT3 by { PatchedOnlyThere(d.T()); }
    d.Execute(1, AT, None);
    d.Execute(1, 0, None);
  }

  lemma PatchedOnlyThere(t: Table)
    requires Inv(t, Nops()) && |t.locations| == 1 && t.locations[0].addr == AT && SoftActive(t.locations[0])
    ensures 0 in t.memory && t.memory[0] == NOP && AT in t.memory && t.memory[AT] == INT3
  {
  }

  // Breakpoints count while the process runs with no step under way or waiting.
  predicate RunsFreely(d: Debugger)
    reads d
  {
    d.targetState == ProcessRunning || (d.targetState == Starting && d.pendingStep.None?)
  }

  // What a trap comes to, by its true cause. If the process runs freely, it is suspended and the thread stays stopped
  // exactly if an active breakpoint whose condition holds is at the place the trap is about (unless the thread is
  // marked to ignore that), or a data breakpoint whose condition holds was hit, or the program itself asked for a trap
  // where there is no breakpoint. Otherwise nothing stops it.
  method Traps(d: Debugger, tid: nat, si: SiCode, hwHits: set<nat>, stops: set<nat>) returns (hit: bool, refresh: bool)
    requires StepStateOk(d) && IsRunning(d, tid) && !d.threads[tid].exiting
    requires tid in d.causes && Reported(d.causes[tid], d.threads[tid], si, hwHits)
    modifies d, d.hardwareBreakpoints
    ensures StepStateOk(d) && tid in d.threads
    ensures var at := old(Site(d.causes[tid], d.threads[tid]));
            var marked := hwHits != {} && old(d.threads)[tid].ignoreNextHitAt == Some(old(d.threads)[tid].pc);
            var onCode := AnyWanted(old(d.breakpoints), at, stops) && !marked;
            var onData := exists k <- hwHits, id <- stops ::
                k < 4 && d.hardwareBreakpoints[k].active && d.hardwareBreakpoints[k].dataBreakpointId == Some(id);
            var ownTrap := (OriginalByte(d.code, at) == INT3 || si == User) &&
                forall id, level :: !Wants(old(d.breakpoints), id, at, level);
            hit <==> old(RunsFreely(d)) && (onCode || onData || ownTrap)
    ensures var at := old(Site(d.causes[tid], d.threads[tid]));
            var marked := hwHits != {} && old(d.threads)[tid].ignoreNextHitAt == Some(old(d.threads)[tid].pc);
            refresh <==> !marked && HiddenWanted(old(d.breakpoints), at)
    ensures d.targetState == if hit then ProcessSuspended else old(d.targetState)
    ensures d.threads[tid].state == if hit || d.stoppingToHandleBreakpoints then Suspended else Running
  {
    hide Debugger.Sound, Reported, AnyWanted, HiddenWanted, Wants, TrapHit, RefsAt, OriginalByte, Site, PoolStays,
        Refreshes;
    ghost var t, cause, pool, locs, stepping := d.threads[tid], d.causes[tid], d.breakpoints, d.breakpointLocations,
        d.stepping;
    ghost var at, freely := Site(cause, t), RunsFreely(d);
    TrapFacts(d, tid, si, hwHits, stops);
    hit, refresh := d.ProcessTrap(tid, si, hwHits, stops, false, []);
    ghost var refs := RefsAt(locs, at);
    HitIs(refs, d.hardwareBreakpoints[..], OriginalByte(d.code, at) == INT3, si, hwHits, Spurious(t, hwHits), freely,
        stops, pool);
  }

  lemma TrapFacts(d: Debugger, tid: nat, si: SiCode, hwHits: set<nat>, stops: set<nat>)
    requires StepStateOk(d) && IsRunning(d, tid) && !d.threads[tid].exiting
    requires tid in d.causes && Reported(d.causes[tid], d.threads[tid], si, hwHits)
    ensures d.hardwareBreakpoints.Length == 4 && (d.IgnoresBreakpoints() <==> !RunsFreely(d))
    ensures var at := Site(d.causes[tid], d.threads[tid]);
            && TrapAddr(d.threads[tid], si, hwHits) == at
            && (forall spurious ::
                  Refreshes(RefsAt(d.breakpointLocations, at), spurious, d.breakpoints) <==>
                    !spurious && HiddenWanted(d.breakpoints, at))
            && (forall spurious ::
                  Stops(RefsAt(d.breakpointLocations, at), spurious, false, stops, d.breakpoints) <==>
                    !spurious && AnyWanted(d.breakpoints, at, stops))
            && (RunsFreely(d) ==> (RefsAt(d.breakpointLocations, at) == [] <==>
                  forall id, level :: !Wants(d.breakpoints, id, at, level)))
  {
    assert ThreadOk(d.breakpointLocations, d.code, d.stoppingToHandleBreakpoints, NeedsStep(d.stepping, tid),
        CauseOf(d.causes, tid), d.threads[tid]);
    TrapAddrIsSite(d.code, d.causes[tid], d.threads[tid], si, hwHits);
    var at := Site(d.causes[tid], d.threads[tid]);
    RefsAtAre(d.breakpointLocations, d.stepping.Some?, d.breakpoints, at);
    RefreshesIs(RefsAt(d.breakpointLocations, at), d.breakpoints, at);
    forall spurious
      ensures Stops(RefsAt(d.breakpointLocations, at), spurious, false, stops, d.breakpoints) <==>
                !spurious && AnyWanted(d.breakpoints, at, stops)
    {
      StopsIsWanted(d.breakpointLocations, d.stepping.Some?, d.breakpoints, at, spurious, stops);
    }
  }

  // The hidden breakpoint, by which libraries are found, is active there.
  ghost predicate HiddenWanted(pool: Pool, addr: nat) {
    exists id, level :: Wants(pool, id, addr, level) && pool[id].hidden
  }

  lemma RefreshesIs(refs: seq<BreakpointRef>, pool: Pool, at: nat)
    requires forall id, level :: Id(id, level) in refs <==> Wants(pool, id, at, level)
    ensures forall spurious :: Refreshes(refs, spurious, pool) <==> !spurious && HiddenWanted(pool, at)
  {
    if exists r <- refs :: r.Id? && IsHidden(pool, r.id) {
      var r :| r in refs && r.Id? && IsHidden(pool, r.id);
      assert Id(r.id, r.level) in refs && Wants(pool, r.id, at, r.level);
    }
    if HiddenWanted(pool, at) {
      var id, level :| Wants(pool, id, at, level) && pool[id].hidden;
      assert Id(id, level) in refs && IsHidden(pool, id);
    }
  }

  lemma HitIs(refs: seq<BreakpointRef>, hw: seq<HardwareBreakpoint>, programTrap: bool, si: SiCode, hwHits: set<nat>,
              spurious: bool, freely: bool, stops: set<nat>, pool: Pool)
    requires |hw| == 4
    ensures TrapHit(refs, hw, programTrap, si, hwHits, spurious, !freely, stops, pool) <==>
              freely && (Stops(refs, spurious, false, stops, pool)
                         || (exists k <- hwHits, id <- stops :: k < 4 && hw[k].active &&
                               hw[k].dataBreakpointId == Some(id))
                         || ((programTrap || si == User) && refs == []))
  {
  }

  // The thread runs to the breakpoint, and that stops the process.
  method HitCounts() returns (d: Debugger, ok: bool, hit: bool)
    ensures ok ==> hit && d.Sound() && d.targetState == ProcessSuspended
    ensures ok ==> 1 in d.threads && d.threads[1].state == Suspended
  {
    hide Debugger.Sound, Debugger.Valid, Good;
    d, ok := StoppedAt(0);
    hit := false;
    if ok {
      Hit(d);
      OwnWanted();
      var refresh: bool;
      hit, refresh := Traps(d, 1, Kernel, {}, {3});
    }
  }

  lemma OwnWanted()
    ensures AnyWanted(WithOwn(), AT, {3})
  {
    assert Wants(WithOwn(), 3, AT, 0);
  }

  // A hit can be missed. The thread happens to be stopped where a breakpoint is, not because of it; the location
  // becomes hardware, and the thread is marked to ignore the hit that comes first. There has been none before.
  method HitMissed() returns (d: Debugger, ok: bool, hit: bool, ghost refs: seq<BreakpointRef>)
    ensures ok ==> !hit && Stops(refs, false, false, {3}, WithOwn())
  {
    hide Debugger.Sound, Debugger.Valid, Good;
    d, ok := StoppedAt(AT);
    hit, refs := false, [];
    if ok {
      hit, refs := HitMarked(d);
    }
  }

  method HitMarked(d: Debugger) returns (hit: bool, ghost refs: seq<BreakpointRef>)
    requires Free(d, AT) && d.breakpoints == WithOwn() && d.threads[1].ignoreNextHitAt == Some(AT)
    requires |d.breakpointLocations| == 1 && d.breakpointLocations[0].addr == AT && d.breakpointLocations[0].hardware
    requires Id(3, 0) in d.breakpointLocations[0].breakpoints
    modifies d, d.hardwareBreakpoints
    ensures !hit && Stops(refs, false, false, {3}, WithOwn())
  {
    hide Debugger.Sound, Debugger.Valid, Good, RefsAt, TrapHit, Stops, WithOwn, OriginalByte, PoolStays;
    IsNop(d, AT);
    OriginalNop();
    d.Execute(1, AT, Some(HardwareHit));
    refs := RefsAt(d.breakpointLocations, AT);
    OwnStops(d.breakpointLocations);
    var refresh: bool;
    hit, refresh := d.ProcessTrap(1, TrapBrkpt, {0}, {3}, false, []);
    NoHit(d, refs);
  }

  lemma OwnStops(locs: seq<Location>)
    requires |locs| == 1 && locs[0].addr == AT && Id(3, 0) in locs[0].breakpoints
    ensures var refs := RefsAt(locs, AT); refs != [] && Stops(refs, false, false, {3}, WithOwn())
  {
  }

  lemma NoHit(d: Debugger, refs: seq<BreakpointRef>)
    requires d.Sound() && PoolStays(WithOwn(), d.breakpoints) && refs != []
    ensures !TrapHit(refs, d.hardwareBreakpoints[..], false, TrapBrkpt, {0}, true, false, {3}, WithOwn())
  {
  }

  // A trap queued behind another stop can be misread: the thread hits the breakpoint, but its stop for an
  // interruption is reported first. When an instruction step then lets it run in single-step mode, the trap counts as
  // the finished step, and the thread goes on in the middle of the patched instruction.
  method QueuedTrapMisread() returns (d: Debugger, ok: bool, rightPc: nat)
    ensures ok ==> d.Sound() && 1 in d.threads && d.threads[1].pc != rightPc == AT
  {
    hide Debugger.Sound, Debugger.Valid, Good;
    d, ok := StoppedAt(0);
    rightPc := AT;
    if ok {
      Hit(d);
      InterruptAndStep(d);
      assert RightPc(d.causes[1], d.code, d.threads[1]) == AT && Misread(d.causes[1], d.code, d.threads[1]);
      var hit, refresh := d.ProcessTrap(1, Kernel, {}, {}, false, []);
    }
  }

  // The user suspends the process, and then steps by one instruction.
  method InterruptAndStep(d: Debugger)
    requires d.Sound() && d.targetState == ProcessRunning && !d.stoppingToHandleBreakpoints && !d.waitingForSymbols
    requires d.threads.Keys == {1} && d.threads[1].state == Running && !d.threads[1].exiting && 1 in d.causes
    requires !d.threads[1].waitingForInitialStop
    modifies d`breakpointLocations, d`memory, d`breakpoints, d`registers, d`threads, d`stoppingToHandleBreakpoints,
             d`stepping, d`pendingStep, d`targetState, d`waitingForSymbols, d.hardwareBreakpoints
    ensures d.Sound() && d.targetState == Stepping
    ensures d.threads.Keys == {1} && d.threads[1].state == Running && !d.threads[1].exiting &&
        d.threads[1].singleStepping
    ensures d.threads[1].pc == old(d.threads)[1].pc
  {
    hide Debugger.Sound, Debugger.Valid, Good;
    var suspended := d.Suspend();
    d.ProcessStop(1);
    var ok := d.StartStep(1, [], true, true);
  }

  // ---------- Every run ----------

  // What the user does, what the kernel reports, and what the debuggee does, with the answers that the rest of the
  // program (symbols, conditions, the judgement of a step) gives.
  datatype SessionEvent =
    | Add(id: nat, on: BreakpointOn, resolved: map<nat, seq<(nat, nat)>>, loading: bool)
    | Remove(id: nat)
    | Enable(id: nat, enabled: bool, resolved: map<nat, seq<(nat, nat)>>, loading: bool)
    | StopOnRead(id: nat, stopOnRead: bool, resolved: map<nat, seq<(nat, nat)>>)
    | SuspendAll
    | ResumeAll(symbolsNeeded: bool)
    | StartStep(tid: nat, steps: seq<(StepBreakpointType, nat)>, singleSteps: bool, keepOtherThreadsSuspended: bool)
    | ToCursor(tid: nat, resolved: map<nat, seq<(nat, nat)>>, res: PendingResolution, symbolsNeeded: bool)
    | DropCaches(resolved: map<nat, seq<(nat, nat)>>, res: PendingResolution, symbolsNeeded: bool)
    | Trap(tid: nat, si: SiCode, hwHits: set<nat>, stops: set<nat>, stepDone: bool,
           more: seq<(StepBreakpointType, nat)>)
    | Signal(tid: nat, fatal: bool)
    | Stop(tid: nat)
    | Clone(tid: nat, pc: nat)
    | Exit(tid: nat)
    | Gone(tid: nat)
    | Exec(tid: nat, resolved: map<nat, seq<(nat, nat)>>, res: PendingResolution, symbolsNeeded: bool)
    | EndOfEvents
    | Executes(tid: nat, pc: nat, cause: Option<Cause>)
    | Writes(code: Memory)

  predicate StepsOverNoInt3(steps: seq<(StepBreakpointType, nat)>, code: Memory) {
    forall p <- steps :: NeedsSingleStep(p.0) ==> OriginalByte(code, p.1) != INT3
  }

  predicate IsRunning(d: Debugger, tid: nat)
    reads d
  {
    d.Alive() && tid in d.threads && d.threads[tid].state == Running
  }

  // What may happen now: a trap has a cause, a thread that executes has none, a breakpoint's id is new, and the user
  // does not see the hidden breakpoint.
  predicate CanHappen(d: Debugger, e: SessionEvent)
    reads d, d.hardwareBreakpoints
  {
    match e
    case Add(id, _, _, _) => id !in d.breakpoints
    case Remove(id) => id in d.breakpoints ==> !d.breakpoints[id].hidden
    case StopOnRead(id, _, _) => id in d.breakpoints ==> d.breakpoints[id].on.OnData?
    case StartStep(_, steps, _, _) => StepsOverNoInt3(steps, d.code)
    case Trap(tid, si, hwHits, _, _, more) =>
      IsRunning(d, tid) && !d.threads[tid].exiting && tid in d.causes &&
          Reported(d.causes[tid], d.threads[tid], si, hwHits)
      && StepsOverNoInt3(more, d.code)
    case Signal(tid, _) => IsRunning(d, tid)
    case Stop(tid) => IsRunning(d, tid)
    case Clone(tid, _) => d.Alive() && tid !in d.threads && tid !in d.causes && !NeedsStep(d.stepping, tid)
    case Exit(tid) => d.Alive() && tid in d.threads
    case Gone(tid) => tid in d.threads
    case Exec(tid, _, _, _) => d.targetState == Starting && IsRunning(d, tid)
    case EndOfEvents => d.Alive()
    case Executes(tid, _, cause) =>
      tid in d.threads && d.threads[tid].state == Running && !d.threads[tid].exiting && tid !in d.causes
      && (cause.Some? ==> cause.value == HardwareHit || cause.value == SentSignal)
    case Writes(code') =>
      LeavesLocationsAlone(Table(d.breakpointLocations, d.hardwareBreakpoints[..], d.memory), d.code, code')
      && (forall l <- d.breakpointLocations :: OriginalByte(code', l.addr) == OriginalByte(d.code, l.addr))
      && forall tid <- d.causes.Keys :: d.causes[tid].Int3? ==>
           OriginalByte(code', d.causes[tid].at) == OriginalByte(d.code, d.causes[tid].at)
    case _ => true
  }

  // The step state is as its users assume, as long as there is a process.
  ghost predicate StepStateOk(d: Debugger)
    reads d, d.hardwareBreakpoints
  {
    d.Sound() && (d.Alive() ==> d.PendingOk())
  }

  predicate OnBreakpoints(e: SessionEvent) { e.Add? || e.Remove? || e.Enable? || e.StopOnRead? }

  predicate OnExecution(e: SessionEvent) {
    e.SuspendAll? || e.ResumeAll? || e.StartStep? || e.ToCursor? || e.DropCaches? || e.Exec?
  }

  // One event keeps everything in order, no assertion fails, and no thread is let run that a step in progress keeps
  // stopped.
  method Happens(d: Debugger, e: SessionEvent) returns (assertionsHold: bool)
    requires StepStateOk(d) && CanHappen(d, e)
    modifies d, d.hardwareBreakpoints
    ensures assertionsHold && StepStateOk(d)
    ensures d.OthersStopped(old(d.threads), d.threads)
  {
    hide CanHappen, StepStateOk, Debugger.Sound, Debugger.OthersStopped;
    assertionsHold := true;
    if OnBreakpoints(e) {
      BreakpointsChange(d, e);
    } else if OnExecution(e) {
      assertionsHold := ExecutionChanges(d, e);
    } else {
      ProcessActs(d, e);
    }
  }

  lemma MarkedStay(d: Debugger, before: map<nat, Thread>)
    requires OnlyMarked(before, d.threads)
    ensures d.OthersStopped(before, d.threads)
  {
    MarkedPlaces(before, d.threads);
  }

  method BreakpointsChange(d: Debugger, e: SessionEvent)
    requires StepStateOk(d) && CanHappen(d, e) && OnBreakpoints(e)
    modifies d, d.hardwareBreakpoints
    ensures StepStateOk(d) && d.OthersStopped(old(d.threads), d.threads)
  {
    hide Debugger.Sound, LeavesLocationsAlone, Reported, Debugger.OthersStopped, OnlyMarked, SizeOk, KnownPcs,
        Debugger.ActivatedFrom;
    ghost var before := d.threads;
    match e
    case Add(id, on, resolved, loading) =>
      var added, ok := d.AddBreakpoint(id, on, resolved, loading);
      MarkedStay(d, before);
    case Remove(id) =>
      var found := d.RemoveBreakpoint(id);
      MarkedStay(d, before) by { assert OnlyMarked(before, before) by { MarkedRefl(before); } }
    case Enable(id, enabled, resolved, loading) =>
      var found, ok := d.SetBreakpointEnabled(id, enabled, resolved, loading);
      MarkedStay(d, before);
    case StopOnRead(id, stopOnRead, resolved) =>
      var changed, ok := d.SetStopOnRead(id, stopOnRead, resolved);
      MarkedStay(d, before);
  }

  lemma MarkedRefl(a: map<nat, Thread>)
    ensures OnlyMarked(a, a)
  {
  }

  method ExecutionChanges(d: Debugger, e: SessionEvent) returns (assertionsHold: bool)
    requires StepStateOk(d) && CanHappen(d, e) && OnExecution(e)
    modifies d, d.hardwareBreakpoints
    ensures assertionsHold && StepStateOk(d) && d.OthersStopped(old(d.threads), d.threads)
  {
    hide Debugger.Sound, Debugger.Valid, LeavesLocationsAlone, Reported, NothingToActivate;
    assertionsHold := true;
    match e
    case SuspendAll =>
      var ok := d.Suspend();
    case ResumeAll(symbolsNeeded) =>
      var ok := d.Resume(symbolsNeeded);
    case StartStep(tid, steps, singleSteps, keepOthers) =>
      var ok := d.StartStep(tid, steps, singleSteps, keepOthers);
    case ToCursor(tid, resolved, res, symbolsNeeded) =>
      var ok := d.StepToCursor(tid, resolved, res, symbolsNeeded);
    case DropCaches(resolved, res, symbolsNeeded) =>
      assertionsHold := d.DropCaches(resolved, res, symbolsNeeded);
    case Exec(tid, resolved, res, symbolsNeeded) => d.ProcessInitialExec(tid, resolved, res, symbolsNeeded);
  }

  method ProcessActs(d: Debugger, e: SessionEvent)
    requires StepStateOk(d) && CanHappen(d, e) && !OnBreakpoints(e) && !OnExecution(e)
    modifies d, d.hardwareBreakpoints
    ensures StepStateOk(d) && d.OthersStopped(old(d.threads), d.threads)
  {
    hide Debugger.Sound, Debugger.Valid, LeavesLocationsAlone, Reported, KnownPcs, Rearmed, Marked;
    match e
    case Trap(tid, si, hwHits, stops, stepDone, more) => Trapped(d, tid, si, hwHits, stops, stepDone, more);
    case Signal(tid, fatal) => d.ProcessSignal(tid, fatal);
    case Stop(tid) => d.ProcessStop(tid);
    case Clone(tid, pc) => d.ProcessClone(tid, pc);
    case Exit(tid) => d.ProcessExit(tid);
    case Gone(tid) => d.ProcessGone(tid);
    case EndOfEvents =>
      var ok := d.FinishEvents();
    case Executes(tid, pc, cause) => d.Execute(tid, pc, cause);
    case Writes(code') => d.DebuggeeWrites(code');
  }

  method Trapped(d: Debugger, tid: nat, si: SiCode, hwHits: set<nat>, stops: set<nat>, stepDone: bool,
                 more: seq<(StepBreakpointType, nat)>)
    requires StepStateOk(d) && CanHappen(d, Trap(tid, si, hwHits, stops, stepDone, more))
    modifies d, d.hardwareBreakpoints
    ensures StepStateOk(d) && d.OthersStopped(old(d.threads), d.threads)
  {
    hide Debugger.Sound, Reported, TrapHit, PcAfter, Misread, RightPc, RefsAt, PoolStays, Refreshes, StepsOver;
    var hit, refresh := d.ProcessTrap(tid, si, hwHits, stops, stepDone, more);
  }

  // A process is started, with the breakpoints of an earlier one if there was one, or is found running.
  datatype Start = Launch(tid: nat, pc: nat, initialStep: bool, pool: Pool) | Attach(pcs: map<nat, nat>)

  ghost predicate CanStart(start: Start) {
    match start
    case Launch(_, _, _, pool) => CarriedOver(pool)
    case Attach(pcs) => pcs != map[]
  }

  method Begin(start: Start, code: Memory) returns (d: Debugger)
    requires CanStart(start)
    ensures fresh(d) && fresh(d.hardwareBreakpoints) && StepStateOk(d)
  {
    if start.Launch? {
      d := new Debugger(start.tid, start.pc, code, start.initialStep, start.pool);
    } else {
      d := new Debugger.Attach(start.pcs, code);
    }
  }

  // Any run, events that cannot happen being left out: no assertion about the step state ever fails, and the
  // breakpoints that are left can be carried over to another process.
  method Run(start: Start, code: Memory, events: seq<SessionEvent>) returns (d: Debugger, assertionsHold: bool)
    requires CanStart(start)
    ensures fresh(d) && fresh(d.hardwareBreakpoints) && assertionsHold && StepStateOk(d) && CarriedOver(d.breakpoints)
  {
    d := Begin(start, code);
    assertionsHold := true;
    for i := 0 to |events|
      invariant fresh(d) && fresh(d.hardwareBreakpoints) && assertionsHold && StepStateOk(d)
    {
      if CanHappen(d, events[i]) {
        assertionsHold := Happens(d, events[i]);
      }
    }
  }

  // In every state of a run in which handle_breakpoints is not due, every active breakpoint is armed at each of its
  // addresses: by an int3 or a slot there, unless arming it failed and the location says so.
  lemma BreakpointsArmed(d: Debugger, id: nat, addr: nat, level: nat) returns (l: Location)
    requires d.Sound() && d.Alive() && !d.stoppingToHandleBreakpoints && Wants(d.breakpoints, id, addr, level)
    ensures l in d.breakpointLocations && l.addr == addr && Id(id, level) in l.breakpoints
    ensures l.error.None? && l.hardware ==> OwnsSlot(d.hardwareBreakpoints[..], l)
    ensures l.error.None? && !l.hardware ==> addr in d.memory && d.memory[addr] == INT3
  {
    assert HasRef(d.breakpointLocations, addr, Id(id, level));
    l :| l in d.breakpointLocations && l.addr == addr && Id(id, level) in l.breakpoints;
    var i :| 0 <= i < |d.breakpointLocations| && d.breakpointLocations[i] == l;
  }

  // In every state of a run, a slot that has been pushed is armed in every live thread that has stopped before, unless
  // its registers could not be written.
  lemma ArmedEverywhere(d: Debugger, tid: nat, k: nat)
    requires d.Sound() && tid in d.threads && !d.threads[tid].exiting && !d.threads[tid].waitingForInitialStop
    requires k < 4 && d.hardwareBreakpoints[k].active && d.hardwareBreakpoints[k].pushedToThreads
    requires d.hardwareBreakpoints[k].threadSpecific.None? || d.hardwareBreakpoints[k].threadSpecific == Some(tid)
    ensures tid in d.registers
    ensures var r, h := d.registers[tid], d.hardwareBreakpoints[k];
            var trigger := if h.dataBreakpointId.None? then Execute
                           else if h.stopOnRead then ReadWrite(h.dataSize) else Write(h.dataSize);
            (r.failedWrites > 0 && !r.programmed) ||
                (|r.addrs| == 4 && r.addrs[k] == h.addr && ArmedFor(r.dr7.bits, k) == trigger)
  {
  }
}
