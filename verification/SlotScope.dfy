// Which threads the hardware slot of a location is for: all of them if a breakpoint of the user is there, only the
// stepped one if nothing but step breakpoints are. Where this fails: a breakpoint that is put where a step has its
// slot already.
module SlotScope {
  import opened Options
  import opened DebuggeeMemory
  import opened BreakpointTable
  import opened StepBreakpoints
  import opened HandleBreakpoints
  import opened BreakpointHistory
  import opened Placement

  // A slot is in use for the instruction at this address, in one thread or in all.
  ghost predicate HasSlot(hw: seq<HardwareBreakpoint>, addr: nat, scope: Option<nat>) {
    exists k :: 0 <= k < |hw| && InstructionSlot(hw[k]) && hw[k].addr == addr && hw[k].threadSpecific == scope
  }

  ghost predicate AnySlot(hw: seq<HardwareBreakpoint>, addr: nat) {
    exists scope :: HasSlot(hw, addr, scope)
  }

  ghost predicate SameSlotsAt(a: seq<HardwareBreakpoint>, b: seq<HardwareBreakpoint>, addr: nat) {
    forall scope :: HasSlot(b, addr, scope) <==> HasSlot(a, addr, scope)
  }

  lemma DeactivatedElsewhere(t: Table, idx: nat, addr: nat)
    requires idx < |t.locations| && CanDeactivate(t, idx)
    requires t.locations[idx].addr != addr || !t.locations[idx].hardware
    ensures SameSlotsAt(t.hardware, Deactivate(t, idx).hardware, addr)
  {
    var hw, hw' := t.hardware, Deactivate(t, idx).hardware;
    if HardActive(t.locations[idx]) {
      forall scope ensures HasSlot(hw', addr, scope) <==> HasSlot(hw, addr, scope) {
        if HasSlot(hw, addr, scope) {
          var k :| 0 <= k < |hw| && InstructionSlot(hw[k]) && hw[k].addr == addr && hw[k].threadSpecific == scope;
          assert hw'[k] == hw[k];
        }
      }
    }
  }

  lemma {:induction false} CleanedUp(t: Table, n: nat, j: nat)
    requires Sorted(t.locations) && Deactivatable(t) && n <= |t.locations|
    requires j < |t.locations| && t.locations[j].breakpoints != []
    ensures SameSlotsAt(t.hardware, CleanUpTo(t, n).hardware, t.locations[j].addr)
  {
    hide Deactivatable, Deactivate, HasSlot;
    if n > 0 {
      CleanedUp(t, n - 1, j);
      CleanUpToShape(t, n - 1);
      var u := CleanUpTo(t, n - 1);
      if u.locations[n - 1].breakpoints == [] {
        CanDeactivateHere(u, n - 1);
        DeactivatedElsewhere(u, n - 1, t.locations[j].addr);
      }
    }
  }

  lemma CanDeactivateHere(t: Table, n: nat)
    requires Deactivatable(t) && n < |t.locations|
    ensures CanDeactivate(t, n)
  {
  }

  lemma {:induction false} Converted(t: Table, n: nat, pcs: set<nat>, i: nat)
    requires Sorted(t.locations) && Deactivatable(t) && n <= |t.locations|
    requires i < |t.locations| && t.locations[i].addr in pcs
    ensures SameSlotsAt(t.hardware, ConvertUpTo(t, n, pcs).hardware, t.locations[i].addr)
  {
    hide Deactivatable, Deactivate, HasSlot;
    if n > 0 {
      Converted(t, n - 1, pcs, i);
      ConvertUpToShape(t, n - 1, pcs);
      var u := ConvertUpTo(t, n - 1, pcs);
      CanDeactivateHere(u, n - 1);
      var idx := n - 1;
      if u.locations[idx].hardware != (u.locations[idx].addr in pcs) {
        DeactivatedElsewhere(u, idx, t.locations[i].addr);
      }
    }
  }

  lemma ActivatedElsewhere(t: Table, idx: nat, stepTid: Option<nat>, addr: nat)
    requires idx < |t.locations| && (t.locations[idx].addr != addr || t.locations[idx].active)
    ensures SameSlotsAt(t.hardware, ArmAt(t, idx, stepTid).hardware, addr)
  {
    var hw, hw' := t.hardware, ArmAt(t, idx, stepTid).hardware;
    forall scope ensures HasSlot(hw', addr, scope) <==> HasSlot(hw, addr, scope) {
      if HasSlot(hw, addr, scope) {
        var k :| 0 <= k < |hw| && InstructionSlot(hw[k]) && hw[k].addr == addr && hw[k].threadSpecific == scope;
        assert hw'[k] == hw[k];
      }
    }
  }

  // The slot that is taken for a location.
  lemma ActivatedHere(t: Table, code: Memory, idx: nat, stepTid: Option<nat>)
    requires Inv(t, code) && idx < |t.locations| && !t.locations[idx].active
    ensures var u := ArmAt(t, idx, stepTid);
            HardActive(u.locations[idx]) ==>
              forall scope :: HasSlot(u.hardware, t.locations[idx].addr, scope) <==>
                scope == SlotThread(t.locations[idx], stepTid)
  {
    var u, l := ArmAt(t, idx, stepTid), t.locations[idx];
    if HardActive(u.locations[idx]) {
      hide SlotThread;
      NoSlotYet(t, code, idx);
      var k := FirstFree(t.hardware);
      assert InstructionSlot(u.hardware[k]) && u.hardware[k].addr == l.addr;
    }
  }

  lemma NoSlotYet(t: Table, code: Memory, idx: nat)
    requires Inv(t, code) && idx < |t.locations| && !t.locations[idx].active
    ensures forall k :: 0 <= k < |t.hardware| && InstructionSlot(t.hardware[k]) ==>
              t.hardware[k].addr != t.locations[idx].addr
  {
  }

  lemma {:induction false} ArmedUpTo(t: Table, code: Memory, n: nat, stepTid: Option<nat>, i: nat)
    requires Inv(t, code) && n <= |t.locations| && i < |t.locations|
    requires HardActive(ArmUpTo(t, n, stepTid).locations[i])
    ensures forall scope :: HasSlot(ArmUpTo(t, n, stepTid).hardware, t.locations[i].addr, scope) <==>
              if t.locations[i].active then HasSlot(t.hardware, t.locations[i].addr, scope)
              else scope == SlotThread(t.locations[i], stepTid)
  {
    hide PatchOk, SlotsOk, NoRetryOk, HasSlot, SlotThread, ArmAt;
    if n > 0 {
      var v := ArmUpTo(t, n - 1, stepTid);
      ArmUpToKeeps(t, code, n - 1, stepTid);
      ArmUpToArms(t, code, n - 1, stepTid);
      ArmAtShape(v, code, n - 1, stepTid);
      ArmUpToRest(t, code, n - 1, stepTid);
      if HardActive(v.locations[i]) {
        ArmedUpTo(t, code, n - 1, stepTid, i);
        ActivatedElsewhere(v, n - 1, stepTid, t.locations[i].addr);
      } else {
        ActivatedHere(v, code, n - 1, stepTid);
      }
    }
  }

  lemma {:induction false} ArmUpToRest(t: Table, code: Memory, n: nat, stepTid: Option<nat>)
    requires Inv(t, code) && n <= |t.locations|
    ensures forall i :: n <= i < |t.locations| ==> ArmUpTo(t, n, stepTid).locations[i] == t.locations[i]
  {
    hide Inv, ArmAt;
    if n > 0 {
      ArmUpToRest(t, code, n - 1, stepTid);
      ArmUpToKeeps(t, code, n - 1, stepTid);
      ArmAtShape(ArmUpTo(t, n - 1, stepTid), code, n - 1, stepTid);
    }
  }

  // A breakpoint of the user, rather than step breakpoints only.
  predicate HasUser(l: Location) { exists r <- l.breakpoints :: r.Id? }

  // After handle_breakpoints, a location that had no slot before has one for all threads if a breakpoint of the user is
  // there, and else one for the thread that is being stepped. A slot that was there before stays as it was.
  lemma HandledScope(t: Table, code: Memory, pcs: set<nat>, stepTid: Option<nat>, i: nat)
    requires Inv(t, code) && Deactivatable(t)
    requires var u := Handle(t, pcs, stepTid); i < |u.locations| && HardActive(u.locations[i])
    ensures var u := Handle(t, pcs, stepTid);
            var l := u.locations[i];
            forall scope :: HasSlot(u.hardware, l.addr, scope) <==>
              if AnySlot(t.hardware, l.addr) then HasSlot(t.hardware, l.addr, scope)
              else scope == if HasUser(l) then None else stepTid
  {
    HandleCorrect(t, code, pcs, stepTid);
    var u := Handle(t, pcs, stepTid);
    var l := u.locations[i];
    var c, v := ConvertedTable(t, code, pcs, i, l);
    HandleIs(t, pcs, stepTid, v);
    ConvertedSlot(v, code, i);
    ArmUpToArms(v, code, |v.locations|, stepTid);
    ArmedUpTo(v, code, |v.locations|, stepTid, i);
    hide Inv, HasSlot, Handle, Deactivatable;
    assert AnySlot(v.hardware, l.addr) <==> AnySlot(t.hardware, l.addr);
    assert SlotThread(v.locations[i], stepTid) == if HasUser(l) then None else stepTid;
  }

  lemma HandleIs(t: Table, pcs: set<nat>, stepTid: Option<nat>, v: Table)
    requires Deactivatable(t) && Deactivatable(Compact(t))
    requires v == ConvertUpTo(Compact(t), |Compact(t).locations|, pcs)
    ensures Handle(t, pcs, stepTid) == ArmUpTo(v, |v.locations|, stepTid)
  {
  }

  // The table before anything is armed.
  lemma ConvertedTable(t: Table, code: Memory, pcs: set<nat>, i: nat, l: Location) returns (c: Table, v: Table)
    requires Inv(t, code) && Deactivatable(t) && i < |Kept(t.locations)|
    requires l.addr == Kept(t.locations)[i].addr && l.breakpoints == Kept(t.locations)[i].breakpoints && l.addr in pcs
    ensures c == Compact(t) && Deactivatable(c) && v == ConvertUpTo(c, |c.locations|, pcs) && Inv(v, code)
    ensures i < |v.locations| && v.locations[i].addr == l.addr && v.locations[i].breakpoints == l.breakpoints
    ensures v.locations[i].hardware && SameSlotsAt(t.hardware, v.hardware, l.addr)
  {
    hide HasSlot, PatchOk, SlotsOk, NoRetryOk;
    var kept := Kept(t.locations)[i];
    KeptMembers(t.locations, kept);
    var j :| 0 <= j < |t.locations| && t.locations[j] == kept;
    CompactKeeps(t, code);
    c := Compact(t);
    CleanedUp(t, |t.locations|, j);
    InvDeactivatable(c, code);
    ConvertUpToKeeps(c, code, |c.locations|, pcs);
    ConvertUpToShape(c, |c.locations|, pcs);
    Converted(c, |c.locations|, pcs, i);
    v := ConvertUpTo(c, |c.locations|, pcs);
  }

  lemma ConvertedSlot(v: Table, code: Memory, i: nat)
    requires Inv(v, code) && i < |v.locations| && v.locations[i].hardware
    ensures v.locations[i].active <==> AnySlot(v.hardware, v.locations[i].addr)
  {
    if v.locations[i].active {
      assert OwnsSlot(v.hardware, v.locations[i]);
      var k :| 0 <= k < |v.hardware| && InstructionSlot(v.hardware[k]) && v.hardware[k].addr == v.locations[i].addr;
      assert HasSlot(v.hardware, v.locations[i].addr, v.hardware[k].threadSpecific);
    } else {
      NoSlotYet(v, code, i);
    }
  }

  // So the slot of a location where a breakpoint of the user is concerns all threads if and only if it was not taken
  // for the stepped thread alone before.
  lemma AllThreadsIff(t: Table, code: Memory, pcs: set<nat>, stepTid: Option<nat>, i: nat)
    requires Inv(t, code) && Deactivatable(t)
    requires var u := Handle(t, pcs, stepTid);
             i < |u.locations| && HardActive(u.locations[i]) && HasUser(u.locations[i])
    ensures var u := Handle(t, pcs, stepTid);
            var addr := u.locations[i].addr;
            HasSlot(u.hardware, addr, None) <==> forall tid :: !HasSlot(t.hardware, addr, Some(tid))
  {
    HandledScope(t, code, pcs, stepTid, i);
    var addr := Handle(t, pcs, stepTid).locations[i].addr;
    OneScope(t, code, addr);
    hide Inv, HasSlot, Handle;
    if AnySlot(t.hardware, addr) {
      var scope :| HasSlot(t.hardware, addr, scope);
      assert scope.Some? ==> scope == Some(scope.value);
    }
  }

  lemma OneScope(t: Table, code: Memory, addr: nat)
    requires Inv(t, code)
    ensures forall x, y :: HasSlot(t.hardware, addr, x) && HasSlot(t.hardware, addr, y) ==> x == y
  {
  }

  // Another thread than the stepped one stands where a step breakpoint is, then the user puts a breakpoint there.
  function LateEvents(): seq<Event> {
    [AddStepBreakpoints([(AfterRet, 4096)]), HandleEvent({4096}, Some(1)),
     AddBreakpoint(3, NewBreakpoint(OnInstruction)), ActivateEvent(3, Some([(4096, 0)])),
     HandleEvent({4096}, Some(1)), CancelStepping]
  }

  // The breakpoint is active, and armed in the stepped thread alone, even after the step.
  ghost predicate ArmedForOne(s: State) {
    && Wants(s.pool, 3, 4096, 0) && |s.table.locations| == 1 && s.table.locations[0].active
    && HasRef(s.table.locations, 4096, Id(3, 0))
    && forall scope :: HasSlot(s.table.hardware, 4096, scope) <==> scope == Some(1)
  }

  lemma StepScope(l: Location, stepTid: Option<nat>)
    requires forall r <- l.breakpoints :: r.Step?
    ensures SlotThread(l, stepTid) == stepTid
  {
  }

  const STEP_SLOT: HardwareBreakpoint := FREE_SLOT.(active := true, threadSpecific := Some(1), addr := 4096)

  // The table from the first handle_breakpoints on, with these references.
  function LateTable(refs: seq<BreakpointRef>): Table {
    Table([Location(4096, 0, true, true, refs, None, false)], NothingSet().table.hardware[0 := STEP_SLOT], map[])
  }

  function LateStates(): seq<State> {
    var added := DefaultPool()[3 := NewBreakpoint(OnInstruction)];
    var active := DefaultPool()[3 := CodeThere()];
    [NothingSet(),
     NothingSet().(table := NothingSet().table.(locations := [Location(4096, 0, false, false, [Step(AfterRet)], None,
         false)])),
     State(LateTable([Step(AfterRet)]), DefaultPool()),
     State(LateTable([Step(AfterRet)]), added),
     State(LateTable([Step(AfterRet), Id(3, 0)]), active),
     State(LateTable([Step(AfterRet), Id(3, 0)]), active),
     State(LateTable([Id(3, 0)]), active)]
  }

  lemma StepAdded(s: State)
    requires s == LateStates()[0]
    ensures AddSteps(s.table, [(AfterRet, 4096)]) == LateStates()[1].table
  {
    var steps: seq<(StepBreakpointType, nat)> := [(AfterRet, 4096)];
    assert steps[..0] == [] && AddSteps(s.table, []) == s.table;
    assert AddSteps(s.table, steps) == AddLocation(s.table, Step(AfterRet), 4096);
  }

  lemma StepArmed(t: Table)
    requires t == LateStates()[1].table
    ensures Deactivatable(t) && Handle(t, {4096}, Some(1)) == LateTable([Step(AfterRet)])
  {
    OneHandled(t, t.locations[0], Some(1));
    StepScope(t.locations[0], Some(1));
  }

  lemma LateAdded(s: State)
    requires s == LateStates()[3]
    ensures ActivateBreakpoint(s, 3, Some([(4096, 0)])) == LateStates()[4]
  {
    var addrs := [(4096, 0)];
    assert addrs[..0] == [] && AddLocations(s.table, 3, []) == s.table;
    assert AddLocations(s.table, 3, addrs) == AddLocation(s.table, Id(3, 0), 4096);
    assert [Step(AfterRet)] + [Id(3, 0)] == [Step(AfterRet), Id(3, 0)];
    assert AddLocation(s.table, Id(3, 0), 4096) == LateStates()[4].table;
    assert ActivateBreakpoint(s, 3, Some(addrs)).pool == LateStates()[4].pool;
  }

  lemma LateHandled(t: Table)
    requires t == LateTable([Step(AfterRet), Id(3, 0)])
    ensures Deactivatable(t) && Handle(t, {4096}, Some(1)) == t
  {
    OneHandled(t, t.locations[0], Some(1));
  }

  lemma StepOver(t: Table)
    requires t == LateTable([Step(AfterRet), Id(3, 0)])
    ensures CancelStep(t) == LateTable([Id(3, 0)])
  {
    var refs := [Step(AfterRet), Id(3, 0)];
    assert refs[..1] == [Step(AfterRet)] && refs[..1][..0] == [];
    assert Retained(refs, IsStep) == [Id(3, 0)];
  }

  // The state is reached from the breakpoints every session starts with.
  lemma LateBreakpointMissed() returns (hs: seq<Snapshot>)
    ensures IsRun(hs, LateEvents()) && hs[0] == Snapshot(NothingSet(), map[]) && ArmedForOne(hs[6].s)
  {
    DefaultIsHidden();
    StartIsGood(NothingSet().table, NothingSet().pool);
    LateIsArmedForOne();
    hide Good, ArmedForOne, LateStates;
    hs := seq(7, i requires 0 <= i < 7 => Snapshot(LateState(i), map[]));
    forall i | 0 <= i < 6 ensures IsTransition(hs[i], LateEvents()[i], hs[i + 1]) {
      LateStep(i);
    }
  }

  function LateState(i: nat): State
    requires i < 7
  {
    LateStates()[i]
  }

  lemma LateIsArmedForOne()
    ensures ArmedForOne(LateState(6)) && LateState(0) == NothingSet()
  {
    var t := LateState(6).table;
    assert InstructionSlot(t.hardware[0]) && t.locations[0] in t.locations;
    assert forall k :: 0 <= k < 4 && InstructionSlot(t.hardware[k]) ==> k == 0;
  }

  lemma LateStep(i: nat)
    requires i < 6
    ensures IsTransition(Snapshot(LateState(i), map[]), LateEvents()[i], Snapshot(LateState(i + 1), map[]))
  {
    hide Good, Handle, ActivateBreakpoint, AddSteps, CancelStep, LateTable, DefaultPool;
    var s := LateState(i);
    if i == 0 {
      StepAdded(s);
    } else if i == 1 {
      StepArmed(s.table);
    } else if i == 3 {
      LateAdded(s);
    } else if i == 4 {
      LateHandled(s.table);
    } else if i == 5 {
      StepOver(s.table);
    } else {
      UserAdds();
    }
  }

  lemma UserAdds()
    ensures 3 !in DefaultPool() && !NewBreakpoint(OnInstruction).active && !NewBreakpoint(OnInstruction).hidden
    ensures BreakpointOk(NewBreakpoint(OnInstruction))
  {
  }
}
