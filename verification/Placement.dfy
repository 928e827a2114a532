// Where the references to breakpoints are: exactly at the addresses that active breakpoints were resolved to.
module Placement {
  import opened Options
  import opened DebuggeeMemory
  import opened BreakpointTable
  import opened StepBreakpoints
  import opened HandleBreakpoints
  import opened BreakpointHistory

  ghost predicate HasRef(locs: seq<Location>, addr: nat, r: BreakpointRef) {
    exists l <- locs :: l.addr == addr && r in l.breakpoints
  }

  // An active breakpoint on code asks for a reference at this address.
  predicate Wants(pool: Pool, id: nat, addr: nat, level: nat) {
    id in pool && pool[id].active && !pool[id].on.OnData? && pool[id].addrs.Some? &&
        (addr, level) in pool[id].addrs.value
  }

  // Each breakpoint that is active has a reference at each of its addresses, and there are no others.
  ghost predicate Placed(locs: seq<Location>, pool: Pool) {
    forall id: nat, addr: nat, level: nat :: HasRef(locs, addr, Id(id, level)) <==> Wants(pool, id, addr, level)
  }

  ghost predicate SameReferences(a: seq<Location>, b: seq<Location>) {
    forall addr: nat, r: BreakpointRef :: HasRef(b, addr, r) <==> HasRef(a, addr, r)
  }

  lemma SameRefsPlaced(a: seq<Location>, b: seq<Location>, pool: Pool)
    requires Placed(a, pool) && SameReferences(a, b)
    ensures Placed(b, pool)
  {
  }

  lemma NothingPlaced(pool: Pool)
    requires forall id <- pool.Keys :: !pool[id].active
    ensures Placed([], pool)
  {
  }

  // ---------- What each operation does to the references ----------

  lemma AddedRef(t: Table, ref: BreakpointRef, addr: nat, a: nat, r: BreakpointRef)
    ensures HasRef(AddLocation(t, ref, addr).locations, a, r) <==>
              HasRef(t.locations, a, r) || (a == addr && r == ref)
  {
    hide HasRef, LowerBound, OriginalByte;
    var locs, locs' := t.locations, AddLocation(t, ref, addr).locations;
    var i := LowerBound(locs, addr);
    if i < |locs| && locs[i].addr == addr {
      PushedRef(locs, i, ref, a, r);
    } else {
      InsertedIs(locs, i, locs'[i]);
      InsertedRef(locs, locs', i, a, r);
    }
  }

  lemma PushedRef(locs: seq<Location>, i: nat, ref: BreakpointRef, a: nat, r: BreakpointRef)
    requires i < |locs|
    ensures HasRef(locs[i := locs[i].(breakpoints := locs[i].breakpoints + [ref])], a, r) <==>
              HasRef(locs, a, r) || (a == locs[i].addr && r == ref)
  {
    var locs' := locs[i := locs[i].(breakpoints := locs[i].breakpoints + [ref])];
    assert locs[i] in locs && locs'[i] in locs';
    if HasRef(locs, a, r) {
      var j :| 0 <= j < |locs| && locs[j].addr == a && r in locs[j].breakpoints;
      assert locs'[j] in locs';
    }
    if HasRef(locs', a, r) {
      var j :| 0 <= j < |locs| && locs'[j].addr == a && r in locs'[j].breakpoints;
      assert locs[j] in locs;
    }
  }

  lemma InsertedRef(a: seq<Location>, b: seq<Location>, i: nat, addr: nat, r: BreakpointRef)
    requires Inserted(a, b, i)
    ensures HasRef(b, addr, r) <==> HasRef(a, addr, r) || (addr == b[i].addr && r in b[i].breakpoints)
  {
    assert b[i] in b;
    if HasRef(a, addr, r) {
      var j :| 0 <= j < |a| && a[j].addr == addr && r in a[j].breakpoints;
      assert b[if j < i then j else j + 1] in b;
    }
    if HasRef(b, addr, r) {
      var j :| 0 <= j < |b| && b[j].addr == addr && r in b[j].breakpoints;
      if j != i {
        assert a[if j < i then j else j - 1] in a;
      }
    }
  }

  // A location at each address, and no reference lost.
  lemma {:induction false} AddedRefs(t: Table, id: nat, addrs: seq<(nat, nat)>, a: nat, r: BreakpointRef)
    ensures HasRef(AddLocations(t, id, addrs).locations, a, r) <==>
              HasRef(t.locations, a, r) || (r.Id? && r.id == id && (a, r.level) in addrs)
  {
    hide HasRef, AddLocation;
    if addrs != [] {
      var n := |addrs| - 1;
      AddedRefs(t, id, addrs[..n], a, r);
      AddedRef(AddLocations(t, id, addrs[..n]), Id(id, addrs[n].1), addrs[n].0, a, r);
      assert addrs == addrs[..n] + [addrs[n]];
    }
  }

  lemma {:induction false} AddedStepRefs(t: Table, steps: seq<(StepBreakpointType, nat)>, a: nat, r: BreakpointRef)
    ensures HasRef(AddSteps(t, steps).locations, a, r) <==>
              HasRef(t.locations, a, r) || (r.Step? && (r.t, a) in steps)
  {
    hide HasRef, AddLocation;
    if steps != [] {
      var n := |steps| - 1;
      AddedStepRefs(t, steps[..n], a, r);
      AddedRef(AddSteps(t, steps[..n]), Step(steps[n].0), steps[n].1, a, r);
      assert steps == steps[..n] + [steps[n]];
    }
  }

  lemma DroppedRefs(locs: seq<Location>, drop: BreakpointRef -> bool, a: nat, r: BreakpointRef)
    ensures HasRef(DropRefs(locs, drop), a, r) <==> HasRef(locs, a, r) && !drop(r)
  {
    var locs' := DropRefs(locs, drop);
    forall i | 0 <= i < |locs| ensures r in locs'[i].breakpoints <==> r in locs[i].breakpoints && !drop(r) {
      RetainedMembers(locs[i].breakpoints, drop, r);
    }
    if HasRef(locs, a, r) && !drop(r) {
      var i :| 0 <= i < |locs| && locs[i].addr == a && r in locs[i].breakpoints;
      assert locs'[i] in locs';
    }
    if HasRef(locs', a, r) {
      var i :| 0 <= i < |locs'| && locs'[i].addr == a && r in locs'[i].breakpoints;
      assert locs[i] in locs;
    }
  }

  // The same addresses and references at the same places.
  ghost predicate SameRefLists(a: seq<Location>, b: seq<Location>) {
    |a| == |b| && forall i :: 0 <= i < |a| ==> b[i].addr == a[i].addr && b[i].breakpoints == a[i].breakpoints
  }

  lemma SameLists(a: seq<Location>, b: seq<Location>)
    requires SameRefLists(a, b)
    ensures SameReferences(a, b)
  {
    forall addr: nat, r: BreakpointRef ensures HasRef(b, addr, r) <==> HasRef(a, addr, r) {
      if HasRef(a, addr, r) {
        var i :| 0 <= i < |a| && a[i].addr == addr && r in a[i].breakpoints;
        assert b[i] in b;
      }
      if HasRef(b, addr, r) {
        var i :| 0 <= i < |b| && b[i].addr == addr && r in b[i].breakpoints;
        assert a[i] in a;
      }
    }
  }

  lemma KeptRefs(locs: seq<Location>)
    ensures SameReferences(locs, Kept(locs))
  {
    forall l ensures l in Kept(locs) <==> l in locs && l.breakpoints != [] {
      KeptMembers(locs, l);
    }
  }

  // handle_breakpoints drops no reference.
  lemma HandledRefs(t: Table, code: Memory, pcs: set<nat>, stepTid: Option<nat>)
    requires Inv(t, code)
    ensures Deactivatable(t) && SameReferences(t.locations, Handle(t, pcs, stepTid).locations)
  {
    HandleCorrect(t, code, pcs, stepTid);
    hide Inv, Deactivatable, Handle, Kept, HasRef;
    KeptRefs(t.locations);
    SameLists(Kept(t.locations), Handle(t, pcs, stepTid).locations);
  }

  // ---------- Activating and deactivating ----------

  // The breakpoint is activated now, at these addresses.
  predicate ActivatesAt(s: State, id: nat, resolved: Option<seq<(nat, nat)>>, addrs: seq<(nat, nat)>)
    requires id in s.pool
  {
    var b := s.pool[id];
    b.enabled && !b.active && !b.on.OnData? && (if b.addrs.Some? then b.addrs else resolved) == Some(addrs)
  }

  // A breakpoint on code that is activated gets a reference at each of its addresses; everything else stays.
  lemma ActivatedRefs(s: State, id: nat, resolved: Option<seq<(nat, nat)>>, a: nat, r: BreakpointRef)
    requires id in s.pool
    ensures var s' := ActivateBreakpoint(s, id, resolved);
            && (HasRef(s'.table.locations, a, r) <==>
                  HasRef(s.table.locations, a, r) ||
                  (r.Id? && r.id == id && exists addrs :: ActivatesAt(s, id, resolved, addrs) && (a, r.level) in addrs))
            && s'.pool == s.pool[id := s'.pool[id]]
            && forall addrs :: ActivatesAt(s, id, resolved, addrs) ==>
                 s'.pool[id] == s.pool[id].(active := true, addrs := Some(addrs))
  {
    var b, s' := s.pool[id], ActivateBreakpoint(s, id, resolved);
    if b.enabled && !b.active && !b.on.OnData? {
      var addrs := if b.addrs.Some? then b.addrs else resolved;
      if addrs.Some? {
        AddedRefs(s.table, id, addrs.value, a, r);
        assert ActivatesAt(s, id, resolved, addrs.value);
      }
    }
  }

  // A data breakpoint that is activated takes a free slot for what it watches, in all threads, which is not armed
  // anywhere yet; without a free slot it is disabled. Nothing else changes.
  lemma ActivatedWatch(s: State, id: nat, resolved: Option<seq<(nat, nat)>>)
    requires id in s.pool && s.pool[id].enabled && !s.pool[id].active && s.pool[id].on.OnData?
    ensures var s', hw := ActivateBreakpoint(s, id, resolved), s.table.hardware;
            var free := exists k :: 0 <= k < |hw| && !hw[k].active;
            && s'.table == s.table.(hardware := s'.table.hardware)
            && s'.pool == s.pool[id := s.pool[id].(active := free, enabled := free, addrs := None)]
            && (!free ==> s'.table.hardware == hw)
            && (free ==> TakenFor(hw, s'.table.hardware, id, s.pool[id].on.watch))
  {
    var k := FirstFree(s.table.hardware);
    if k < |s.table.hardware| {
      var h := WatchSlot(id, s.pool[id].on.watch);
      var hw := s.table.hardware;
      assert !hw[k].active && ActivateBreakpoint(s, id, resolved).table.hardware == hw[k := h] &&
        Watches(h, id, s.pool[id].on.watch);
    }
  }

  // One slot that was free is taken.
  ghost predicate TakenFor(hw: seq<HardwareBreakpoint>, hw': seq<HardwareBreakpoint>, id: nat, w: Watch) {
    exists k, h :: 0 <= k < |hw| && !hw[k].active && hw' == hw[k := h] && Watches(h, id, w)
  }

  predicate Watches(h: HardwareBreakpoint, id: nat, w: Watch) {
    h.active && h.dataBreakpointId == Some(id) && h.addr == w.addr && h.dataSize == w.size &&
    h.stopOnRead == w.stopOnRead && h.threadSpecific.None? && !h.pushedToThreads
  }

  // Exactly the references to a breakpoint that is deactivated go; every other breakpoint keeps its own, and stays as
  // it is.
  lemma DeactivatedRefs(s: State, id: nat, a: nat, r: BreakpointRef)
    requires id in s.pool && Placed(s.table.locations, s.pool)
    ensures var s' := DeactivateBreakpoint(s, id);
            && (HasRef(s'.table.locations, a, r) <==> HasRef(s.table.locations, a, r) && !(r.Id? && r.id == id))
            && s'.pool == s.pool[id := s.pool[id].(active := false)]
  {
    if s.pool[id].active {
      DroppedRefs(s.table.locations, RefersTo(id), a, r);
    } else if r.Id? && r.id == id {
      assert !Wants(s.pool, id, a, r.level);
    }
  }

  // Exactly the references to a breakpoint are gone.
  ghost predicate RefsDropped(a: seq<Location>, b: seq<Location>, id: nat) {
    forall addr: nat, r: BreakpointRef :: HasRef(b, addr, r) <==> HasRef(a, addr, r) && !(r.Id? && r.id == id)
  }

  lemma DeactivatedDrops(s: State, id: nat)
    requires id in s.pool && Placed(s.table.locations, s.pool)
    ensures RefsDropped(s.table.locations, DeactivateBreakpoint(s, id).table.locations, id)
  {
    hide HasRef, DeactivateBreakpoint;
    forall addr: nat, r: BreakpointRef
      ensures HasRef(DeactivateBreakpoint(s, id).table.locations, addr, r) <==>
                HasRef(s.table.locations, addr, r) && !(r.Id? && r.id == id)
    {
      DeactivatedRefs(s, id, addr, r);
    }
  }

  lemma DeactivatedRest(s: State, id: nat)
    requires id in s.pool
    ensures var pool := DeactivateBreakpoint(s, id).pool;
            pool == s.pool[id := s.pool[id].(active := false)] && pool - {id} == s.pool - {id}
  {
  }

  // ---------- Over every history ----------

  lemma ActivatePlaced(s: State, id: nat, resolved: Option<seq<(nat, nat)>>)
    requires id in s.pool && Placed(s.table.locations, s.pool)
    ensures var s' := ActivateBreakpoint(s, id, resolved); Placed(s'.table.locations, s'.pool)
  {
    var s' := ActivateBreakpoint(s, id, resolved);
    hide HasRef;
    forall x: nat, a: nat, level: nat
      ensures HasRef(s'.table.locations, a, Id(x, level)) <==> Wants(s'.pool, x, a, level)
    {
      ActivatedRefs(s, id, resolved, a, Id(x, level));
      assert HasRef(s.table.locations, a, Id(x, level)) <==> Wants(s.pool, x, a, level);
    }
  }

  lemma DeactivatePlaced(s: State, id: nat)
    requires id in s.pool && Placed(s.table.locations, s.pool)
    ensures var s' := DeactivateBreakpoint(s, id);
            Placed(s'.table.locations, s'.pool) && Placed(s'.table.locations, s'.pool - {id})
  {
    var s' := DeactivateBreakpoint(s, id);
    hide HasRef, DeactivateBreakpoint;
    forall x: nat, a: nat, level: nat
      ensures HasRef(s'.table.locations, a, Id(x, level)) <==> Wants(s'.pool, x, a, level)
      ensures HasRef(s'.table.locations, a, Id(x, level)) <==> Wants(s'.pool - {id}, x, a, level)
    {
      DeactivatedRefs(s, id, a, Id(x, level));
      assert HasRef(s.table.locations, a, Id(x, level)) <==> Wants(s.pool, x, a, level);
    }
  }

  // A breakpoint changes that asks for no reference, before or after.
  lemma PoolUpdatePlaced(locs: seq<Location>, pool: Pool, id: nat, b: Breakpoint)
    requires Placed(locs, pool) && !(b.active && !b.on.OnData?)
    requires id in pool ==> !(pool[id].active && !pool[id].on.OnData?)
    ensures Placed(locs, pool[id := b])
  {
    hide HasRef;
    assert forall x: nat, a: nat, level: nat :: Wants(pool[id := b], x, a, level) <==> Wants(pool, x, a, level);
  }

  lemma SameWantsPlaced(locs: seq<Location>, pool: Pool, id: nat, b: Breakpoint)
    requires Placed(locs, pool) && id in pool && b.active == pool[id].active && b.addrs == pool[id].addrs
    requires b.on.OnData? == pool[id].on.OnData?
    ensures Placed(locs, pool[id := b])
  {
    hide HasRef;
    assert forall x: nat, a: nat, level: nat :: Wants(pool[id := b], x, a, level) <==> Wants(pool, x, a, level);
  }

  lemma AddStepsPlaced(t: Table, steps: seq<(StepBreakpointType, nat)>, pool: Pool)
    requires Placed(t.locations, pool)
    ensures Placed(AddSteps(t, steps).locations, pool)
  {
    hide HasRef;
    forall x: nat, a: nat, level: nat
      ensures HasRef(AddSteps(t, steps).locations, a, Id(x, level)) <==> Wants(pool, x, a, level)
    {
      AddedStepRefs(t, steps, a, Id(x, level));
    }
  }

  lemma DropStepsPlaced(locs: seq<Location>, pool: Pool)
    requires Placed(locs, pool)
    ensures Placed(DropRefs(locs, IsStep), pool)
  {
    hide HasRef;
    forall x: nat, a: nat, level: nat
      ensures HasRef(DropRefs(locs, IsStep), a, Id(x, level)) <==> Wants(pool, x, a, level)
    {
      DroppedRefs(locs, IsStep, a, Id(x, level));
    }
  }

  lemma StalePlaced(t: Table, addr: nat, pool: Pool)
    requires Deactivatable(t) && Placed(t.locations, pool)
    ensures Placed(LazyDeactivate(t, addr).locations, pool)
  {
    SameLists(t.locations, LazyDeactivate(t, addr).locations);
  }

  lemma RejectPlaced(s: State, k: nat)
    requires k < |s.table.hardware| && Deactivatable(s.table) && Placed(s.table.locations, s.pool)
    ensures Placed(Reject(s, k).table.locations, Reject(s, k).pool)
  {
    var h := s.table.hardware[k];
    if h.active && h.dataBreakpointId.Some? {
      if h.dataBreakpointId.value in s.pool {
        DeactivatePlaced(s, h.dataBreakpointId.value);
      }
    } else {
      SameLists(s.table.locations, Reject(s, k).table.locations);
    }
  }

  ghost predicate WellPlaced(s: State) { Placed(s.table.locations, s.pool) }

  lemma ApplyPlaces(h: Snapshot, e: Event)
    requires Good(h.s, h.code) && Enabled(h, e) && WellPlaced(h.s)
    ensures WellPlaced(Apply(h, e).s)
  {
    InvDeactivatable(h.s.table, h.code);
    hide HasRef, Inv, DataOk, Deactivatable, ActivateBreakpoint, DeactivateBreakpoint, AddSteps, LazyDeactivate, Handle,
        Reject;
    var s, locs, pool := h.s, h.s.table.locations, h.s.pool;
    match e
    case AddBreakpoint(id, b) => PoolUpdatePlaced(locs, pool, id, b);
    case ActivateEvent(id, resolved) => ActivatePlaced(s, id, resolved);
    case DeactivateEvent(id) => DeactivatePlaced(s, id);
    case RemoveBreakpoint(id) => DeactivatePlaced(s, id);
    case SetEnabled(id, enabled) =>
      SameWantsPlaced(locs, pool, id, pool[id].(enabled := enabled));
      DeactivatePlaced(s.(pool := WithEnabled(pool, id, enabled)), id);
    case SetStopOnRead(id, stopOnRead) =>
      SameWantsPlaced(locs, pool, id, WithStopOnRead(pool, id, stopOnRead)[id]);
      DeactivatePlaced(s.(pool := WithStopOnRead(pool, id, stopOnRead)), id);
    case AddStepBreakpoints(steps) => AddStepsPlaced(s.table, steps, pool);
    case CancelStepping => DropStepsPlaced(locs, pool);
    case StaleHit(addr) => StalePlaced(s.table, addr, pool);
    case HandleEvent(pcs, stepTid) =>
      HandledRefs(s.table, h.code, pcs, stepTid);
      SameRefsPlaced(locs, Handle(s.table, pcs, stepTid).locations, pool);
    case RejectEvent(k) => RejectPlaced(s, k);
    case DebuggeeRuns(_) =>
  }

  // Whatever happens, every active breakpoint is found at each of its addresses, and no reference is left over.
  lemma {:induction false} EveryHistoryPlaced(hs: seq<Snapshot>, es: seq<Event>, n: nat)
    requires IsRun(hs, es) && n < |hs| && WellPlaced(hs[0].s)
    ensures WellPlaced(hs[n].s)
  {
    hide Good, WellPlaced, Enabled, Apply;
    if n > 0 {
      EveryHistory(hs, es, n - 1);
      EveryHistoryPlaced(hs, es, n - 1);
      assert IsTransition(hs[n - 1], es[n - 1], hs[n - 1 + 1]);
      ApplyPlaces(hs[n - 1], es[n - 1]);
    }
  }
}
