// Breakpoints as the user sees them, on top of the table, and every history of operations on them: adding, removing,
// enabling, disabling, stepping, arming, converting, lazy deactivation, rejected debug registers, and the debuggee
// changing its own memory.
module BreakpointHistory {
  import opened Options
  import opened DebuggeeMemory
  import opened BreakpointTable
  import opened StepBreakpoints
  import opened HandleBreakpoints
  import opened DebugRegisters

  datatype Watch = Watch(addr: nat, size: nat, stopOnRead: bool)

  datatype PointOfInterest = LibraryLoad | Panic | Exception

  datatype BreakpointOn =
    OnLine | OnInstruction | OnInitialExec | OnPoint(point: PointOfInterest) | OnData(watch: Watch)

  // addrs: the code addresses once resolved; hidden: the user does not see it.
  datatype Breakpoint = Breakpoint(on: BreakpointOn, addrs: Option<seq<(nat, nat)>>, enabled: bool, active: bool,
                                   hidden: bool)

  type Pool = map<nat, Breakpoint>

  // What the user adds.
  function NewBreakpoint(on: BreakpointOn): Breakpoint { Breakpoint(on, None, true, false, false) }

  // What every session begins with: one hidden breakpoint, by which the debugger learns of libraries, and regular
  // ones on panics and exceptions.
  function DefaultPool(): Pool {
    map[0 := NewBreakpoint(OnPoint(LibraryLoad)).(hidden := true), 1 := NewBreakpoint(OnPoint(Panic)),
        2 := NewBreakpoint(OnPoint(Exception)).(enabled := false)]
  }

  predicate BreakpointOk(b: Breakpoint) {
    (b.on.OnData? ==> SizeOk(b.on.watch.size)) && (b.hidden ==> b.on == OnPoint(LibraryLoad))
  }

  predicate OnlyHidden(pool: Pool, id: nat) {
    id in pool && pool[id].hidden && forall x <- pool.Keys :: pool[x].hidden ==> x == id
  }

  // Exactly one breakpoint is hidden.
  predicate OneHidden(pool: Pool) {
    exists id <- pool.Keys :: OnlyHidden(pool, id)
  }

  datatype State = State(table: Table, pool: Pool)

  // The breakpoints a process starts with; of those carried over, the addresses have to be found again.
  function StartingPool(pool: Pool): Pool {
    if pool == map[] then DefaultPool() else map id | id in pool :: pool[id].(addrs := None, active := false)
  }

  // What the debugger asserts of breakpoints that are carried over, and what their constructors make sure of.
  ghost predicate CarriedOver(pool: Pool) {
    pool == map[] || (OneHidden(pool) && forall id <- pool.Keys :: BreakpointOk(pool[id]))
  }

  lemma StartingPoolOk(pool: Pool)
    requires CarriedOver(pool)
    ensures OneHidden(StartingPool(pool))
    ensures var started := StartingPool(pool);
            forall id <- started.Keys :: BreakpointOk(started[id]) && !started[id].active && started[id].addrs.None?
    ensures pool != map[] ==> StartingPool(pool).Keys == pool.Keys && forall id <- pool.Keys ::
              var b := StartingPool(pool)[id]; b == pool[id].(addrs := b.addrs, active := b.active)
  {
    if pool == map[] {
      DefaultIsHidden();
    } else {
      var id :| id in pool && OnlyHidden(pool, id);
      assert OnlyHidden(StartingPool(pool), id);
    }
  }

  // The hidden breakpoint is the one on library loads; there are also one on panics and one, disabled, on exceptions.
  lemma DefaultPoolIs()
    ensures var pool := StartingPool(map[]);
            && (forall id <- pool.Keys :: pool[id].hidden <==> pool[id].on == OnPoint(LibraryLoad))
            && (forall id <- pool.Keys :: pool[id].enabled <==> pool[id].on != OnPoint(Exception))
            && forall p: PointOfInterest :: exists id <- pool.Keys :: pool[id].on == OnPoint(p)
  {
    var pool := StartingPool(map[]);
    forall p: PointOfInterest ensures exists id <- pool.Keys :: pool[id].on == OnPoint(p) {
      var id := match p case LibraryLoad => 0 case Panic => 1 case Exception => 2;
      assert id in pool.Keys && pool[id].on == OnPoint(p);
    }
  }

  lemma DefaultIsHidden()
    ensures OneHidden(DefaultPool())
  {
    assert OnlyHidden(DefaultPool(), 0);
  }

  // ---------- Operations ----------

  function AddLocations(t: Table, id: nat, addrs: seq<(nat, nat)>): Table {
    if addrs == [] then t
    else
      var n := |addrs| - 1;
      AddLocation(AddLocations(t, id, addrs[..n]), Id(id, addrs[n].1), addrs[n].0)
  }

  function AddSteps(t: Table, steps: seq<(StepBreakpointType, nat)>): Table {
    if steps == [] then t
    else
      var n := |steps| - 1;
      AddLocation(AddSteps(t, steps[..n]), Step(steps[n].0), steps[n].1)
  }

  function WatchSlot(id: nat, w: Watch): HardwareBreakpoint {
    FREE_SLOT.(active := true, addr := w.addr, dataBreakpointId := Some(id), stopOnRead := w.stopOnRead,
        dataSize := w.size)
  }

  // Activates one breakpoint; resolved are its code addresses if they are known by now.
  function ActivateBreakpoint(s: State, id: nat, resolved: Option<seq<(nat, nat)>>): State
    requires id in s.pool
  {
    var b := s.pool[id];
    if !b.enabled || b.active then s
    else if b.on.OnData? then
      var k := FirstFree(s.table.hardware);
      if k < |s.table.hardware| then
        State(s.table.(hardware := s.table.hardware[k := WatchSlot(id, b.on.watch)]),
            s.pool[id := b.(active := true, addrs := None)])
      else
        s.(pool := s.pool[id := b.(enabled := false, addrs := None)])
    else
      var addrs := if b.addrs.Some? then b.addrs else resolved;
      if addrs.Some? then
        State(AddLocations(s.table, id, addrs.value), s.pool[id := b.(active := true, addrs := addrs)])
      else s
  }

  // Activating several breakpoints one after another; resolved are the addresses known by now.
  function ActivateEach(s: State, ids: seq<nat>, resolved: map<nat, seq<(nat, nat)>>): (s': State)
    ensures s'.pool.Keys == s.pool.Keys
  {
    if ids == [] then s
    else
      var n := |ids| - 1;
      var t := ActivateEach(s, ids[..n], resolved);
      if ids[n] in t.pool then ActivateBreakpoint(t, ids[n], Lookup(resolved, ids[n])) else t
  }

  function Lookup(resolved: map<nat, seq<(nat, nat)>>, id: nat): Option<seq<(nat, nat)>> {
    if id in resolved then Some(resolved[id]) else None
  }

  function DropRefs(locs: seq<Location>, drop: BreakpointRef -> bool): (r: seq<Location>)
    ensures |r| == |locs|
  {
    seq(|locs|, i requires 0 <= i < |locs| => locs[i].(breakpoints := Retained(locs[i].breakpoints, drop)))
  }

  function Retained(refs: seq<BreakpointRef>, drop: BreakpointRef -> bool): seq<BreakpointRef> {
    if refs == [] then []
    else
      var n := |refs| - 1;
      Retained(refs[..n], drop) + if drop(refs[n]) then [] else [refs[n]]
  }

  function RefersTo(id: nat): BreakpointRef -> bool {
    (r: BreakpointRef) => r.Id? && r.id == id
  }

  const IsStep: BreakpointRef -> bool := (r: BreakpointRef) => r.Step?

  function ReleaseWatch(hw: seq<HardwareBreakpoint>, id: nat): (r: seq<HardwareBreakpoint>)
    ensures |r| == |hw|
  {
    seq(|hw|, k requires 0 <= k < |hw| => if hw[k].active &&
        hw[k].dataBreakpointId == Some(id) then FREE_SLOT else hw[k])
  }

  // Locations are only marked; the next handle_breakpoints deactivates them.
  function DeactivateBreakpoint(s: State, id: nat): (s': State)
    ensures id in s.pool ==> s'.pool.Keys == s.pool.Keys
    requires id in s.pool
  {
    if !s.pool[id].active then s
    else
      State(s.table.(locations := DropRefs(s.table.locations, RefersTo(id)),
          hardware := ReleaseWatch(s.table.hardware, id)),
            s.pool[id := s.pool[id].(active := false)])
  }

  function CancelStep(t: Table): Table {
    t.(locations := DropRefs(t.locations, IsStep))
  }

  // Deactivates the location at an address if nothing refers to it any more.
  function LazyDeactivate(t: Table, addr: nat): Table
    requires Deactivatable(t)
  {
    var i := LowerBound(t.locations, addr);
    if i < |t.locations| && t.locations[i].addr == addr && t.locations[i].breakpoints == [] then Deactivate(t, i) else t
  }

  // The kernel refused slot k: whatever it belongs to is deactivated and not retried.
  function Reject(s: State, k: nat): State
    requires k < |s.table.hardware| && Deactivatable(s.table)
  {
    var h := s.table.hardware[k];
    if !h.active then s
    else if h.dataBreakpointId.Some? then
      if h.dataBreakpointId.value in s.pool then DeactivateBreakpoint(s, h.dataBreakpointId.value) else s
    else
      var i := LowerBound(s.table.locations, h.addr);
      if i < |s.table.locations| then
        var u := Deactivate(s.table, i);
        s.(table := u.(locations := u.locations[i := u.locations[i].(error := Some(InvalidInput), noRetry := true)]))
      else s
  }

  // ---------- Data breakpoints and the slots ----------

  ghost predicate IsActiveWatch(pool: Pool, id: nat) {
    id in pool && pool[id].active && pool[id].on.OnData?
  }

  // Only the breakpoint on library loads is hidden, and there is one. Every data slot belongs to one active data
  // breakpoint and watches
  // what that one asks for.
  ghost predicate DataOk(pool: Pool, hw: seq<HardwareBreakpoint>) {
    && OneHidden(pool) && (forall id :: id in pool ==> BreakpointOk(pool[id]))
    && (forall k :: 0 <= k < |hw| && DataSlot(hw[k]) ==>
         var id := hw[k].dataBreakpointId.value;
         IsActiveWatch(pool, id) && pool[id].on.watch == Watch(hw[k].addr, hw[k].dataSize, hw[k].stopOnRead))
    && (forall k, m :: 0 <= k < m < |hw| && DataSlot(hw[k]) && DataSlot(hw[m]) ==>
        hw[k].dataBreakpointId != hw[m].dataBreakpointId)
  }

  ghost predicate HasDataSlot(hw: seq<HardwareBreakpoint>, id: nat) {
    exists k :: 0 <= k < |hw| && DataSlot(hw[k]) && hw[k].dataBreakpointId.value == id
  }

  // Every active data breakpoint has its slot.
  ghost predicate DataOwned(pool: Pool, hw: seq<HardwareBreakpoint>) {
    forall id :: IsActiveWatch(pool, id) ==> HasDataSlot(hw, id)
  }

  ghost predicate WatchedAddr(hw: seq<HardwareBreakpoint>, addr: nat) {
    exists k :: 0 <= k < |hw| && DataSlot(hw[k]) && hw[k].addr == addr
  }

  // No data breakpoint watches the address of an instruction location.
  ghost predicate Exclusive(t: Table) {
    forall i :: 0 <= i < |t.locations| ==> !WatchedAddr(t.hardware, t.locations[i].addr)
  }

  ghost predicate Good(s: State, code: Memory) {
    Inv(s.table, code) && DataOk(s.pool, s.table.hardware)
  }

  lemma StartIsGood(t: Table, pool: Pool)
    requires t.locations == [] && t.hardware == [FREE_SLOT, FREE_SLOT, FREE_SLOT, FREE_SLOT] && OneHidden(pool)
    requires forall id <- pool.Keys :: BreakpointOk(pool[id])
    ensures Good(State(t, pool), t.memory)
  {
  }

  lemma HiddenStays(pool: Pool, id: nat, b: Breakpoint)
    requires OneHidden(pool) && (b.hidden <==> id in pool && pool[id].hidden)
    ensures OneHidden(pool[id := b])
  {
    var x :| x in pool && OnlyHidden(pool, x);
    assert OnlyHidden(pool[id := b], x);
  }

  lemma DataOkSizes(pool: Pool, hw: seq<HardwareBreakpoint>)
    requires DataOk(pool, hw)
    ensures SizesOk(hw)
  {
  }

  // Deactivating a hardware location clears every slot at its address. Active data breakpoints all keep their slots
  // if and only if none of them watches that very address.
  lemma DeactivateKeepsWatchesIff(s: State, code: Memory, idx: nat)
    requires Good(s, code) && DataOwned(s.pool, s.table.hardware)
    requires idx < |s.table.locations| && HardActive(s.table.locations[idx])
    ensures CanDeactivate(s.table, idx)
    ensures DataOwned(s.pool, Deactivate(s.table, idx).hardware) <==>
        !WatchedAddr(s.table.hardware, s.table.locations[idx].addr)
  {
    var hw, addr := s.table.hardware, s.table.locations[idx].addr;
    var hw' := Deactivate(s.table, idx).hardware;
    if WatchedAddr(hw, addr) {
      var k :| 0 <= k < |hw| && DataSlot(hw[k]) && hw[k].addr == addr;
      var id := hw[k].dataBreakpointId.value;
      forall m | 0 <= m < |hw'|
        ensures !(DataSlot(hw'[m]) && hw'[m].dataBreakpointId.value == id)
      {
      }
      assert IsActiveWatch(s.pool, id) && !HasDataSlot(hw', id);
    } else {
      forall id | IsActiveWatch(s.pool, id)
        ensures HasDataSlot(hw', id)
      {
        var k :| 0 <= k < |hw| && DataSlot(hw[k]) && hw[k].dataBreakpointId.value == id;
        assert hw'[k] == hw[k];
      }
    }
  }

  // ---------- What table operations do to data slots ----------

  ghost predicate Fewer(hw: seq<HardwareBreakpoint>, hw': seq<HardwareBreakpoint>) {
    |hw'| == |hw| && forall k :: 0 <= k < |hw| && DataSlot(hw'[k]) ==> hw'[k] == hw[k]
  }

  ghost predicate SameData(hw: seq<HardwareBreakpoint>, hw': seq<HardwareBreakpoint>) {
    Fewer(hw, hw') && forall k :: 0 <= k < |hw| && DataSlot(hw[k]) ==> hw'[k] == hw[k]
  }

  // Slots in use are as before, or have not been pushed to the threads.
  ghost predicate SlotsRenewed(hw: seq<HardwareBreakpoint>, hw': seq<HardwareBreakpoint>) {
    |hw'| == |hw| && forall k :: 0 <= k < |hw| ==> hw'[k] == hw[k] || !(hw'[k].active && hw'[k].pushedToThreads)
  }

  lemma DeactivateRenews(t: Table, idx: nat)
    requires idx < |t.locations| && CanDeactivate(t, idx)
    ensures SlotsRenewed(t.hardware, Deactivate(t, idx).hardware)
  {
  }

  lemma {:induction false} HandleRenews(t: Table, pcs: set<nat>, stepTid: Option<nat>)
    requires Deactivatable(t)
    ensures SlotsRenewed(t.hardware, Handle(t, pcs, stepTid).hardware)
  {
    CleanUpToRenews(t, |t.locations|);
    DeactivatableAfterCompact(t);
    var c := Compact(t);
    ConvertUpToRenews(c, |c.locations|, pcs);
    var v := ConvertUpTo(c, |c.locations|, pcs);
    ArmUpToRenews(v, |v.locations|, stepTid);
  }

  lemma {:induction false} CleanUpToRenews(t: Table, n: nat)
    requires Deactivatable(t) && n <= |t.locations|
    ensures SlotsRenewed(t.hardware, CleanUpTo(t, n).hardware)
  {
    hide Deactivatable, Deactivate;
    if n > 0 {
      CleanUpToRenews(t, n - 1);
      DeactivatedRenews(CleanUpTo(t, n - 1), n - 1);
    }
  }

  lemma DeactivatedRenews(t: Table, idx: nat)
    requires idx < |t.locations| && Deactivatable(t)
    ensures SlotsRenewed(t.hardware, Deactivate(t, idx).hardware)
  {
  }

  lemma ConvertAtRenews(t: Table, idx: nat, pcs: set<nat>)
    requires Deactivatable(t) && idx < |t.locations|
    ensures SlotsRenewed(t.hardware, ConvertAt(t, idx, pcs).hardware)
  {
  }

  lemma {:induction false} ConvertUpToRenews(t: Table, n: nat, pcs: set<nat>)
    requires Deactivatable(t) && n <= |t.locations|
    ensures SlotsRenewed(t.hardware, ConvertUpTo(t, n, pcs).hardware)
  {
    hide Deactivatable, ConvertAt;
    if n > 0 {
      ConvertUpToRenews(t, n - 1, pcs);
      ConvertAtRenews(ConvertUpTo(t, n - 1, pcs), n - 1, pcs);
    }
  }

  lemma ArmAtRenews(t: Table, idx: nat, stepTid: Option<nat>)
    requires idx < |t.locations|
    ensures SlotsRenewed(t.hardware, ArmAt(t, idx, stepTid).hardware)
  {
  }

  lemma {:induction false} ArmUpToRenews(t: Table, n: nat, stepTid: Option<nat>)
    requires n <= |t.locations|
    ensures SlotsRenewed(t.hardware, ArmUpTo(t, n, stepTid).hardware)
  {
    hide ArmAt;
    if n > 0 {
      ArmUpToRenews(t, n - 1, stepTid);
      ArmAtRenews(ArmUpTo(t, n - 1, stepTid), n - 1, stepTid);
    }
  }

  lemma ActivateRenews(s: State, id: nat, resolved: Option<seq<(nat, nat)>>)
    requires id in s.pool
    ensures SlotsRenewed(s.table.hardware, ActivateBreakpoint(s, id, resolved).table.hardware)
  {
    var s' := ActivateBreakpoint(s, id, resolved);
    if s' != s && !s.pool[id].on.OnData? {
      AddLocationsFrame(s.table, id, s'.pool[id].addrs.value);
    }
  }

  lemma {:induction false} AddLocationsFrame(t: Table, id: nat, addrs: seq<(nat, nat)>)
    ensures AddLocations(t, id, addrs).hardware == t.hardware
  {
    if addrs != [] {
      AddLocationsFrame(t, id, addrs[..|addrs| - 1]);
    }
  }

  lemma ReleaseRenews(s: State, id: nat)
    requires id in s.pool
    ensures SlotsRenewed(s.table.hardware, DeactivateBreakpoint(s, id).table.hardware)
  {
  }

  lemma FewerKeeps(pool: Pool, hw: seq<HardwareBreakpoint>, hw': seq<HardwareBreakpoint>)
    requires DataOk(pool, hw) && Fewer(hw, hw')
    ensures DataOk(pool, hw')
  {
  }

  lemma SameDataKeeps(pool: Pool, hw: seq<HardwareBreakpoint>, hw': seq<HardwareBreakpoint>)
    requires DataOwned(pool, hw) && SameData(hw, hw')
    ensures DataOwned(pool, hw')
  {
  }

  // b's data slots are among a's, and so are the addresses of its locations.
  ghost predicate Narrower(a: Table, b: Table) {
    && Fewer(a.hardware, b.hardware)
    && forall l <- b.locations :: exists m <- a.locations :: m.addr == l.addr
  }

  lemma NarrowerExclusive(a: Table, b: Table)
    requires Exclusive(a) && Narrower(a, b)
    ensures Exclusive(b)
  {
  }

  // Same addresses, so the same exclusions.
  ghost predicate SameAddrs(a: seq<Location>, b: seq<Location>) {
    |a| == |b| && forall i :: 0 <= i < |a| ==> a[i].addr == b[i].addr
  }

  lemma SameAddrsExclusive(a: Table, b: Table)
    requires Exclusive(a) && SameAddrs(a.locations, b.locations) && Fewer(a.hardware, b.hardware)
    ensures Exclusive(b)
  {
  }

  lemma DeactivateData(t: Table, idx: nat)
    requires idx < |t.locations| && Deactivatable(t)
    ensures Fewer(t.hardware, Deactivate(t, idx).hardware)
    ensures SameAddrs(t.locations, Deactivate(t, idx).locations)
    ensures Exclusive(t) ==> SameData(t.hardware, Deactivate(t, idx).hardware) && Exclusive(Deactivate(t, idx))
  {
  }

  lemma {:induction false} CleanUpToData(t: Table, n: nat)
    requires Deactivatable(t) && n <= |t.locations|
    ensures Fewer(t.hardware, CleanUpTo(t, n).hardware)
    ensures SameAddrs(t.locations, CleanUpTo(t, n).locations)
    ensures Exclusive(t) ==> SameData(t.hardware, CleanUpTo(t, n).hardware) && Exclusive(CleanUpTo(t, n))
  {
    hide Exclusive, Deactivatable, Deactivate;
    if n > 0 {
      CleanUpToData(t, n - 1);
      DeactivateData(CleanUpTo(t, n - 1), n - 1);
    }
  }

  lemma ConvertAtData(t: Table, idx: nat, pcs: set<nat>)
    requires Deactivatable(t) && idx < |t.locations|
    ensures Fewer(t.hardware, ConvertAt(t, idx, pcs).hardware)
    ensures SameAddrs(t.locations, ConvertAt(t, idx, pcs).locations)
    ensures Exclusive(t) ==> SameData(t.hardware, ConvertAt(t, idx, pcs).hardware) && Exclusive(ConvertAt(t, idx, pcs))
  {
  }

  lemma {:induction false} ConvertUpToData(t: Table, n: nat, pcs: set<nat>)
    requires Deactivatable(t) && n <= |t.locations|
    ensures Fewer(t.hardware, ConvertUpTo(t, n, pcs).hardware)
    ensures SameAddrs(t.locations, ConvertUpTo(t, n, pcs).locations)
    ensures Exclusive(t) ==> SameData(t.hardware, ConvertUpTo(t, n, pcs).hardware) && Exclusive(ConvertUpTo(t, n, pcs))
  {
    hide Exclusive, Deactivatable, ConvertAt;
    if n > 0 {
      ConvertUpToData(t, n - 1, pcs);
      ConvertAtData(ConvertUpTo(t, n - 1, pcs), n - 1, pcs);
    }
  }

  lemma ArmAtData(t: Table, idx: nat, stepTid: Option<nat>)
    requires idx < |t.locations|
    ensures SameData(t.hardware, ArmAt(t, idx, stepTid).hardware)
    ensures SameAddrs(t.locations, ArmAt(t, idx, stepTid).locations)
  {
  }

  lemma {:induction false} ArmUpToData(t: Table, n: nat, stepTid: Option<nat>)
    requires n <= |t.locations|
    ensures SameData(t.hardware, ArmUpTo(t, n, stepTid).hardware)
    ensures SameAddrs(t.locations, ArmUpTo(t, n, stepTid).locations)
  {
    hide ArmAt;
    if n > 0 {
      ArmUpToData(t, n - 1, stepTid);
      ArmAtData(ArmUpTo(t, n - 1, stepTid), n - 1, stepTid);
    }
  }

  lemma HandleData(t: Table, pcs: set<nat>, stepTid: Option<nat>)
    requires Deactivatable(t)
    ensures Fewer(t.hardware, Handle(t, pcs, stepTid).hardware)
    ensures Exclusive(t) ==>
              SameData(t.hardware, Handle(t, pcs, stepTid).hardware) && Exclusive(Handle(t, pcs, stepTid))
  {
    CleanUpToData(t, |t.locations|);
    var u := CleanUpTo(t, |t.locations|);
    DeactivatableAfterCompact(t);
    var c := Compact(t);
    KeptNarrower(u);
    ConvertUpToData(c, |c.locations|, pcs);
    var v := ConvertUpTo(c, |c.locations|, pcs);
    ArmUpToData(v, |v.locations|, stepTid);
    hide Deactivatable;
    if Exclusive(t) {
      NarrowerExclusive(u, c);
      SameAddrsExclusive(v, Handle(t, pcs, stepTid));
    }
  }

  lemma KeptNarrower(u: Table)
    ensures Narrower(u, u.(locations := Kept(u.locations)))
  {
    forall l | l in Kept(u.locations)
      ensures exists m <- u.locations :: m.addr == l.addr
    {
      KeptMembers(u.locations, l);
      assert l in u.locations;
    }
  }

  // ---------- Each operation keeps the invariant ----------

  lemma {:induction false} AddLocationsKeeps(t: Table, code: Memory, id: nat, addrs: seq<(nat, nat)>)
    requires Inv(t, code)
    ensures Inv(AddLocations(t, id, addrs), code)
    ensures AddLocations(t, id, addrs) == t.(locations := AddLocations(t, id, addrs).locations)
  {
    hide Inv;
    if addrs != [] {
      var n := |addrs| - 1;
      AddLocationsKeeps(t, code, id, addrs[..n]);
      AddLocationKeeps(AddLocations(t, id, addrs[..n]), code, Id(id, addrs[n].1), addrs[n].0);
    }
  }

  lemma {:induction false} AddStepsKeeps(t: Table, code: Memory, steps: seq<(StepBreakpointType, nat)>)
    requires Inv(t, code)
    ensures Inv(AddSteps(t, steps), code)
    ensures AddSteps(t, steps) == t.(locations := AddSteps(t, steps).locations)
  {
    hide Inv;
    if steps != [] {
      var n := |steps| - 1;
      AddStepsKeeps(t, code, steps[..n]);
      AddLocationKeeps(AddSteps(t, steps[..n]), code, Step(steps[n].0), steps[n].1);
    }
  }

  lemma DropRefsKeeps(t: Table, code: Memory, drop: BreakpointRef -> bool)
    requires Inv(t, code)
    ensures Inv(t.(locations := DropRefs(t.locations, drop)), code)
  {
    SameShapeKeeps(t, DropRefs(t.locations, drop), code);
  }

  // Changing data slots only does not concern instruction locations.
  lemma OtherSlotsOk(locs: seq<Location>, hw: seq<HardwareBreakpoint>, hw': seq<HardwareBreakpoint>)
    requires SlotsOk(locs, hw) && |hw'| == |hw|
    requires forall k :: 0 <= k < |hw| && (InstructionSlot(hw[k]) || InstructionSlot(hw'[k])) ==> hw'[k] == hw[k]
    ensures SlotsOk(locs, hw')
  {
  }

  lemma ReleaseWatchKeeps(pool: Pool, hw: seq<HardwareBreakpoint>, id: nat)
    requires DataOk(pool, hw) && id in pool
    ensures DataOk(pool[id := pool[id].(active := false)], ReleaseWatch(hw, id))
    ensures DataOwned(pool, hw) ==> DataOwned(pool[id := pool[id].(active := false)], ReleaseWatch(hw, id))
  {
    var pool', hw' := pool[id := pool[id].(active := false)], ReleaseWatch(hw, id);
    HiddenStays(pool, id, pool[id].(active := false));
    if DataOwned(pool, hw) {
      forall x | IsActiveWatch(pool', x)
        ensures HasDataSlot(hw', x)
      {
        assert IsActiveWatch(pool, x);
        var k :| 0 <= k < |hw| && DataSlot(hw[k]) && hw[k].dataBreakpointId.value == x;
        assert hw'[k] == hw[k];
      }
    }
  }

  lemma DeactivateBreakpointKeeps(s: State, code: Memory, id: nat)
    requires Good(s, code) && id in s.pool
    ensures Good(DeactivateBreakpoint(s, id), code)
    ensures DataOwned(s.pool, s.table.hardware) ==>
        DataOwned(DeactivateBreakpoint(s, id).pool, DeactivateBreakpoint(s, id).table.hardware)
  {
    if s.pool[id].active {
      DropRefsKeeps(s.table, code, RefersTo(id));
      OtherSlotsOk(DropRefs(s.table.locations, RefersTo(id)), s.table.hardware, ReleaseWatch(s.table.hardware, id));
      ReleaseWatchKeeps(s.pool, s.table.hardware, id);
    }
  }

  lemma TakeSlotKeeps(pool: Pool, hw: seq<HardwareBreakpoint>, id: nat, b: Breakpoint, k: nat)
    requires DataOk(pool, hw) && id in pool && !pool[id].active && k < |hw| && !hw[k].active
    requires b.active && b.on.OnData? && BreakpointOk(b) && b.hidden == pool[id].hidden
    ensures DataOk(pool[id := b], hw[k := WatchSlot(id, b.on.watch)])
    ensures DataOwned(pool, hw) ==> DataOwned(pool[id := b], hw[k := WatchSlot(id, b.on.watch)])
  {
    var pool', hw' := pool[id := b], hw[k := WatchSlot(id, b.on.watch)];
    HiddenStays(pool, id, b);
    if DataOwned(pool, hw) {
      forall x | IsActiveWatch(pool', x)
        ensures HasDataSlot(hw', x)
      {
        if x == id {
          assert DataSlot(hw'[k]);
        } else {
          assert IsActiveWatch(pool, x);
          var m :| 0 <= m < |hw| && DataSlot(hw[m]) && hw[m].dataBreakpointId.value == x;
          assert hw'[m] == hw[m];
        }
      }
    }
  }

  // Changing a breakpoint that is not an active watch, before or after.
  lemma PoolUpdateKeeps(pool: Pool, hw: seq<HardwareBreakpoint>, id: nat, b: Breakpoint)
    requires DataOk(pool, hw) && (id in pool ==> !IsActiveWatch(pool, id))
    requires !(b.active && b.on.OnData?) && BreakpointOk(b) && (b.hidden <==> id in pool && pool[id].hidden)
    ensures DataOk(pool[id := b], hw)
    ensures DataOwned(pool, hw) ==> DataOwned(pool[id := b], hw)
  {
    HiddenStays(pool, id, b);
  }

  lemma ActivateBreakpointKeeps(s: State, code: Memory, id: nat, resolved: Option<seq<(nat, nat)>>)
    requires Good(s, code) && id in s.pool
    ensures Good(ActivateBreakpoint(s, id, resolved), code)
    ensures DataOwned(s.pool, s.table.hardware) ==>
              var s' := ActivateBreakpoint(s, id, resolved); DataOwned(s'.pool, s'.table.hardware)
  {
    var b := s.pool[id];
    if !b.enabled || b.active {
    } else if b.on.OnData? {
      var k := FirstFree(s.table.hardware);
      if k < |s.table.hardware| {
        TakeSlotKeeps(s.pool, s.table.hardware, id, b.(active := true, addrs := None), k);
        OtherSlotsOk(s.table.locations, s.table.hardware, s.table.hardware[k := WatchSlot(id, b.on.watch)]);
      } else {
        PoolUpdateKeeps(s.pool, s.table.hardware, id, b.(enabled := false, addrs := None));
      }
    } else {
      var addrs := if b.addrs.Some? then b.addrs else resolved;
      if addrs.Some? {
        AddLocationsKeeps(s.table, code, id, addrs.value);
        PoolUpdateKeeps(s.pool, s.table.hardware, id, b.(active := true, addrs := addrs));
      }
    }
  }

  lemma LazyDeactivateKeeps(t: Table, code: Memory, addr: nat)
    requires Inv(t, code)
    ensures Deactivatable(t) && Inv(LazyDeactivate(t, addr), code)
    ensures Fewer(t.hardware, LazyDeactivate(t, addr).hardware)
    ensures Exclusive(t) ==> SameData(t.hardware, LazyDeactivate(t, addr).hardware)
  {
    InvDeactivatable(t, code);
    var i := LowerBound(t.locations, addr);
    if i < |t.locations| {
      DeactivateKeeps(t, code, i);
      DeactivateData(t, i);
    }
  }

  // The lookup by address finds the location that owns an instruction slot, and it is hardware.
  lemma SlotLocation(t: Table, code: Memory, k: nat)
    requires Inv(t, code) && k < |t.hardware| && InstructionSlot(t.hardware[k])
    ensures var i := LowerBound(t.locations, t.hardware[k].addr);
            i < |t.locations| && t.locations[i].addr == t.hardware[k].addr && HardActive(t.locations[i])
  {
  }

  lemma DataSlotOwner(s: State, code: Memory, k: nat)
    requires Good(s, code) && k < |s.table.hardware| && DataSlot(s.table.hardware[k])
    ensures s.table.hardware[k].dataBreakpointId.value in s.pool
  {
  }

  lemma RejectKeeps(s: State, code: Memory, k: nat)
    requires Good(s, code) && k < |s.table.hardware|
    ensures Deactivatable(s.table) && Good(Reject(s, k), code)
    ensures !Reject(s, k).table.hardware[k].active
    ensures DataOwned(s.pool, s.table.hardware) && Exclusive(s.table) ==>
              DataOwned(Reject(s, k).pool, Reject(s, k).table.hardware)
  {
    InvDeactivatable(s.table, code);
    var h := s.table.hardware[k];
    if !h.active {
    } else if h.dataBreakpointId.Some? {
      DeactivateBreakpointKeeps(s, code, h.dataBreakpointId.value);
    } else {
      RejectInstructionKeeps(s, code, k);
    }
  }

  lemma RejectInstructionKeeps(s: State, code: Memory, k: nat)
    requires Good(s, code) && k < |s.table.hardware|
    requires s.table.hardware[k].active && s.table.hardware[k].dataBreakpointId.None?
    ensures Deactivatable(s.table) && Good(Reject(s, k), code)
    ensures !Reject(s, k).table.hardware[k].active
    ensures DataOwned(s.pool, s.table.hardware) && Exclusive(s.table) ==>
              DataOwned(Reject(s, k).pool, Reject(s, k).table.hardware)
  {
    InvDeactivatable(s.table, code);
    SlotLocation(s.table, code, k);
    var i := LowerBound(s.table.locations, s.table.hardware[k].addr);
    var u := Deactivate(s.table, i);
    SlotCleared(s.table, i, k);
    DeactivateKeeps(s.table, code, i);
    DeactivateData(s.table, i);
    hide Inv, Exclusive, DataOwned, DataOk, Deactivatable, Deactivate, Fewer, SameData;
    SameShapeKeeps(u, u.locations[i := u.locations[i].(error := Some(InvalidInput), noRetry := true)], code);
    FewerKeeps(s.pool, s.table.hardware, u.hardware);
    if DataOwned(s.pool, s.table.hardware) && Exclusive(s.table) {
      SameDataKeeps(s.pool, s.table.hardware, u.hardware);
    }
  }

  lemma SlotCleared(t: Table, i: nat, k: nat)
    requires i < |t.locations| && CanDeactivate(t, i) && HardActive(t.locations[i]) && k < |t.hardware|
    requires t.hardware[k].addr == t.locations[i].addr
    ensures !Deactivate(t, i).hardware[k].active && Deactivate(t, i).locations[i].addr == t.locations[i].addr
    ensures !Deactivate(t, i).locations[i].active
  {
  }

  // Same locations of the same kind; some may have been deactivated with an error.
  ghost predicate SomeFailed(a: seq<Location>, b: seq<Location>) {
    |a| == |b| && forall i :: 0 <= i < |a| ==> MayHaveFailed(a[i], b[i])
  }

  ghost predicate MayHaveFailed(l: Location, m: Location) {
    && m.addr == l.addr && m.hardware == l.hardware && m.originalByte == l.originalByte
    && (forall r <- m.breakpoints :: r in l.breakpoints)
    && ((m.active == l.active && m.error == l.error && m.noRetry == l.noRetry) ||
        (l.hardware && !m.active && m.error.Some?))
  }

  predicate IsWatchRef(pool: Pool, r: BreakpointRef) {
    r.Id? && r.id in pool && pool[r.id].on.OnData?
  }

  ghost predicate KeepsRefsAt(pool: Pool, l: Location, m: Location) {
    forall r <- l.breakpoints :: r in m.breakpoints || IsWatchRef(pool, r)
  }

  // No reference to a code breakpoint, or of a step, is dropped.
  ghost predicate KeepsRefs(pool: Pool, a: seq<Location>, b: seq<Location>) {
    |a| == |b| && forall i :: 0 <= i < |a| ==> KeepsRefsAt(pool, a[i], b[i])
  }

  lemma RejectShape(s: State, code: Memory, k: nat)
    requires Good(s, code) && k < |s.table.hardware|
    ensures Deactivatable(s.table)
    ensures var s' := Reject(s, k);
            && SomeFailed(s.table.locations, s'.table.locations)
            && KeepsRefs(s.pool, s.table.locations, s'.table.locations)
            && s'.table.memory == s.table.memory
            && |s'.table.hardware| == |s.table.hardware|
            && (forall m :: 0 <= m < |s.table.hardware| ==>
                s'.table.hardware[m] == s.table.hardware[m] || s'.table.hardware[m] == FREE_SLOT)
            && (InstructionSlot(s.table.hardware[k]) ==>
                  forall l <- s'.table.locations :: l.addr == s.table.hardware[k].addr ==>
                    l.noRetry && l.error == Some(InvalidInput) && !l.active)
            && (Exclusive(s.table) ==>
                  Exclusive(s'.table) && s'.table.hardware == s.table.hardware[k := s'.table.hardware[k]])
  {
    InvDeactivatable(s.table, code);
    var h := s.table.hardware[k];
    if h.active && h.dataBreakpointId.None? {
      SlotLocation(s.table, code, k);
      RejectInstructionShape(s.table, code, LowerBound(s.table.locations, h.addr), k);
    } else if h.active {
      RejectDataShape(s, code, k);
    } else if Exclusive(s.table) {
      assert s.table.hardware == s.table.hardware[k := h];
    }
  }

  lemma RetainedMembers(refs: seq<BreakpointRef>, drop: BreakpointRef -> bool, r: BreakpointRef)
    ensures r in Retained(refs, drop) <==> r in refs && !drop(r)
  {
  }

  // Dropping the references to a data breakpoint.
  lemma DropKeepsRefs(pool: Pool, locs: seq<Location>, id: nat)
    requires id in pool && pool[id].on.OnData?
    ensures KeepsRefs(pool, locs, DropRefs(locs, RefersTo(id)))
  {
    var locs' := DropRefs(locs, RefersTo(id));
    forall i | 0 <= i < |locs| ensures KeepsRefsAt(pool, locs[i], locs'[i]) {
      forall r | r in locs[i].breakpoints ensures r in locs'[i].breakpoints || IsWatchRef(pool, r) {
        RetainedMembers(locs[i].breakpoints, RefersTo(id), r);
      }
    }
  }

  lemma DropRefsShape(locs: seq<Location>, drop: BreakpointRef -> bool)
    ensures SomeFailed(locs, DropRefs(locs, drop))
  {
    forall i | 0 <= i < |locs|
      ensures MayHaveFailed(locs[i], DropRefs(locs, drop)[i])
    {
      forall r | r in DropRefs(locs, drop)[i].breakpoints
        ensures r in locs[i].breakpoints
      {
        RetainedMembers(locs[i].breakpoints, drop, r);
      }
    }
  }

  lemma RejectDataShape(s: State, code: Memory, k: nat)
    requires Good(s, code) && k < |s.table.hardware| && DataSlot(s.table.hardware[k])
    ensures var id := s.table.hardware[k].dataBreakpointId.value;
            id in s.pool &&
            var s' := DeactivateBreakpoint(s, id);
            && SomeFailed(s.table.locations, s'.table.locations)
            && KeepsRefs(s.pool, s.table.locations, s'.table.locations)
            && s'.table.hardware == s.table.hardware[k := FREE_SLOT]
            && (Exclusive(s.table) ==> Exclusive(s'.table))
  {
    var id := s.table.hardware[k].dataBreakpointId.value;
    assert ReleaseWatch(s.table.hardware, id) == s.table.hardware[k := FREE_SLOT];
    DropKeepsRefs(s.pool, s.table.locations, id);
    DropRefsShape(s.table.locations, RefersTo(id));
    if Exclusive(s.table) {
      SameAddrsExclusive(s.table, DeactivateBreakpoint(s, id).table);
    }
  }

  lemma RejectInstructionShape(t: Table, code: Memory, i: nat, k: nat)
    requires Inv(t, code) && i < |t.locations| && HardActive(t.locations[i]) && Deactivatable(t)
    requires k < |t.hardware| && InstructionSlot(t.hardware[k]) && t.hardware[k].addr == t.locations[i].addr
    ensures var u := Deactivate(t, i);
            var locs := u.locations[i := u.locations[i].(error := Some(InvalidInput), noRetry := true)];
            && SomeFailed(t.locations, locs)
            && (forall pool: Pool :: KeepsRefs(pool, t.locations, locs))
            && u.memory == t.memory
            && |u.hardware| == |t.hardware|
            && (forall m :: 0 <= m < |t.hardware| ==> u.hardware[m] == t.hardware[m] || u.hardware[m] == FREE_SLOT)
            && (forall l <- locs :: l.addr == t.locations[i].addr ==>
                  l.noRetry && l.error == Some(InvalidInput) && !l.active)
            && (Exclusive(t) ==> Exclusive(u.(locations := locs)) && u.hardware == t.hardware[k := u.hardware[k]])
  {
  }

  // Whether a slot has been pushed to the threads matters to no invariant.
  lemma PushedKeeps(s: State, code: Memory, hw': seq<HardwareBreakpoint>)
    requires Good(s, code) && |hw'| == |s.table.hardware|
    requires forall k :: 0 <= k < |hw'| ==> hw'[k] == s.table.hardware[k].(pushedToThreads := true)
    ensures Good(s.(table := s.table.(hardware := hw')), code)
    ensures DataOwned(s.pool, s.table.hardware) ==> DataOwned(s.pool, hw')
    ensures Exclusive(s.table) ==> Exclusive(s.table.(hardware := hw'))
  {
  }

  // ---------- The debuggee ----------

  // The debuggee may change, map and unmap anything but the bytes of locations in the table.
  predicate LeavesLocationsAlone(t: Table, code: Memory, code': Memory) {
    forall l <- t.locations :: SoftActive(l) ==>
      OriginalByte(code', l.addr) == OriginalByte(code, l.addr) && WordMapped(code', WordBase(l.addr))
  }

  // Memory once the debuggee's own view of it is code'.
  function Overlay(t: Table, code': Memory): Memory {
    map a | a in code' :: if PatchedAt(t.locations, a) then INT3 else code'[a]
  }

  lemma OverlayKeeps(t: Table, code: Memory, code': Memory)
    requires Inv(t, code) && LeavesLocationsAlone(t, code, code')
    ensures Inv(t.(memory := Overlay(t, code')), code')
  {
  }

  function Removed(s: State, id: nat): State { s.(pool := s.pool - {id}) }

  function WithEnabled(pool: Pool, id: nat, enabled: bool): Pool
    requires id in pool
  {
    pool[id := pool[id].(enabled := enabled)]
  }

  function WithStopOnRead(pool: Pool, id: nat, stopOnRead: bool): (r: Pool)
    requires id in pool && pool[id].on.OnData?
    ensures r.Keys == pool.Keys
  {
    pool[id := pool[id].(on := OnData(pool[id].on.watch.(stopOnRead := stopOnRead)))]
  }

  // The slot and the breakpoint disagree only until the slot has been freed.
  lemma StopOnReadKeeps(s: State, code: Memory, id: nat, stopOnRead: bool)
    requires Good(s, code) && id in s.pool && s.pool[id].on.OnData?
    ensures var t := DeactivateBreakpoint(s.(pool := WithStopOnRead(s.pool, id, stopOnRead)), id);
            Good(t, code) && (DataOwned(s.pool, s.table.hardware) ==> DataOwned(t.pool, t.table.hardware))
  {
    DeactivateBreakpointKeeps(s, code, id);
    var d := DeactivateBreakpoint(s, id);
    var pool := WithStopOnRead(d.pool, id, stopOnRead);
    PoolUpdateKeeps(d.pool, d.table.hardware, id, pool[id]);
    assert DeactivateBreakpoint(s.(pool := WithStopOnRead(s.pool, id, stopOnRead)), id) == d.(pool := pool);
  }

  // ---------- Histories ----------

  datatype Event =
    | AddBreakpoint(id: nat, breakpoint: Breakpoint)
    | ActivateEvent(id: nat, resolved: Option<seq<(nat, nat)>>)
    | DeactivateEvent(id: nat)
    | RemoveBreakpoint(id: nat)
    | SetEnabled(id: nat, enabled: bool)
    | SetStopOnRead(id: nat, stopOnRead: bool)
    | AddStepBreakpoints(steps: seq<(StepBreakpointType, nat)>)
    | CancelStepping
    | StaleHit(addr: nat)
    | HandleEvent(pcs: set<nat>, stepTid: Option<nat>)
    | RejectEvent(slot: nat)
    | DebuggeeRuns(code': Memory)

  datatype Snapshot = Snapshot(s: State, code: Memory)

  ghost predicate Enabled(h: Snapshot, e: Event) {
    match e
    case AddBreakpoint(id, b) =>
      id !in h.s.pool && !b.active && !b.hidden && BreakpointOk(b)
    case ActivateEvent(id, _) => id in h.s.pool
    case DeactivateEvent(id) => id in h.s.pool
    case RemoveBreakpoint(id) => id in h.s.pool && !h.s.pool[id].hidden
    case SetEnabled(id, _) => id in h.s.pool
    case SetStopOnRead(id, _) => id in h.s.pool && h.s.pool[id].on.OnData?
    case RejectEvent(k) => k < |h.s.table.hardware|
    case DebuggeeRuns(code') => LeavesLocationsAlone(h.s.table, h.code, code')
    case _ => true
  }

  ghost function Apply(h: Snapshot, e: Event): Snapshot
    requires Good(h.s, h.code) && Enabled(h, e)
  {
    InvDeactivatable(h.s.table, h.code);
    var s := h.s;
    match e
    case AddBreakpoint(id, b) => h.(s := s.(pool := s.pool[id := b]))
    case ActivateEvent(id, resolved) => h.(s := ActivateBreakpoint(s, id, resolved))
    case DeactivateEvent(id) => h.(s := DeactivateBreakpoint(s, id))
    case RemoveBreakpoint(id) => h.(s := Removed(DeactivateBreakpoint(s, id), id))
    case SetEnabled(id, enabled) =>
      var u := s.(pool := WithEnabled(s.pool, id, enabled));
      h.(s := if enabled then u else DeactivateBreakpoint(u, id))
    case SetStopOnRead(id, stopOnRead) =>
      h.(s := DeactivateBreakpoint(s.(pool := WithStopOnRead(s.pool, id, stopOnRead)), id))
    case AddStepBreakpoints(steps) => h.(s := s.(table := AddSteps(s.table, steps)))
    case CancelStepping => h.(s := s.(table := CancelStep(s.table)))
    case StaleHit(addr) => h.(s := s.(table := LazyDeactivate(s.table, addr)))
    case HandleEvent(pcs, stepTid) => h.(s := s.(table := Handle(s.table, pcs, stepTid)))
    case RejectEvent(k) => h.(s := Reject(s, k))
    case DebuggeeRuns(code') => Snapshot(s.(table := s.table.(memory := Overlay(s.table, code'))), code')
  }

  lemma HiddenAfter(s: State, id: nat)
    requires id in s.pool
    ensures DeactivateBreakpoint(s, id).pool[id].hidden == s.pool[id].hidden
  {
  }

  lemma RemoveKeeps(pool: Pool, hw: seq<HardwareBreakpoint>, id: nat)
    requires DataOk(pool, hw) && id in pool && !pool[id].active && !pool[id].hidden
    ensures DataOk(pool - {id}, hw)
    ensures DataOwned(pool, hw) ==> DataOwned(pool - {id}, hw)
  {
    var x :| x in pool && OnlyHidden(pool, x);
    assert OnlyHidden(pool - {id}, x);
  }

  lemma SetEnabledKeeps(pool: Pool, hw: seq<HardwareBreakpoint>, id: nat, enabled: bool)
    requires DataOk(pool, hw) && id in pool
    ensures DataOk(pool[id := pool[id].(enabled := enabled)], hw)
    ensures DataOwned(pool, hw) ==> DataOwned(pool[id := pool[id].(enabled := enabled)], hw)
  {
    HiddenStays(pool, id, pool[id].(enabled := enabled));
  }

  ghost predicate Owned(h: Snapshot) { DataOwned(h.s.pool, h.s.table.hardware) }

  lemma ApplyKeeps(h: Snapshot, e: Event)
    requires Good(h.s, h.code) && Enabled(h, e)
    ensures Good(Apply(h, e).s, Apply(h, e).code)
    ensures Owned(h) && Exclusive(h.s.table) ==> Owned(Apply(h, e))
  {
    InvDeactivatable(h.s.table, h.code);
    var s, code := h.s, h.code;
    var pool, hw := s.pool, s.table.hardware;
    match e
    case AddBreakpoint(id, b) => PoolUpdateKeeps(pool, hw, id, b);
    case ActivateEvent(id, resolved) => ActivateBreakpointKeeps(s, code, id, resolved);
    case DeactivateEvent(id) => DeactivateBreakpointKeeps(s, code, id);
    case RemoveBreakpoint(id) =>
      DeactivateBreakpointKeeps(s, code, id);
      RemoveKeeps(DeactivateBreakpoint(s, id).pool, DeactivateBreakpoint(s, id).table.hardware, id);
    case SetEnabled(id, enabled) =>
      SetEnabledKeeps(pool, hw, id, enabled);
      DeactivateBreakpointKeeps(s.(pool := pool[id := pool[id].(enabled := enabled)]), code, id);
    case SetStopOnRead(id, stopOnRead) => StopOnReadKeeps(s, code, id, stopOnRead);
    case AddStepBreakpoints(steps) => AddStepsKeeps(s.table, code, steps);
    case CancelStepping => DropRefsKeeps(s.table, code, IsStep);
    case StaleHit(addr) =>
      LazyDeactivateKeeps(s.table, code, addr);
      TableOnly(s, LazyDeactivate(s.table, addr));
    case HandleEvent(pcs, stepTid) =>
      HandleCorrect(s.table, code, pcs, stepTid);
      HandleData(s.table, pcs, stepTid);
      TableOnly(s, Handle(s.table, pcs, stepTid));
    case RejectEvent(k) => RejectKeeps(s, code, k);
    case DebuggeeRuns(code') => OverlayKeeps(s.table, code, code');
  }

  lemma TableOnly(s: State, t: Table)
    requires DataOk(s.pool, s.table.hardware) && Fewer(s.table.hardware, t.hardware)
    ensures DataOk(s.pool, t.hardware)
    ensures DataOwned(s.pool, s.table.hardware) && SameData(s.table.hardware, t.hardware) ==>
        DataOwned(s.pool, t.hardware)
  {
  }

  // An event happens only when enabled (Apply is defined on good states).
  ghost predicate IsTransition(h: Snapshot, e: Event, h': Snapshot) {
    Good(h.s, h.code) ==> Enabled(h, e) && h' == Apply(h, e)
  }

  // The states of a history, oldest first.
  ghost predicate IsRun(hs: seq<Snapshot>, es: seq<Event>) {
    && |hs| == |es| + 1
    && Good(hs[0].s, hs[0].code)
    && forall i :: 0 <= i < |es| ==> IsTransition(hs[i], es[i], hs[i + 1])
  }

  // Safety over every history. The table stays sorted, memory is the original code with 0xcc exactly at the active
  // software locations, and active hardware locations own the instruction slots.
  lemma {:induction false} EveryHistory(hs: seq<Snapshot>, es: seq<Event>, n: nat)
    requires IsRun(hs, es) && n < |hs|
    ensures Good(hs[n].s, hs[n].code)
  {
    hide Good;
    if n > 0 {
      EveryHistory(hs, es, n - 1);
      assert IsTransition(hs[n - 1], es[n - 1], hs[n - 1 + 1]);
      ApplyKeeps(hs[n - 1], es[n - 1]);
    }
  }

  // As long as nobody watches an instruction location, every active data breakpoint keeps its slot, so active
  // hardware locations and active data breakpoints own exactly the slots in use.
  lemma {:induction false} EveryHistoryOwnsSlots(hs: seq<Snapshot>, es: seq<Event>, n: nat)
    requires IsRun(hs, es) && n < |hs| && Owned(hs[0])
    requires forall i :: 0 <= i < n ==> Exclusive(hs[i].s.table)
    ensures Owned(hs[n])
  {
    hide Good, Owned, Exclusive;
    if n > 0 {
      EveryHistory(hs, es, n - 1);
      EveryHistoryOwnsSlots(hs, es, n - 1);
      assert IsTransition(hs[n - 1], es[n - 1], hs[n - 1 + 1]);
      ApplyKeeps(hs[n - 1], es[n - 1]);
    }
  }

  // ---------- Bytes of locations that are not active ----------

  // The byte kept for each location is the program's, also while the location is not active. It is so as long as the
  // debuggee changes no such byte.
  ghost predicate UpToDate(locs: seq<Location>, code: Memory) {
    forall l <- locs :: l.originalByte == OriginalByte(code, l.addr)
  }

  ghost predicate SameBytes(a: seq<Location>, b: seq<Location>) {
    |a| == |b| && forall i :: 0 <= i < |a| ==> b[i].addr == a[i].addr && b[i].originalByte == a[i].originalByte
  }

  lemma SameBytesStay(a: seq<Location>, b: seq<Location>, code: Memory)
    requires UpToDate(a, code) && SameBytes(a, b)
    ensures UpToDate(b, code)
  {
    forall l | l in b ensures l.originalByte == OriginalByte(code, l.addr) {
      var i :| 0 <= i < |b| && b[i] == l;
      assert a[i] in a;
    }
  }

  lemma FailedUpToDate(a: seq<Location>, b: seq<Location>, code: Memory)
    requires UpToDate(a, code) && SomeFailed(a, b)
    ensures UpToDate(b, code)
  {
    SameBytesStay(a, b, code);
  }

  lemma DropRefsUpToDate(locs: seq<Location>, drop: BreakpointRef -> bool, code: Memory)
    requires UpToDate(locs, code)
    ensures UpToDate(DropRefs(locs, drop), code)
  {
    SameBytesStay(locs, DropRefs(locs, drop), code);
  }

  lemma DeactivateUpToDate(t: Table, idx: nat, code: Memory)
    requires UpToDate(t.locations, code) && idx < |t.locations| && CanDeactivate(t, idx)
    ensures UpToDate(Deactivate(t, idx).locations, code)
  {
    SameBytesStay(t.locations, Deactivate(t, idx).locations, code);
  }

  lemma AddLocationUpToDate(t: Table, code: Memory, ref: BreakpointRef, addr: nat)
    requires Inv(t, code) && UpToDate(t.locations, code)
    ensures UpToDate(AddLocation(t, ref, addr).locations, code)
  {
    var i := LowerBound(t.locations, addr);
    if i < |t.locations| && t.locations[i].addr == addr {
      SameBytesStay(t.locations, AddLocation(t, ref, addr).locations, code);
    } else {
      NotThere(t, addr);
    }
  }

  // An address without a location is not patched.
  lemma NotThere(t: Table, addr: nat)
    requires Sorted(t.locations)
    requires var i := LowerBound(t.locations, addr); i == |t.locations| || t.locations[i].addr != addr
    ensures !PatchedAt(t.locations, addr)
  {
  }

  lemma {:induction false} AddLocationsUpToDate(t: Table, code: Memory, id: nat, addrs: seq<(nat, nat)>)
    requires Inv(t, code) && UpToDate(t.locations, code)
    ensures UpToDate(AddLocations(t, id, addrs).locations, code)
  {
    hide Inv, UpToDate;
    if addrs != [] {
      var n := |addrs| - 1;
      AddLocationsUpToDate(t, code, id, addrs[..n]);
      AddLocationsKeeps(t, code, id, addrs[..n]);
      AddLocationUpToDate(AddLocations(t, id, addrs[..n]), code, Id(id, addrs[n].1), addrs[n].0);
    }
  }

  lemma {:induction false} AddStepsUpToDate(t: Table, code: Memory, steps: seq<(StepBreakpointType, nat)>)
    requires Inv(t, code) && UpToDate(t.locations, code)
    ensures UpToDate(AddSteps(t, steps).locations, code)
  {
    hide Inv, UpToDate;
    if steps != [] {
      var n := |steps| - 1;
      AddStepsUpToDate(t, code, steps[..n]);
      AddStepsKeeps(t, code, steps[..n]);
      AddLocationUpToDate(AddSteps(t, steps[..n]), code, Step(steps[n].0), steps[n].1);
    }
  }

  lemma ActivateUpToDate(s: State, code: Memory, id: nat, resolved: Option<seq<(nat, nat)>>)
    requires Good(s, code) && id in s.pool && UpToDate(s.table.locations, code)
    ensures UpToDate(ActivateBreakpoint(s, id, resolved).table.locations, code)
  {
    hide UpToDate;
    var s' := ActivateBreakpoint(s, id, resolved);
    if s' != s && !s.pool[id].on.OnData? {
      AddLocationsUpToDate(s.table, code, id, s'.pool[id].addrs.value);
    }
  }

  lemma DeactivatedUpToDate(s: State, code: Memory, id: nat)
    requires id in s.pool && UpToDate(s.table.locations, code)
    ensures UpToDate(DeactivateBreakpoint(s, id).table.locations, code)
  {
    hide UpToDate;
    DropRefsUpToDate(s.table.locations, RefersTo(id), code);
  }

  lemma {:induction false} CleanUpToBytes(t: Table, n: nat)
    requires Deactivatable(t) && n <= |t.locations|
    ensures SameBytes(t.locations, CleanUpTo(t, n).locations)
  {
    hide Deactivatable;
    if n > 0 {
      CleanUpToBytes(t, n - 1);
    }
  }

  lemma {:induction false} ConvertUpToBytes(t: Table, n: nat, pcs: set<nat>)
    requires Deactivatable(t) && n <= |t.locations|
    ensures SameBytes(t.locations, ConvertUpTo(t, n, pcs).locations)
  {
    hide Deactivatable;
    if n > 0 {
      ConvertUpToBytes(t, n - 1, pcs);
    }
  }

  lemma KeptUpToDate(locs: seq<Location>, code: Memory)
    requires UpToDate(locs, code)
    ensures UpToDate(Kept(locs), code)
  {
    forall l | l in Kept(locs) ensures l.originalByte == OriginalByte(code, l.addr) {
      KeptMembers(locs, l);
      assert l in locs;
    }
  }

  lemma {:induction false} ArmUpToUpToDate(t: Table, code: Memory, n: nat, stepTid: Option<nat>)
    requires Inv(t, code) && UpToDate(t.locations, code) && n <= |t.locations|
    ensures UpToDate(ArmUpTo(t, n, stepTid).locations, code)
  {
    hide Inv, UpToDate, ArmAt;
    if n > 0 {
      ArmUpToUpToDate(t, code, n - 1, stepTid);
      ArmUpToKeeps(t, code, n - 1, stepTid);
      ArmAtUpToDate(ArmUpTo(t, n - 1, stepTid), code, n - 1, stepTid);
    }
  }

  lemma ArmAtUpToDate(t: Table, code: Memory, idx: nat, stepTid: Option<nat>)
    requires Inv(t, code) && UpToDate(t.locations, code) && idx < |t.locations|
    ensures UpToDate(ArmAt(t, idx, stepTid).locations, code)
  {
    var l := t.locations[idx];
    assert l in t.locations;
    ArmedByte(t, code, idx);
    SameBytesStay(t.locations, ArmAt(t, idx, stepTid).locations, code);
  }

  // A location that is not active finds its own byte in memory.
  lemma ArmedByte(t: Table, code: Memory, idx: nat)
    requires Inv(t, code) && UpToDate(t.locations, code) && idx < |t.locations| && t.locations[idx] in t.locations
    ensures var l := t.locations[idx]; !SoftActive(l) && l.addr in t.memory ==> t.memory[l.addr] == l.originalByte
  {
    assert !SoftActive(t.locations[idx]) ==> !PatchedAt(t.locations, t.locations[idx].addr);
  }

  // The byte of every location stays up to date through all stages of handle_breakpoints.
  lemma HandleUpToDate(t: Table, code: Memory, pcs: set<nat>, stepTid: Option<nat>)
    requires Inv(t, code) && UpToDate(t.locations, code)
    ensures Deactivatable(t) && UpToDate(Compact(t).locations, code)
    ensures var c := Compact(t);
            Deactivatable(c) && UpToDate(ConvertUpTo(c, |c.locations|, pcs).locations, code)
    ensures UpToDate(Handle(t, pcs, stepTid).locations, code)
  {
    hide UpToDate, Inv, Deactivatable, SameBytes;
    InvDeactivatable(t, code);
    CompactKeeps(t, code);
    CleanUpToBytes(t, |t.locations|);
    SameBytesStay(t.locations, CleanUpTo(t, |t.locations|).locations, code);
    KeptUpToDate(CleanUpTo(t, |t.locations|).locations, code);
    var c := Compact(t);
    InvDeactivatable(c, code);
    ConvertUpToBytes(c, |c.locations|, pcs);
    var v := ConvertUpTo(c, |c.locations|, pcs);
    SameBytesStay(c.locations, v.locations, code);
    ConvertUpToKeeps(c, code, |c.locations|, pcs);
    ArmUpToUpToDate(v, code, |v.locations|, stepTid);
  }

  // ---------- What a good state means for the slots ----------

  ghost predicate OwnsExactly(hw: seq<HardwareBreakpoint>, owns: HardwareBreakpoint -> bool) {
    exists k :: 0 <= k < |hw| && owns(hw[k]) && forall m :: 0 <= m < |hw| && owns(hw[m]) ==> m == k
  }

  // Each active hardware location and each active data breakpoint owns exactly one slot, and every slot in use has
  // such an owner.
  lemma SlotsInUse(h: Snapshot)
    requires Good(h.s, h.code) && Owned(h)
    ensures var hw := h.s.table.hardware;
            && |hw| == 4
            && (forall i :: 0 <= i < |h.s.table.locations| && HardActive(h.s.table.locations[i]) ==>
                 OwnsExactly(hw, s => InstructionSlot(s) && s.addr == h.s.table.locations[i].addr))
            && (forall id: nat :: IsActiveWatch(h.s.pool, id) ==>
                OwnsExactly(hw, s => DataSlot(s) && s.dataBreakpointId == Some(id)))
            && (forall k :: 0 <= k < 4 && hw[k].active ==>
                 if hw[k].dataBreakpointId.None? then SlotOwned(h.s.table.locations, hw[k])
                 else IsActiveWatch(h.s.pool, hw[k].dataBreakpointId.value))
  {
  }

  function CodeThere(): Breakpoint { Breakpoint(OnInstruction, Some([(4096, 0)]), true, true, false) }

  // A data breakpoint on the first byte of an instruction that has a hardware location.
  function SharedAddress(): State {
    var l := Location(4096, 0, true, true, [Id(3, 0)], None, false);
    var instruction := FREE_SLOT.(active := true, addr := 4096);
    State(Table([l], [instruction, WatchSlot(4, Watch(4096, 8, false)), FREE_SLOT, FREE_SLOT], map[]),
          DefaultPool()[3 := CodeThere()][4 := NewBreakpoint(OnData(Watch(4096, 8, false))).(active := true)])
  }

  // It is a good state in which every active data breakpoint has its slot, but once the thread leaves the
  // instruction, the data breakpoint has lost its slot while still being active.
  lemma SharedAddressLosesSlot()
    ensures var s := SharedAddress();
            && Good(s, map[]) && DataOwned(s.pool, s.table.hardware) && CanDeactivate(s.table, 0)
            && !DataOwned(s.pool, Deactivate(s.table, 0).hardware)
  {
    var s := SharedAddress();
    SharedAddressIsGood();
    hide Inv, DataOk;
    assert DataSlot(s.table.hardware[1]) && HasDataSlot(s.table.hardware, 4);
    DeactivateKeepsWatchesIff(s, map[], 0);
  }

  lemma SharedAddressIsGood()
    ensures Good(SharedAddress(), map[])
  {
    SharedTable(SharedAddress().table);
    SharedPool();
    hide Inv, DataOk;
  }

  lemma SharedPool()
    ensures DataOk(SharedAddress().pool, SharedAddress().table.hardware)
  {
    var pool, hw := SharedAddress().pool, SharedAddress().table.hardware;
    DefaultIsHidden();
    HiddenStays(DefaultPool(), 3, pool[3]);
    HiddenStays(DefaultPool()[3 := pool[3]], 4, pool[4]);
    hide OneHidden;
    assert forall k :: 0 <= k < |hw| && DataSlot(hw[k]) ==> k == 1;
  }

  lemma SharedTable(t: Table)
    requires t == SharedAddress().table
    ensures Inv(t, map[])
  {
    assert InstructionSlot(t.hardware[0]) && !InstructionSlot(t.hardware[1]) && HardActive(t.locations[0]);
  }

  function NothingSet(): State { State(Table([], [FREE_SLOT, FREE_SLOT, FREE_SLOT, FREE_SLOT], map[]), DefaultPool()) }

  // A code breakpoint where a thread stands, and then a data breakpoint on the same address; the thread goes on.
  function SharingEvents(): seq<Event> {
    var code := NewBreakpoint(OnInstruction);
    var data := NewBreakpoint(OnData(Watch(4096, 8, false)));
    [AddBreakpoint(3, code), ActivateEvent(3, Some([(4096, 0)])), HandleEvent({4096}, None), AddBreakpoint(4, data),
     ActivateEvent(4, None)]
  }

  lemma SharedLocationAdded(t: Table, pool: Pool)
    requires t == NothingSet().table && 3 in pool && pool[3] == NewBreakpoint(OnInstruction)
    ensures var s := ActivateBreakpoint(State(t, pool), 3, Some([(4096, 0)]));
            && s.table == t.(locations := [Location(4096, 0, false, false, [Id(3, 0)], None, false)])
            && s.pool == pool[3 := CodeThere()]
  {
    var addrs := [(4096, 0)];
    assert addrs[..0] == [] && AddLocations(t, 3, []) == t;
    assert AddLocations(t, 3, addrs) == AddLocation(t, Id(3, 0), 4096);
  }

  // handle_breakpoints, where the only location is one that a thread stands at and that is not patched.
  lemma OneHandled(t: Table, l: Location, stepTid: Option<nat>)
    requires t.locations == [l] && l.breakpoints != [] && !l.noRetry && (l.active ==> l.hardware) && l.error.None?
    requires FirstFree(t.hardware) < |t.hardware|
    ensures Deactivatable(t)
    ensures Handle(t, {l.addr}, stepTid) ==
            if l.active then t
            else t.(locations := [l.(hardware := true, active := true)],
                    hardware := t.hardware[FirstFree(t.hardware) := FREE_SLOT.(active := true,
                        threadSpecific := SlotThread(l, stepTid), addr := l.addr)])
  {
    hide FirstFree, SlotThread;
    DeactivatableAfterCompact(t);
    assert t.locations[..0] == [] && Kept([l]) == [l];
    assert CleanUpTo(t, 0) == t && CleanUpTo(t, 1) == t;
    var c := Compact(t);
    assert c == t && ConvertUpTo(c, 0, {l.addr}) == c;
    var v := ConvertUpTo(c, 1, {l.addr});
    assert v == c.(locations := [l.(hardware := true)]);
    assert ArmUpTo(v, 0, stepTid) == v && ArmUpTo(v, 1, stepTid) == ArmAt(v, 0, stepTid);
    assert SlotThread(v.locations[0], stepTid) == SlotThread(l, stepTid) by { SameScope(l, v.locations[0], stepTid); }
  }

  lemma SameScope(l: Location, m: Location, stepTid: Option<nat>)
    requires m.breakpoints == l.breakpoints
    ensures SlotThread(m, stepTid) == SlotThread(l, stepTid)
  {
  }

  lemma SharedLocationHandled(t: Table)
    requires t == NothingSet().table.(locations := [Location(4096, 0, false, false, [Id(3, 0)], None, false)])
    ensures Deactivatable(t)
    ensures Handle(t, {4096}, None) == Table([Location(4096, 0, true, true, [Id(3, 0)], None, false)],
                                             t.hardware[0 := FREE_SLOT.(active := true, addr := 4096)], map[])
  {
    OneHandled(t, t.locations[0], None);
  }

  // The state is reached by a history that starts with nothing set.
  lemma SharedAddressReached() returns (hs: seq<Snapshot>)
    ensures IsRun(hs, SharingEvents()) && hs[0] == Snapshot(NothingSet(), map[]) && hs[5].s == SharedAddress()
  {
    var es := SharingEvents();
    var h0 := Snapshot(NothingSet(), map[]);
    DefaultIsHidden();
    StartIsGood(h0.s.table, h0.s.pool);
    hide Good, Enabled, Apply;
    var h1, h2, h3 := BreakpointAtThread(h0);
    var h4, h5 := WatchThere(h3);
    hs := [h0, h1, h2, h3, h4, h5];
    assert IsTransition(h0, es[0], h1) && IsTransition(h1, es[1], h2) && IsTransition(h2, es[2], h3);
    assert IsTransition(h3, es[3], h4) && IsTransition(h4, es[4], h5);
  }

  lemma BreakpointAtThread(h0: Snapshot) returns (h1: Snapshot, h2: Snapshot, h3: Snapshot)
    requires h0 == Snapshot(NothingSet(), map[]) && Good(h0.s, h0.code)
    ensures IsTransition(h0, SharingEvents()[0], h1) && IsTransition(h1, SharingEvents()[1], h2) &&
        IsTransition(h2, SharingEvents()[2], h3)
    ensures Good(h3.s, h3.code) && h3.code == map[]
    ensures h3.s == State(Table([Location(4096, 0, true, true, [Id(3, 0)], None, false)],
                                NothingSet().table.hardware[0 := FREE_SLOT.(active := true, addr := 4096)], map[]),
                          DefaultPool()[3 := CodeThere()])
  {
    hide Good, Handle, ActivateBreakpoint;
    var es := SharingEvents();
    h1 := OneEvent(h0, es[0]);
    SharedLocationAdded(h1.s.table, h1.s.pool);
    h2 := OneEvent(h1, es[1]);
    SharedLocationHandled(h2.s.table);
    h3 := OneEvent(h2, es[2]);
  }

  lemma WatchThere(h3: Snapshot) returns (h4: Snapshot, h5: Snapshot)
    requires Good(h3.s, h3.code) && h3.code == map[]
    requires h3.s == State(Table([Location(4096, 0, true, true, [Id(3, 0)], None, false)],
                                 NothingSet().table.hardware[0 := FREE_SLOT.(active := true, addr := 4096)], map[]),
                           DefaultPool()[3 := CodeThere()])
    ensures IsTransition(h3, SharingEvents()[3], h4) && IsTransition(h4, SharingEvents()[4], h5)
    ensures h5.s == SharedAddress()
  {
    hide Good, Handle, ActivateBreakpoint;
    var es := SharingEvents();
    h4 := OneEvent(h3, es[3]);
    h5 := OneEvent(h4, es[4]);
    SharedWatchAdded(h4.s);
  }

  lemma OneEvent(h: Snapshot, e: Event) returns (h': Snapshot)
    requires Good(h.s, h.code) && Enabled(h, e)
    ensures h' == Apply(h, e) && Good(h'.s, h'.code)
  {
    ApplyKeeps(h, e);
    h' := Apply(h, e);
  }

  lemma SharedWatchAdded(s: State)
    requires s.table.hardware == NothingSet().table.hardware[0 := FREE_SLOT.(active := true, addr := 4096)]
    requires 4 in s.pool && s.pool[4] == NewBreakpoint(OnData(Watch(4096, 8, false)))
    ensures ActivateBreakpoint(s, 4, None) ==
            State(s.table.(hardware := s.table.hardware[1 := WatchSlot(4, Watch(4096, 8, false))]),
                  s.pool[4 := NewBreakpoint(OnData(Watch(4096, 8, false))).(active := true)])
  {
    assert !s.table.hardware[1].active;
  }
}
