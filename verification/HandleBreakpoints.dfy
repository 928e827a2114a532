// What handle_breakpoints does to the table while every thread is stopped: remove the locations nobody refers to,
// make a location hardware exactly when a thread stands on it, arm everything.
module HandleBreakpoints {
  import opened Options
  import opened DebuggeeMemory
  import opened BreakpointTable
  import opened StepBreakpoints

  predicate Deactivatable(t: Table) {
    forall i :: 0 <= i < |t.locations| ==> CanDeactivate(t, i)
  }

  lemma DeactivateDeactivatable(t: Table, idx: nat)
    requires idx < |t.locations| && Deactivatable(t)
    ensures Deactivatable(Deactivate(t, idx))
  {
    forall i | 0 <= i < |t.locations|
      ensures CanDeactivate(Deactivate(t, idx), i)
    {
      assert CanDeactivate(t, i);
    }
  }

  // ---------- Removing locations without references ----------

  // The first n locations visited: those without references are deactivated.
  function CleanUpTo(t: Table, n: nat): (r: Table)
    requires n <= |t.locations| && Deactivatable(t)
    ensures |r.locations| == |t.locations| && Deactivatable(r)
  {
    if n == 0 then t
    else
      var u := CleanUpTo(t, n - 1);
      DeactivateDeactivatable(u, n - 1);
      if u.locations[n - 1].breakpoints == [] then Deactivate(u, n - 1) else u
  }

  function Kept(locs: seq<Location>): (r: seq<Location>)
    ensures |r| <= |locs|
  {
    if locs == [] then []
    else
      var l := locs[|locs| - 1];
      Kept(locs[..|locs| - 1]) + if l.breakpoints == [] then [] else [l]
  }

  function Compact(t: Table): Table
    requires Deactivatable(t)
  {
    var u := CleanUpTo(t, |t.locations|);
    u.(locations := Kept(u.locations))
  }

  // ---------- Software to hardware and back ----------

  lemma RetypedDeactivatable(u: Table, idx: nat, hardware: bool)
    requires idx < |u.locations| && Deactivatable(u) && !u.locations[idx].active
    ensures Deactivatable(u.(locations := u.locations[idx := u.locations[idx].(hardware := hardware)]))
  {
    var r := u.(locations := u.locations[idx := u.locations[idx].(hardware := hardware)]);
    forall i | 0 <= i < |u.locations| ensures CanDeactivate(r, i) {
      assert CanDeactivate(u, i);
    }
  }

  function ConvertAt(t: Table, idx: nat, pcs: set<nat>): (r: Table)
    requires idx < |t.locations| && Deactivatable(t)
    ensures |r.locations| == |t.locations| && Deactivatable(r)
  {
    var standing := t.locations[idx].addr in pcs;
    if t.locations[idx].hardware == standing then t
    else
      DeactivateDeactivatable(t, idx);
      var u := Deactivate(t, idx);
      var r := u.(locations := u.locations[idx := u.locations[idx].(hardware := standing)]);
      RetypedDeactivatable(u, idx, standing);
      r
  }

  function ConvertUpTo(t: Table, n: nat, pcs: set<nat>): (r: Table)
    requires n <= |t.locations| && Deactivatable(t)
    ensures |r.locations| == |t.locations| && Deactivatable(r)
  {
    if n == 0 then t else ConvertAt(ConvertUpTo(t, n - 1, pcs), n - 1, pcs)
  }

  // ---------- Arming ----------

  function ArmAt(t: Table, idx: nat, stepTid: Option<nat>): (r: Table)
    requires idx < |t.locations|
    ensures |r.locations| == |t.locations|
  {
    if t.locations[idx].noRetry then t
    else
      var (u, e) := Activate(t, idx, stepTid);
      u.(locations := u.locations[idx := u.locations[idx].(error := e)])
  }

  function ArmUpTo(t: Table, n: nat, stepTid: Option<nat>): (r: Table)
    requires n <= |t.locations|
    ensures |r.locations| == |t.locations|
  {
    if n == 0 then t else ArmAt(ArmUpTo(t, n - 1, stepTid), n - 1, stepTid)
  }

  function Handle(t: Table, pcs: set<nat>, stepTid: Option<nat>): Table
    requires Deactivatable(t)
  {
    DeactivatableAfterCompact(t);
    var c := Compact(t);
    var v := ConvertUpTo(c, |c.locations|, pcs);
    ArmUpTo(v, |v.locations|, stepTid)
  }

  // ---------- Proofs ----------

  lemma InvDeactivatable(t: Table, code: Memory)
    requires Inv(t, code)
    ensures Deactivatable(t)
  {
  }

  lemma KeptMembers(locs: seq<Location>, l: Location)
    ensures l in Kept(locs) <==> l in locs && l.breakpoints != []
  {
  }

  lemma KeptSorted(locs: seq<Location>)
    requires Sorted(locs)
    ensures Sorted(Kept(locs))
  {
    if locs != [] {
      var n := |locs| - 1;
      KeptSorted(locs[..n]);
      var k := Kept(locs[..n]);
      forall i | 0 <= i < |k|
        ensures k[i].addr < locs[n].addr
      {
        KeptMembers(locs[..n], k[i]);
      }
    }
  }

  lemma DeactivatableAfterCompact(t: Table)
    requires Deactivatable(t)
    ensures Deactivatable(Compact(t))
  {
    var u := CleanUpTo(t, |t.locations|);
    forall i | 0 <= i < |Kept(u.locations)|
      ensures CanDeactivate(Compact(t), i)
    {
      KeptMembers(u.locations, Kept(u.locations)[i]);
      var j :| 0 <= j < |u.locations| && u.locations[j] == Kept(u.locations)[i];
      assert CanDeactivate(u, j);
    }
  }

  lemma {:induction false} CleanUpToKeeps(t: Table, code: Memory, n: nat)
    requires Inv(t, code) && Deactivatable(t) && n <= |t.locations|
    ensures Inv(CleanUpTo(t, n), code)
  {
    hide Inv, Deactivatable, Deactivate;
    if n > 0 {
      CleanUpToKeeps(t, code, n - 1);
      DeactivateKeeps(CleanUpTo(t, n - 1), code, n - 1);
    }
  }

  lemma {:induction false} CleanUpToShape(t: Table, n: nat)
    requires Deactivatable(t) && n <= |t.locations|
    ensures var u := CleanUpTo(t, n);
            forall i :: 0 <= i < |t.locations| ==>
              if i < n && t.locations[i].breakpoints == []
              then u.locations[i] == t.locations[i].(active := false)
              else u.locations[i] == t.locations[i]
  {
    hide Deactivatable;
    if n > 0 {
      CleanUpToShape(t, n - 1);
    }
  }

  // Dropping inactive locations keeps the invariant.
  lemma KeptKeeps(t: Table, code: Memory)
    requires Inv(t, code)
    requires forall i :: 0 <= i < |t.locations| && t.locations[i].breakpoints == [] ==> !t.locations[i].active
    ensures Inv(t.(locations := Kept(t.locations)), code)
  {
    var locs, kept := t.locations, Kept(t.locations);
    KeptSorted(locs);
    forall l
      ensures l in kept <==> l in locs && l.breakpoints != []
    {
      KeptMembers(locs, l);
    }
    KeptPatchOk(locs, kept, t.memory, code);
    KeptSlotsOk(locs, kept, t.hardware);
  }

  predicate SameActive(a: seq<Location>, b: seq<Location>) {
    && (forall l <- b :: l in a)
    && (forall l <- a :: l.active ==> l in b)
  }

  lemma KeptPatchOk(a: seq<Location>, b: seq<Location>, memory: Memory, code: Memory)
    requires PatchOk(a, memory, code) && SameActive(a, b)
    ensures PatchOk(b, memory, code)
  {
    forall i | 0 <= i < |b|
      ensures b[i] in a
    {
    }
    forall x
      ensures PatchedAt(a, x) <==> PatchedAt(b, x)
    {
      if PatchedAt(a, x) {
        var i :| 0 <= i < |a| && SoftActive(a[i]) && a[i].addr == x;
        assert a[i] in b;
      }
      if PatchedAt(b, x) {
        var i :| 0 <= i < |b| && SoftActive(b[i]) && b[i].addr == x;
        assert b[i] in a;
      }
    }
  }

  lemma KeptSlotsOk(a: seq<Location>, b: seq<Location>, hw: seq<HardwareBreakpoint>)
    requires SlotsOk(a, hw) && SameActive(a, b)
    ensures SlotsOk(b, hw)
  {
  }

  lemma KeptOfCleaned(a: seq<Location>, b: seq<Location>)
    requires |a| == |b|
    requires forall i :: 0 <= i < |a| && a[i].breakpoints == [] ==> b[i].breakpoints == []
    requires forall i :: 0 <= i < |a| && a[i].breakpoints != [] ==> b[i] == a[i]
    ensures Kept(a) == Kept(b)
  {
  }

  // Compaction removes exactly the locations without references and leaves the others alone.
  lemma CompactKeeps(t: Table, code: Memory)
    requires Inv(t, code)
    ensures Deactivatable(t) && Inv(Compact(t), code)
    ensures Compact(t).locations == Kept(t.locations)
  {
    InvDeactivatable(t, code);
    CleanUpToKeeps(t, code, |t.locations|);
    CleanUpToShape(t, |t.locations|);
    var u := CleanUpTo(t, |t.locations|);
    KeptKeeps(u, code);
    KeptOfCleaned(t.locations, u.locations);
  }

  // The kind of an inactive location may be changed freely.
  lemma SetHardwareKeeps(t: Table, code: Memory, idx: nat, hardware: bool)
    requires Inv(t, code) && idx < |t.locations| && !t.locations[idx].active
    ensures Inv(t.(locations := t.locations[idx := t.locations[idx].(hardware := hardware)]), code)
  {
    var locs' := t.locations[idx := t.locations[idx].(hardware := hardware)];
    HardActiveUnchanged(t.locations, locs', t.hardware, idx);
    SoftActiveUnchanged(t.locations, locs', t.memory, code, idx);
  }

  lemma ConvertAtKeeps(t: Table, code: Memory, idx: nat, pcs: set<nat>)
    requires Inv(t, code) && Deactivatable(t) && idx < |t.locations|
    ensures Inv(ConvertAt(t, idx, pcs), code)
  {
    hide Inv, Deactivatable;
    DeactivateKeeps(t, code, idx);
    SetHardwareKeeps(Deactivate(t, idx), code, idx, t.locations[idx].addr in pcs);
  }

  lemma {:induction false} ConvertUpToKeeps(t: Table, code: Memory, n: nat, pcs: set<nat>)
    requires Inv(t, code) && Deactivatable(t) && n <= |t.locations|
    ensures Inv(ConvertUpTo(t, n, pcs), code)
  {
    hide Inv, Deactivatable, ConvertAt;
    if n > 0 {
      ConvertUpToKeeps(t, code, n - 1, pcs);
      ConvertAtKeeps(ConvertUpTo(t, n - 1, pcs), code, n - 1, pcs);
    }
  }

  lemma {:induction false} ConvertUpToShape(t: Table, n: nat, pcs: set<nat>)
    requires Deactivatable(t) && n <= |t.locations|
    ensures var u := ConvertUpTo(t, n, pcs);
            forall i :: 0 <= i < |t.locations| ==>
              && u.locations[i].addr == t.locations[i].addr
              && u.locations[i].breakpoints == t.locations[i].breakpoints
              && u.locations[i].noRetry == t.locations[i].noRetry
              && u.locations[i].error == t.locations[i].error
              && (u.locations[i].hardware == if i < n then t.locations[i].addr in pcs else t.locations[i].hardware)
  {
    hide Deactivatable;
    if n > 0 {
      ConvertUpToShape(t, n - 1, pcs);
    }
  }

  // A location that is not exempt from retrying is active exactly when it has no error, and the error tells why.
  predicate Armed(t: Table, l: Location) {
    && (l.noRetry || (l.error.None? <==> l.active))
    && (!l.noRetry && l.error == Some(OutOfHardwareBreakpoints) ==>
          l.hardware && forall k :: 0 <= k < |t.hardware| ==> t.hardware[k].active)
    && (!l.noRetry && l.error == Some(Unreadable) ==> !l.hardware && !WordMapped(t.memory, WordBase(l.addr)))
    && (!l.noRetry ==> l.error != Some(InvalidInput))
  }

  lemma ArmAtKeeps(t: Table, code: Memory, idx: nat, stepTid: Option<nat>)
    requires Inv(t, code) && idx < |t.locations|
    ensures Inv(ArmAt(t, idx, stepTid), code)
  {
    if !t.locations[idx].noRetry {
      var (u, e) := Activate(t, idx, stepTid);
      ActivateKeeps(t, code, idx, stepTid);
      SameShapeKeeps(u, u.locations[idx := u.locations[idx].(error := e)], code);
    }
  }

  lemma {:induction false} ArmUpToKeeps(t: Table, code: Memory, n: nat, stepTid: Option<nat>)
    requires Inv(t, code) && n <= |t.locations|
    ensures Inv(ArmUpTo(t, n, stepTid), code)
  {
    hide Inv;
    if n > 0 {
      ArmUpToKeeps(t, code, n - 1, stepTid);
      ArmAtKeeps(ArmUpTo(t, n - 1, stepTid), code, n - 1, stepTid);
    }
  }

  // What arming one location does to the rest of the table.
  lemma ArmAtShape(t: Table, code: Memory, idx: nat, stepTid: Option<nat>)
    requires Inv(t, code) && idx < |t.locations|
    ensures var u := ArmAt(t, idx, stepTid);
            && u.memory.Keys == t.memory.Keys
            && |u.hardware| == |t.hardware|
            && (forall k :: 0 <= k < |t.hardware| && t.hardware[k].active ==> u.hardware[k].active)
            && (forall i :: 0 <= i < |t.locations| && i != idx ==> u.locations[i] == t.locations[i])
            && u.locations[idx].addr == t.locations[idx].addr
            && u.locations[idx].hardware == t.locations[idx].hardware
            && u.locations[idx].breakpoints == t.locations[idx].breakpoints
            && u.locations[idx].noRetry == t.locations[idx].noRetry
            && Armed(u, u.locations[idx])
  {
  }

  lemma ArmedStays(t: Table, u: Table, l: Location)
    requires Armed(t, l) && u.memory.Keys == t.memory.Keys && |u.hardware| == |t.hardware|
    requires forall k :: 0 <= k < |t.hardware| && t.hardware[k].active ==> u.hardware[k].active
    ensures Armed(u, l)
  {
  }

  lemma {:induction false} ArmUpToArms(t: Table, code: Memory, n: nat, stepTid: Option<nat>)
    requires Inv(t, code) && n <= |t.locations|
    ensures var u := ArmUpTo(t, n, stepTid);
            && (forall i :: 0 <= i < |t.locations| ==>
                 && u.locations[i].addr == t.locations[i].addr
                 && u.locations[i].hardware == t.locations[i].hardware
                 && u.locations[i].breakpoints == t.locations[i].breakpoints
                 && u.locations[i].noRetry == t.locations[i].noRetry)
            && (forall i :: 0 <= i < n ==> Armed(u, u.locations[i]))
  {
    hide Inv, Armed, ArmAt;
    if n > 0 {
      ArmUpToArms(t, code, n - 1, stepTid);
      ArmUpToKeeps(t, code, n - 1, stepTid);
      var v := ArmUpTo(t, n - 1, stepTid);
      ArmAtShape(v, code, n - 1, stepTid);
      var u := ArmAt(v, n - 1, stepTid);
      forall i | 0 <= i < n - 1
        ensures Armed(u, u.locations[i])
      {
        ArmedStays(v, u, v.locations[i]);
      }
    }
  }

  // The state after handle_breakpoints: the invariant holds, exactly the referenced locations remain, one is hardware
  // if and only if a thread stands on it, and every one without an error is active.
  lemma HandleCorrect(t: Table, code: Memory, pcs: set<nat>, stepTid: Option<nat>)
    requires Inv(t, code)
    ensures Deactivatable(t)
    ensures var u := Handle(t, pcs, stepTid);
            && Inv(u, code)
            && |u.locations| == |Kept(t.locations)|
            && forall i :: 0 <= i < |u.locations| ==>
                 && u.locations[i].addr == Kept(t.locations)[i].addr
                 && u.locations[i].breakpoints == Kept(t.locations)[i].breakpoints
                 && u.locations[i].noRetry == Kept(t.locations)[i].noRetry
                 && (u.locations[i].hardware <==> u.locations[i].addr in pcs)
                 && (u.locations[i].error.None? <==> u.locations[i].active)
                 && Armed(u, u.locations[i])
  {
    CompactKeeps(t, code);
    var c := Compact(t);
    InvDeactivatable(c, code);
    ConvertUpToKeeps(c, code, |c.locations|, pcs);
    ConvertUpToShape(c, |c.locations|, pcs);
    var v := ConvertUpTo(c, |c.locations|, pcs);
    ArmUpToKeeps(v, code, |v.locations|, stepTid);
    ArmUpToArms(v, code, |v.locations|, stepTid);
  }

  // The byte under every thread is original code: a thread that is let run does not execute an injected int3 first.
  lemma OriginalCodeUnderThreads(t: Table, code: Memory, pcs: set<nat>, stepTid: Option<nat>, pc: nat)
    requires Inv(t, code) && pc in pcs && pc in code
    ensures Deactivatable(t)
    ensures var u := Handle(t, pcs, stepTid); pc in u.memory && u.memory[pc] == code[pc]
  {
    HandleCorrect(t, code, pcs, stepTid);
    assert !PatchedAt(Handle(t, pcs, stepTid).locations, pc);
  }
}
