// The breakpoint table as a value: instruction locations sorted by address, the four hardware slots, and the debuggee
// memory that software locations are poked into. The methods of class Debugger are proved equal to the functions of
// this module; the invariants are proved here.
module BreakpointTable {
  import opened Options
  import opened DebuggeeMemory
  import opened StepBreakpoints

  datatype BreakpointRef = Step(t: StepBreakpointType) | Id(id: nat, level: nat)

  datatype Error = OutOfHardwareBreakpoints | Unreadable | InvalidInput

  datatype Location = Location(addr: nat, originalByte: bv8, hardware: bool, active: bool,
                               breakpoints: seq<BreakpointRef>, error: Option<Error>, noRetry: bool)

  datatype HardwareBreakpoint = HardwareBreakpoint(active: bool, threadSpecific: Option<nat>, addr: nat,
                                                   dataBreakpointId: Option<nat>, stopOnRead: bool,
                                                   dataSize: nat, pushedToThreads: bool)

  datatype Table = Table(locations: seq<Location>, hardware: seq<HardwareBreakpoint>, memory: Memory)

  const FREE_SLOT := HardwareBreakpoint(false, None, 0, None, false, 0, false)

  // ---------- Invariants ----------

  predicate SoftActive(l: Location) { l.active && !l.hardware }

  predicate HardActive(l: Location) { l.active && l.hardware }

  predicate Sorted(locs: seq<Location>) {
    forall i, j :: 0 <= i < j < |locs| ==> locs[i].addr < locs[j].addr
  }

  predicate PatchedAt(locs: seq<Location>, a: nat) {
    exists i :: 0 <= i < |locs| && SoftActive(locs[i]) && locs[i].addr == a
  }

  // Memory is the debuggee's own code with 0xcc exactly at the active software locations.
  predicate PatchOk(locs: seq<Location>, memory: Memory, code: Memory) {
    && memory.Keys == code.Keys
    && (forall i :: 0 <= i < |locs| && SoftActive(locs[i]) ==> WordMapped(memory, WordBase(locs[i].addr)))
    && (forall a :: a in memory ==> memory[a] == if PatchedAt(locs, a) then INT3 else code[a])
    && (forall i :: 0 <= i < |locs| && SoftActive(locs[i]) ==> locs[i].originalByte == OriginalByte(code, locs[i].addr))
  }

  function OriginalByte(code: Memory, addr: nat): bv8 {
    if addr in code then code[addr] else 0
  }

  predicate InstructionSlot(h: HardwareBreakpoint) { h.active && h.dataBreakpointId.None? }

  predicate DataSlot(h: HardwareBreakpoint) { h.active && h.dataBreakpointId.Some? }

  predicate OwnsSlot(hw: seq<HardwareBreakpoint>, l: Location) {
    exists k :: 0 <= k < |hw| && InstructionSlot(hw[k]) && hw[k].addr == l.addr
  }

  predicate SlotOwned(locs: seq<Location>, h: HardwareBreakpoint) {
    exists i :: 0 <= i < |locs| && HardActive(locs[i]) && locs[i].addr == h.addr
  }

  // Active hardware locations and instruction slots correspond one to one.
  predicate SlotsOk(locs: seq<Location>, hw: seq<HardwareBreakpoint>) {
    && |hw| == 4
    && (forall i :: 0 <= i < |locs| && HardActive(locs[i]) ==> OwnsSlot(hw, locs[i]))
    && (forall k :: 0 <= k < |hw| && InstructionSlot(hw[k]) ==> SlotOwned(locs, hw[k]))
    && (forall k, m :: 0 <= k < m < |hw| && InstructionSlot(hw[k]) && InstructionSlot(hw[m]) ==>
        hw[k].addr != hw[m].addr)
  }

  predicate NoRetryOk(locs: seq<Location>) {
    forall i :: 0 <= i < |locs| && locs[i].noRetry ==> locs[i].error.Some? && !locs[i].active
  }

  predicate Inv(t: Table, code: Memory) {
    && Sorted(t.locations) && PatchOk(t.locations, t.memory, code) && SlotsOk(t.locations, t.hardware)
    && NoRetryOk(t.locations)
  }

  // ---------- Operations ----------

  // partition_point(|x| x.addr < addr) on a sorted table.
  function LowerBound(locs: seq<Location>, addr: nat): (i: nat)
    ensures i <= |locs|
    ensures forall k :: 0 <= k < i ==> locs[k].addr < addr
    ensures i < |locs| ==> locs[i].addr >= addr
  {
    if |locs| == 0 || locs[0].addr >= addr then 0 else 1 + LowerBound(locs[1..], addr)
  }

  function AddLocation(t: Table, ref: BreakpointRef, addr: nat): Table {
    var i := LowerBound(t.locations, addr);
    if i < |t.locations| && t.locations[i].addr == addr then
      t.(locations := t.locations[i := t.locations[i].(breakpoints := t.locations[i].breakpoints + [ref])])
    else
      var l := Location(addr, OriginalByte(t.memory, addr), false, false, [ref], None, false);
      t.(locations := t.locations[..i] + [l] + t.locations[i..])
  }

  function FirstFree(hw: seq<HardwareBreakpoint>): (i: nat)
    ensures i <= |hw|
    ensures forall k :: 0 <= k < i ==> hw[k].active
    ensures i < |hw| ==> !hw[i].active
  {
    if |hw| == 0 || !hw[0].active then 0 else 1 + FirstFree(hw[1..])
  }

  function ClearSlots(hw: seq<HardwareBreakpoint>, addr: nat): (r: seq<HardwareBreakpoint>)
    ensures |r| == |hw|
  {
    seq(|hw|, k requires 0 <= k < |hw| => if hw[k].active && hw[k].addr == addr then FREE_SLOT else hw[k])
  }

  // Only step breakpoints are specific to the stepping thread.
  function SlotThread(l: Location, stepTid: Option<nat>): Option<nat> {
    if exists b <- l.breakpoints :: b.Id? then None else stepTid
  }

  function Activate(t: Table, idx: nat, stepTid: Option<nat>): (Table, Option<Error>)
    requires idx < |t.locations|
  {
    var l := t.locations[idx];
    if l.active then
      (t, None)
    else if l.hardware then
      var k := FirstFree(t.hardware);
      if k == |t.hardware| then
        (t, Some(OutOfHardwareBreakpoints))
      else
        var slot := FREE_SLOT.(active := true, threadSpecific := SlotThread(l, stepTid), addr := l.addr);
        (t.(locations := t.locations[idx := l.(active := true)], hardware := t.hardware[k := slot]), None)
    else if !WordMapped(t.memory, WordBase(l.addr)) then
      (t, Some(Unreadable))
    else
      (t.(locations := t.locations[idx := l.(active := true, originalByte := t.memory[l.addr])],
          memory := t.memory[l.addr := INT3]), None)
  }

  predicate CanDeactivate(t: Table, idx: nat)
    requires idx < |t.locations|
  {
    SoftActive(t.locations[idx]) ==> WordMapped(t.memory, WordBase(t.locations[idx].addr))
  }

  function Deactivate(t: Table, idx: nat): (t': Table)
    requires idx < |t.locations| && CanDeactivate(t, idx)
    ensures |t'.locations| == |t.locations| && t'.memory.Keys >= t.memory.Keys
    ensures t'.locations == t.locations[idx := t.locations[idx].(active := false)]
  {
    var l := t.locations[idx];
    if !l.active then
      t
    else if l.hardware then
      t.(locations := t.locations[idx := l.(active := false)], hardware := ClearSlots(t.hardware, l.addr))
    else
      t.(locations := t.locations[idx := l.(active := false)], memory := t.memory[l.addr := l.originalByte])
  }

  // ---------- The invariant is kept ----------

  lemma AddLocationKeeps(t: Table, code: Memory, ref: BreakpointRef, addr: nat)
    requires Inv(t, code)
    ensures Inv(AddLocation(t, ref, addr), code)
  {
    hide PatchOk, SlotsOk, OriginalByte;
    var t' := AddLocation(t, ref, addr);
    var i := LowerBound(t.locations, addr);
    if i < |t.locations| && t.locations[i].addr == addr {
      SameShapeKeeps(t, t'.locations, code);
    } else {
      var l := Location(addr, OriginalByte(t.memory, addr), false, false, [ref], None, false);
      InsertedSorted(t.locations, i, l);
      InsertedPatchOk(t.locations, t'.locations, i, t.memory, code);
      InsertedSlotsOk(t.locations, t'.locations, i, t.hardware);
    }
  }

  // b is a with one more element at index i.
  predicate Inserted(a: seq<Location>, b: seq<Location>, i: nat) {
    && i <= |a| && |b| == |a| + 1
    && (forall j :: 0 <= j < i ==> b[j] == a[j])
    && (forall j :: i <= j < |a| ==> b[j + 1] == a[j])
    && (forall j :: i < j < |b| ==> b[j] == a[j - 1])
  }

  lemma InsertedSorted(a: seq<Location>, i: nat, l: Location)
    requires Sorted(a) && i <= |a|
    requires forall k :: 0 <= k < i ==> a[k].addr < l.addr
    requires i < |a| ==> a[i].addr > l.addr
    ensures Inserted(a, a[..i] + [l] + a[i..], i) && Sorted(a[..i] + [l] + a[i..])
  {
    InsertedIs(a, i, l);
    var b := a[..i] + [l] + a[i..];
    forall p, q | 0 <= p < q < |b| ensures b[p].addr < b[q].addr {
      InsertedLess(a, b, i, p, q);
    }
  }

  lemma InsertedIs(a: seq<Location>, i: nat, l: Location)
    requires i <= |a|
    ensures var b := a[..i] + [l] + a[i..]; Inserted(a, b, i) && b[i] == l
  {
  }

  lemma InsertedLess(a: seq<Location>, b: seq<Location>, i: nat, p: nat, q: nat)
    requires Inserted(a, b, i) && Sorted(a) && p < q < |b|
    requires (forall k :: 0 <= k < i ==> a[k].addr < b[i].addr) && (i < |a| ==> a[i].addr > b[i].addr)
    ensures b[p].addr < b[q].addr
  {
    if i < q {
      assert b[q] == a[q - 1];
    }
  }

  lemma InsertedPatchOk(a: seq<Location>, b: seq<Location>, i: nat, memory: Memory, code: Memory)
    requires PatchOk(a, memory, code) && Inserted(a, b, i) && Sorted(b)
    requires !b[i].active && b[i].originalByte == OriginalByte(memory, b[i].addr)
    ensures PatchOk(b, memory, code)
  {
    forall x
      ensures PatchedAt(b, x) <==> PatchedAt(a, x)
    {
      if PatchedAt(a, x) {
        var j :| 0 <= j < |a| && SoftActive(a[j]) && a[j].addr == x;
        assert SoftActive(b[if j < i then j else j + 1]);
      }
    }
    assert !PatchedAt(b, b[i].addr);
  }

  lemma InsertedSlotsOk(a: seq<Location>, b: seq<Location>, i: nat, hw: seq<HardwareBreakpoint>)
    requires SlotsOk(a, hw) && Inserted(a, b, i) && !b[i].active
    ensures SlotsOk(b, hw)
  {
    forall k | 0 <= k < |hw| && InstructionSlot(hw[k])
      ensures SlotOwned(b, hw[k])
    {
      var j :| 0 <= j < |a| && HardActive(a[j]) && a[j].addr == hw[k].addr;
      assert HardActive(b[if j < i then j else j + 1]);
    }
  }

  // Same address, byte, kind and activity at every index; references and errors may differ.
  predicate SameShape(a: seq<Location>, b: seq<Location>) {
    && |a| == |b|
    && forall i :: 0 <= i < |a| ==> SameShape1(a[i], b[i])
  }

  predicate SameShape1(a: Location, b: Location) {
    a.addr == b.addr && a.originalByte == b.originalByte && a.hardware == b.hardware && a.active == b.active
  }

  lemma SameShapeKeeps(t: Table, locs: seq<Location>, code: Memory)
    requires Inv(t, code) && SameShape(t.locations, locs) && NoRetryOk(locs)
    ensures Inv(t.(locations := locs), code)
  {
    forall a
      ensures PatchedAt(t.locations, a) <==> PatchedAt(locs, a)
    {
      if PatchedAt(t.locations, a) {
        var i :| 0 <= i < |t.locations| && SoftActive(t.locations[i]) && t.locations[i].addr == a;
        assert SameShape1(t.locations[i], locs[i]);
      }
      if PatchedAt(locs, a) {
        var i :| 0 <= i < |locs| && SoftActive(locs[i]) && locs[i].addr == a;
        assert SameShape1(t.locations[i], locs[i]);
      }
    }
    forall k | 0 <= k < |t.hardware| && InstructionSlot(t.hardware[k])
      ensures SlotOwned(locs, t.hardware[k])
    {
      var i :| 0 <= i < |t.locations| && HardActive(t.locations[i]) && t.locations[i].addr == t.hardware[k].addr;
      assert SameShape1(t.locations[i], locs[i]);
    }
  }

  lemma ActivateKeeps(t: Table, code: Memory, idx: nat, stepTid: Option<nat>)
    requires Inv(t, code) && idx < |t.locations| && !t.locations[idx].noRetry
    ensures Inv(Activate(t, idx, stepTid).0, code)
  {
    var l := t.locations[idx];
    if !l.active && Activate(t, idx, stepTid).1.None? {
      if l.hardware {
        ActivateHardwareKeeps(t, code, idx, stepTid);
      } else {
        PatchKeeps(t, code, idx);
      }
    }
  }

  lemma PatchKeeps(t: Table, code: Memory, idx: nat)
    requires Inv(t, code) && idx < |t.locations| && !t.locations[idx].noRetry
    requires !t.locations[idx].active && !t.locations[idx].hardware &&
        WordMapped(t.memory, WordBase(t.locations[idx].addr))
    ensures Inv(Activate(t, idx, None).0, code)
  {
    var t', l := Activate(t, idx, None).0, t.locations[idx];
    HardActiveUnchanged(t.locations, t'.locations, t.hardware, idx);
    hide SlotsOk, WordMapped;
    assert !PatchedAt(t.locations, l.addr);
    assert SoftActive(t'.locations[idx]);
    forall a
      ensures PatchedAt(t'.locations, a) <==> a == l.addr || PatchedAt(t.locations, a)
    {
      if PatchedAt(t.locations, a) {
        var i :| 0 <= i < |t.locations| && SoftActive(t.locations[i]) && t.locations[i].addr == a;
        assert t'.locations[i] == t.locations[i];
      }
    }
    assert WordMapped(t'.memory, WordBase(l.addr)) by { WordStays(t.memory, t'.memory, WordBase(l.addr)); }
    forall i | 0 <= i < |t'.locations| && SoftActive(t'.locations[i])
      ensures WordMapped(t'.memory, WordBase(t'.locations[i].addr))
    {
      WordStays(t.memory, t'.memory, WordBase(t'.locations[i].addr));
    }
  }

  lemma WordStays(a: Memory, b: Memory, base: nat)
    requires a.Keys <= b.Keys && WordMapped(a, base)
    ensures WordMapped(b, base)
  {
  }

  // Changing a location that is not hardware-active, before or after, leaves the slots consistent.
  lemma HardActiveUnchanged(locs: seq<Location>, locs': seq<Location>, hw: seq<HardwareBreakpoint>, idx: nat)
    requires SlotsOk(locs, hw) && idx < |locs| == |locs'|
    requires forall i :: 0 <= i < |locs| && i != idx ==> locs'[i] == locs[i]
    requires !HardActive(locs[idx]) && !HardActive(locs'[idx])
    ensures SlotsOk(locs', hw)
  {
    forall k | 0 <= k < |hw| && InstructionSlot(hw[k])
      ensures SlotOwned(locs', hw[k])
    {
      var i :| 0 <= i < |locs| && HardActive(locs[i]) && locs[i].addr == hw[k].addr;
      assert locs'[i] == locs[i];
    }
  }

  lemma SoftActiveUnchanged(locs: seq<Location>, locs': seq<Location>, memory: Memory, code: Memory, idx: nat)
    requires PatchOk(locs, memory, code) && idx < |locs| == |locs'|
    requires forall i :: 0 <= i < |locs| && i != idx ==> locs'[i] == locs[i]
    requires !SoftActive(locs[idx]) && !SoftActive(locs'[idx])
    requires locs[idx].addr == locs'[idx].addr && locs[idx].originalByte == locs'[idx].originalByte
    ensures PatchOk(locs', memory, code)
  {
    forall a
      ensures PatchedAt(locs', a) <==> PatchedAt(locs, a)
    {
      if PatchedAt(locs, a) {
        var i :| 0 <= i < |locs| && SoftActive(locs[i]) && locs[i].addr == a;
        assert locs'[i] == locs[i];
      }
    }
  }

  lemma ActivateHardwareKeeps(t: Table, code: Memory, idx: nat, stepTid: Option<nat>)
    requires Inv(t, code) && idx < |t.locations| && !t.locations[idx].noRetry
    requires t.locations[idx].hardware && !t.locations[idx].active && FirstFree(t.hardware) < |t.hardware|
    ensures Inv(Activate(t, idx, stepTid).0, code)
  {
    var t' := Activate(t, idx, stepTid).0;
    var k := FirstFree(t.hardware);
    SoftActiveUnchanged(t.locations, t'.locations, t.memory, code, idx);
    SlotTaken(t.locations, t'.locations, idx, t.hardware, t'.hardware, k);
  }

  lemma SlotTaken(locs: seq<Location>, locs': seq<Location>, idx: nat, hw: seq<HardwareBreakpoint>,
                  hw': seq<HardwareBreakpoint>, k: nat)
    requires Sorted(locs) && SlotsOk(locs, hw) && idx < |locs| && k < |hw| && !hw[k].active
    requires locs' == locs[idx := locs[idx].(active := true)] && locs[idx].hardware && !locs[idx].active
    requires |hw'| == |hw| && hw' == hw[k := hw'[k]] && InstructionSlot(hw'[k]) && hw'[k].addr == locs[idx].addr
    ensures SlotsOk(locs', hw')
  {
    forall i | 0 <= i < |locs'| && HardActive(locs'[i])
      ensures OwnsSlot(hw', locs'[i])
    {
      if i == idx {
        assert InstructionSlot(hw'[k]);
      } else {
        var m :| 0 <= m < |hw| && InstructionSlot(hw[m]) && hw[m].addr == locs[i].addr;
        assert hw'[m] == hw[m];
      }
    }
    forall m | 0 <= m < |hw'| && InstructionSlot(hw'[m])
      ensures SlotOwned(locs', hw'[m])
      ensures m != k ==> hw'[m].addr != locs[idx].addr
    {
      if m == k {
        assert HardActive(locs'[idx]);
      } else {
        var i :| 0 <= i < |locs| && HardActive(locs[i]) && locs[i].addr == hw[m].addr;
        assert locs'[i] == locs[i];
      }
    }
  }

  lemma DeactivateKeeps(t: Table, code: Memory, idx: nat)
    requires Inv(t, code) && idx < |t.locations|
    ensures CanDeactivate(t, idx) && Inv(Deactivate(t, idx), code)
  {
    var l := t.locations[idx];
    var t' := Deactivate(t, idx);
    if !l.active {
    } else if l.hardware {
      DeactivateHardwareKeeps(t, code, idx);
    } else {
      assert l.addr in t.memory;
      forall a
        ensures PatchedAt(t'.locations, a) <==> a != l.addr && PatchedAt(t.locations, a)
      {
        if PatchedAt(t.locations, a) && a != l.addr {
          var i :| 0 <= i < |t.locations| && SoftActive(t.locations[i]) && t.locations[i].addr == a;
          assert t'.locations[i] == t.locations[i];
        }
      }
      HardActiveUnchanged(t.locations, t'.locations, t.hardware, idx);
    }
  }

  lemma DeactivateHardwareKeeps(t: Table, code: Memory, idx: nat)
    requires Inv(t, code) && idx < |t.locations| && HardActive(t.locations[idx])
    ensures Inv(Deactivate(t, idx), code)
  {
    var l := t.locations[idx];
    var t' := Deactivate(t, idx);
    SoftActiveUnchanged(t.locations, t'.locations, t.memory, code, idx);
    SlotsCleared(t.locations, t'.locations, idx, t.hardware);
  }

  lemma SlotsCleared(locs: seq<Location>, locs': seq<Location>, idx: nat, hw: seq<HardwareBreakpoint>)
    requires Sorted(locs) && SlotsOk(locs, hw) && idx < |locs| && HardActive(locs[idx])
    requires locs' == locs[idx := locs[idx].(active := false)]
    ensures SlotsOk(locs', ClearSlots(hw, locs[idx].addr))
  {
    var hw' := ClearSlots(hw, locs[idx].addr);
    forall i | 0 <= i < |locs'| && HardActive(locs'[i])
      ensures OwnsSlot(hw', locs'[i])
    {
      assert i != idx && locs'[i] == locs[i] && locs[i].addr != locs[idx].addr;
      var m :| 0 <= m < |hw| && InstructionSlot(hw[m]) && hw[m].addr == locs[i].addr;
      assert hw'[m] == hw[m];
    }
    forall m | 0 <= m < |hw'| && InstructionSlot(hw'[m])
      ensures SlotOwned(locs', hw'[m]) && hw'[m] == hw[m]
    {
      assert hw'[m] == hw[m] && hw[m].addr != locs[idx].addr;
      var i :| 0 <= i < |locs| && HardActive(locs[i]) && locs[i].addr == hw[m].addr;
      assert locs'[i] == locs[i];
    }
  }
}
