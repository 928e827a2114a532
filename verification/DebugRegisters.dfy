// The value of debug register 7 that arms the hardware slots, and its meaning to the CPU.
module DebugRegisters {
  import opened Options
  import opened BreakpointTable

  // Always-one bit of DR7.
  const DR7_COMMON: bv64 := 0x400

  // ---------- What the CPU reads ----------

  datatype Fields = Fields(enable: bv64, kind: bv64, size: bv64)

  // The fields of slot i: local enable bit 2i, kind at bit 16+4i, size at bit 18+4i.
  function FieldsAt(dr7: bv64, i: nat): Fields
    requires i < 4
  {
    match i
    case 0 => Fields(dr7 & 1, (dr7 >> 16) & 3, (dr7 >> 18) & 3)
    case 1 => Fields((dr7 >> 2) & 1, (dr7 >> 20) & 3, (dr7 >> 22) & 3)
    case 2 => Fields((dr7 >> 4) & 1, (dr7 >> 24) & 3, (dr7 >> 26) & 3)
    case 3 => Fields((dr7 >> 6) & 1, (dr7 >> 28) & 3, (dr7 >> 30) & 3)
  }

  datatype Trigger = Disarmed | Execute | Write(size: nat) | ReadWrite(size: nat) | Reserved

  function Decode(f: Fields): Trigger {
    var bytes := if f.size == 0 then 1 else if f.size == 1 then 2 else if f.size == 2 then 8 else 4;
    if f.enable == 0 then Disarmed
    else if f.kind == 0 then (if f.size == 0 then Execute else Reserved)
    else if f.kind == 1 then Write(bytes)
    else if f.kind == 3 then ReadWrite(bytes)
    else Reserved
  }

  // What slot i is armed for.
  function ArmedFor(dr7: bv64, i: nat): Trigger
    requires i < 4
  {
    Decode(FieldsAt(dr7, i))
  }

  // ---------- What the debugger writes ----------

  predicate Applies(h: HardwareBreakpoint, tid: nat) {
    h.active && !(h.threadSpecific.Some? && h.threadSpecific.value != tid)
  }

  predicate SizeOk(size: nat) { size == 1 || size == 2 || size == 4 || size == 8 }

  predicate SlotSizeOk(h: HardwareBreakpoint) { DataSlot(h) ==> SizeOk(h.dataSize) }

  function SizeCode(size: nat): bv64
    requires SizeOk(size)
  {
    match size
    case 1 => 0
    case 2 => 1
    case 4 => 3
    case 8 => 2
  }


  predicate InRange(f: Fields) { f.enable <= 1 && f.kind <= 3 && f.size <= 3 }

  function FieldsOf(h: HardwareBreakpoint, tid: nat): (f: Fields)
    requires SlotSizeOk(h)
    ensures InRange(f)
  {
    if !Applies(h, tid) then Fields(0, 0, 0)
    else if h.dataBreakpointId.None? then Fields(1, 0, 0)
    else Fields(1, if h.stopOnRead then 3 else 1, SizeCode(h.dataSize))
  }

  function Pack(f: Fields, i: nat): bv64
    requires i < 4
  {
    match i
    case 0 => f.enable | (f.kind << 16) | (f.size << 18)
    case 1 => (f.enable << 2) | (f.kind << 20) | (f.size << 22)
    case 2 => (f.enable << 4) | (f.kind << 24) | (f.size << 26)
    case 3 => (f.enable << 6) | (f.kind << 28) | (f.size << 30)
  }

  // The DR7 bits of slot i for one thread; zero if the slot is not armed for it.
  function SlotDr7(h: HardwareBreakpoint, i: nat, tid: nat): bv64
    requires i < 4 && SlotSizeOk(h)
  {
    Pack(FieldsOf(h, tid), i)
  }

  predicate SizesOk(hw: seq<HardwareBreakpoint>) {
    forall k :: 0 <= k < |hw| ==> SlotSizeOk(hw[k])
  }

  // A value of DR7. (Wrapped to keep bit-level reasoning inside this module.)
  datatype Control = Control(bits: bv64)

  const NOTHING_ARMED := Control(DR7_COMMON)

  function Dr7(hw: seq<HardwareBreakpoint>, tid: nat): Control
    requires |hw| == 4 && SizesOk(hw)
  {
    Control(AllBits(hw, tid))
  }

  // DR7 with the bits of one more slot.
  function OrSlot(dr7: Control, h: HardwareBreakpoint, i: nat, tid: nat): Control
    requires i < 4 && SlotSizeOk(h)
  {
    Control(dr7.bits | SlotDr7(h, i, tid))
  }

  // ---------- Round trip ----------

  // What a slot is meant to trigger on in a given thread.
  function Meaning(h: HardwareBreakpoint, tid: nat): Trigger {
    if !h.active || (h.threadSpecific.Some? && h.threadSpecific != Some(tid)) then Disarmed
    else if h.dataBreakpointId.None? then Execute
    else if h.stopOnRead then ReadWrite(h.dataSize)
    else Write(h.dataSize)
  }

  lemma DecodeFields(h: HardwareBreakpoint, tid: nat)
    requires SlotSizeOk(h)
    ensures Decode(FieldsOf(h, tid)) == Meaning(h, tid)
  {
  }

  function Join(f0: Fields, f1: Fields, f2: Fields, f3: Fields): bv64 {
    DR7_COMMON | Pack(f0, 0) | Pack(f1, 1) | Pack(f2, 2) | Pack(f3, 3)
  }

  lemma Unpack(f0: Fields, f1: Fields, f2: Fields, f3: Fields)
    requires InRange(f0) && InRange(f1) && InRange(f2) && InRange(f3)
    ensures var w := Join(f0, f1, f2, f3);
            FieldsAt(w, 0) == f0 && FieldsAt(w, 1) == f1 && FieldsAt(w, 2) == f2 && FieldsAt(w, 3) == f3
  {
  }

  lemma Dr7IsJoin(hw: seq<HardwareBreakpoint>, tid: nat)
    requires |hw| == 4 && SizesOk(hw)
    ensures Dr7(hw, tid).bits == Join(FieldsOf(hw[0], tid), FieldsOf(hw[1], tid), FieldsOf(hw[2], tid),
        FieldsOf(hw[3], tid))
  {
  }

  // The CPU reads back from DR7 exactly what each slot asks for: none is armed by another's bits.
  lemma Dr7RoundTrip(hw: seq<HardwareBreakpoint>, tid: nat, i: nat)
    requires |hw| == 4 && SizesOk(hw) && i < 4
    ensures ArmedFor(Dr7(hw, tid).bits, i) == Meaning(hw[i], tid)
  {
    Unpack(FieldsOf(hw[0], tid), FieldsOf(hw[1], tid), FieldsOf(hw[2], tid), FieldsOf(hw[3], tid));
    Dr7IsJoin(hw, tid);
    DecodeFields(hw[i], tid);
    hide Join, Decode, FieldsAt, FieldsOf, Meaning, Dr7;
  }

  const ALL_FREE := [FREE_SLOT, FREE_SLOT, FREE_SLOT, FREE_SLOT]

  function AllBits(hw: seq<HardwareBreakpoint>, tid: nat): bv64
    requires |hw| == 4 && SizesOk(hw)
  {
    DR7_COMMON | SlotDr7(hw[0], 0, tid) | SlotDr7(hw[1], 1, tid) | SlotDr7(hw[2], 2, tid) | SlotDr7(hw[3], 3, tid)
  }

  // Or-ing in a slot's bits arms that slot on top of those armed already.
  lemma Dr7OrSlot(hw: seq<HardwareBreakpoint>, tid: nat, i: nat, h: HardwareBreakpoint)
    requires |hw| == 4 && SizesOk(hw) && i < 4 && hw[i] == FREE_SLOT && SlotSizeOk(h)
    ensures SizesOk(hw[i := h]) && Dr7(hw[i := h], tid) == OrSlot(Dr7(hw, tid), h, i, tid)
  {
  }

}
