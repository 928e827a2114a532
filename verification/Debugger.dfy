// The debugger's own state and the methods that change it in place (native ptrace mode).
module DebuggerState {
  import opened Options
  import opened DebuggeeMemory
  import opened BreakpointTable
  import opened StepBreakpoints
  import opened HandleBreakpoints
  import opened DebugRegisters
  import opened BreakpointHistory
  import opened Placement
  import opened DebuggerModel
  import opened DebuggerSession

  class Debugger {
    var breakpointLocations: seq<Location>
    const hardwareBreakpoints: array<HardwareBreakpoint>
    var memory: Memory
    var breakpoints: Pool
    var threads: map<nat, Thread>
    var registers: map<nat, Registers>

    var targetState: ProcessState
    var stepping: Option<StepState>
    var pendingStep: Option<nat>
    var waitingForSymbols: bool
    var stoppingToHandleBreakpoints: bool

    // The debuggee's side, which the debugger never looks at: what its memory would be without a debugger,
    // and the true causes of traps that have happened but have not been reported yet.
    var code: Memory
    var causes: map<nat, Cause>

    // A debugger whose child process has just been started, possibly with a step to be taken first.
    // Breakpoints are carried over from an earlier process, if there was one.
    constructor (tid: nat, pc: nat, m: Memory, initialStep: bool, pool: Pool)
      requires CarriedOver(pool)
      ensures Sound() && PendingOk() && targetState == Starting
      ensures breakpointLocations == [] && memory == code == m && breakpoints == StartingPool(pool)
      ensures threads == map[tid := NewThread(pc)] && causes == map[] &&
          registers == map[]
      ensures stepping.None? && pendingStep == if initialStep then Some(tid) else None
      ensures !waitingForSymbols && !stoppingToHandleBreakpoints
      ensures forall k :: 0 <= k < hardwareBreakpoints.Length ==> hardwareBreakpoints[k] == FREE_SLOT
      ensures fresh(hardwareBreakpoints)
    {
      breakpointLocations := [];
      hardwareBreakpoints := new HardwareBreakpoint[4](i => FREE_SLOT);
      memory, code := m, m;
      breakpoints, registers, causes := StartingPool(pool), map[], map[];
      threads := map[tid := NewThread(pc)];
      targetState, stepping := Starting, None;
      pendingStep := if initialStep then Some(tid) else None;
      waitingForSymbols, stoppingToHandleBreakpoints := false, false;
      new;
      hide Sound;
      StartingPoolOk(pool);
      StartsSound();
    }

    // A debugger that has seized the threads of a running process.
    constructor Attach(pcs: map<nat, nat>, m: Memory)
      requires pcs != map[]
      ensures Sound() && PendingOk() && targetState == ProcessRunning
      ensures breakpointLocations == [] && memory == code == m && breakpoints == DefaultPool()
      ensures threads == (map tid | tid in pcs :: NewThread(pcs[tid])) && causes == map[] && registers == map[]
      ensures stepping.None? && pendingStep.None? && !waitingForSymbols && !stoppingToHandleBreakpoints
      ensures forall k :: 0 <= k < hardwareBreakpoints.Length ==> hardwareBreakpoints[k] == FREE_SLOT
      ensures fresh(hardwareBreakpoints)
    {
      breakpointLocations := [];
      hardwareBreakpoints := new HardwareBreakpoint[4](i => FREE_SLOT);
      memory, code := m, m;
      breakpoints, registers, causes := DefaultPool(), map[], map[];
      threads := map tid | tid in pcs :: NewThread(pcs[tid]);
      targetState, stepping, pendingStep := ProcessRunning, None, None;
      waitingForSymbols, stoppingToHandleBreakpoints := false, false;
      new;
      hide Sound;
      StartingPoolOk(map[]);
      StartsSound();
    }

    lemma StartsSound()
      requires breakpointLocations == [] && hardwareBreakpoints[..] == [FREE_SLOT, FREE_SLOT, FREE_SLOT, FREE_SLOT]
      requires memory == code && registers == map[] && causes == map[] && !stoppingToHandleBreakpoints
      requires OneHidden(breakpoints)
      requires forall id <- breakpoints.Keys :: BreakpointOk(breakpoints[id]) && !breakpoints[id].active
      requires forall tid <- threads.Keys :: threads[tid] == NewThread(threads[tid].pc)
      requires stepping.None? && targetState != Stepping
      ensures Sound()
    {
      hide Good;
      StartIsGood(T(), breakpoints);
      NothingPlaced(breakpoints);
    }

    ghost function T(): Table
      reads this`breakpointLocations, this`memory, hardwareBreakpoints
    {
      Table(breakpointLocations, hardwareBreakpoints[..], memory)
    }

    ghost function S(): State
      reads this`breakpointLocations, this`memory, this`breakpoints, hardwareBreakpoints
    {
      State(T(), breakpoints)
    }

    ghost predicate Valid()
      reads this`breakpointLocations, this`memory, this`breakpoints, this`code, hardwareBreakpoints
    {
      hardwareBreakpoints.Length == 4 && Good(S(), code) && UpToDate(breakpointLocations, code)
    }

    function StepTid(): Option<nat>
      reads this`stepping
    {
      if stepping.Some? then Some(stepping.value.tid) else None
    }

    // ---------- The table ----------

    method AddBreakpointLocation(ref: BreakpointRef, addr: nat)
      modifies this`breakpointLocations
      ensures T() == AddLocation(old(T()), ref, addr)
    {
      var idx := LowerBound(breakpointLocations, addr);
      if idx < |breakpointLocations| && breakpointLocations[idx].addr == addr {
        var l := breakpointLocations[idx];
        breakpointLocations := breakpointLocations[idx := l.(breakpoints := l.breakpoints + [ref])];
      } else {
        var originalByte := if addr in memory then memory[addr] else 0;
        var l := Location(addr, originalByte, false, false, [ref], None, false);
        breakpointLocations := breakpointLocations[..idx] + [l] + breakpointLocations[idx..];
      }
    }

    // PTRACE_POKETEXT writes whole words: changes one byte by reading, masking and writing its word.
    method PokeByte(addr: nat, byte: bv8)
      requires WordMapped(memory, WordBase(addr))
      modifies this`memory
      ensures addr in old(memory) && memory == old(memory)[addr := byte]
    {
      var byteIdx := addr % 8;
      var word := ReadBytes(memory, addr - byteIdx, 8);
      PatchByteIsUpdate(memory, addr, byte);
      memory := PokeWord(memory, addr - byteIdx, Splice(word, BitIdx(byteIdx), byte as bv64));
    }

    method ActivateBreakpointLocation(idx: nat) returns (r: Option<Error>)
      requires idx < |breakpointLocations|
      modifies this`breakpointLocations, this`memory, hardwareBreakpoints
      ensures (T(), r) == Activate(old(T()), idx, StepTid())
    {
      var l := breakpointLocations[idx];
      if l.active {
        return None;
      }
      if l.hardware {
        var k := 0;
        while k < hardwareBreakpoints.Length && hardwareBreakpoints[k].active
          invariant k <= hardwareBreakpoints.Length
          invariant forall m :: 0 <= m < k ==> hardwareBreakpoints[m].active
        {
          k := k + 1;
        }
        FirstFreeIs(hardwareBreakpoints[..], k);
        if k == hardwareBreakpoints.Length {
          return Some(OutOfHardwareBreakpoints);
        }
        var threadSpecific := if exists b <- l.breakpoints :: b.Id? then None else StepTid();
        hardwareBreakpoints[k] := HardwareBreakpoint(true, threadSpecific, l.addr, None, false, 0, false);
      } else {
        if !WordMapped(memory, WordBase(l.addr)) {
          return Some(Unreadable);
        }
        l := l.(originalByte := memory[l.addr]);
        PokeByte(l.addr, INT3);
      }
      breakpointLocations := breakpointLocations[idx := l.(active := true)];
      return None;
    }

    method DeactivateBreakpointLocation(idx: nat)
      requires idx < |breakpointLocations| && CanDeactivate(T(), idx)
      modifies this`breakpointLocations, this`memory, hardwareBreakpoints
      ensures T() == Deactivate(old(T()), idx)
    {
      var l := breakpointLocations[idx];
      if !l.active {
        return;
      }
      if l.hardware {
        var k := 0;
        while k < hardwareBreakpoints.Length
          invariant k <= hardwareBreakpoints.Length
          invariant forall m :: 0 <= m < k ==>
              hardwareBreakpoints[m] == ClearSlots(old(hardwareBreakpoints[..]), l.addr)[m]
          invariant forall m :: k <= m < hardwareBreakpoints.Length ==>
              hardwareBreakpoints[m] == old(hardwareBreakpoints[m])
          modifies hardwareBreakpoints
        {
          if hardwareBreakpoints[k].active && hardwareBreakpoints[k].addr == l.addr {
            hardwareBreakpoints[k] := FREE_SLOT;
          }
          k := k + 1;
        }
        assert hardwareBreakpoints[..] == ClearSlots(old(hardwareBreakpoints[..]), l.addr);
      } else {
        PokeByte(l.addr, l.originalByte);
      }
      breakpointLocations := breakpointLocations[idx := l.(active := false)];
    }

    method DeactivateBreakpoint(id: nat)
      requires id in breakpoints
      modifies this`breakpointLocations, this`breakpoints, hardwareBreakpoints
      ensures S() == BreakpointHistory.DeactivateBreakpoint(old(S()), id)
    {
      var wasActive := breakpoints[id].active;
      breakpoints := breakpoints[id := breakpoints[id].(active := false)];
      if !wasActive {
        assert breakpoints == old(breakpoints);
        return;
      }
      RetainReferences(RefersTo(id));
      var k := 0;
      while k < hardwareBreakpoints.Length
        invariant k <= hardwareBreakpoints.Length
        invariant forall m :: 0 <= m < k ==> hardwareBreakpoints[m] == ReleaseWatch(old(hardwareBreakpoints[..]), id)[m]
        invariant forall m :: k <= m < hardwareBreakpoints.Length ==>
            hardwareBreakpoints[m] == old(hardwareBreakpoints[m])
        modifies hardwareBreakpoints
      {
        if hardwareBreakpoints[k].active && hardwareBreakpoints[k].dataBreakpointId == Some(id) {
          hardwareBreakpoints[k] := FREE_SLOT;
        }
        k := k + 1;
      }
      assert hardwareBreakpoints[..] == ReleaseWatch(old(hardwareBreakpoints[..]), id);
    }

    // Drops references from every location; the locations stay.
    method RetainReferences(drop: BreakpointRef -> bool)
      modifies this`breakpointLocations
      ensures breakpointLocations == DropRefs(old(breakpointLocations), drop)
    {
      var i := 0;
      while i < |breakpointLocations|
        invariant i <= |breakpointLocations| == |old(breakpointLocations)|
        invariant forall j :: 0 <= j < i ==> breakpointLocations[j] == DropRefs(old(breakpointLocations), drop)[j]
        invariant forall j :: i <= j < |breakpointLocations| ==> breakpointLocations[j] == old(breakpointLocations)[j]
      {
        var refs := breakpointLocations[i].breakpoints;
        var kept := [];
        var j := 0;
        while j < |refs|
          invariant j <= |refs| && kept == Retained(refs[..j], drop)
        {
          assert refs[..j + 1][..j] == refs[..j];
          if !drop(refs[j]) {
            kept := kept + [refs[j]];
          }
          j := j + 1;
        }
        assert refs[..j] == refs;
        breakpointLocations := breakpointLocations[i := breakpointLocations[i].(breakpoints := kept)];
        i := i + 1;
      }
    }

    // Activates the given breakpoint; resolved are its code addresses if they are known by now.
    method ActivateBreakpoint(id: nat, resolved: Option<seq<(nat, nat)>>)
      requires id in breakpoints
      modifies this`breakpointLocations, this`breakpoints, hardwareBreakpoints
      ensures S() == BreakpointHistory.ActivateBreakpoint(old(S()), id, resolved)
    {
      var b := breakpoints[id];
      if !b.enabled || b.active {
        return;
      }
      if b.on.OnData? {
        var k := 0;
        while k < hardwareBreakpoints.Length && hardwareBreakpoints[k].active
          invariant k <= hardwareBreakpoints.Length
          invariant forall m :: 0 <= m < k ==> hardwareBreakpoints[m].active
        {
          k := k + 1;
        }
        FirstFreeIs(hardwareBreakpoints[..], k);
        if k < hardwareBreakpoints.Length {
          hardwareBreakpoints[k] := WatchSlot(id, b.on.watch);
          breakpoints := breakpoints[id := b.(active := true, addrs := None)];
        } else {
          breakpoints := breakpoints[id := b.(enabled := false, addrs := None)];
        }
      } else {
        var addrs := if b.addrs.Some? then b.addrs else resolved;
        if addrs.Some? {
          breakpoints := breakpoints[id := b.(active := true, addrs := addrs)];
          var i := 0;
          while i < |addrs.value|
            invariant i <= |addrs.value|
            invariant T() == AddLocations(old(T()), id, addrs.value[..i])
            modifies this`breakpointLocations
          {
            assert addrs.value[..i + 1][..i] == addrs.value[..i];
            AddBreakpointLocation(Id(id, addrs.value[i].1), addrs.value[i].0);
            i := i + 1;
          }
          assert addrs.value[..i] == addrs.value;
        }
      }
    }

    // ---------- Debug registers ----------

    function RegistersOf(tid: nat): Registers
      reads this`registers
    {
      if tid in registers then registers[tid] else Registers([0, 0, 0, 0], Control(0), false, 0)
    }

    function FailedWrites(tid: nat): nat
      reads this`registers
    {
      RegistersOf(tid).failedWrites
    }

    // PTRACE_POKEUSER of DR7: any outcome is possible.
    method PokeDr7(tid: nat, dr7: Control) returns (o: PokeResult)
      modifies this`registers
      ensures var r := old(RegistersOf(tid));
              registers == old(registers)[tid := if o == Poked then r.(dr7 := dr7) else OneMoreFailed(r)]
      ensures registers - {tid} == old(registers) - {tid}
    {
      o := *;
      var r := RegistersOf(tid);
      registers := registers[tid := if o == Poked then r.(dr7 := dr7) else OneMoreFailed(r)];
    }

    // PTRACE_POKEUSER of DR0 to DR3.
    method PokeAddr(tid: nat, i: nat, addr: nat) returns (o: PokeResult)
      requires i < |RegistersOf(tid).addrs|
      modifies this`registers
      ensures var r := old(RegistersOf(tid));
              registers == old(registers)[tid :=
                if o == Poked then r.(addrs := r.addrs[i := addr]) else OneMoreFailed(r)]
      ensures registers - {tid} == old(registers) - {tid}
    {
      o := *;
      var r := RegistersOf(tid);
      registers := registers[tid := if o == Poked then r.(addrs := r.addrs[i := addr]) else OneMoreFailed(r)];
    }

    // Deactivates whatever owns slot k, remembering the error. The lookup never fails.
    method RejectSlot(k: nat)
      requires Valid() && k < hardwareBreakpoints.Length && hardwareBreakpoints[k].active
      modifies this`breakpointLocations, this`memory, this`breakpoints, hardwareBreakpoints
      ensures Deactivatable(old(T())) && S() == Reject(old(S()), k)
      ensures Valid() && !hardwareBreakpoints[k].active
    {
      hide Inv, DataOk, Deactivatable, UpToDate;
      RejectKeeps(S(), code, k);
      RejectShape(S(), code, k);
      FailedUpToDate(breakpointLocations, Reject(S(), k).table.locations, code);
      var h := hardwareBreakpoints[k];
      if h.dataBreakpointId.Some? {
        DataSlotOwner(S(), code, k);
        DeactivateBreakpoint(h.dataBreakpointId.value);
      } else {
        SlotLocation(T(), code, k);
        RejectLocation(k);
      }
    }

    method RejectLocation(k: nat)
      requires k < hardwareBreakpoints.Length && Deactivatable(T())
      requires hardwareBreakpoints[k].active && hardwareBreakpoints[k].dataBreakpointId.None?
      requires var i := LowerBound(breakpointLocations, hardwareBreakpoints[k].addr);
               i < |breakpointLocations| && breakpointLocations[i].hardware
      modifies this`breakpointLocations, this`memory, hardwareBreakpoints
      ensures S() == Reject(old(S()), k)
    {
      var i := LowerBound(breakpointLocations, hardwareBreakpoints[k].addr);
      DeactivateBreakpointLocation(i);
      breakpointLocations := breakpointLocations[i := breakpointLocations[i].(error := Some(InvalidInput),
          noRetry := true)];
    }

    ghost predicate AddrsSet(tid: nat)
      reads this`registers, hardwareBreakpoints
    {
      HasAddrs(RegistersOf(tid), hardwareBreakpoints[..], tid)
    }

    ghost predicate RegistersShaped()
      reads this`registers
    {
      forall tid :: tid in registers ==> |registers[tid].addrs| == 4
    }

    // Every slot that has been pushed is armed in every thread that has been programmed.
    ghost predicate RegistersValid()
      reads this`registers, hardwareBreakpoints
    {
      RegistersShaped() && AllArmed(registers, hardwareBreakpoints[..])
    }

    // Writes DR0 to DR3 and computes the DR7 that arms them.
    method SetAddresses(tid: nat) returns (o: PokeResult, dr7: Control, ghost acc: seq<HardwareBreakpoint>)
      requires Valid() && RegistersShaped()
      modifies this`registers
      ensures RegistersShaped() && RegistersOf(tid).dr7 == old(RegistersOf(tid).dr7)
      ensures registers - {tid} == old(registers) - {tid}
      ensures o == Poked ==> AddrsSet(tid) && Collected(acc, dr7, hardwareBreakpoints[..], 4, tid, true)
      ensures o == Poked <==> FailedWrites(tid) == old(FailedWrites(tid))
      ensures FailedWrites(tid) >= old(FailedWrites(tid))
    {
      hide Inv, DataOk, Dr7, OrSlot, Collected;
      dr7 := NOTHING_ARMED;
      acc := ALL_FREE;
      ghost var hw := hardwareBreakpoints[..];
      DataOkSizes(breakpoints, hw);
      CollectNothing(hw, tid);
      var i := 0;
      while i < 4
        invariant i <= 4 && hardwareBreakpoints[..] == hw && SizesOk(hw)
        invariant Collected(acc, dr7, hw, i, tid, true)
        invariant RegistersShaped() && RegistersOf(tid).dr7 == old(RegistersOf(tid).dr7)
        invariant registers - {tid} == old(registers) - {tid}
        invariant forall k :: 0 <= k < i && Applies(hw[k], tid) ==> RegistersOf(tid).addrs[k] == hw[k].addr
        invariant FailedWrites(tid) == old(FailedWrites(tid))
      {
        var h := hardwareBreakpoints[i];
        assert h == hw[i];
        if Applies(h, tid) {
          o := PokeAddr(tid, i, h.addr);
          if o != Poked {
            return;
          }
          acc := CollectAccept(acc, dr7, hw, i, tid, true);
          dr7 := OrSlot(dr7, h, i, tid);
        } else {
          CollectSkip(acc, dr7, hw, i, tid, true);
        }
        i := i + 1;
      }
      o := Poked;
    }

    // Arms slot i alone, unless that is what was refused already. The slot's own refusal, or that of DR7 as a whole,
    // is the error to report for it.
    method TrySlot(tid: nat, single: Control, dr7: Control, error: Option<Error>)
      returns (o: PokeResult, accepted: bool, error': Option<Error>)
      requires RegistersShaped() && (single == dr7 ==> error.Some?)
      modifies this`registers
      ensures RegistersShaped() && RegistersOf(tid).addrs == old(RegistersOf(tid).addrs)
      ensures RegistersOf(tid).dr7 == if accepted then single else old(RegistersOf(tid).dr7)
      ensures registers - {tid} == old(registers) - {tid}
      ensures accepted ==> o == Poked && error' == error
      ensures !accepted ==> o != Poked && (o == Rejected ==> error'.Some?)
      ensures FailedWrites(tid) == old(FailedWrites(tid)) + if accepted || single == dr7 then 0 else 1
      ensures single == dr7 ==> o == Rejected
    {
      if single == dr7 {
        return Rejected, false, error;
      }
      o := PokeDr7(tid, single);
      accepted := o == Poked;
      error' := if o == Rejected then Some(InvalidInput) else error;
    }

    // What rejecting slots may have changed since an earlier state.
    ghost predicate OnlyRejectedSince(s: State, owned: bool)
      reads this`breakpointLocations, this`memory, this`breakpoints, hardwareBreakpoints
    {
      OnlyRejected(s, S()) && (owned ==> OwnedAndExclusive())
    }

    // Tries the slots one at a time after DR7 was refused, and rejects those refused on their own. The result arms
    // the slots that are left; at most slots freed at a shared address stay armed.
    method TryOneByOne(tid: nat, dr7: Control, ghost head: seq<HardwareBreakpoint>, ghost s0: State, ghost exact: bool)
      returns (o: PokeResult, newDr7: Control, lastWritten: Option<Control>, ghost acc: seq<HardwareBreakpoint>)
      requires Valid() && RegistersShaped() && OnlyRejectedSince(s0, exact)
      requires Collected(head, dr7, hardwareBreakpoints[..], 4, tid, exact)
      modifies this`breakpointLocations, this`memory, this`breakpoints, this`registers, hardwareBreakpoints
      ensures Valid() && RegistersShaped()
      ensures OnlyRejectedSince(s0, exact)
      ensures RegistersOf(tid).addrs == old(RegistersOf(tid).addrs)
      ensures RegistersOf(tid).dr7 == if lastWritten.Some? then lastWritten.value else old(RegistersOf(tid).dr7)
      ensures registers - {tid} == old(registers) - {tid}
      ensures o == Poked ==> Collected(acc, newDr7, hardwareBreakpoints[..], 4, tid, exact)
      ensures o != Rejected && FailedWrites(tid) >= old(FailedWrites(tid))
      ensures o != Poked ==> FailedWrites(tid) > old(FailedWrites(tid))
    {
      hide Good, UpToDate, RegistersShaped, Dr7, OrSlot, OwnedAndExclusive, Collected, OnlyRejectedSince, Applies;
      newDr7, lastWritten, acc := NOTHING_ARMED, None, ALL_FREE;
      CollectNothing(hardwareBreakpoints[..], tid);
      CollectedInexact(acc, newDr7, hardwareBreakpoints[..], 0, tid, exact);
      CollectedLoosely(head, dr7, hardwareBreakpoints[..], tid, exact);
      var error := Some(InvalidInput);
      var i := 0;
      while i < 4
        invariant i <= 4 && Valid() && RegistersShaped()
        invariant OnlyRejectedSince(s0, exact)
        invariant RegistersOf(tid).addrs == old(RegistersOf(tid).addrs)
        invariant RegistersOf(tid).dr7 == if lastWritten.Some? then lastWritten.value else old(RegistersOf(tid).dr7)
        invariant registers - {tid} == old(registers) - {tid}
        invariant Collected(acc, newDr7, hardwareBreakpoints[..], i, tid, exact)
        invariant Collected(head, dr7, hardwareBreakpoints[..], 4, tid, false)
        invariant error.None? ==> AppliesBefore(head, i, tid)
        invariant FailedWrites(tid) >= old(FailedWrites(tid))
      {
        if Applies(hardwareBreakpoints[i], tid) {
          var written: Option<Control>;
          o, newDr7, error, written, acc := TryOne(tid, i, dr7, head, error, newDr7, acc, s0, exact);
          lastWritten := if written.Some? then written else lastWritten;
          if o != Poked {
            return;
          }
        } else {
          CollectSkip(acc, newDr7, hardwareBreakpoints[..], i, tid, exact);
        }
        i := i + 1;
      }
      o := Poked;
    }

    // One slot of TryOneByOne; succeeds also if the slot was rejected.
    method TryOne(tid: nat, i: nat, dr7: Control, ghost head: seq<HardwareBreakpoint>, error: Option<Error>,
                  newDr7: Control, ghost acc: seq<HardwareBreakpoint>, ghost s0: State, ghost exact: bool)
      returns (o: PokeResult, newDr7': Control, error': Option<Error>, written: Option<Control>,
          ghost acc': seq<HardwareBreakpoint>)
      requires Valid() && RegistersShaped() && OnlyRejectedSince(s0, exact)
      requires i < 4 && Applies(hardwareBreakpoints[i], tid) && |head| == 4
      requires Collected(acc, newDr7, hardwareBreakpoints[..], i, tid, exact)
      requires Collected(head, dr7, hardwareBreakpoints[..], 4, tid, false)
      requires error.None? ==> AppliesBefore(head, i, tid)
      modifies this`breakpointLocations, this`memory, this`breakpoints, this`registers, hardwareBreakpoints
      ensures Valid() && RegistersShaped() && OnlyRejectedSince(s0, exact)
      ensures RegistersOf(tid).addrs == old(RegistersOf(tid).addrs)
      ensures RegistersOf(tid).dr7 == if written.Some? then written.value else old(RegistersOf(tid).dr7)
      ensures registers - {tid} == old(registers) - {tid}
      ensures o == Poked ==> Collected(acc', newDr7', hardwareBreakpoints[..], i + 1, tid, exact)
      ensures o == Poked ==> Collected(head, dr7, hardwareBreakpoints[..], 4, tid, false)
      ensures o == Poked && error'.None? ==> AppliesBefore(head, i + 1, tid)
      ensures o != Rejected && FailedWrites(tid) >= old(FailedWrites(tid))
      ensures o != Poked ==> FailedWrites(tid) > old(FailedWrites(tid))
      ensures FailedWrites(tid) > old(FailedWrites(tid)) || (S() == old(S()) && written.Some?) ||
              IsSlotAlone(dr7, old(hardwareBreakpoints[i]), i, tid)
    {
      hide Collected, AppliesBefore, OwnedAndExclusive, OnlyRejectedSince, Good, Dr7, OrSlot;
      ghost var hw := hardwareBreakpoints[..];
      AppliesBeforeNext(head, dr7, hw, i, tid);
      o, newDr7', error', written, acc' := ProbeSlot(tid, i, dr7, head, error, newDr7, acc, exact);
      if o == Rejected {
        assert error'.Some?;
        RejectOne(i, dr7, head, newDr7, acc, tid, s0, exact);
        o, error', newDr7', acc' := Poked, None, newDr7, acc;
      }
    }

    // Tries slot i on its own and, if it is accepted, adds it to the new DR7.
    method ProbeSlot(tid: nat, i: nat, dr7: Control, ghost head: seq<HardwareBreakpoint>, error: Option<Error>,
                     newDr7: Control, ghost acc: seq<HardwareBreakpoint>, ghost exact: bool)
      returns (o: PokeResult, newDr7': Control, error': Option<Error>, written: Option<Control>,
          ghost acc': seq<HardwareBreakpoint>)
      requires Valid() && RegistersShaped()
      requires i < 4 && Applies(hardwareBreakpoints[i], tid)
      requires Collected(acc, newDr7, hardwareBreakpoints[..], i, tid, exact)
      requires Collected(head, dr7, hardwareBreakpoints[..], 4, tid, false)
      requires error.None? ==> AppliesBefore(head, i, tid)
      modifies this`registers
      ensures RegistersShaped() && RegistersOf(tid).addrs == old(RegistersOf(tid).addrs)
      ensures RegistersOf(tid).dr7 == if written.Some? then written.value else old(RegistersOf(tid).dr7)
      ensures registers - {tid} == old(registers) - {tid}
      ensures o == Poked ==> error' == error && Collected(acc', newDr7', hardwareBreakpoints[..], i + 1, tid, exact)
      ensures o == Rejected ==> error'.Some? && written.None?
      ensures FailedWrites(tid) >= old(FailedWrites(tid))
      ensures o == Poked ==> written.Some?
      ensures o == Poked || FailedWrites(tid) > old(FailedWrites(tid)) ||
              (o == Rejected && IsSlotAlone(dr7, hardwareBreakpoints[i], i, tid))
    {
      hide Good, UpToDate, Dr7, OrSlot, Collected, AppliesBefore, SlotSizeOk;
      ghost var hw := hardwareBreakpoints[..];
      var h := hardwareBreakpoints[i];
      assert h == hw[i];
      SlotIsValid(S(), code, i, head, dr7, tid);
      newDr7', written, acc' := newDr7, None, acc;
      var single := OrSlot(NOTHING_ARMED, h, i, tid);
      if error.None? {
        OnlyOneCollected(head, dr7, hw, tid, i);
      }
      var accepted: bool;
      o, accepted, error' := TrySlot(tid, single, dr7, error);
      if accepted {
        acc' := CollectAccept(acc, newDr7, hw, i, tid, exact);
        written := Some(single);
        newDr7' := OrSlot(newDr7, h, i, tid);
      }
    }

    method RejectOne(i: nat, ghost dr7: Control, ghost head: seq<HardwareBreakpoint>, ghost newDr7: Control,
                     ghost acc: seq<HardwareBreakpoint>, ghost tid: nat, ghost s0: State, ghost exact: bool)
      requires Valid() && OnlyRejectedSince(s0, exact)
      requires i < 4 && Applies(hardwareBreakpoints[i], tid)
      requires Collected(acc, newDr7, hardwareBreakpoints[..], i, tid, exact)
      requires Collected(head, dr7, hardwareBreakpoints[..], 4, tid, false)
      modifies this`breakpointLocations, this`memory, this`breakpoints, hardwareBreakpoints
      ensures Valid() && OnlyRejectedSince(s0, exact)
      ensures Collected(acc, newDr7, hardwareBreakpoints[..], i + 1, tid, exact)
      ensures Collected(head, dr7, hardwareBreakpoints[..], 4, tid, false)
    {
      ghost var hw := hardwareBreakpoints[..];
      hide Dr7, OwnedAndExclusive, Collected, OnlyRejectedSince;
      RejectSlotKeepingTrack(i, s0, exact);
      CollectReject(acc, newDr7, hw, hardwareBreakpoints[..], i, tid, exact);
      CollectedStays(head, dr7, hw, hardwareBreakpoints[..], tid);
    }

    method RejectSlotKeepingTrack(k: nat, ghost s0: State, ghost exact: bool)
      requires Valid() && k < 4 && hardwareBreakpoints[k].active && OnlyRejectedSince(s0, exact)
      modifies this`breakpointLocations, this`memory, this`breakpoints, hardwareBreakpoints
      ensures Valid() && !hardwareBreakpoints[k].active && OnlyRejectedSince(s0, exact)
      ensures SlotsOnlyFreed(old(hardwareBreakpoints[..]), hardwareBreakpoints[..])
      ensures exact ==> hardwareBreakpoints[..] == old(hardwareBreakpoints[..])[k := hardwareBreakpoints[k]]
    {
      ghost var s1 := S();
      RejectShape(s1, code, k);
      RejectKeeps(s1, code, k);
      RejectPool(s1, code, k);
      hide Good, UpToDate, Deactivatable, Reject, Exclusive, DataOwned, SomeFailed, PoolStays;
      RejectSlot(k);
      OnlyRejectedTrans(s0, s1, S());
    }

    ghost predicate ThreadArmed(tid: nat, exact: bool)
      reads this`registers, hardwareBreakpoints
    {
      Arms(RegistersOf(tid), hardwareBreakpoints[..], tid, exact)
    }

    // Writes DR7 until the kernel takes it, rejecting slots as needed. DR7 holds lastWritten at first.
    method WriteDr7(tid: nat, dr7': Control, lastWritten': Control, ghost acc': seq<HardwareBreakpoint>,
                    ghost hw0: seq<HardwareBreakpoint>, ghost exact: bool)
      returns (o: PokeResult, ghost attempts: nat)
      requires Valid() && RegistersShaped() && hw0 == hardwareBreakpoints[..]
      requires (exact ==> OwnedAndExclusive()) && AddrsSet(tid) && RegistersOf(tid).dr7 == lastWritten'
      requires Collected(acc', dr7', hw0, 4, tid, exact)
      modifies this`breakpointLocations, this`memory, this`breakpoints, this`registers, hardwareBreakpoints
      ensures Valid() && RegistersShaped()
      ensures OnlyRejectedSince(old(S()), exact)
      ensures registers - {tid} == old(registers) - {tid}
      ensures o == Poked ==> ThreadArmed(tid, exact)
      ensures 1 <= attempts <= 6 && (o == Rejected ==> FailedWrites(tid) >= old(FailedWrites(tid)) + 6)
      ensures o != Poked ==> FailedWrites(tid) > old(FailedWrites(tid))
      ensures WentThrough(old(FailedWrites(tid)), FailedWrites(tid), old(S()), S())
    {
      ghost var s0, addrs := S(), RegistersOf(tid).addrs;
      OnlyRejectedRefl(s0);
      var dr7, lastWritten := dr7', lastWritten';
      ghost var acc := acc';
      hide Good, UpToDate, Dr7, OwnedAndExclusive, Collected, ArmedFor, SomeFailed, SlotsOnlyFreed, PoolStays;
      var tries := 0;
      attempts := 0;
      while true
        invariant Valid() && RegistersShaped() && attempts == tries < 6
        invariant FailedWrites(tid) >= old(FailedWrites(tid)) + tries && (tries == 0 ==> S() == s0)
        invariant OnlyRejectedSince(s0, exact)
        invariant RegistersOf(tid).addrs == addrs && RegistersOf(tid).dr7 == lastWritten
        invariant registers - {tid} == old(registers) - {tid}
        invariant Collected(acc, dr7, hardwareBreakpoints[..], 4, tid, exact)
        decreases 6 - tries
      {
        tries := tries + 1;
        attempts := tries;
        o := Poked;
        if dr7 != lastWritten {
          o := PokeDr7(tid, dr7);
        }
        if o == Poked {
          CollectedArms(acc, dr7, hardwareBreakpoints[..], tid, exact);
          FreedAddrs(addrs, hw0, hardwareBreakpoints[..], tid);
          return;
        }
        if o != Rejected || tries == 6 {
          return;
        }
        var written: Option<Control>;
        o, dr7, written, acc := TryOneByOne(tid, dr7, acc, s0, exact);
        if o != Poked {
          return;
        }
        lastWritten := if written.Some? then written.value else lastWritten;
      }
    }

    // Writes all debug registers of a thread.
    method WriteRegisters(tid: nat, ghost exact: bool) returns (o: PokeResult)
      requires Valid() && RegistersShaped() && (exact ==> OwnedAndExclusive())
      modifies this`breakpointLocations, this`memory, this`breakpoints, this`registers, hardwareBreakpoints
      ensures Valid() && RegistersShaped()
      ensures OnlyRejectedSince(old(S()), exact)
      ensures registers - {tid} == old(registers) - {tid}
      ensures o == Poked ==> ThreadArmed(tid, exact)
      ensures o != Poked ==> FailedWrites(tid) > old(FailedWrites(tid))
      ensures WentThrough(old(FailedWrites(tid)), FailedWrites(tid), old(S()), S())
    {
      OnlyRejectedRefl(S());
      hide Good, UpToDate, Dr7, OwnedAndExclusive, Collected, ArmedFor, SomeFailed, SlotsOnlyFreed, PoolStays;
      // Disarm everything while the addresses change.
      o := PokeDr7(tid, NOTHING_ARMED);
      if o != Poked {
        return;
      }
      var dr7: Control;
      ghost var acc: seq<HardwareBreakpoint>;
      o, dr7, acc := SetAddresses(tid);
      if o != Poked {
        return;
      }
      CollectedInexact(acc, dr7, hardwareBreakpoints[..], 4, tid, exact);
      ghost var attempts;
      o, attempts := WriteDr7(tid, dr7, NOTHING_ARMED, acc, hardwareBreakpoints[..], exact);
    }

    // set_debug_registers_for_thread. Slots that the kernel refuses are deactivated with an error.
    method SetDebugRegistersForThread(tid: nat, ghost exact: bool) returns (o: PokeResult)
      requires Valid() && RegistersValid() && (exact ==> OwnedAndExclusive())
      modifies this`breakpointLocations, this`memory, this`breakpoints, this`registers, hardwareBreakpoints
      ensures Valid() && RegistersValid()
      ensures OnlyRejectedSince(old(S()), exact)
      ensures registers - {tid} == old(registers) - {tid} && tid in registers
      ensures registers[tid].programmed <==> o == Poked
      ensures o == Poked ==> ThreadArmed(tid, exact)
      ensures o != Poked ==> FailedWrites(tid) > old(FailedWrites(tid))
      ensures WentThrough(old(FailedWrites(tid)), FailedWrites(tid), old(S()), S())
    {
      hide Good, UpToDate, OwnedAndExclusive, Arms, ArmsPushed, SomeFailed, SlotsOnlyFreed, PoolStays;
      ghost var hw0, registers0 := hardwareBreakpoints[..], registers;
      o := WriteRegisters(tid, exact);
      if o == Poked {
        ProgrammedArms(RegistersOf(tid), hardwareBreakpoints[..], tid, exact, true);
      }
      registers := registers[tid := RegistersOf(tid).(programmed := o == Poked)];
      FreedIsRenewed(hw0, hardwareBreakpoints[..]);
      OneProgrammed(registers0, registers, tid, hw0, hardwareBreakpoints[..], exact);
    }

    // ---------- handle_breakpoints ----------

    // Deactivates and removes locations without references, compacting the list in place.
    method CompactLocations()
      requires Valid()
      modifies this`breakpointLocations, this`memory, hardwareBreakpoints
      ensures Deactivatable(old(T())) && T() == Compact(old(T()))
    {
      hide Inv, DataOk, CleanUpTo, Kept, CanDeactivate;
      ghost var t0 := T();
      InvDeactivatable(t0, code);
      var res, idx := 0, 0;
      assert T() == CleanUpTo(t0, 0) && Kept(t0.locations[..0]) == [] by { CleanUpToNothing(t0); }
      while idx < |breakpointLocations|
        invariant res <= idx <= |breakpointLocations| == |t0.locations|
        invariant breakpointLocations[..res] == Kept(CleanUpTo(t0, idx).locations[..idx])
        invariant breakpointLocations[idx..] == t0.locations[idx..]
        invariant memory == CleanUpTo(t0, idx).memory && hardwareBreakpoints[..] == CleanUpTo(t0, idx).hardware
      {
        ghost var u, before := CleanUpTo(t0, idx), breakpointLocations;
        CleanUpToNext(t0, idx);
        assert before[idx] == t0.locations[idx];
        KeptNext(u, CleanUpTo(t0, idx + 1), idx);
        if breakpointLocations[idx].breakpoints == [] {
          CanDeactivateSame(T(), u, idx);
          DeactivateBreakpointLocation(idx);
          OneChanged(before, breakpointLocations, res, idx);
        } else {
          breakpointLocations := breakpointLocations[res := breakpointLocations[idx]][idx := breakpointLocations[res]];
          Swapped(before, breakpointLocations, res, idx);
          res := res + 1;
        }
        idx := idx + 1;
      }
      breakpointLocations := breakpointLocations[..res];
      assert CleanUpTo(t0, idx).locations[..idx] == CleanUpTo(t0, idx).locations;
    }

    // Makes each location hardware if a thread stands on it and software otherwise.
    method ConvertLocations(pcs: set<nat>)
      requires Valid() && pcs == KnownPcs(threads)
      modifies this`breakpointLocations, this`memory, this`threads, hardwareBreakpoints
      ensures Deactivatable(old(T())) && T() == ConvertUpTo(old(T()), |old(breakpointLocations)|, pcs)
      ensures threads == MarkUpTo(old(threads), old(breakpointLocations), |old(breakpointLocations)|)
    {
      hide Inv, DataOk, Deactivatable, ConvertAt, KnownPcs, MarkAt, MarkUpTo;
      ghost var t0, threads0 := T(), threads;
      InvDeactivatable(t0, code);
      var idx := 0;
      MarkNothing(threads, breakpointLocations);
      while idx < |breakpointLocations|
        invariant idx <= |breakpointLocations| == |t0.locations|
        invariant T() == ConvertUpTo(t0, idx, pcs) && Deactivatable(T())
        invariant threads == MarkUpTo(threads0, t0.locations, idx)
      {
        ConvertUpToRest(t0, idx, pcs);
        ConvertLocation(idx, pcs);
        MarkNext(threads0, t0.locations, idx, pcs);
        idx := idx + 1;
      }
    }

    method ConvertLocation(idx: nat, pcs: set<nat>)
      requires Deactivatable(T()) && idx < |breakpointLocations|
      modifies this`breakpointLocations, this`memory, this`threads, hardwareBreakpoints
      ensures T() == ConvertAt(old(T()), idx, pcs)
      ensures threads == MarkAt(old(threads), old(breakpointLocations)[idx], pcs)
    {
      ghost var t := T();
      CanDeactivateAt(t, idx);
      DeactivateDeactivatable(t, idx);
      hide Deactivatable;
      var l := breakpointLocations[idx];
      if l.hardware {
        if l.addr !in pcs {
          DeactivateBreakpointLocation(idx);
          breakpointLocations := breakpointLocations[idx := breakpointLocations[idx].(hardware := false)];
        }
      } else if l.addr in pcs {
        DeactivateBreakpointLocation(idx);
        breakpointLocations := breakpointLocations[idx := breakpointLocations[idx].(hardware := true)];
        // The thread may hit the hardware breakpoint right where it stands; that hit is not news.
        threads := MarkAt(threads, l, pcs);
      }
    }

    // Activates every location that may be retried, recording each outcome.
    method ArmLocations()
      requires Valid()
      modifies this`breakpointLocations, this`memory, hardwareBreakpoints
      ensures T() == ArmUpTo(old(T()), |old(breakpointLocations)|, StepTid())
    {
      ghost var t0 := T();
      var idx := 0;
      while idx < |breakpointLocations|
        invariant idx <= |breakpointLocations| == |t0.locations|
        invariant T() == ArmUpTo(t0, idx, StepTid())
      {
        if !breakpointLocations[idx].noRetry {
          var e := ActivateBreakpointLocation(idx);
          breakpointLocations := breakpointLocations[idx := breakpointLocations[idx].(error := e)];
        }
        idx := idx + 1;
      }
    }

    // The thread has been programmed as far as it could be: all slots are armed, unless writing failed.
    ghost predicate Attempted(tid: nat)
      reads this`registers, hardwareBreakpoints
    {
      SetOrFailed(registers, tid) && (registers[tid].programmed ==> ThreadArmed(tid, false))
    }

    ghost predicate SlotsPushed()
      reads hardwareBreakpoints
    {
      forall k :: 0 <= k < hardwareBreakpoints.Length && hardwareBreakpoints[k].active ==>
        hardwareBreakpoints[k].pushedToThreads
    }

    // Programs every live thread, then marks all slots as pushed. Fails if writing fails for another reason than that
    // a thread is gone.
    method PushDebugRegisters(tids: set<nat>, ghost exact: bool) returns (ok: bool)
      requires Valid() && RegistersValid() && (exact ==> OwnedAndExclusive())
      modifies this`breakpointLocations, this`memory, this`breakpoints, this`registers, hardwareBreakpoints
      ensures Valid() && RegistersValid() && OnlyRejectedExceptPushed(old(S()), S()) && (exact ==> OwnedAndExclusive())
      ensures StaySet(old(registers), registers, tids)
      ensures ok ==> SlotsPushed() && forall tid <- tids :: Attempted(tid)
      ensures ok ==> forall tid <- tids :: SetNow(old(registers), registers, tid)
      ensures SomeWriteFailed(old(registers), registers) || (ok &&
                  S() == old(S()).(table := old(T()).(hardware := AllPushed(old(T()).hardware))))
    {
      ghost var s0, registers0 := S(), registers;
      OnlyRejectedRefl(s0);
      hide Good, UpToDate, OwnedAndExclusive, Arms, ArmsPushed, SomeFailed, SlotsOnlyFreed, PoolStays;
      var todo := tids;
      while todo != {}
        invariant Valid() && RegistersValid() && todo <= tids
        invariant OnlyRejectedSince(s0, exact) && StaySet(registers0, registers, tids)
        invariant forall tid <- tids - todo :: Attempted(tid)
        invariant forall tid <- tids - todo :: SetNow(registers0, registers, tid)
        invariant S() == s0 || SomeWriteFailed(registers0, registers)
        decreases todo
      {
        var tid :| tid in todo;
        ghost var registers1 := registers;
        var o := PushToThread(tid, tids - todo, s0, exact);
        OneMoreWritten(registers0, registers1, registers, tid, tids - todo, tids);
        if o != Poked && o != NoSuchThread {
          return false;
        }
        todo := todo - {tid};
      }
      ghost var registers1 := registers;
      MarkPushed(tids, exact);
      OthersUnset(registers0, registers1, registers, tids);
      ok := true;
    }

    method PushToThread(tid: nat, ghost done: set<nat>, ghost s0: State, ghost exact: bool) returns (o: PokeResult)
      requires Valid() && RegistersValid() && OnlyRejectedSince(s0, exact)
      requires tid !in done && forall x <- done :: Attempted(x)
      modifies this`breakpointLocations, this`memory, this`breakpoints, this`registers, hardwareBreakpoints
      ensures Valid() && RegistersValid() && OnlyRejectedSince(s0, exact)
      ensures registers - {tid} == old(registers) - {tid} && SetNow(old(registers), registers, tid)
      ensures registers[tid].programmed <==> o == Poked
      ensures FailedWrites(tid) >= old(FailedWrites(tid))
      ensures S() == old(S()) || MoreFailed(old(registers), registers, tid)
      ensures forall x <- done + {tid} :: Attempted(x)
    {
      ghost var s1, hw1, regs1 := S(), hardwareBreakpoints[..], registers;
      hide Good, UpToDate, OwnedAndExclusive, Arms, ArmsPushed, SomeFailed, SlotsOnlyFreed, PoolStays;
      o := SetDebugRegistersForThread(tid, exact);
      OnlyRejectedTrans(s0, s1, S());
      forall x | x in done
        ensures Attempted(x)
      {
        assert old(Attempted(x));
        OthersUnchanged(regs1, registers, tid, x);
        if registers[x].programmed {
          StaysArmed(RegistersOf(x), hw1, hardwareBreakpoints[..], x);
        }
      }
      if o == Poked {
        ArmedInexact(RegistersOf(tid), hardwareBreakpoints[..], tid, exact);
      }
    }

    // Threads that have not been programmed just now are not any more.
    method MarkPushed(tids: set<nat>, ghost exact: bool)
      requires Valid() && RegistersShaped() && (exact ==> OwnedAndExclusive()) && forall tid <- tids :: Attempted(tid)
      modifies this`registers, hardwareBreakpoints
      ensures Valid() && RegistersValid() && (exact ==> OwnedAndExclusive()) && forall tid <- tids :: Attempted(tid)
      ensures SlotsPushed() && StaySet(old(registers), registers, tids)
      ensures hardwareBreakpoints[..] == old(AllPushed(hardwareBreakpoints[..]))
      ensures forall tid <- tids :: tid in registers && tid in old(registers) && registers[tid] == old(registers)[tid]
      ensures S() == old(S()).(table := old(T()).(hardware := hardwareBreakpoints[..]))
    {
      hide Arms, ArmsPushed, Good, UpToDate;
      ghost var s, hw := S(), hardwareBreakpoints[..];
      MarkSlots();
      PushedKeeps(s, code, hardwareBreakpoints[..]);
      assert S() == s.(table := s.table.(hardware := hardwareBreakpoints[..]));
      registers := map tid | tid in registers ::
        registers[tid].(programmed := registers[tid].programmed && tid in tids);
      forall tid | tid in tids
        ensures Attempted(tid) && (registers[tid].programmed ==>
            ArmsPushed(registers[tid], hardwareBreakpoints[..], tid))
      {
        assert old(Attempted(tid));
        if registers[tid].programmed {
          PushedArms(old(registers)[tid], hw, hardwareBreakpoints[..], tid);
        }
      }
    }

    method MarkSlots()
      modifies hardwareBreakpoints
      ensures hardwareBreakpoints[..] == old(AllPushed(hardwareBreakpoints[..]))
    {
      var k := 0;
      while k < hardwareBreakpoints.Length
        invariant k <= hardwareBreakpoints.Length
        invariant forall m :: 0 <= m < k ==>
            hardwareBreakpoints[m] == old(hardwareBreakpoints[m]).(pushedToThreads := true)
        invariant forall m :: k <= m < hardwareBreakpoints.Length ==>
            hardwareBreakpoints[m] == old(hardwareBreakpoints[m])
      {
        hardwareBreakpoints[k] := hardwareBreakpoints[k].(pushedToThreads := true);
        k := k + 1;
      }
    }

    function LiveThreads(): set<nat>
      reads this`threads
    {
      set tid | tid in threads && !threads[tid].exiting
    }

    predicate AnyThreadRunning()
      reads this`threads
    {
      exists tid <- threads.Keys :: threads[tid].state == Running && !threads[tid].exiting
    }

    // handle_breakpoints, with every live thread stopped. No thread would execute an injected int3 where it stands,
    // and every location without an error is armed. On success every slot is armed in every thread that has been
    // programmed, just now or before.
    method HandleBreakpoints(ghost exact: bool) returns (ok: bool)
      requires Valid() && RegistersValid() && PcsKnown(threads) && Covered(threads, registers)
      requires exact ==> OwnedAndExclusive()
      modifies this`breakpointLocations, this`memory, this`breakpoints, this`registers, this`threads,
               hardwareBreakpoints
      ensures Valid() && RegistersValid() && (exact ==> OwnedAndExclusive())
      ensures Deactivatable(old(T()))
      ensures var t := Handle(old(T()), KnownPcs(old(threads)), StepTid());
              OnlyRejectedExceptPushed(State(t, old(breakpoints)), S())
      ensures Settled(breakpointLocations, KnownPcs(old(threads)))
      ensures NotOnPatch(threads, breakpointLocations)
      ensures threads == Marked(old(threads), old(breakpointLocations))
      ensures Covered(threads, registers)
      ensures ok ==> SlotsPushed()
      ensures ok ==> forall tid <- LiveThreads() :: threads[tid].waitingForInitialStop || Attempted(tid)
      ensures var t := Handle(old(T()), KnownPcs(old(threads)), StepTid());
              SomeWriteFailed(old(registers), registers) || (ok && PushedAfter(State(t, old(breakpoints)), S()))
    {
      hide Good, UpToDate, Deactivatable, Handle, Marked, KnownPcs, OwnedAndExclusive, RegistersShaped, AllArmed,
          NotOnPatch,
          Settled, Arms, Covered, PcsKnown;
      HandleTable(exact);
      ghost var s1, locs1 := S(), breakpointLocations;
      OnlyRejectedRefl(s1);
      ok := true;
      if exists k :: 0 <= k < hardwareBreakpoints.Length && hardwareBreakpoints[k].active &&
          !hardwareBreakpoints[k].pushedToThreads {
        ghost var registers1 := registers;
        ok := PushDebugRegisters(LiveThreads(), exact);
        CoveredGrows(threads, registers1, registers, LiveThreads());
        SettledAfterFailures(locs1, breakpointLocations, KnownPcs(old(threads)));
        NotOnPatchAfterFailures(threads, locs1, breakpointLocations);
      } else {
        ArmedAlready();
        CoveredMeans(threads, registers);
      }
    }

    method HandleTable(ghost exact: bool)
      requires Valid() && RegistersValid() && PcsKnown(threads) && Covered(threads, registers)
      requires exact ==> OwnedAndExclusive()
      modifies this`breakpointLocations, this`memory, this`threads, hardwareBreakpoints
      ensures Valid() && RegistersValid() && (exact ==> OwnedAndExclusive()) && Deactivatable(old(T()))
      ensures T() == Handle(old(T()), KnownPcs(old(threads)), StepTid())
      ensures Settled(breakpointLocations, KnownPcs(old(threads))) && NotOnPatch(threads, breakpointLocations)
      ensures threads == Marked(old(threads), old(breakpointLocations)) && Covered(threads, registers)
    {
      hide Good, UpToDate, Deactivatable, Handle, Marked, KnownPcs, OwnedAndExclusive, RegistersShaped, AllArmed,
          NotOnPatch,
          Settled, PcsKnown;
      ghost var t0, threads0 := T(), threads;
      HandleLocations(exact);
      HandleRenews(t0, KnownPcs(threads0), StepTid());
      AllStayArmed(registers, t0.hardware, hardwareBreakpoints[..]);
      MarkedPlaces(threads0, threads);
    }

    // When every slot in use has been pushed before, there is nothing to do.
    lemma ArmedAlready()
      requires Valid() && RegistersValid() && SlotsPushed()
      ensures forall tid <- registers.Keys :: SetOrFailed(registers, tid) ==> Attempted(tid)
    {
    }

    // The part of handle_breakpoints that deals with the table.
    method HandleLocations(ghost exact: bool)
      requires Valid() && PcsKnown(threads) && (exact ==> OwnedAndExclusive())
      modifies this`breakpointLocations, this`memory, this`threads, hardwareBreakpoints
      ensures Valid() && (exact ==> OwnedAndExclusive()) && Deactivatable(old(T()))
      ensures T() == Handle(old(T()), KnownPcs(old(threads)), StepTid())
      ensures Settled(breakpointLocations, KnownPcs(old(threads)))
      ensures threads == Marked(old(threads), old(breakpointLocations))
      ensures NotOnPatch(threads, breakpointLocations) && OnlyMarked(old(threads), threads)
    {
      ghost var s0, threads0 := S(), threads;
      MarkedThreads(threads0, Kept(s0.table.locations));
      var pcs := KnownPcs(threads);
      HandleSettles(s0, code, pcs, StepTid());
      HandleKeepsOwned(s0, code, pcs, StepTid());
      hide *;
      RunStages(pcs);
      assert T() == Handle(s0.table, pcs, StepTid());
      NobodyOnPatch(threads0, Kept(s0.table.locations), breakpointLocations, pcs);
    }

    method RunStages(pcs: set<nat>)
      requires Valid() && pcs == KnownPcs(threads)
      modifies this`breakpointLocations, this`memory, this`threads, hardwareBreakpoints
      ensures T() == Handle(old(T()), pcs, StepTid()) && Valid()
      ensures threads == Marked(old(threads), old(breakpointLocations))
    {
      hide Good, UpToDate, Deactivatable, Compact, ConvertUpTo, ArmUpTo, MarkUpTo, KnownPcs, Exclusive, DataOwned;
      ghost var s0 := S();
      HandleStages(s0, code, pcs, StepTid());
      StagesUpToDate(s0, code, pcs, StepTid());
      CompactLocations();
      ConvertLocations(pcs);
      ArmLocations();
    }

    // Code as the debuggee has it, without the debugger's breakpoints.
    method LoadCodeForDecode(start: nat, end: nat) returns (r: Option<seq<bv8>>)
      requires Valid() && start <= end
      ensures r.Some? <==> end - start <= 100_000_000 && forall a :: start <= a < end ==> a in code
      ensures r.Some? ==> |r.value| == end - start && forall a :: start <= a < end ==> r.value[a - start] == code[a]
    {
      assert memory.Keys == code.Keys;
      hide Valid;
      r := ReadCode(start, end);
      if r.Some? {
        var buf := PatchBack(r.value, start, end);
        r := Some(buf);
      }
    }

    // The bytes that are in memory now.
    method ReadCode(start: nat, end: nat) returns (r: Option<seq<bv8>>)
      requires start <= end
      ensures r.Some? <==> end - start <= 100_000_000 && forall a :: start <= a < end ==> a in memory
      ensures r.Some? ==> |r.value| == end - start && forall a :: start <= a < end ==> r.value[a - start] == memory[a]
    {
      if end - start > 100_000_000 {
        return None;
      }
      if exists a :: start <= a < end && a !in memory {
        return None;
      }
      var m := memory;
      r := Some(seq(end - start, k requires 0 <= k < end - start && start + k in m => m[start + k]));
    }

    // Puts the original bytes back into a copy of memory.
    method PatchBack(read: seq<bv8>, start: nat, end: nat) returns (buf: seq<bv8>)
      requires Valid() && start <= end && |read| == end - start
      requires forall a :: start <= a < end ==> a in memory && read[a - start] == memory[a]
      ensures |buf| == |read| && forall a :: start <= a < end ==> a in code && buf[a - start] == code[a]
    {
      hide DecodeOk, PatchedAt, Sorted;
      buf := read;
      var i := LowerBound(breakpointLocations, start);
      DecodeStart(T(), code, buf, start, i);
      LowerBoundRest(breakpointLocations, start);
      ghost var t := T();
      assert Inv(t, code);
      hide Inv, Valid, DecodeOk;
      while i < |breakpointLocations| && breakpointLocations[i].addr < end
        invariant i <= |breakpointLocations| && DecodeOk(breakpointLocations, code, buf, start, i) &&
            |buf| == end - start
        invariant t == T() && forall j :: i <= j < |breakpointLocations| ==> breakpointLocations[j].addr >= start
      {
        var l := breakpointLocations[i];
        ghost var before := buf;
        if !l.hardware && l.active {
          buf := buf[l.addr - start := l.originalByte];
        }
        DecodeNext(t, code, before, buf, start, i);
        i := i + 1;
      }
      DecodeDone(t, code, buf, start, i);
    }

    // The detaching half of shutdown: puts the original bytes back.
    method RestoreCode()
      requires Valid()
      modifies this`memory
      ensures memory == code
    {
      var toRestore := OriginalBytesToRestore();
      PatchedByLocations(T(), code);
      ghost var before := memory;
      RestoreBytes(toRestore);
      hide Valid, SoftActive;
      AllRestored(breakpointLocations, toRestore, before, memory, code);
    }

    method RestoreBytes(toRestore: seq<(nat, bv8)>)
      requires memory.Keys == code.Keys
      requires forall p <- toRestore :: WordMapped(memory, WordBase(p.0)) && p.0 in code && p.1 == code[p.0]
      modifies this`memory
      ensures memory.Keys == old(memory).Keys
      ensures forall a :: a in memory ==> memory[a] == old(memory)[a] || memory[a] == code[a]
      ensures forall m :: 0 <= m < |toRestore| && toRestore[m].0 in memory ==>
                memory[toRestore[m].0] == code[toRestore[m].0]
    {
      hide WordMapped;
      var i := 0;
      while i < |toRestore|
        invariant i <= |toRestore| && memory.Keys == old(memory).Keys
        invariant forall a :: a in memory ==> memory[a] == old(memory)[a] || memory[a] == code[a]
        invariant forall m :: 0 <= m < i && toRestore[m].0 in memory ==>
                    memory[toRestore[m].0] == code[toRestore[m].0]
      {
        var (addr, byte) := toRestore[i];
        assert toRestore[i] in toRestore;
        WordStaysMapped(old(memory), memory, addr);
        PokeByte(addr, byte);
        i := i + 1;
      }
    }

    method OriginalBytesToRestore() returns (toRestore: seq<(nat, bv8)>)
      requires Valid()
      ensures forall p <- toRestore :: WordMapped(memory, WordBase(p.0)) && p.0 in code && p.1 == code[p.0]
      ensures forall l <- breakpointLocations :: SoftActive(l) ==> (l.addr, l.originalByte) in toRestore
    {
      toRestore := [];
      var i := 0;
      while i < |breakpointLocations|
        invariant i <= |breakpointLocations|
        invariant forall p <- toRestore :: WordMapped(memory, WordBase(p.0)) && p.0 in code && p.1 == code[p.0]
        invariant forall m :: 0 <= m < i && SoftActive(breakpointLocations[m]) ==>
                    (breakpointLocations[m].addr, breakpointLocations[m].originalByte) in toRestore
      {
        var l := breakpointLocations[i];
        if !l.hardware && l.active {
          assert l.addr in memory;
          toRestore := toRestore + [(l.addr, l.originalByte)];
        }
        i := i + 1;
      }
    }

    ghost predicate OwnedAndExclusive()
      reads this`breakpointLocations, this`memory, this`breakpoints, hardwareBreakpoints
    {
      DataOwned(breakpoints, hardwareBreakpoints[..]) && Exclusive(T())
    }

    // ---------- The session ----------

    predicate Alive()
      reads this`targetState
    {
      targetState != NoProcess && targetState != Exiting
    }

    // While the process is alive: step references only during a step, a step only in state Stepping, and state
    // Stepping only with a step, or with a pending one that is waiting for symbols.
    ghost predicate StepOk()
      reads this`breakpointLocations, this`breakpoints, this`targetState, this`stepping, this`pendingStep,
          this`waitingForSymbols
    {
      && RefsOk(breakpointLocations, stepping.Some?, breakpoints)
      && (stepping.Some? ==> targetState == Stepping)
      && (targetState == Stepping && stepping.None? ==> pendingStep.Some? && waitingForSymbols)
    }

    ghost predicate Threads(handling: bool)
      reads this`breakpointLocations, this`code, this`stepping, this`causes, this`threads, this`registers
    {
      && ThreadsOk(breakpointLocations, code, handling, stepping, causes, threads) && Covered(threads, registers)
      && (handling || ActiveOrFailed(breakpointLocations))
    }

    // All is well but for one thread that has just stopped.
    ghost predicate ThreadsExcept(tid: nat)
      reads this`breakpointLocations, this`code, this`stepping, this`causes, this`threads,
          this`stoppingToHandleBreakpoints
    {
      && ThreadsOkExcept(breakpointLocations, code, stoppingToHandleBreakpoints, stepping, causes, threads, tid)
      && (stoppingToHandleBreakpoints || ActiveOrFailed(breakpointLocations))
    }

    ghost predicate Sound()
      reads this, hardwareBreakpoints
    {
      Valid() && RegistersValid() && Threads(stoppingToHandleBreakpoints) && (Alive() ==> StepOk())
    }

    // A pending step waits in state Stepping, or for the process to start, with no other step under way.
    ghost predicate PendingOk()
      reads this`targetState, this`stepping, this`pendingStep
    {
      pendingStep.Some? ==> (targetState == Stepping || targetState == Starting) && stepping.None?
    }

    method CancelStepping()
      requires Valid() && Threads(stoppingToHandleBreakpoints) &&
          RefsOk(breakpointLocations, stepping.Some?, breakpoints)
      modifies this`breakpointLocations, this`stepping, this`pendingStep
      ensures stepping.None? && pendingStep.None?
      ensures breakpointLocations == if old(stepping).Some? then DropRefs(old(breakpointLocations), IsStep)
          else old(breakpointLocations)
      ensures Valid() && Threads(stoppingToHandleBreakpoints) && RefsOk(breakpointLocations, false, breakpoints)
    {
      if stepping.Some? {
        ghost var t0 := T();
        DropRefsKeeps(t0, code, IsStep);
        DropRefsUpToDate(breakpointLocations, IsStep, code);
        DropRefsShrinks(breakpointLocations, IsStep);
        DropStepsRefsOk(breakpointLocations, true, breakpoints);
        ThreadsOkShrink(breakpointLocations, DropRefs(breakpointLocations, IsStep), code, stoppingToHandleBreakpoints,
            stepping, causes, threads);
        ThreadsOkRelax(DropRefs(breakpointLocations, IsStep), code, stoppingToHandleBreakpoints,
            stoppingToHandleBreakpoints, stepping, None, causes, threads);
        hide ThreadsOk, RefsOk;
        RetainReferences(IsStep);
        stepping := None;
        assert T() == t0.(locations := DropRefs(t0.locations, IsStep));
      }
      pendingStep := None;
    }

    // What a thread should be doing. The step in progress is there whenever it is asked for.
    function TargetStateForThread(tid: nat): ThreadState
      requires targetState == Stepping && !stoppingToHandleBreakpoints && !waitingForSymbols ==> stepping.Some?
      reads this`stoppingToHandleBreakpoints, this`waitingForSymbols, this`targetState, this`stepping
    {
      if stoppingToHandleBreakpoints || waitingForSymbols then Suspended
      else
        match targetState
        case NoProcess => Running
        case Starting => Running
        case Exiting => Running
        case ProcessRunning => Running
        case ProcessSuspended => Suspended
        case Stepping => if stepping.value.tid == tid ||
            !stepping.value.keepOtherThreadsSuspended then Running else Suspended
    }

    // Calls handle_breakpoints now, or leaves it for when all threads have stopped.
    method ArrangeHandleBreakpoints() returns (ok: bool)
      requires Valid() && RegistersValid() && Threads(true)
      modifies this`breakpointLocations, this`memory, this`breakpoints, this`registers, this`threads,
               this`stoppingToHandleBreakpoints, hardwareBreakpoints
      ensures Valid() && RegistersValid() && Threads(stoppingToHandleBreakpoints)
      ensures old(RefsOk(breakpointLocations, stepping.Some?, breakpoints)) ==>
          RefsOk(breakpointLocations, stepping.Some?, breakpoints)
      ensures breakpoints.Keys == old(breakpoints).Keys
      ensures OnlyMarked(old(threads), threads)
      ensures !stoppingToHandleBreakpoints ==> NotOnPatch(threads, breakpointLocations)
      ensures stoppingToHandleBreakpoints <==> old(stoppingToHandleBreakpoints || AnyThreadRunning())
      ensures if stoppingToHandleBreakpoints then S() == old(S()) && threads == old(threads)
              else Rearmed(old(S()), KnownPcs(old(threads)), StepTid(), S()) && (ok ==> SlotsPushed())
      ensures !ok ==> old(!stoppingToHandleBreakpoints && !AnyThreadRunning())
      ensures ok || SomeWriteFailed(old(registers), registers)
    {
      ok := true;
      if stoppingToHandleBreakpoints {
        return;
      }
      if AnyThreadRunning() {
        stoppingToHandleBreakpoints := true;
      } else {
        ok := HandleNow();
      }
    }

    // handle_breakpoints within a session.
    method HandleNow() returns (ok: bool)
      requires Valid() && RegistersValid() && Threads(true) && !AnyThreadRunning()
      modifies this`breakpointLocations, this`memory, this`breakpoints, this`registers, this`threads,
               hardwareBreakpoints
      ensures Valid() && RegistersValid() && Threads(false)
      ensures old(RefsOk(breakpointLocations, stepping.Some?, breakpoints)) ==>
          RefsOk(breakpointLocations, stepping.Some?, breakpoints)
      ensures breakpoints.Keys == old(breakpoints).Keys
      ensures OnlyMarked(old(threads), threads) && threads == Marked(old(threads), old(breakpointLocations))
      ensures NotOnPatch(threads, breakpointLocations)
      ensures Rearmed(old(S()), KnownPcs(old(threads)), StepTid(), S())
      ensures ok ==> SlotsPushed()
      ensures SomeWriteFailed(old(registers), registers) ||
              (ok && PushedAfter(State(Handle(old(T()), KnownPcs(old(threads)), StepTid()), old(breakpoints)), S()))
    {
      hide Inv, DataOk, Deactivatable, Handle, KnownPcs, ThreadsOk, RefsOk, PcsKnown, NotOnPatch, Settled;
      ghost var s0, threads0 := S(), threads;
      StoppedThreads(breakpointLocations, code, stepping, causes, threads);
      InvDeactivatable(s0.table, code);
      if RefsOk(breakpointLocations, stepping.Some?, breakpoints) {
        HandleRefsOk(s0.table, code, KnownPcs(threads), StepTid(), stepping.Some?, breakpoints);
      }
      ok := HandleBreakpoints(false);
      MarkedThreads(threads0, Kept(s0.table.locations));
      HandledThreadsOk(s0.table.locations, breakpointLocations, code, false, stepping, causes, threads0, threads);
      RearmedIsActive(s0, code, KnownPcs(threads0), StepTid(), S());
      if old(RefsOk(breakpointLocations, stepping.Some?, breakpoints)) {
        FailedRefsOk(Handle(s0.table, KnownPcs(threads0), StepTid()).locations, breakpointLocations, stepping.Some?,
            s0.pool, breakpoints);
      }
    }

    // ---------- Running and stopping ----------

    // Lets one stopped thread run: by a single instruction if a single step is wanted of it.
    method ResumeThread(tid: nat)
      requires Sound() && tid in threads
      requires CanResume(tid)
      modifies this`threads
      ensures Sound()
      ensures threads == old(threads)[tid := Resumed(old(threads)[tid], NeedsStep(stepping, tid))]
    {
      hide Good, UpToDate, RegistersValid, Covered, ThreadsOk, RefsOk;
      var t := threads[tid];
      if t.state == Running {
        return;
      }
      var singleStepping := t.singleStepping;
      if !singleStepping {
        singleStepping := stepping.Some? && stepping.value.tid == tid && stepping.value.singleSteps;
      }
      ResumedIsFine(breakpointLocations, code, stoppingToHandleBreakpoints, stepping, causes, threads, tid);
      CoveredUpdate(threads, registers, tid, Resumed(t, NeedsStep(stepping, tid)));
      threads := threads[tid := t.(state := Running, singleStepping := singleStepping, afterUserDebugTrap := false)];
    }

    // A stopped thread may be resumed unless that would single-step it from an injected int3.
    ghost predicate CanResume(tid: nat)
      requires tid in threads
      reads this`threads, this`stepping, this`breakpointLocations, this`causes
    {
      var t := threads[tid];
      t.state == Suspended && !t.exiting && tid !in causes && (t.singleStepping || NeedsStep(stepping, tid)) ==>
          !PatchedAt(breakpointLocations, t.pc)
    }

    // A thread that is stopped is to stay so: while the process is suspended, breakpoints are to be handled or symbols
    // are waited for, or because the step in progress keeps all other threads stopped.
    predicate StaysStopped(tid: nat)
      reads this`stepping, this`targetState, this`stoppingToHandleBreakpoints, this`waitingForSymbols
    {
      stoppingToHandleBreakpoints || waitingForSymbols || targetState == ProcessSuspended ||
      (targetState == Stepping && stepping.Some? && stepping.value.keepOtherThreadsSuspended &&
         tid != stepping.value.tid)
    }

    // No thread has been let run that is to stay stopped.
    ghost predicate OthersStopped(before: map<nat, Thread>, after: map<nat, Thread>)
      reads this`stepping, this`targetState, this`stoppingToHandleBreakpoints, this`waitingForSymbols
    {
      forall tid <- after.Keys :: tid in before && before[tid].state == Suspended && StaysStopped(tid) ==>
        after[tid].state == Suspended || after[tid].exiting
    }

    // Threads that should be running have been let run.
    ghost predicate LetRun(before: map<nat, Thread>, after: map<nat, Thread>)
      reads this`stoppingToHandleBreakpoints, this`waitingForSymbols, this`targetState, this`stepping
    {
      && (targetState == Stepping && !stoppingToHandleBreakpoints && !waitingForSymbols ==> stepping.Some?)
      && after.Keys == before.Keys
      && forall tid <- after.Keys ::
           after[tid] == if TargetStateForThread(tid) == Running then Resumed(before[tid], NeedsStep(stepping, tid))
               else before[tid]
    }

    method ResumeThreadsIfNeeded()
      requires Sound()
      modifies this`threads
      ensures Sound() && LetRun(old(threads), threads)
      ensures OthersStopped(old(threads), threads)
    {
      hide Good, UpToDate, RefsOk, Resumed, ThreadsOk, RegistersShaped, AllArmed, Covered;
      var todo := set tid | tid in threads && TargetStateForThread(tid) == Running;
      while todo != {}
        invariant Sound() && threads.Keys == old(threads).Keys && todo <= threads.Keys
        invariant forall tid <- todo :: TargetStateForThread(tid) == Running
        invariant forall tid <- threads.Keys ::
                    threads[tid] == if TargetStateForThread(tid) == Running && tid !in todo
                                    then Resumed(old(threads)[tid], NeedsStep(stepping, tid)) else old(threads)[tid]
        decreases todo
      {
        var tid :| tid in todo;
        OkToResume(breakpointLocations, code, stepping, causes, threads, tid);
        ResumeThread(tid);
        todo := todo - {tid};
      }
    }

    method Suspend() returns (ok: bool)
      requires Sound()
      modifies this`breakpointLocations, this`stepping, this`pendingStep, this`targetState, this`waitingForSymbols
      ensures Sound()
      ensures ok <==> old(targetState) == ProcessRunning || old(targetState) == Stepping
      ensures if ok then targetState == ProcessSuspended && stepping.None? && pendingStep.None? && !waitingForSymbols
              else targetState == old(targetState) && stepping == old(stepping) && pendingStep == old(pendingStep)
      ensures !ok ==> breakpointLocations == old(breakpointLocations)
      ensures old(PendingOk()) ==> PendingOk()
    {
      hide Good, UpToDate, ThreadsOk, RefsOk, DropRefs, RegistersShaped, AllArmed, Covered;
      if targetState != ProcessRunning && targetState != Stepping {
        return false;
      }
      CancelStepping();
      targetState := ProcessSuspended;
      waitingForSymbols := false;
      ok := true;
    }

    // symbolsNeeded: an enabled breakpoint is still waiting for symbols.
    method Resume(symbolsNeeded: bool) returns (ok: bool)
      requires Sound()
      modifies this`breakpointLocations, this`stepping, this`pendingStep, this`targetState, this`waitingForSymbols,
               this`threads
      ensures Sound()
      ensures ok <==> old(targetState) == ProcessSuspended || old(targetState) == Stepping
                      || (old(targetState) == ProcessRunning && old(waitingForSymbols))
      ensures ok ==> targetState == ProcessRunning && stepping.None?
      ensures ok ==> pendingStep == if old(targetState) == Stepping then None else old(pendingStep)
      ensures waitingForSymbols == if ok then symbolsNeeded || pendingStep.Some? else old(waitingForSymbols)
      ensures !ok ==> targetState == old(targetState) && stepping == old(stepping) && pendingStep == old(pendingStep)
      ensures old(PendingOk()) ==> PendingOk()
      ensures ok && !stoppingToHandleBreakpoints && !symbolsNeeded && old(pendingStep).None? ==>
                forall tid <- threads.Keys :: threads[tid].state == Running
      ensures !ok ==> threads == old(threads)
      ensures OthersStopped(old(threads), threads)
    {
      hide Valid, RegistersValid, ThreadsOk, Covered, RefsOk, NeedsStep, DropRefs;
      match targetState {
        case ProcessSuspended =>
        case Stepping => CancelStepping();
        case ProcessRunning => if !waitingForSymbols { return false; }
        case _ => return false;
      }
      targetState := ProcessRunning;
      waitingForSymbols := symbolsNeeded || pendingStep.Some?;
      ResumeThreadsIfNeeded();
      ok := true;
    }

    // ---------- Stepping ----------

    method AddStepReferences(steps: seq<(StepBreakpointType, nat)>)
      modifies this`breakpointLocations
      ensures T() == AddSteps(old(T()), steps)
    {
      var i := 0;
      while i < |steps|
        invariant i <= |steps| && T() == AddSteps(old(T()), steps[..i])
      {
        assert steps[..i + 1][..i] == steps[..i];
        AddBreakpointLocation(Step(steps[i].0), steps[i].1);
        i := i + 1;
      }
      assert steps[..i] == steps;
    }

    // Adds step breakpoints. A thread that stands on one of them reacts as if it had just hit it.
    method AddStepBreakpointLocations(steps: seq<(StepBreakpointType, nat)>, tid: nat, addr: nat)
      requires Valid() && Threads(true) && stepping.Some? && RefsOk(breakpointLocations, true, breakpoints)
      requires tid in threads && (threads[tid].exiting || threads[tid].state == Suspended)
      requires forall p <- steps :: NeedsSingleStep(p.0) ==> OriginalByte(code, p.1) != INT3
      modifies this`breakpointLocations, this`threads
      ensures Valid() && Threads(true) && RefsOk(breakpointLocations, true, breakpoints)
      ensures breakpointLocations == AddSteps(old(T()), steps).locations
      ensures threads == old(threads)[tid := old(threads)[tid].(singleStepping := old(threads)[tid].singleStepping
                                             || exists p <- steps :: p.1 == addr && NeedsSingleStep(p.0))]
    {
      hide Inv, UpToDate, RefsOk, DataOk, ThreadsOk, Covered, NeedsSingleStep, OriginalByte;
      ghost var t0 := T();
      AddStepsKeeps(t0, code, steps);
      AddStepsUpToDate(t0, code, steps);
      AddStepsOk(t0, code, steps, breakpoints);
      ThreadsOkShrink(breakpointLocations, AddSteps(t0, steps).locations, code, true, stepping, causes, threads);
      AddStepReferences(steps);
      if exists p <- steps :: p.1 == addr && NeedsSingleStep(p.0) {
        RequestSingleStep(tid, true);
      } else {
        assert threads == threads[tid := threads[tid]];
      }
    }

    method RequestSingleStep(tid: nat, ghost handling: bool)
      requires Threads(handling) && tid in threads && (threads[tid].exiting || threads[tid].state == Suspended)
      requires handling || !PatchedAt(breakpointLocations, threads[tid].pc)
      modifies this`threads
      ensures Threads(handling) && threads == old(threads)[tid := old(threads)[tid].(singleStepping := true)]
    {
      var t := threads[tid].(singleStepping := true);
      assert ThreadOk(breakpointLocations, code, handling, NeedsStep(stepping, tid), CauseOf(causes, tid),
          threads[tid]);
      ThreadsOkUpdate(breakpointLocations, code, handling, handling, stepping, causes, causes, threads, tid, t);
      threads := threads[tid := t];
    }

    // Initiates a step once its kind, ranges and breakpoints are known. Its assertions on entry hold: no step is in
    // progress, and no step breakpoints are left over from an earlier one.
    method StartStep(tid: nat, steps: seq<(StepBreakpointType, nat)>, singleSteps: bool,
                     keepOtherThreadsSuspended: bool) returns (ok: bool)
      requires Sound()
      requires forall p <- steps :: NeedsSingleStep(p.0) ==> OriginalByte(code, p.1) != INT3
      modifies this`breakpointLocations, this`memory, this`breakpoints, this`registers, this`threads,
               this`stoppingToHandleBreakpoints, this`stepping, this`targetState, hardwareBreakpoints
      ensures Sound()
      ensures ok <==>
              old(targetState) == ProcessSuspended && tid in old(threads) && old(threads)[tid].state == Suspended
      ensures ok ==> targetState == Stepping && stepping == Some(StepState(tid, keepOtherThreadsSuspended, singleSteps))
      ensures ok ==> SamePlaces(old(threads), threads) && StepRefsAt(steps)
      ensures stoppingToHandleBreakpoints ==> old(stoppingToHandleBreakpoints || AnyThreadRunning())
      ensures ok && steps != [] && !stoppingToHandleBreakpoints ==> ActiveOrFailed(breakpointLocations)
      ensures ok && !stoppingToHandleBreakpoints && !waitingForSymbols ==>
                threads[tid].state == Running && (singleSteps ==> threads[tid].singleStepping)
      ensures !ok ==> targetState == old(targetState) && stepping == old(stepping)
      ensures old(PendingOk()) ==> PendingOk()
      ensures OthersStopped(old(threads), threads)
    {
      if targetState != ProcessSuspended {
        return false;
      }
      hide RefsOk, ThreadsOk, Good, SamePlaces, RefsAt, RegistersShaped, AllArmed, Covered;
      assert stepping.None?;
      NoStepRefs(breakpointLocations, breakpoints);
      assert forall l <- breakpointLocations, r <- l.breakpoints :: r.Id?;
      if tid !in threads || threads[tid].state != Suspended {
        return false;
      }
      BeginStep(steps, StepState(tid, keepOtherThreadsSuspended, singleSteps));
      ok := true;
    }

    // Every step breakpoint asked for is in the table.
    ghost predicate StepRefsAt(steps: seq<(StepBreakpointType, nat)>)
      reads this`breakpointLocations
    {
      forall p <- steps :: Step(p.0) in RefsAt(breakpointLocations, p.1)
    }

    lemma StepCanBegin(step: StepState)
      requires Sound() && targetState == ProcessSuspended && step.tid in threads && threads[step.tid].state == Suspended
      ensures ThreadsOk(breakpointLocations, code, true, Some(step), causes, threads) &&
              ThreadsOk(breakpointLocations, code, stoppingToHandleBreakpoints, None, causes, threads)
      ensures RefsOk(breakpointLocations, true, breakpoints)
    {
      hide Good, UpToDate, ThreadsOk, RefsOk, RegistersValid, Covered;
      StepBegins(breakpointLocations, code, stoppingToHandleBreakpoints, causes, threads, step, breakpoints);
    }

    method BeginStep(steps: seq<(StepBreakpointType, nat)>, step: StepState)
      requires Sound() && targetState == ProcessSuspended && step.tid in threads && threads[step.tid].state == Suspended
      requires forall p <- steps :: NeedsSingleStep(p.0) ==> OriginalByte(code, p.1) != INT3
      modifies this`breakpointLocations, this`memory, this`breakpoints, this`registers, this`threads,
               this`stoppingToHandleBreakpoints, this`stepping, this`targetState, hardwareBreakpoints
      ensures Sound() && targetState == Stepping && stepping == Some(step)
      ensures StepRefsAt(steps) && SamePlaces(old(threads), threads) &&
          (stoppingToHandleBreakpoints ==> old(stoppingToHandleBreakpoints || AnyThreadRunning()))
      ensures steps != [] && !stoppingToHandleBreakpoints ==> ActiveOrFailed(breakpointLocations)
      ensures !stoppingToHandleBreakpoints && !waitingForSymbols ==>
                threads[step.tid].state == Running && (step.singleSteps ==> threads[step.tid].singleStepping)
      ensures OthersStopped(old(threads), threads)
    {
      hide RefsOk, ThreadsOk, Good, SamePlaces, RefsAt, Covered, RegistersShaped, AllArmed, ActiveOrFailed;
      StepCanBegin(step);
      stepping := Some(step);
      targetState := Stepping;
      PlaceStepBreakpoints(step.tid, steps);
      ghost var placed := threads;
      ResumeForStep(step.tid);
      SamePlacesTrans(old(threads), placed, threads);
    }

    // Makes sure the thread will not be single-stepped from an injected int3.
    method PlaceStepBreakpoints(tid: nat, steps: seq<(StepBreakpointType, nat)>)
      requires Valid() && RegistersValid() && stepping.Some? && stepping.value.tid == tid
      requires tid in threads && threads[tid].state == Suspended
      requires Threads(true) && ThreadsOk(breakpointLocations, code, stoppingToHandleBreakpoints, None, causes, threads)
      requires stoppingToHandleBreakpoints || ActiveOrFailed(breakpointLocations)
      requires RefsOk(breakpointLocations, true, breakpoints)
      requires forall p <- steps :: NeedsSingleStep(p.0) ==> OriginalByte(code, p.1) != INT3
      modifies this`breakpointLocations, this`memory, this`breakpoints, this`registers, this`threads,
               this`stoppingToHandleBreakpoints, hardwareBreakpoints
      ensures Valid() && RegistersValid() && Threads(stoppingToHandleBreakpoints) &&
          RefsOk(breakpointLocations, true, breakpoints)
      ensures tid in threads && StepRefsAt(steps) && SamePlaces(old(threads), threads) &&
          threads[tid].state == Suspended
      ensures steps != [] && !stoppingToHandleBreakpoints ==> ActiveOrFailed(breakpointLocations)
      ensures stoppingToHandleBreakpoints ==> old(stoppingToHandleBreakpoints || AnyThreadRunning())
      ensures SameStates(old(threads), threads)
    {
      hide Inv, DataOk, RefsOk, ThreadsOk, Covered, RegistersShaped, AllArmed, SamePlaces;
      SamePlacesRefl(threads);
      var addr := threads[tid].pc;
      if steps != [] {
        PlaceAndArrange(tid, steps);
      } else if stepping.value.singleSteps {
        var idx := LowerBound(breakpointLocations, addr);
        if idx < |breakpointLocations| && breakpointLocations[idx].addr == addr && !breakpointLocations[idx].hardware {
          hide NotOnPatch, Rearmed, KnownPcs, OnlyMarked;
          var handled := ArrangeHandleBreakpoints();
          MarkedPlaces(old(threads), threads);
        } else {
          StepFromUnpatched(T(), code, stoppingToHandleBreakpoints, stepping, causes, threads, tid);
        }
      } else {
        StepWithoutSingleSteps(breakpointLocations, code, stoppingToHandleBreakpoints, stepping.value, causes, threads);
      }
    }

    method PlaceAndArrange(tid: nat, steps: seq<(StepBreakpointType, nat)>)
      requires Valid() && RegistersValid() && Threads(true) && stepping.Some? && stepping.value.tid == tid
      requires tid in threads && threads[tid].state == Suspended && RefsOk(breakpointLocations, true, breakpoints)
      requires forall p <- steps :: NeedsSingleStep(p.0) ==> OriginalByte(code, p.1) != INT3
      modifies this`breakpointLocations, this`memory, this`breakpoints, this`registers, this`threads,
               this`stoppingToHandleBreakpoints, hardwareBreakpoints
      ensures Valid() && RegistersValid() && Threads(stoppingToHandleBreakpoints) &&
          RefsOk(breakpointLocations, true, breakpoints)
      ensures tid in threads && StepRefsAt(steps) && SamePlaces(old(threads), threads) &&
          threads[tid].state == Suspended
      ensures !stoppingToHandleBreakpoints ==> ActiveOrFailed(breakpointLocations)
      ensures stoppingToHandleBreakpoints ==> old(stoppingToHandleBreakpoints || AnyThreadRunning())
      ensures SameStates(old(threads), threads)
    {
      hide Good, UpToDate, RefsOk, ThreadsOk, Covered, RegistersShaped, AllArmed, SamePlaces, OnlyMarked, Rearmed,
          AddSteps,
          RefsAt, KnownPcs, NotOnPatch, ActiveOrFailed, NeedsSingleStep, OriginalByte, SameStates;
      ghost var threads0, t0 := threads, T();
      AddStepBreakpointLocations(steps, tid, threads[tid].pc);
      ghost var before, s1, pcs := threads, S(), KnownPcs(threads);
      StepsAdded(t0, steps);
      FlaggedPlaces(threads0, before, tid);
      var handled := ArrangeHandleBreakpoints();
      if !stoppingToHandleBreakpoints {
        RearmedKeepsSteps(s1, code, pcs, StepTid(), S(), steps);
        RearmedIsActive(s1, code, pcs, StepTid(), S());
      }
      MarkedPlaces(before, threads);
      SamePlacesTrans(threads0, before, threads);
      SameStatesTrans(threads0, before, threads, tid);
    }

    method ResumeForStep(tid: nat)
      requires Sound() && targetState == Stepping && stepping.Some? && stepping.value.tid == tid && tid in threads
      modifies this`threads
      ensures Sound() && SamePlaces(old(threads), threads)
      ensures old(threads)[tid].state == Suspended && !stoppingToHandleBreakpoints && !waitingForSymbols ==>
                threads[tid].state == Running && (stepping.value.singleSteps ==> threads[tid].singleStepping)
      ensures OthersStopped(old(threads), threads)
      ensures threads.Keys == old(threads).Keys
    {
      hide Good, UpToDate, RegistersValid, RefsOk, ThreadsOk, Covered, PatchedAt;
      if stepping.value.keepOtherThreadsSuspended {
        if TargetStateForThread(tid) == Running {
          OkToResume(breakpointLocations, code, stepping, causes, threads, tid);
          ResumeThread(tid);
        }
      } else {
        ResumeThreadsIfNeeded();
      }
    }

    // ---------- Breakpoints of the user ----------

    // Activates breakpoints, given the code addresses that symbols have produced so far.
    method ActivateBreakpoints(ids: set<nat>, resolved: map<nat, seq<(nat, nat)>>)
      returns (ok: bool, anyActivated: bool, ghost order: seq<nat>, ghost activated: State)
      requires Valid() && RegistersValid() && Threads(true) && RefsOk(breakpointLocations, stepping.Some?, breakpoints)
      requires Threads(stoppingToHandleBreakpoints) && ids <= breakpoints.Keys
      modifies this`breakpointLocations, this`memory, this`breakpoints, this`registers, this`threads,
               this`stoppingToHandleBreakpoints, hardwareBreakpoints
      ensures Valid() && RegistersValid() && Threads(stoppingToHandleBreakpoints)
      ensures RefsOk(breakpointLocations, stepping.Some?, breakpoints)
      ensures threads.Keys == old(threads).Keys && breakpoints.Keys == old(breakpoints).Keys
      ensures Permutes(order, ids) && activated == ActivateEach(old(S()), order, resolved)
      ensures anyActivated ==> exists id <- ids :: Activatable(old(breakpoints)[id])
      ensures anyActivated <==> exists id <- ids :: !old(breakpoints)[id].active && activated.pool[id].active
      ensures if anyActivated && old(!stoppingToHandleBreakpoints && !AnyThreadRunning())
              then Rearmed(activated, KnownPcs(old(threads)), StepTid(), S())
              else S() == activated && threads == old(threads)
      ensures stoppingToHandleBreakpoints <==>
          old(stoppingToHandleBreakpoints) || (anyActivated && old(AnyThreadRunning()))
      ensures !ok ==> anyActivated && old(!stoppingToHandleBreakpoints && !AnyThreadRunning())
      ensures ok || SomeWriteFailed(old(registers), registers)
      ensures OnlyMarked(old(threads), threads)
    {
      hide Good, UpToDate, RegistersShaped, AllArmed, ThreadsOk, Covered, RefsOk;
      ghost var threads0, stopping0, running0 := threads, stoppingToHandleBreakpoints, AnyThreadRunning();
      anyActivated, order, activated := ActivateInTurn(ids, resolved);
      ok := true;
      if anyActivated {
        hide ActivateEach, Rearmed, KnownPcs, Permutes, NotOnPatch;
        ok := ArrangeHandleBreakpoints();
      }
    }

    // Activates them one after another.
    method ActivateInTurn(ids: set<nat>, resolved: map<nat, seq<(nat, nat)>>)
      returns (anyActivated: bool, ghost order: seq<nat>, ghost activated: State)
      requires Valid() && RegistersValid() && Threads(true) && RefsOk(breakpointLocations, stepping.Some?, breakpoints)
      requires Threads(stoppingToHandleBreakpoints) && ids <= breakpoints.Keys
      modifies this`breakpointLocations, this`breakpoints, hardwareBreakpoints
      ensures Valid() && RegistersValid() && Threads(true) && (!anyActivated ==> Threads(stoppingToHandleBreakpoints))
      ensures RefsOk(breakpointLocations, stepping.Some?, breakpoints) && breakpoints.Keys == old(breakpoints).Keys
      ensures Permutes(order, ids) && S() == activated == ActivateEach(old(S()), order, resolved)
      ensures anyActivated ==> exists id <- ids :: Activatable(old(breakpoints)[id])
      ensures anyActivated <==> exists id <- ids :: !old(breakpoints)[id].active && breakpoints[id].active
    {
      hide Good, UpToDate, RegistersShaped, AllArmed, ThreadsOk, Covered, RefsOk, ActivateEach,
          BreakpointHistory.ActivateBreakpoint, Lookup;
      var todo := ids;
      anyActivated, order, activated := false, [], S();
      NoneActivated(activated, resolved);
      while todo != {}
        invariant Valid() && RegistersValid() && Threads(true) && todo <= breakpoints.Keys == old(breakpoints).Keys
        invariant !anyActivated ==> breakpointLocations == old(breakpointLocations)
        invariant RefsOk(breakpointLocations, stepping.Some?, breakpoints)
        invariant todo <= ids && |order| + |todo| == |ids| && (forall x :: x in order <==> x in ids && x !in todo)
        invariant S() == activated == ActivateEach(old(S()), order, resolved)
        invariant forall id <- todo :: breakpoints[id] == old(breakpoints)[id]
        invariant anyActivated ==> exists id <- ids :: Activatable(old(breakpoints)[id])
        invariant anyActivated <==> exists id <- ids :: !old(breakpoints)[id].active && breakpoints[id].active
        decreases todo
      {
        var id :| id in todo;
        OneMoreActivated(old(S()), order, id, resolved);
        var activatedNow := ActivateOne(id, Lookup(resolved, id));
        anyActivated := anyActivated || activatedNow;
        order, activated, todo := order + [id], S(), todo - {id};
      }
    }

    lemma ActivatedIsFine(id: nat, resolved: Option<seq<(nat, nat)>>)
      requires Valid() && RegistersValid() && Threads(true) && id in breakpoints
      requires RefsOk(breakpointLocations, stepping.Some?, breakpoints)
      ensures var s' := BreakpointHistory.ActivateBreakpoint(S(), id, resolved);
              && Good(s', code) && UpToDate(s'.table.locations, code) && AllArmed(registers, s'.table.hardware)
              && RefsOk(s'.table.locations, stepping.Some?, s'.pool)
              && ThreadsOk(s'.table.locations, code, true, stepping, causes, threads)
    {
      hide DataOk, Inv, UpToDate, ThreadsOk, RefsOk, Covered, RegistersShaped, AllArmed,
          BreakpointHistory.ActivateBreakpoint;
      ActivateBreakpointKeeps(S(), code, id, resolved);
      ActivateRefsOk(S(), code, id, resolved, stepping.Some?);
      ActivateRenews(S(), id, resolved);
      ActivateUpToDate(S(), code, id, resolved);
      var s' := BreakpointHistory.ActivateBreakpoint(S(), id, resolved);
      ThreadsOkShrink(breakpointLocations, s'.table.locations, code, true, stepping, causes, threads);
      AllStayArmed(registers, hardwareBreakpoints[..], s'.table.hardware);
    }

    // A state of the table and the breakpoints that may follow this one.
    ghost predicate FineNext(s': State)
      reads this`code, this`stepping, this`causes, this`threads, this`registers, this`stoppingToHandleBreakpoints
    {
      && Good(s', code) && UpToDate(s'.table.locations, code) && AllArmed(registers, s'.table.hardware)
      && ThreadsOk(s'.table.locations, code, stoppingToHandleBreakpoints, stepping, causes, threads)
    }

    lemma FineStill(s': State)
      requires RegistersValid() && Threads(stoppingToHandleBreakpoints) && Good(s', code) &&
          UpToDate(s'.table.locations, code)
      requires PatchesShrink(breakpointLocations, s'.table.locations)
      requires SlotsRenewed(hardwareBreakpoints[..], s'.table.hardware)
      ensures FineNext(s')
    {
    }

    method ActivateOne(id: nat, resolved: Option<seq<(nat, nat)>>) returns (activated: bool)
      requires Valid() && RegistersValid() && Threads(true) && id in breakpoints
      requires RefsOk(breakpointLocations, stepping.Some?, breakpoints)
      modifies this`breakpointLocations, this`breakpoints, hardwareBreakpoints
      ensures Valid() && RegistersValid() && Threads(true) && breakpoints.Keys == old(breakpoints).Keys
      ensures !activated ==> breakpointLocations == old(breakpointLocations)
      ensures RefsOk(breakpointLocations, stepping.Some?, breakpoints)
      ensures activated <==> breakpoints[id].active && !old(breakpoints)[id].active
      ensures S() == BreakpointHistory.ActivateBreakpoint(old(S()), id, resolved)
      ensures activated ==> Activatable(old(breakpoints)[id])
      ensures forall x <- breakpoints.Keys :: x != id ==> breakpoints[x] == old(breakpoints)[x]
    {
      hide Good, UpToDate, ThreadsOk, RefsOk, Covered, RegistersShaped, AllArmed;
      ActivatedIsFine(id, resolved);
      var wasActive := breakpoints[id].active;
      ActivateBreakpoint(id, resolved);
      activated := breakpoints[id].active && !wasActive;
    }

    method InsertBreakpoint(id: nat, b: Breakpoint)
      requires Sound() && id !in breakpoints && !b.active && !b.hidden && BreakpointOk(b)
      modifies this`breakpoints
      ensures Sound() && breakpoints == old(breakpoints)[id := b]
    {
      PoolUpdateKeeps(breakpoints, hardwareBreakpoints[..], id, b);
      PoolGrows(breakpointLocations, stepping.Some?, breakpoints, id, b);
      hide RefsOk, ThreadsOk, Inv, DataOk;
      breakpoints := breakpoints[id := b];
    }

    // Fails if the size of a data breakpoint cannot be watched. The breakpoint is added but not ok if activating it
    // fails. loading: symbols that it needs are still being loaded.
    method AddBreakpoint(id: nat, on: BreakpointOn, resolved: map<nat, seq<(nat, nat)>>, loading: bool)
        returns (added: bool, ok: bool)
      requires Sound() && id !in breakpoints
      modifies this`breakpointLocations, this`memory, this`breakpoints, this`registers, this`threads,
               this`stoppingToHandleBreakpoints, this`waitingForSymbols, hardwareBreakpoints
      ensures Sound() && (added <==> (on.OnData? ==> SizeOk(on.watch.size)))
      ensures waitingForSymbols <==> old(waitingForSymbols) || (added && ok && ProcessReady() && loading)
      ensures breakpoints.Keys == old(breakpoints).Keys + if added then {id} else {}
      ensures added && ProcessReady() ==>
                && ActivatedFrom(State(old(T()), old(breakpoints)[id := NewBreakpoint(on)]), id, resolved,
                                 old(stoppingToHandleBreakpoints || AnyThreadRunning()), KnownPcs(old(threads)))
                && (old(AnyThreadRunning()) ==> ok && threads == old(threads) && (stoppingToHandleBreakpoints <==>
                      old(stoppingToHandleBreakpoints) || breakpoints[id].active))
      ensures !added || !ProcessReady() ==> T() == old(T()) && ok == added
      ensures added ==> ok || SomeWriteFailed(old(registers), registers)
      ensures added && !ProcessReady() ==> breakpoints == old(breakpoints)[id := NewBreakpoint(on)]
      ensures OnlyMarked(old(threads), threads)
      ensures added ==> breakpoints[id].on == on
    {
      hide Good, UpToDate, ThreadsOk, RefsOk, AllArmed, Covered, ActivatedFrom, RegistersShaped;
      if on.OnData? && !SizeOk(on.watch.size) {
        return false, false;
      }
      InsertBreakpoint(id, NewBreakpoint(on));
      ok := ActivateIfReady(id, resolved, loading);
      added := true;
    }

    // process_ready
    predicate ProcessReady()
      reads this`targetState
    {
      ProcessReadyAt(targetState)
    }

    // A breakpoint has been activated, in the state s if it could be; and if that changed anything and no thread was
    // running, handle_breakpoints has happened.
    ghost predicate ActivatedFrom(s: State, id: nat, resolved: map<nat, seq<(nat, nat)>>, waits: bool, pcs: set<nat>)
      requires id in s.pool
      reads this`breakpointLocations, this`memory, this`breakpoints, this`stepping, hardwareBreakpoints
    {
      var s' := BreakpointHistory.ActivateBreakpoint(s, id, Lookup(resolved, id));
      if id in s'.pool && s'.pool[id].active && !s.pool[id].active && !waits then Rearmed(s', pcs, StepTid(), S())
      else S() == s'
    }

    lemma ActivatedFromPool(s: State, id: nat, resolved: map<nat, seq<(nat, nat)>>, waits: bool, pcs: set<nat>)
      requires id in s.pool && ActivatedFrom(s, id, resolved, waits, pcs)
      ensures ActivatedPool(s.pool, breakpoints, id)
    {
      var s' := BreakpointHistory.ActivateBreakpoint(s, id, Lookup(resolved, id));
      PoolStaysRefl(s'.pool);
      ActivatesPool(s, id, Lookup(resolved, id), breakpoints);
    }

    method ActivateIfReady(id: nat, resolved: map<nat, seq<(nat, nat)>>, loading: bool) returns (ok: bool)
      requires Sound() && id in breakpoints
      modifies this`breakpointLocations, this`memory, this`breakpoints, this`registers, this`threads,
               this`stoppingToHandleBreakpoints, this`waitingForSymbols, hardwareBreakpoints
      ensures Sound() && breakpoints.Keys == old(breakpoints).Keys
      ensures waitingForSymbols <==> old(waitingForSymbols) || (ok && ProcessReady() && loading)
      ensures ProcessReady() ==>
                ActivatedFrom(old(S()), id, resolved, old(stoppingToHandleBreakpoints || AnyThreadRunning()),
                              KnownPcs(old(threads)))
      ensures ProcessReady() && old(AnyThreadRunning()) ==>
                ok && threads == old(threads) && (stoppingToHandleBreakpoints <==>
                    old(stoppingToHandleBreakpoints) || (!old(breakpoints)[id].active && breakpoints[id].active))
      ensures !ProcessReady() ==> ok && S() == old(S()) && threads == old(threads)
      ensures !ok ==> old(!stoppingToHandleBreakpoints && !AnyThreadRunning())
      ensures ok || SomeWriteFailed(old(registers), registers)
      ensures OnlyMarked(old(threads), threads)
      ensures ActivatedPool(old(breakpoints), breakpoints, id)
    {
      hide Valid, RegistersValid, ThreadsOk, Covered, RefsOk, ActivatedFrom, KnownPcs, OnlyMarked,
          ActivatedPool, SomeWriteFailed;
      ok := true;
      NothingHappened(threads, breakpoints, id);
      if ProcessReady() {
        RelaxThreads();
        ghost var s0, waits, pcs := S(), stoppingToHandleBreakpoints || AnyThreadRunning(), KnownPcs(threads);
        ok := ActivateJustOne(id, resolved);
        ActivatedFromPool(s0, id, resolved, waits, pcs);
        if ok && loading {
          waitingForSymbols := true;
        }
      }
    }

    lemma RelaxThreads()
      requires Threads(stoppingToHandleBreakpoints)
      ensures Threads(true)
    {
    }

    method ActivateJustOne(id: nat, resolved: map<nat, seq<(nat, nat)>>) returns (ok: bool)
      requires Valid() && RegistersValid() && Threads(true) && RefsOk(breakpointLocations, stepping.Some?, breakpoints)
      requires Threads(stoppingToHandleBreakpoints) && id in breakpoints
      modifies this`breakpointLocations, this`memory, this`breakpoints, this`registers, this`threads,
               this`stoppingToHandleBreakpoints, hardwareBreakpoints
      ensures Valid() && RegistersValid() && Threads(stoppingToHandleBreakpoints)
      ensures RefsOk(breakpointLocations, stepping.Some?, breakpoints) && breakpoints.Keys == old(breakpoints).Keys
      ensures ActivatedFrom(old(S()), id, resolved, old(stoppingToHandleBreakpoints || AnyThreadRunning()),
                            KnownPcs(old(threads)))
      ensures old(AnyThreadRunning()) ==>
                ok && threads == old(threads) && (stoppingToHandleBreakpoints <==>
                    old(stoppingToHandleBreakpoints) || (!old(breakpoints)[id].active && breakpoints[id].active))
      ensures !ok ==> old(!stoppingToHandleBreakpoints && !AnyThreadRunning())
      ensures ok || SomeWriteFailed(old(registers), registers)
      ensures OnlyMarked(old(threads), threads)
    {
      hide Valid, RegistersValid, Threads, RefsOk, ActivateEach, Rearmed, KnownPcs, Permutes, Lookup,
          BreakpointHistory.ActivateBreakpoint;
      ghost var s0 := S();
      ghost var any, order, activated;
      ok, any, order, activated := ActivateBreakpoints({id}, resolved);
      OneActivated(s0, order, id, resolved);
    }

    // The user is not offered the hidden breakpoint.
    method RemoveBreakpoint(id: nat) returns (found: bool)
      requires Sound() && (id in breakpoints ==> !breakpoints[id].hidden)
      modifies this`breakpointLocations, this`breakpoints, hardwareBreakpoints
      ensures Sound() && (found <==> id in old(breakpoints))
      ensures if found then S() == Removed(BreakpointHistory.DeactivateBreakpoint(old(S()), id), id)
          else S() == old(S())
      ensures found ==> breakpoints == old(breakpoints) - {id}
      ensures found && Alive() ==> RefsDropped(old(breakpointLocations), breakpointLocations, id)
    {
      if id !in breakpoints {
        return false;
      }
      ghost var s0 := S();
      if Alive() {
        DeactivatedDrops(s0, id);
      }
      hide Sound, BreakpointHistory.DeactivateBreakpoint, RefsDropped;
      Discard(id);
      assert breakpoints == old(breakpoints) - {id} by { DeactivatedRest(s0, id); }
      found := true;
    }

    method Discard(id: nat)
      requires Sound() && id in breakpoints && !breakpoints[id].hidden
      modifies this`breakpointLocations, this`breakpoints, hardwareBreakpoints
      ensures Sound() && S() == Removed(BreakpointHistory.DeactivateBreakpoint(old(S()), id), id)
    {
      hide Inv, RegistersShaped, AllArmed, ThreadsOk, Covered, RefsOk, BreakpointHistory.DeactivateBreakpoint, DataOk;
      DeactivateForGood(id);
      HiddenAfter(old(S()), id);
      RemoveKeeps(breakpoints, hardwareBreakpoints[..], id);
      breakpoints := breakpoints - {id};
    }

    lemma DeactivatedIsFine(id: nat)
      requires Sound() && id in breakpoints
      ensures var s' := BreakpointHistory.DeactivateBreakpoint(S(), id);
              FineNext(s') && (Alive() ==> RefsOk(s'.table.locations, stepping.Some?, s'.pool) &&
                                           RefsOk(s'.table.locations, stepping.Some?, s'.pool - {id}))
    {
      hide DataOk, Inv, UpToDate, ThreadsOk, RefsOk, Covered, RegistersShaped, AllArmed,
          BreakpointHistory.DeactivateBreakpoint;
      DeactivateBreakpointKeeps(S(), code, id);
      if Alive() {
        DeactivateRefsOk(S(), id, stepping.Some?);
      }
      DeactivateOnlyShrinks(S(), id);
      ReleaseRenews(S(), id);
      DeactivatedUpToDate(S(), code, id);
      FineStill(BreakpointHistory.DeactivateBreakpoint(S(), id));
    }

    // Deactivates a breakpoint and leaves no reference to it.
    method DeactivateForGood(id: nat)
      requires Sound() && id in breakpoints
      modifies this`breakpointLocations, this`breakpoints, hardwareBreakpoints
      ensures Sound() && breakpoints.Keys == old(breakpoints).Keys && !breakpoints[id].active
      ensures S() == BreakpointHistory.DeactivateBreakpoint(old(S()), id)
      ensures Alive() ==> RefsOk(breakpointLocations, stepping.Some?, breakpoints - {id})
    {
      hide Good, UpToDate, ThreadsOk, RefsOk, Covered, RegistersShaped, AllArmed;
      DeactivatedIsFine(id);
      DeactivateBreakpoint(id);
    }

    method SetBreakpointEnabled(id: nat, enabled: bool, resolved: map<nat, seq<(nat, nat)>>, loading: bool)
        returns (found: bool, ok: bool)
      requires Sound()
      modifies this`breakpointLocations, this`memory, this`breakpoints, this`registers, this`threads,
               this`stoppingToHandleBreakpoints, this`waitingForSymbols, hardwareBreakpoints
      ensures Sound() && (found <==> id in old(breakpoints)) && breakpoints.Keys == old(breakpoints).Keys
      ensures found && !enabled && old(breakpoints)[id].enabled ==>
                S() == BreakpointHistory.DeactivateBreakpoint(State(old(T()),
                    WithEnabled(old(breakpoints), id, false)), id)
      ensures found && enabled && !old(breakpoints)[id].enabled ==>
                var s := State(old(T()), WithEnabled(old(breakpoints), id, true));
                if ProcessReady() then
                  ActivatedFrom(s, id, resolved, old(stoppingToHandleBreakpoints || AnyThreadRunning()),
                                KnownPcs(old(threads)))
                else S() == s && threads == old(threads)
      ensures (found ==> old(breakpoints)[id].enabled == enabled) ==> S() == old(S()) && threads == old(threads)
      ensures !ok ==> found && enabled && ProcessReady() && old(!stoppingToHandleBreakpoints && !AnyThreadRunning())
      ensures ok || SomeWriteFailed(old(registers), registers)
      ensures OnlyMarked(old(threads), threads)
      ensures found && !enabled ==> !breakpoints[id].enabled
      ensures found && !enabled && old(breakpoints)[id].enabled && Alive() ==>
                RefsDropped(old(breakpointLocations), breakpointLocations, id)
      ensures found && enabled ==> breakpoints[id].enabled || breakpoints[id].on.OnData?
      ensures forall x <- breakpoints.Keys :: x != id && !old(breakpoints)[x].on.OnData? ==>
                breakpoints[x] == old(breakpoints)[x]
    {
      hide Good, UpToDate, ThreadsOk, RefsOk, AllArmed, Covered, ActivatedFrom,
          BreakpointHistory.DeactivateBreakpoint, RegistersShaped, RefsDropped;
      found, ok := id in breakpoints, true;
      if !found || breakpoints[id].enabled == enabled {
        return;
      }
      MarkEnabled(id, enabled);
      ghost var s1 := S();
      if !enabled {
        if Alive() {
          PlacedNow();
          DeactivatedDrops(s1, id);
        }
        DeactivateForGood(id);
        DeactivatedRest(s1, id);
      } else {
        ok := ActivateIfReady(id, resolved, loading);
      }
    }

    lemma PlacedNow()
      requires Sound() && Alive()
      ensures Placed(breakpointLocations, breakpoints)
    {
    }

    method MarkEnabled(id: nat, enabled: bool)
      requires Sound() && id in breakpoints
      modifies this`breakpoints
      ensures Sound() && breakpoints == WithEnabled(old(breakpoints), id, enabled)
    {
      SetEnabledKeeps(breakpoints, hardwareBreakpoints[..], id, enabled);
      PoolSameRefsOk(breakpointLocations, stepping.Some?, breakpoints, id, breakpoints[id].(enabled := enabled));
      hide ThreadsOk, RefsOk, Inv, DataOk;
      breakpoints := breakpoints[id := breakpoints[id].(enabled := enabled)];
    }

    // Data breakpoints only; one that is active takes a slot again with the new access kind.
    method SetStopOnRead(id: nat, stopOnRead: bool, resolved: map<nat, seq<(nat, nat)>>)
        returns (changed: bool, ok: bool)
      requires Sound() && (id in breakpoints ==> breakpoints[id].on.OnData?)
      modifies this`breakpointLocations, this`memory, this`breakpoints, this`registers, this`threads,
               this`stoppingToHandleBreakpoints, this`waitingForSymbols, hardwareBreakpoints
      ensures Sound() && breakpoints.Keys == old(breakpoints).Keys
      ensures changed <==> id in old(breakpoints) && old(breakpoints)[id].on.watch.stopOnRead != stopOnRead
      ensures changed ==>
                var s := BreakpointHistory.DeactivateBreakpoint(State(old(T()),
                    WithStopOnRead(old(breakpoints), id, stopOnRead)), id);
                if ProcessReady() then
                  ActivatedFrom(s, id, resolved, old(stoppingToHandleBreakpoints || AnyThreadRunning()),
                                KnownPcs(old(threads)))
                else S() == s && threads == old(threads)
      ensures !changed ==> S() == old(S()) && threads == old(threads)
      ensures !ok ==> changed && ProcessReady() && old(!stoppingToHandleBreakpoints && !AnyThreadRunning())
      ensures ok || SomeWriteFailed(old(registers), registers)
      ensures OnlyMarked(old(threads), threads)
      ensures id in breakpoints ==>
                breakpoints[id].on == OnData(old(breakpoints)[id].on.watch.(stopOnRead := stopOnRead))
    {
      hide Good, UpToDate, ThreadsOk, RefsOk, AllArmed, Covered, ActivatedFrom, WithStopOnRead,
          BreakpointHistory.DeactivateBreakpoint, RegistersShaped;
      if id !in breakpoints || breakpoints[id].on.watch.stopOnRead == stopOnRead {
        return false, true;
      }
      ChangeStopOnRead(id, stopOnRead);
      ok := ActivateIfReady(id, resolved, false);
      changed := true;
    }

    lemma StopOnReadIsFine(id: nat, stopOnRead: bool)
      requires Sound() && id in breakpoints && breakpoints[id].on.OnData?
      ensures var s' := BreakpointHistory.DeactivateBreakpoint(S().(pool := WithStopOnRead(breakpoints, id,
          stopOnRead)),
                                                               id);
              FineNext(s') && (Alive() ==> RefsOk(s'.table.locations, stepping.Some?, s'.pool))
    {
      hide DataOk, Inv, UpToDate, ThreadsOk, RefsOk, Covered, RegistersShaped, AllArmed,
          BreakpointHistory.DeactivateBreakpoint,
          WithStopOnRead;
      var s := S().(pool := WithStopOnRead(breakpoints, id, stopOnRead));
      StopOnReadKeeps(S(), code, id, stopOnRead);
      if Alive() {
        StopOnReadRefsOk(S(), id, stopOnRead, stepping.Some?);
      }
      DeactivateOnlyShrinks(s, id);
      ReleaseRenews(s, id);
      DeactivatedUpToDate(s, code, id);
      FineStill(BreakpointHistory.DeactivateBreakpoint(s, id));
    }

    method ChangeStopOnRead(id: nat, stopOnRead: bool)
      requires Sound() && id in breakpoints && breakpoints[id].on.OnData?
      modifies this`breakpointLocations, this`breakpoints, hardwareBreakpoints
      ensures Sound() && breakpoints.Keys == old(breakpoints).Keys
      ensures S() == BreakpointHistory.DeactivateBreakpoint(State(old(T()),
          WithStopOnRead(old(breakpoints), id, stopOnRead)), id)
      ensures breakpoints[id].on == OnData(old(breakpoints)[id].on.watch.(stopOnRead := stopOnRead))
    {
      hide Good, UpToDate, ThreadsOk, RefsOk, Covered, RegistersShaped, AllArmed;
      StopOnReadIsFine(id, stopOnRead);
      breakpoints := WithStopOnRead(breakpoints, id, stopOnRead);
      DeactivateBreakpoint(id);
    }

    // ---------- Pending steps ----------

    method ActivateAll(resolved: map<nat, seq<(nat, nat)>>)
      requires Valid() && RegistersValid() && Threads(stoppingToHandleBreakpoints)
      requires RefsOk(breakpointLocations, stepping.Some?, breakpoints)
      modifies this`breakpointLocations, this`memory, this`breakpoints, this`registers, this`threads,
               this`stoppingToHandleBreakpoints, hardwareBreakpoints
      ensures Valid() && RegistersValid() && Threads(stoppingToHandleBreakpoints)
      ensures RefsOk(breakpointLocations, stepping.Some?, breakpoints)
      ensures NothingToActivate(old(breakpoints), resolved) ==>
                && S() == old(S()) && threads == old(threads)
                && stoppingToHandleBreakpoints == old(stoppingToHandleBreakpoints)
      ensures OnlyMarked(old(threads), threads)
    {
      hide Good, UpToDate, ThreadsOk, RefsOk, NotOnPatch, ActivateEach, Rearmed, Permutes, KnownPcs;
      ghost var s0 := S();
      ThreadsOkRelax(breakpointLocations, code, stoppingToHandleBreakpoints, true, stepping, stepping, causes, threads);
      var ok, any, order, activated := ActivateBreakpoints(breakpoints.Keys, resolved);
      if NothingToActivate(s0.pool, resolved) {
        NothingActivated(s0, order, resolved);
      }
    }

    // Resolves breakpoints, starts the pending step if it can be resolved, and lets threads run unless symbols are
    // still needed. Fails where the program would panic: when a step is pending but not in state Stepping.
    method TryPendingStepAndActivateBreakpoints(resolved: map<nat, seq<(nat, nat)>>, res: PendingResolution,
            symbolsNeeded: bool)
      returns (assertionsHold: bool)
      requires Valid() && RegistersValid() && Threads(stoppingToHandleBreakpoints)
      requires RefsOk(breakpointLocations, stepping.Some?, breakpoints)
      requires targetState == ProcessRunning || targetState == ProcessSuspended || targetState == Stepping
      requires stepping.Some? ==> targetState == Stepping
      requires targetState == Stepping && stepping.None? ==> pendingStep.Some?
      modifies this`breakpointLocations, this`memory, this`breakpoints, this`registers, this`threads,
               this`stoppingToHandleBreakpoints, this`stepping, this`targetState, this`pendingStep,
               this`waitingForSymbols, hardwareBreakpoints
      ensures assertionsHold <==> old(PendingOk())
      ensures assertionsHold ==> Sound() && PendingOk()
      ensures assertionsHold && old(pendingStep).Some? ==>
                match res
                case StillLoading => targetState == Stepping && pendingStep == old(pendingStep) && waitingForSymbols
                case At(addrs) => CursorRefsAt(addrs) && targetState == Stepping &&
                    stepping == Some(StepState(old(pendingStep).value, false, false)) && pendingStep.None?
                case _ => targetState == ProcessSuspended && pendingStep.None?
      ensures assertionsHold && (old(pendingStep).None? || res.StillLoading?) &&
              NothingToActivate(old(breakpoints), resolved) ==>
                && S() == old(S()) && stoppingToHandleBreakpoints == old(stoppingToHandleBreakpoints)
                && targetState == old(targetState) && stepping == old(stepping) && pendingStep == old(pendingStep)
                && (waitingForSymbols <==> pendingStep.Some? || symbolsNeeded)
                && if waitingForSymbols then threads == old(threads) else LetRun(old(threads), threads)
      ensures assertionsHold && old(pendingStep).None? ==>
                targetState == old(targetState) && stepping == old(stepping) && pendingStep.None? &&
                    waitingForSymbols == symbolsNeeded
      ensures OthersStopped(old(threads), threads)
    {
      hide Good, UpToDate, ThreadsOk, RefsOk, NotOnPatch, LetRun, RegistersShaped, AllArmed, Covered, RefsAt;
      ActivateAll(resolved);
      if pendingStep.Some? {
        if targetState != Stepping || stepping.Some? {
          return false;
        }
        ResolvePendingStep(res);
      }
      WaitForSymbolsOrRun(symbolsNeeded);
      assertionsHold := true;
    }

    method WaitForSymbolsOrRun(symbolsNeeded: bool)
      requires Valid() && RegistersValid() && Threads(stoppingToHandleBreakpoints)
      requires RefsOk(breakpointLocations, stepping.Some?, breakpoints)
      requires stepping.Some? ==> targetState == Stepping
      requires targetState == Stepping && stepping.None? ==> pendingStep.Some?
      modifies this`waitingForSymbols, this`threads
      ensures Sound() && (waitingForSymbols <==> pendingStep.Some? || symbolsNeeded)
      ensures threads.Keys == old(threads).Keys && (waitingForSymbols ==> threads == old(threads))
      ensures !waitingForSymbols ==> LetRun(old(threads), threads)
      ensures OthersStopped(old(threads), threads)
    {
      hide Good, UpToDate, ThreadsOk, RefsOk;
      waitingForSymbols := pendingStep.Some? || symbolsNeeded;
      if !waitingForSymbols {
        ResumeThreadsIfNeeded();
      }
    }

    method ResolvePendingStep(res: PendingResolution)
      requires Valid() && RegistersValid() && Threads(stoppingToHandleBreakpoints)
      requires RefsOk(breakpointLocations, false, breakpoints)
      requires targetState == Stepping && pendingStep.Some? && stepping.None?
      modifies this`breakpointLocations, this`memory, this`breakpoints, this`registers, this`threads,
               this`stoppingToHandleBreakpoints, this`stepping, this`targetState, this`pendingStep,
               hardwareBreakpoints
      ensures Valid() && RegistersValid() && Threads(stoppingToHandleBreakpoints)
      ensures RefsOk(breakpointLocations, stepping.Some?, breakpoints)
      ensures match res
              case StillLoading => S() == old(S()) && threads == old(threads)
                                   && stoppingToHandleBreakpoints == old(stoppingToHandleBreakpoints) &&
                                       targetState == Stepping && pendingStep == old(pendingStep) && stepping.None?
              case At(addrs) => CursorRefsAt(addrs) && targetState == Stepping &&
                  stepping == Some(StepState(old(pendingStep).value, false, false)) && pendingStep.None?
              case _ => targetState == ProcessSuspended && pendingStep.None? && stepping.None?
      ensures OnlyMarked(old(threads), threads)
    {
      hide Good, UpToDate, ThreadsOk, RefsOk, NotOnPatch, RegistersShaped, AllArmed, Covered, RefsAt;
      match res
      case StillLoading =>
      case At(addrs) => StepToCursorNow(addrs);
      case _ => targetState, pendingStep := ProcessSuspended, None;
    }

    // A breakpoint of a step to the cursor is at each address.
    ghost predicate CursorRefsAt(addrs: seq<(nat, nat)>)
      reads this`breakpointLocations
    {
      forall a <- addrs :: Step(Cursor(a.1)) in RefsAt(breakpointLocations, a.0)
    }

    method StepToCursorNow(addrs: seq<(nat, nat)>)
      requires Valid() && RegistersValid() && Threads(stoppingToHandleBreakpoints)
      requires RefsOk(breakpointLocations, false, breakpoints)
      requires pendingStep.Some? && stepping.None?
      modifies this`breakpointLocations, this`memory, this`breakpoints, this`registers, this`threads,
               this`stoppingToHandleBreakpoints, this`stepping, this`pendingStep, hardwareBreakpoints
      ensures Valid() && RegistersValid() && Threads(stoppingToHandleBreakpoints)
      ensures RefsOk(breakpointLocations, true, breakpoints)
      ensures stepping == Some(StepState(old(pendingStep).value, false, false)) && pendingStep.None?
      ensures OnlyMarked(old(threads), threads) && CursorRefsAt(addrs)
    {
      hide Good, UpToDate, RegistersShaped, AllArmed, ThreadsOk, Covered, RefsOk, NotOnPatch, Rearmed, OnlyMarked,
          AddSteps, RefsAt, KnownPcs;
      var step := StepState(pendingStep.value, false, false);
      var steps := seq(|addrs|, i requires 0 <= i < |addrs| => (Cursor(addrs[i].1), addrs[i].0));
      CursorStepsOk(S(), code, stoppingToHandleBreakpoints, step, causes, threads, steps);
      stepping, pendingStep := Some(step), None;
      ghost var t0 := T();
      AddStepReferences(steps);
      StepsAdded(t0, steps);
      ghost var s1, pcs := S(), KnownPcs(threads);
      var handled := ArrangeHandleBreakpoints();
      if !stoppingToHandleBreakpoints {
        RearmedKeepsSteps(s1, code, pcs, StepTid(), S(), steps);
      }
      forall a | a in addrs ensures Step(Cursor(a.1)) in RefsAt(breakpointLocations, a.0) {
        var i :| 0 <= i < |addrs| && addrs[i] == a;
        assert steps[i] in steps;
      }
    }

    method StepToCursor(tid: nat, resolved: map<nat, seq<(nat, nat)>>, res: PendingResolution, symbolsNeeded: bool)
        returns (ok: bool)
      requires Sound()
      modifies this`breakpointLocations, this`memory, this`breakpoints, this`registers, this`threads,
               this`stoppingToHandleBreakpoints, this`stepping, this`targetState, this`pendingStep,
               this`waitingForSymbols, hardwareBreakpoints
      ensures Sound()
      ensures ok <==> ProcessReadyAt(old(targetState)) && tid in old(threads)
      ensures ok || old(PendingOk()) ==> PendingOk()
      ensures !ok ==> targetState == old(targetState) && stepping == old(stepping) && pendingStep == old(pendingStep)
      ensures ok && res.At? ==> stepping == Some(StepState(tid, false, false)) && CursorRefsAt(res.addrs)
      ensures ok && NothingToActivate(old(breakpoints), resolved) && res.StillLoading? && old(stepping).None? ==>
                && S() == old(S()) && threads == old(threads)
                && targetState == Stepping && stepping.None? && pendingStep == Some(tid)
      ensures OthersStopped(old(threads), threads)
    {
      hide Valid, RegistersValid, ThreadsOk, Covered, RefsOk, LetRun, DropRefs, NothingToActivate;
      if !ProcessReady() || tid !in threads {
        return false;
      }
      CancelStepping();
      pendingStep, targetState := Some(tid), Stepping;
      var assertionsHold := TryPendingStepAndActivateBreakpoints(resolved, res, symbolsNeeded);
      assert assertionsHold;
      ok := true;
    }

    // ---------- SIGTRAP ----------

    // The part of handle_breakpoint_trap that tells why the thread stopped. The instruction pointer moves back
    // exactly if the thread hit the debugger's own int3.
    method ClassifyTrap(tid: nat, si: SiCode, hwHits: set<nat>) returns (onSoftware: bool, addr: nat, isDebugTrap: bool)
      requires Sound() && tid in threads && threads[tid].state == Running && !threads[tid].exiting
      requires tid in causes && Reported(causes[tid], threads[tid], si, hwHits)
      modifies this`threads, this`causes
      ensures causes == old(causes) - {tid}
      ensures var t := old(threads)[tid];
              threads == old(threads)[tid := AfterTrap(t, PcAfter(old(causes)[tid], code, t))]
      ensures Threads(true) && ThreadsExcept(tid)
      ensures onSoftware <==> StoppedOnSoftware(si, hwHits, old(threads)[tid].singleStepping)
      ensures addr == if onSoftware then old(threads)[tid].pc - 1 else old(threads)[tid].pc
      ensures isDebugTrap <==> OriginalByte(code, addr) == INT3
      ensures NeedsStep(stepping, tid) || !isDebugTrap ==> addr == threads[tid].pc
    {
      hide Valid, RegistersValid, StepOk, ThreadsOk, ThreadsOkExcept, Covered, OriginalByte, PcAfterTrap, Reported,
          PcAfter, CauseOf;
      var t := threads[tid];
      CanStopOnSoftware(tid, si, hwHits);
      ghost var pc0 := PcAfterTrap(breakpointLocations, memory, t, si, hwHits);
      var pc: nat;
      onSoftware, addr, isDebugTrap, pc := ReadTrap(t, si, hwHits);
      CoveredUpdate(threads, registers, tid, AfterTrap(t, pc));
      causes := causes - {tid};
      threads := threads[tid := t.(state := Suspended, pc := pc, rip := Some(pc), singleStepping := false,
                                   ignoreNextHitAt := None, trapQueued := false)];
    }

    lemma CanStopOnSoftware(tid: nat, si: SiCode, hwHits: set<nat>)
      requires Sound() && tid in threads && threads[tid].state == Running && !threads[tid].exiting
      requires tid in causes && Reported(causes[tid], threads[tid], si, hwHits)
      ensures StoppedOnSoftware(si, hwHits, threads[tid].singleStepping) ==>
                threads[tid].pc > 0 && !NeedsStep(stepping, tid)
      ensures var pc := PcAfterTrap(breakpointLocations, memory, threads[tid], si, hwHits);
              && pc == PcAfter(causes[tid], code, threads[tid])
              && var threads' := threads[tid := AfterTrap(threads[tid], pc)];
                 && ThreadsOk(breakpointLocations, code, true, stepping, causes - {tid}, threads')
                 && ThreadsOkExcept(breakpointLocations, code, stoppingToHandleBreakpoints, stepping, causes - {tid},
                                    threads', tid)
    {
      hide UpToDate, ThreadsOk, ThreadsOkExcept, Covered, AllArmed, RefsOk, DataOk, PatchOk, PcAfterTrap, PcAfter,
          Reported;
      TrapHandled(T(), code, stoppingToHandleBreakpoints, stepping, causes, threads, tid, si, hwHits);
    }

    // What the trap is about, and where the thread is to go on.
    method ReadTrap(t: Thread, si: SiCode, hwHits: set<nat>)
      returns (onSoftware: bool, addr: nat, isDebugTrap: bool, pc: nat)
      requires Valid() && (StoppedOnSoftware(si, hwHits, t.singleStepping) ==> t.pc > 0)
      ensures onSoftware <==> StoppedOnSoftware(si, hwHits, t.singleStepping)
      ensures addr == if onSoftware then t.pc - 1 else t.pc
      ensures isDebugTrap <==> OriginalByte(code, addr) == INT3
      ensures pc == PcAfterTrap(breakpointLocations, memory, t, si, hwHits)
      ensures !onSoftware || !isDebugTrap ==> addr == pc
    {
      hide Inv, DataOk, OriginalByte, ProgramByte;
      onSoftware := (si == TrapBrkpt || si == Kernel) && hwHits == {} && !t.singleStepping;
      addr := if onSoftware then t.pc - 1 else t.pc;
      isDebugTrap := IsProgramTrap(addr);
      ProgramByteIsOriginal(T(), code, addr);
      pc := if onSoftware && !isDebugTrap then addr else t.pc;
    }

    // Whether the program itself has an int3 at an address.
    method IsProgramTrap(addr: nat) returns (r: bool)
      requires Valid()
      ensures r <==> OriginalByte(code, addr) == INT3
    {
      ProgramByteIsOriginal(T(), code, addr);
      var idx := LowerBound(breakpointLocations, addr);
      if idx < |breakpointLocations| && breakpointLocations[idx].addr == addr {
        r := breakpointLocations[idx].originalByte == INT3;
      } else {
        r := addr in memory && memory[addr] == INT3;
      }
    }

    // Looks at the references of the location that was hit: a software one has to become hardware before the thread
    // goes on, and one without references is deactivated on the spot.
    method HitLocation(tid: nat, addr: nat, spurious: bool, ignore: bool, stops: set<nat>)
      returns (hit: bool, singleStep: bool, refresh: bool, referenced: bool)
      requires Valid() && RegistersValid() && Threads(true) && RefsOk(breakpointLocations, stepping.Some?, breakpoints)
      requires tid in threads && threads[tid].state == Suspended && !threads[tid].exiting &&
          !threads[tid].singleStepping
      requires NeedsStep(stepping, tid) ==> addr == threads[tid].pc
      requires ThreadsExcept(tid)
      modifies this`breakpointLocations, this`memory, this`stoppingToHandleBreakpoints, hardwareBreakpoints
      ensures Valid() && RegistersValid() && Threads(stoppingToHandleBreakpoints) &&
          RefsOk(breakpointLocations, stepping.Some?, breakpoints)
      ensures stoppingToHandleBreakpoints || !PatchedAt(breakpointLocations, addr)
      ensures singleStep ==> OriginalByte(code, addr) != INT3
      ensures referenced <==> RefsAt(old(breakpointLocations), addr) != []
      ensures hit <==> Stops(RefsAt(old(breakpointLocations), addr), spurious, ignore, stops, breakpoints)
      ensures refresh <==> Refreshes(RefsAt(old(breakpointLocations), addr), spurious, breakpoints)
      ensures singleStep <==> StepsOver(RefsAt(old(breakpointLocations), addr), stepping, tid)
      ensures RefsAt(old(breakpointLocations), addr) == [] ==>
                forall l <- breakpointLocations :: l.addr == addr ==> !l.active
    {
      hide Good, UpToDate, ThreadsOk, RefsOk, Covered, ThreadsOkExcept, RegistersShaped, AllArmed, PatchedAt, Stops,
          StepsOver,
          Refreshes, OriginalByte;
      hit, singleStep, refresh, referenced := false, false, false, false;
      var idx := LowerBound(breakpointLocations, addr);
      if idx == |breakpointLocations| || breakpointLocations[idx].addr != addr {
        NothingHit(addr, tid);
        return;
      }
      RefsHit(idx);
      NoOverInt3(breakpointLocations[idx].breakpoints, OriginalByte(code, addr), stepping, tid);
      referenced := breakpointLocations[idx].breakpoints != [];
      hit, singleStep, refresh := ScanReferences(breakpointLocations[idx].breakpoints, tid, spurious, ignore, stops);
      HitLocationAt(idx, tid);
    }

    lemma NothingHit(addr: nat, tid: nat)
      requires Valid() && Threads(true)
      requires ThreadsExcept(tid)
      requires tid in threads && !threads[tid].singleStepping && (NeedsStep(stepping, tid) ==> addr == threads[tid].pc)
      requires var i := LowerBound(breakpointLocations, addr);
               i == |breakpointLocations| || breakpointLocations[i].addr != addr
      ensures Threads(stoppingToHandleBreakpoints) && !PatchedAt(breakpointLocations, addr)
      ensures RefsAt(breakpointLocations, addr) == []
      ensures forall spurious, ignore, stops, pool :: !Stops([], spurious, ignore, stops, pool)
      ensures forall spurious, pool :: !Refreshes([], spurious, pool)
      ensures !StepsOver([], stepping, tid)
      ensures forall l <- breakpointLocations :: l.addr != addr
    {
      NobodyThere(breakpointLocations, addr);
      hide DataOk, ThreadsOk, ThreadsOkExcept, Covered;
      NothingAt(T(), code, addr);
      ThreadsOkComplete(breakpointLocations, code, stoppingToHandleBreakpoints, stepping, causes, threads, tid);
    }

    lemma RefsHit(idx: nat)
      requires Valid() && RefsOk(breakpointLocations, stepping.Some?, breakpoints) && idx < |breakpointLocations|
      ensures forall r <- breakpointLocations[idx].breakpoints ::
                && (r.Step? ==> stepping.Some?) && (r.Id? ==> r.id in breakpoints)
                && (r.Step? && NeedsSingleStep(r.t) ==> OriginalByte(code, breakpointLocations[idx].addr) != INT3)
    {
      var l := breakpointLocations[idx];
      forall r | r in l.breakpoints ensures RefOk(l, r, stepping.Some?) && (r.Id? ==> r.id in breakpoints) {
        assert l in breakpointLocations;
        if r.Id? {
          Referred(breakpointLocations, breakpoints, l, r);
        }
      }
    }

    method HitLocationAt(idx: nat, tid: nat)
      requires Valid() && RegistersValid() && Threads(true) &&
          RefsOk(breakpointLocations, stepping.Some?, breakpoints) &&
          idx < |breakpointLocations|
      requires tid in threads && !threads[tid].singleStepping
      requires NeedsStep(stepping, tid) ==> breakpointLocations[idx].addr == threads[tid].pc
      requires ThreadsExcept(tid)
      modifies this`breakpointLocations, this`memory, this`stoppingToHandleBreakpoints, hardwareBreakpoints
      ensures Valid() && RegistersValid() && Threads(stoppingToHandleBreakpoints) &&
          RefsOk(breakpointLocations, stepping.Some?, breakpoints)
      ensures stoppingToHandleBreakpoints || !PatchedAt(breakpointLocations, old(breakpointLocations)[idx].addr)
      ensures old(breakpointLocations)[idx].breakpoints == [] ==>
                forall l <- breakpointLocations :: l.addr == old(breakpointLocations)[idx].addr ==> !l.active
    {
      hide Inv, UpToDate, DataOk, ThreadsOk, RefsOk, ThreadsOkExcept, PatchedAt;
      var l := breakpointLocations[idx];
      LocationHit(T(), code, idx, stoppingToHandleBreakpoints, stoppingToHandleBreakpoints ||
          !l.hardware, stepping, causes, threads, tid, breakpoints);
      GoodAfterStaleHit(S(), code, idx);
      DeactivateUpToDate(T(), idx, code);
      DeactivateRenews(T(), idx);
      AllStayArmed(registers, hardwareBreakpoints[..], Deactivate(T(), idx).hardware);
      if l.breakpoints == [] {
        SortedGood(S().(table := Deactivate(T(), idx)), code);
        OneThere(Deactivate(T(), idx).locations, idx);
        DeactivateBreakpointLocation(idx);
      }
      if !l.hardware {
        stoppingToHandleBreakpoints := true;
      }
    }

    // Step references concern the stepping thread only; a step is in progress if there are any. A hidden breakpoint is
    // the one on library loads: whatever is ignored, it makes the debugger look for libraries, and never stops.
    method ScanReferences(refs: seq<BreakpointRef>, tid: nat, spurious: bool, ignore: bool, stops: set<nat>)
      returns (hit: bool, singleStep: bool, refresh: bool)
      requires Valid()
      requires forall r <- refs :: (r.Step? ==> stepping.Some?) && (r.Id? ==> r.id in breakpoints)
      ensures hit <==> Stops(refs, spurious, ignore, stops, breakpoints)
      ensures singleStep <==> StepsOver(refs, stepping, tid)
      ensures refresh <==> Refreshes(refs, spurious, breakpoints)
    {
      hit, singleStep, refresh := false, false, false;
      assert forall id <- breakpoints.Keys :: BreakpointOk(breakpoints[id]);
      hide Valid, NeedsSingleStep;
      var i := 0;
      while i < |refs|
        invariant i <= |refs|
        invariant hit <==> Stops(refs[..i], spurious, ignore, stops, breakpoints)
        invariant singleStep <==> StepsOver(refs[..i], stepping, tid)
        invariant refresh <==> Refreshes(refs[..i], spurious, breakpoints)
      {
        assert refs[..i + 1] == refs[..i] + [refs[i]] && refs[i] in refs;
        match refs[i] {
          case Step(t) =>
            if stepping.value.tid == tid && NeedsSingleStep(t) {
              singleStep := true;
            }
          case Id(id, _) =>
            var b := breakpoints[id];
            if !spurious && b.hidden {
              match b.on {
                case OnPoint(LibraryLoad) => refresh := true;
                case _ => assert false;
              }
            } else if !spurious && id in stops && !ignore {
              hit := true;
            }
        }
        i := i + 1;
      }
      assert refs[..i] == refs;
    }

    // Whether a data breakpoint that stops the thread is among the slots reported as hit.
    method ScanSlots(hwHits: set<nat>, ignore: bool, stops: set<nat>) returns (hit: bool)
      requires Valid()
      ensures hit <==> DataStops(hardwareBreakpoints[..], hwHits, ignore, stops)
    {
      hit := false;
      var k := 0;
      while k < 4
        invariant k <= 4
        invariant hit <==> !ignore && exists m :: 0 <= m < k && m in hwHits && DataSlot(hardwareBreakpoints[m])
                                                  && hardwareBreakpoints[m].dataBreakpointId.value in stops
      {
        var h := hardwareBreakpoints[k];
        if k in hwHits && h.active && h.dataBreakpointId.Some? && !ignore && h.dataBreakpointId.value in stops {
          hit := true;
        }
        k := k + 1;
      }
    }

    // A live thread has been stopped by SIGTRAP. stops: the breakpoints whose conditions hold now; stepDone: the step
    // is found complete, or else more: it needs these breakpoints too.
    method ProcessTrap(tid: nat, si: SiCode, hwHits: set<nat>, stops: set<nat>, stepDone: bool,
                       more: seq<(StepBreakpointType, nat)>) returns (hit: bool, refresh: bool)
      requires Sound() && Alive() && tid in threads && threads[tid].state == Running && !threads[tid].exiting
      requires tid in causes && Reported(causes[tid], threads[tid], si, hwHits)
      requires forall p <- more :: NeedsSingleStep(p.0) ==> OriginalByte(code, p.1) != INT3
      modifies this`breakpointLocations, this`memory, this`breakpoints, this`registers, this`threads,
               this`stoppingToHandleBreakpoints, this`stepping, this`pendingStep, this`targetState, this`causes,
               hardwareBreakpoints
      ensures Sound() && causes == old(causes) - {tid}
      ensures tid in threads && threads[tid].pc == PcAfter(old(causes)[tid], code, old(threads)[tid])
      ensures threads[tid].pc == RightPc(old(causes)[tid], code, old(threads)[tid])
              <==> !Misread(old(causes)[tid], code, old(threads)[tid])
      ensures !old(threads)[tid].trapQueued ==> !Misread(old(causes)[tid], code, old(threads)[tid])
      ensures if hit then targetState == ProcessSuspended && stepping.None?
              else targetState == old(targetState) && stepping == old(stepping)
      ensures TrapAddr(old(threads)[tid], si, hwHits) >= 0
      ensures !(old(stepping).Some? && old(stepping).value.tid == tid && stepDone) ==>
                var t := old(threads)[tid];
                var addr := TrapAddr(t, si, hwHits);
                addr >= 0 && (hit <==> TrapHit(old(RefsAt(breakpointLocations, addr)), hardwareBreakpoints[..],
                                               OriginalByte(code, addr) == INT3, si, hwHits,
                                               Spurious(t, hwHits), old(IgnoresBreakpoints()), stops, old(breakpoints)))
      ensures threads == old(threads)[tid := threads[tid]] && threads[tid].exiting == old(threads)[tid].exiting
      ensures threads[tid].state == if hit || stoppingToHandleBreakpoints then Suspended else Running
      ensures !hit && old(stepping).Some? && old(stepping).value.tid == tid && more != [] ==>
                StepRefsAt(more) && stoppingToHandleBreakpoints
      ensures PoolStays(old(breakpoints), breakpoints)
      ensures refresh <==> old(var t := threads[tid];
          Refreshes(RefsAt(breakpointLocations, TrapAddr(t, si, hwHits)), Spurious(t, hwHits), breakpoints))
      ensures !hit && old(StepsOver(RefsAt(breakpointLocations, TrapAddr(threads[tid], si, hwHits)), stepping, tid)) ==>
                threads[tid].singleStepping
      ensures old(stepping).Some? && old(stepping).value.tid == tid && stepDone ==> hit
      ensures old(PendingOk()) ==> PendingOk()
      ensures TrapTaken(old(threads)[tid], threads[tid],
                        OriginalByte(code, TrapAddr(old(threads)[tid], si, hwHits)) == INT3)
      ensures !(old(stepping).Some? && old(stepping).value.tid == tid) ==> !threads[tid].singleStepping
    {
      hide StepRefsAt, PoolStays, Good, UpToDate, ThreadsOk, RefsOk, PcAfter, Misread, RightPc, Reported, TrapHit,
          RefsAt, Spurious, RegistersShaped, AllArmed, Covered, OriginalByte, TrapAddr, Refreshes, StepsOver;
      TrapReadRight(breakpointLocations, code, stoppingToHandleBreakpoints, stepping, causes, threads, tid);
      hit, refresh := StopForTrap(tid, si, hwHits, stops, stepDone, more);
      var forceResume := !hit && !stoppingToHandleBreakpoints;
      if forceResume || TargetStateForThread(tid) == Running {
        ResumeStopped(tid);
      }
    }

    // What happens before the thread is let run again, if it is.
    method StopForTrap(tid: nat, si: SiCode, hwHits: set<nat>, stops: set<nat>, stepDone: bool,
                       more: seq<(StepBreakpointType, nat)>) returns (hit: bool, refresh: bool)
      requires Sound() && Alive() && tid in threads && threads[tid].state == Running && !threads[tid].exiting
      requires tid in causes && Reported(causes[tid], threads[tid], si, hwHits)
      requires forall p <- more :: NeedsSingleStep(p.0) ==> OriginalByte(code, p.1) != INT3
      modifies this`breakpointLocations, this`memory, this`breakpoints, this`registers, this`threads,
               this`stoppingToHandleBreakpoints, this`stepping, this`pendingStep, this`targetState, this`causes,
               hardwareBreakpoints
      ensures Sound() && causes == old(causes) - {tid}
      ensures tid in threads && threads[tid].state == Suspended &&
          threads[tid].pc == PcAfter(old(causes)[tid], code, old(threads)[tid])
      ensures if hit then targetState == ProcessSuspended && stepping.None?
              else targetState == old(targetState) && stepping == old(stepping)
      ensures TrapAddr(old(threads)[tid], si, hwHits) >= 0
      ensures !(old(stepping).Some? && old(stepping).value.tid == tid && stepDone) ==>
                var t := old(threads)[tid];
                var addr := TrapAddr(t, si, hwHits);
                addr >= 0 && (hit <==> TrapHit(old(RefsAt(breakpointLocations, addr)), hardwareBreakpoints[..],
                                               OriginalByte(code, addr) == INT3, si, hwHits,
                                               Spurious(t, hwHits), old(IgnoresBreakpoints()), stops, old(breakpoints)))
      ensures threads == old(threads)[tid := threads[tid]] && threads[tid].exiting == old(threads)[tid].exiting
      ensures !hit && old(stepping).Some? && old(stepping).value.tid == tid && more != [] ==>
                StepRefsAt(more) && stoppingToHandleBreakpoints
      ensures PoolStays(old(breakpoints), breakpoints)
      ensures refresh <==> old(var t := threads[tid];
          Refreshes(RefsAt(breakpointLocations, TrapAddr(t, si, hwHits)), Spurious(t, hwHits), breakpoints))
      ensures !hit && old(StepsOver(RefsAt(breakpointLocations, TrapAddr(threads[tid], si, hwHits)), stepping, tid)) ==>
                threads[tid].singleStepping
      ensures old(stepping).Some? && old(stepping).value.tid == tid && stepDone ==> hit
      ensures old(PendingOk()) ==> PendingOk()
      ensures TrapTaken(old(threads)[tid], threads[tid],
                        OriginalByte(code, TrapAddr(old(threads)[tid], si, hwHits)) == INT3)
      ensures !(old(stepping).Some? && old(stepping).value.tid == tid) ==> !threads[tid].singleStepping
    {
      hide StepRefsAt, PoolStays, Good, UpToDate, ThreadsOk, RefsOk, PcAfter, Reported, TrapHit, RefsAt, OriginalByte,
          NeedsSingleStep, RegistersShaped, AllArmed, Covered;
      ghost var t, locs, pool := threads[tid], breakpointLocations, breakpoints;
      hit, refresh := HandleBreakpointHits(tid, si, hwHits, stops);
      NoHitWhileIgnoring(RefsAt(locs, TrapAddr(t, si, hwHits)), hardwareBreakpoints[..],
          OriginalByte(code, TrapAddr(t, si, hwHits)) == INT3, si, hwHits, Spurious(t, hwHits), stops, pool);
      hit := FinishStop(tid, hit, stepDone, more);
    }

    // Breakpoints are ignored during a step, and once the process is to be suspended.
    predicate IgnoresBreakpoints()
      reads this`stepping, this`pendingStep, this`targetState
    {
      stepping.Some? || pendingStep.Some? || targetState == ProcessSuspended
    }

    method HandleBreakpointHits(tid: nat, si: SiCode, hwHits: set<nat>, stops: set<nat>)
        returns (hit: bool, refresh: bool)
      requires Sound() && Alive() && tid in threads && threads[tid].state == Running && !threads[tid].exiting
      requires tid in causes && Reported(causes[tid], threads[tid], si, hwHits)
      modifies this`breakpointLocations, this`memory, this`breakpoints, this`registers, this`threads,
               this`stoppingToHandleBreakpoints, this`causes, hardwareBreakpoints
      ensures Valid() && RegistersValid() && Threads(stoppingToHandleBreakpoints) &&
          RefsOk(breakpointLocations, stepping.Some?, breakpoints)
      ensures causes == old(causes) - {tid} && tid in threads && threads[tid].state == Suspended
      ensures var t := old(threads)[tid];
              var addr := TrapAddr(t, si, hwHits);
              addr >= 0 && (hit <==> TrapHit(old(RefsAt(breakpointLocations, addr)), hardwareBreakpoints[..],
                  OriginalByte(code, addr) == INT3, si, hwHits,
                                             Spurious(t, hwHits), old(IgnoresBreakpoints()), stops, old(breakpoints)))
      ensures threads == old(threads)[tid := threads[tid]] && threads[tid].exiting == old(threads)[tid].exiting
      ensures PoolStays(old(breakpoints), breakpoints)
      ensures refresh <==> old(var t := threads[tid];
          Refreshes(RefsAt(breakpointLocations, TrapAddr(t, si, hwHits)), Spurious(t, hwHits), breakpoints))
      ensures threads[tid].singleStepping <==>
                old(StepsOver(RefsAt(breakpointLocations, TrapAddr(threads[tid], si, hwHits)), stepping, tid))
      ensures threads[tid].pc == PcAfter(old(causes)[tid], code, old(threads)[tid])
      ensures TrapTaken(old(threads)[tid], threads[tid],
                        OriginalByte(code, TrapAddr(old(threads)[tid], si, hwHits)) == INT3)
    {
      hide Good, UpToDate, ThreadsOk, RefsOk, ThreadsOkExcept, PcAfter, Reported, PatchedAt, Stops, StepsOver,
          DataStops, OriginalByte, RefsAt, TrapHit, SameRefs, RegistersShaped, AllArmed, Covered, TrapAddr, Refreshes;
      ghost var locs, pool := breakpointLocations, breakpoints;
      var spurious := Spurious(threads[tid], hwHits);
      var ignore := IgnoresBreakpoints();
      var addr, isDebugTrap := TakeTrap(tid, si, hwHits);
      SameRefsAt(locs, breakpointLocations, addr);
      RefsStay(locs, stepping.Some?, pool, breakpoints, addr);
      ghost var before, after := RefsAt(locs, addr), RefsAt(breakpointLocations, addr);
      SameStepsOver(before, after, stepping, tid);
      hit, refresh := ReactToTrap(tid, addr, isDebugTrap, si, hwHits, spurious, ignore, stops);
      SameTrapHit(before, after, hardwareBreakpoints[..], isDebugTrap, si, hwHits, spurious, ignore, stops, pool,
          breakpoints);
    }

    // Stops the thread at the address that the trap is about.
    method TakeTrap(tid: nat, si: SiCode, hwHits: set<nat>) returns (addr: nat, isDebugTrap: bool)
      requires Sound() && Alive() && tid in threads && threads[tid].state == Running && !threads[tid].exiting
      requires tid in causes && Reported(causes[tid], threads[tid], si, hwHits)
      modifies this`breakpointLocations, this`memory, this`breakpoints, this`registers, this`threads, this`causes,
               hardwareBreakpoints
      ensures Valid() && RegistersValid() && Threads(true) && RefsOk(breakpointLocations, stepping.Some?, breakpoints)
      ensures causes == old(causes) - {tid} && ThreadsExcept(tid)
      ensures threads == old(threads)[tid := AfterTrap(old(threads)[tid],
                                                       PcAfter(old(causes)[tid], code, old(threads)[tid]))]
      ensures addr == TrapAddr(old(threads)[tid], si, hwHits)
      ensures isDebugTrap <==> OriginalByte(code, addr) == INT3
      ensures NeedsStep(stepping, tid) || !isDebugTrap ==> addr == threads[tid].pc
      ensures SameRefs(old(breakpointLocations), breakpointLocations) && PoolStays(old(breakpoints), breakpoints)
    {
      hide Good, UpToDate, ThreadsOk, RefsOk, ThreadsOkExcept, PcAfter, Reported, OriginalByte, SameRefs,
          RegistersShaped, AllArmed, Covered;
      SameRefsRefl(breakpointLocations);
      var onSoftware;
      onSoftware, addr, isDebugTrap := ClassifyTrap(tid, si, hwHits);
      if hwHits != {} {
        // In case the slot that was hit is stale.
        RefreshDebugRegisters(tid);
      }
    }

    method ReactToTrap(tid: nat, addr: nat, isDebugTrap: bool, si: SiCode, hwHits: set<nat>, spurious: bool,
                       ignore: bool, stops: set<nat>) returns (hit: bool, refresh: bool)
      requires Valid() && RegistersValid() && Threads(true) && RefsOk(breakpointLocations, stepping.Some?, breakpoints)
      requires tid in threads && threads[tid].state == Suspended && !threads[tid].exiting &&
          !threads[tid].singleStepping
      requires isDebugTrap <==> OriginalByte(code, addr) == INT3
      requires NeedsStep(stepping, tid) || !isDebugTrap ==> addr == threads[tid].pc
      requires ThreadsExcept(tid)
      modifies this`breakpointLocations, this`memory, this`stoppingToHandleBreakpoints, this`threads,
               hardwareBreakpoints
      ensures Valid() && RegistersValid() && Threads(stoppingToHandleBreakpoints) &&
          RefsOk(breakpointLocations, stepping.Some?, breakpoints)
      ensures tid in threads && threads[tid].state == Suspended && threads[tid].pc == old(threads)[tid].pc
      ensures hit <==> TrapHit(RefsAt(old(breakpointLocations), addr), hardwareBreakpoints[..], isDebugTrap, si, hwHits,
                               spurious, ignore, stops, breakpoints)
      ensures threads == old(threads)[tid := threads[tid]] && threads[tid].exiting == old(threads)[tid].exiting
      ensures refresh <==> Refreshes(RefsAt(old(breakpointLocations), addr), spurious, breakpoints)
      ensures threads[tid].singleStepping <==> StepsOver(RefsAt(old(breakpointLocations), addr), stepping, tid)
      ensures threads[tid].afterUserDebugTrap <==> old(threads)[tid].afterUserDebugTrap || isDebugTrap
      ensures threads[tid] == old(threads)[tid].(singleStepping := threads[tid].singleStepping,
                                                 afterUserDebugTrap := threads[tid].afterUserDebugTrap)
    {
      hide Good, UpToDate, ThreadsOk, RefsOk, ThreadsOkExcept, PatchedAt, StepsOver, RefsAt, TrapHit, OriginalByte,
          RegistersShaped, AllArmed, Covered;
      var singleStep: bool;
      hit, singleStep, refresh := FindHit(tid, addr, isDebugTrap, si, hwHits, spurious, ignore, stops);
      FlagThread(tid, singleStep, isDebugTrap);
    }

    method FindHit(tid: nat, addr: nat, isDebugTrap: bool, si: SiCode, hwHits: set<nat>, spurious: bool, ignore: bool,
                   stops: set<nat>) returns (hit: bool, singleStep: bool, refresh: bool)
      requires Valid() && RegistersValid() && Threads(true) && RefsOk(breakpointLocations, stepping.Some?, breakpoints)
      requires tid in threads && threads[tid].state == Suspended && !threads[tid].exiting &&
          !threads[tid].singleStepping
      requires NeedsStep(stepping, tid) || !isDebugTrap ==> addr == threads[tid].pc
      requires isDebugTrap <==> OriginalByte(code, addr) == INT3
      requires ThreadsExcept(tid)
      modifies this`breakpointLocations, this`memory, this`stoppingToHandleBreakpoints, hardwareBreakpoints
      ensures Valid() && RegistersValid() && Threads(stoppingToHandleBreakpoints) &&
          RefsOk(breakpointLocations, stepping.Some?, breakpoints)
      ensures hit <==> TrapHit(RefsAt(old(breakpointLocations), addr), hardwareBreakpoints[..], isDebugTrap, si, hwHits,
                               spurious, ignore, stops, breakpoints)
      ensures singleStep <==> StepsOver(RefsAt(old(breakpointLocations), addr), stepping, tid)
      ensures refresh <==> Refreshes(RefsAt(old(breakpointLocations), addr), spurious, breakpoints)
      ensures singleStep ==> stoppingToHandleBreakpoints || !PatchedAt(breakpointLocations, threads[tid].pc)
    {
      hide Good, UpToDate, ThreadsOk, RefsOk, ThreadsOkExcept, PatchedAt, Stops, StepsOver, DataStops, RefsAt,
          OriginalByte, RegistersShaped, AllArmed, Covered;
      var referenced: bool;
      hit, singleStep, refresh, referenced := HitLocation(tid, addr, spurious, ignore, stops);
      var dataHit := ScanSlots(hwHits, ignore, stops);
      hit := hit || dataHit || ((isDebugTrap || si == User) && !referenced && !ignore);
    }

    method FlagThread(tid: nat, singleStep: bool, isDebugTrap: bool)
      requires Threads(stoppingToHandleBreakpoints) && tid in threads && threads[tid].state == Suspended
      requires singleStep ==> stoppingToHandleBreakpoints || !PatchedAt(breakpointLocations, threads[tid].pc)
      modifies this`threads
      ensures Threads(stoppingToHandleBreakpoints)
      ensures var t := old(threads)[tid];
              threads == old(threads)[tid := t.(singleStepping := t.singleStepping || singleStep,
                                                afterUserDebugTrap := t.afterUserDebugTrap || isDebugTrap)]
    {
      if singleStep {
        RequestSingleStep(tid, stoppingToHandleBreakpoints);
      }
      if isDebugTrap {
        SetAfterUserDebugTrap(tid);
      }
      assert threads == old(threads)[tid := threads[tid]];
    }

    method RefreshDebugRegisters(tid: nat)
      requires Valid() && RegistersValid() && Threads(true) && RefsOk(breakpointLocations, stepping.Some?, breakpoints)
      requires ThreadsExcept(tid)
      modifies this`breakpointLocations, this`memory, this`breakpoints, this`registers, hardwareBreakpoints
      ensures Valid() && RegistersValid() && Threads(true) && RefsOk(breakpointLocations, stepping.Some?, breakpoints)
      ensures SameRefs(old(breakpointLocations), breakpointLocations) && PoolStays(old(breakpoints), breakpoints)
      ensures ThreadsExcept(tid)
    {
      ghost var locs0, pool0, registers0 := breakpointLocations, breakpoints, registers;
      hide Good, UpToDate, ThreadsOk, RefsOk, ThreadsOkExcept, SomeFailed, PoolStays, KeepsRefs, SameRefs, AllArmed,
          RegistersShaped, Covered;
      var o := SetDebugRegistersForThread(tid, false);
      OneWritten(registers0, registers, tid, threads.Keys);
      CoveredGrows(threads, registers0, registers, threads.Keys);
      FailedShrinks(locs0, breakpointLocations);
      FailedSameRefs(locs0, breakpointLocations, stepping.Some?, pool0);
      FailedRefsOk(locs0, breakpointLocations, stepping.Some?, pool0, breakpoints);
      ThreadsOkShrink(locs0, breakpointLocations, code, true, stepping, causes, threads);
      ThreadsOkExceptShrink(locs0, breakpointLocations, code, stoppingToHandleBreakpoints, stepping, causes, threads,
          tid);
      FailedStaysActive(locs0, breakpointLocations);
    }

    method SetAfterUserDebugTrap(tid: nat)
      requires Threads(stoppingToHandleBreakpoints) && tid in threads
      modifies this`threads
      ensures Threads(stoppingToHandleBreakpoints)
      ensures threads == old(threads)[tid := old(threads)[tid].(afterUserDebugTrap := true)]
    {
      var t := threads[tid].(afterUserDebugTrap := true);
      assert ThreadOk(breakpointLocations, code, stoppingToHandleBreakpoints, NeedsStep(stepping, tid),
          CauseOf(causes, tid), threads[tid]);
      ThreadsOkUpdate(breakpointLocations, code, stoppingToHandleBreakpoints, stoppingToHandleBreakpoints, stepping,
          causes, causes, threads, tid, t);
      threads := threads[tid := t];
    }

    // Ends the step if something was hit or it is complete; otherwise it may need more breakpoints.
    method FinishStop(tid: nat, hit': bool, stepDone: bool, more: seq<(StepBreakpointType, nat)>) returns (hit: bool)
      requires Sound() && Alive() && tid in threads && threads[tid].state == Suspended
      requires forall p <- more :: NeedsSingleStep(p.0) ==> OriginalByte(code, p.1) != INT3
      modifies this`breakpointLocations, this`threads, this`stoppingToHandleBreakpoints, this`stepping,
               this`pendingStep, this`targetState
      ensures Sound() && tid in threads && threads[tid].pc == old(threads)[tid].pc && threads[tid].state == Suspended
      ensures hit <==> hit' || (old(stepping).Some? && old(stepping).value.tid == tid && stepDone)
      ensures if hit then targetState == ProcessSuspended && stepping.None?
              else targetState == old(targetState) && stepping == old(stepping)
      ensures threads == old(threads)[tid := threads[tid]] && threads[tid].exiting == old(threads)[tid].exiting
      ensures !hit && old(stepping).Some? && old(stepping).value.tid == tid && more != [] ==>
                StepRefsAt(more) && stoppingToHandleBreakpoints
      ensures !hit && old(threads)[tid].singleStepping ==> threads[tid].singleStepping
      ensures pendingStep == if hit && old(stepping).Some? then None else old(pendingStep)
      ensures threads[tid] == old(threads)[tid].(singleStepping := threads[tid].singleStepping)
      ensures !(old(stepping).Some? && old(stepping).value.tid == tid) ==> threads == old(threads)
    {
      hide StepRefsAt, Valid, RegistersValid, Covered, ThreadsOk, RefsOk, DropRefs, OriginalByte, NeedsSingleStep,
          ThreadOk;
      hit := hit';
      if stepping.Some? {
        if hit {
          CancelStepping();
        } else if tid == stepping.value.tid {
          if stepDone {
            CancelStepping();
            hit := true;
          } else if more != [] {
            AddMore(tid, more);
          }
        }
      }
      if hit {
        assert stepping.None?;
        targetState := ProcessSuspended;
      }
    }

    // The step needs more breakpoints.
    method AddMore(tid: nat, more: seq<(StepBreakpointType, nat)>)
      requires Sound() && Alive() && stepping.Some? && tid in threads && threads[tid].state == Suspended
      requires forall p <- more :: NeedsSingleStep(p.0) ==> OriginalByte(code, p.1) != INT3
      modifies this`breakpointLocations, this`threads, this`stoppingToHandleBreakpoints
      ensures Sound() && stoppingToHandleBreakpoints && StepRefsAt(more)
      ensures tid in threads && threads == old(threads)[tid := threads[tid]] && threads[tid].state == Suspended
      ensures threads[tid].pc == old(threads)[tid].pc && threads[tid].exiting == old(threads)[tid].exiting
      ensures old(threads)[tid].singleStepping ==> threads[tid].singleStepping
      ensures threads[tid] == old(threads)[tid].(singleStepping := threads[tid].singleStepping)
    {
      StepsAdded(T(), more);
      hide RefsAt, Good, UpToDate, RegistersValid, Covered, ThreadsOk, RefsOk, AddSteps, OriginalByte, NeedsSingleStep;
      ThreadsOkRelax(breakpointLocations, code, stoppingToHandleBreakpoints, true, stepping, stepping, causes, threads);
      AddStepBreakpointLocations(more, tid, threads[tid].pc);
      stoppingToHandleBreakpoints := true;
    }

    // Resumes a thread that has just been stopped.
    method ResumeStopped(tid: nat)
      requires Sound() && tid in threads && threads[tid].state == Suspended && !stoppingToHandleBreakpoints
      modifies this`threads
      ensures Sound() && tid in threads && threads[tid].pc == old(threads)[tid].pc
      ensures threads == old(threads)[tid := Resumed(old(threads)[tid], NeedsStep(stepping, tid))]
    {
      assert ThreadOk(breakpointLocations, code, stoppingToHandleBreakpoints, NeedsStep(stepping, tid),
          CauseOf(causes, tid), threads[tid]);
      ResumeThread(tid);
    }

    // ---------- Other events ----------

    // Records that a running thread has been stopped where it was. A SIGTRAP that was due is queued behind this stop
    // (the debugger does not know).
    method StopThread(tid: nat)
      requires Threads(stoppingToHandleBreakpoints) && tid in threads && threads[tid].state == Running
      modifies this`threads
      ensures Threads(stoppingToHandleBreakpoints)
      ensures threads == old(threads)[tid := Stopped(old(threads)[tid], tid in causes)]
      ensures CanResume(tid)
    {
      var t := Stopped(threads[tid], tid in causes);
      assert ThreadOk(breakpointLocations, code, stoppingToHandleBreakpoints, NeedsStep(stepping, tid),
          CauseOf(causes, tid), threads[tid]);
      ThreadsOkUpdate(breakpointLocations, code, stoppingToHandleBreakpoints, stoppingToHandleBreakpoints, stepping,
          causes, causes, threads, tid, t);
      threads := threads[tid := t];
    }

    // A signal of no special meaning. A fatal one suspends the process; others are passed on at once.
    method ProcessSignal(tid: nat, fatal: bool)
      requires Sound() && Alive() && tid in threads && threads[tid].state == Running
      modifies this`breakpointLocations, this`stepping, this`pendingStep, this`targetState, this`threads
      ensures Sound() && tid in threads && threads[tid].pc == old(threads)[tid].pc
      ensures if fatal then targetState == ProcessSuspended && stepping.None? && pendingStep.None?
              else targetState == old(targetState) && stepping == old(stepping) && threads[tid].state == Running
      ensures !fatal ==> pendingStep == old(pendingStep)
      ensures old(PendingOk()) ==> PendingOk()
      ensures threads == old(threads)[tid := var t := Stopped(old(threads)[tid], tid in causes);
                                             if fatal then t else Resumed(t, NeedsStep(stepping, tid))]
    {
      hide Valid, RegistersValid, Covered, ActiveOrFailed, ThreadsOk, RefsOk, PatchedAt, NeedsStep, DropRefs;
      StopThread(tid);
      if fatal {
        targetState := ProcessSuspended;
        CancelStepping();
      } else {
        ResumeThread(tid);
      }
    }

    // A thread stops because it was interrupted, or for the first time.
    method ProcessStop(tid: nat)
      requires Sound() && Alive() && tid in threads && threads[tid].state == Running
      modifies this`breakpointLocations, this`memory, this`breakpoints, this`registers, this`threads,
               hardwareBreakpoints
      ensures Sound() && tid in threads && threads[tid].pc == old(threads)[tid].pc
      ensures threads[tid].state == TargetStateForThread(tid)
      ensures if old(threads)[tid].waitingForInitialStop then OnlyRejected(old(S()), S()) &&
          tid in registers else S() == old(S())
      ensures threads == old(threads)[tid := var t := Stopped(old(threads)[tid].(waitingForInitialStop := false),
          tid in causes);
                                             if TargetStateForThread(tid) == Running
                                                 then Resumed(t, NeedsStep(stepping, tid)) else t]
    {
      hide Sound;
      if threads[tid].waitingForInitialStop {
        ProgramThread(tid);
      }
      StopHere(tid);
    }

    method StopHere(tid: nat)
      requires Sound() && Alive() && tid in threads && threads[tid].state == Running
      modifies this`threads
      ensures Sound()
      ensures threads == old(threads)[tid := var t := Stopped(old(threads)[tid], tid in causes);
                                             if TargetStateForThread(tid) == Running
                                                 then Resumed(t, NeedsStep(stepping, tid)) else t]
    {
      hide Good, UpToDate, RegistersValid, Covered, ThreadsOk, RefsOk, PatchedAt;
      StopThread(tid);
      if TargetStateForThread(tid) == Running {
        ResumeThread(tid);
      }
    }

    // Writes the debug registers of a thread that stops for the first time.
    method ProgramThread(tid: nat)
      requires Sound() && Alive() && tid in threads
      modifies this`breakpointLocations, this`memory, this`breakpoints, this`registers, this`threads,
               hardwareBreakpoints
      ensures Sound() && OnlyRejected(old(S()), S()) && tid in registers
      ensures threads == old(threads)[tid := old(threads)[tid].(waitingForInitialStop := false)]
    {
      ghost var locs0, pool0, registers0 := breakpointLocations, breakpoints, registers;
      hide Good, UpToDate, ThreadsOk, RefsOk, SomeFailed, PoolStays, AllArmed, RegistersShaped, Covered, StaySet,
          ActiveOrFailed, KeepsRefs, SlotsOnlyFreed;
      var o := SetDebugRegistersForThread(tid, false);
      FailedShrinks(locs0, breakpointLocations);
      FailedRefsOk(locs0, breakpointLocations, stepping.Some?, pool0, breakpoints);
      ThreadsOkShrink(locs0, breakpointLocations, code, stoppingToHandleBreakpoints, stepping, causes, threads);
      OneWritten(registers0, registers, tid, threads.Keys);
      CoveredGrows(threads, registers0, registers, threads.Keys);
      CoveredUpdate(threads, registers, tid, threads[tid].(waitingForInitialStop := false));
      FailedStaysActive(locs0, breakpointLocations);
      NoLongerWaiting(breakpointLocations, code, stoppingToHandleBreakpoints, stepping, causes, threads, tid);
      threads := threads[tid := threads[tid].(waitingForInitialStop := false)];
    }

    // A thread has been created; it runs.
    method ProcessClone(newTid: nat, pc: nat)
      requires Sound() && Alive() && newTid !in threads && newTid !in causes && !NeedsStep(stepping, newTid)
      modifies this`threads, this`registers
      ensures Sound()
      ensures threads == old(threads)[newTid := NewThread(pc)]
    {
      hide Valid, RefsOk, ThreadsOk, Covered, ArmsPushed;
      AddThread(newTid, pc);
    }

    method AddThread(newTid: nat, pc: nat)
      requires Threads(stoppingToHandleBreakpoints) && RegistersValid()
      requires newTid !in threads && newTid !in causes && !NeedsStep(stepping, newTid)
      modifies this`threads, this`registers
      ensures Threads(stoppingToHandleBreakpoints) && RegistersValid()
      ensures threads == old(threads)[newTid := NewThread(pc)]
    {
      hide ThreadsOk, ArmsPushed;
      var t := NewThread(pc);
      assert CauseOf(causes, newTid) == None;
      ThreadsOkUpdate(breakpointLocations, code, stoppingToHandleBreakpoints, stoppingToHandleBreakpoints, stepping,
          causes, causes, threads, newTid, t);
      threads := threads[newTid := t];
      registers := registers - {newTid};
    }

    // A thread is about to exit; it is let go at once.
    method ProcessExit(tid: nat)
      requires Sound() && Alive() && tid in threads
      modifies this`threads, this`targetState, this`stepping
      ensures Sound() && threads == old(threads)[tid := old(threads)[tid].(exiting := true, state := Running)]
      ensures targetState == if forall x <- threads.Keys :: threads[x].exiting then Exiting else old(targetState)
      ensures stepping == if targetState == Exiting then None else old(stepping)
      ensures old(PendingOk()) && Alive() ==> PendingOk()
    {
      hide Valid, RefsOk, ThreadsOk, Covered, AllArmed;
      LetGo(tid);
      if forall x <- threads.Keys :: threads[x].exiting {
        ThreadsOkRelax(breakpointLocations, code, stoppingToHandleBreakpoints, stoppingToHandleBreakpoints, stepping,
            None, causes, threads);
        targetState, stepping := Exiting, None;
      }
    }

    method LetGo(tid: nat)
      requires Threads(stoppingToHandleBreakpoints) && tid in threads
      modifies this`threads
      ensures Threads(stoppingToHandleBreakpoints)
      ensures threads == old(threads)[tid := old(threads)[tid].(exiting := true, state := Running)]
    {
      var t := threads[tid].(exiting := true, state := Running);
      ThreadsOkUpdate(breakpointLocations, code, stoppingToHandleBreakpoints, stoppingToHandleBreakpoints, stepping,
          causes, causes, threads, tid, t);
      CoveredUpdate(threads, registers, tid, t);
      threads := threads[tid := t];
    }

    // A thread is gone. If it was the one being stepped, the process is suspended.
    method ProcessGone(tid: nat)
      requires Sound() && tid in threads
      modifies this`breakpointLocations, this`stepping, this`pendingStep, this`targetState, this`waitingForSymbols,
               this`threads, this`registers
      ensures Sound() && threads == old(threads) - {tid}
      ensures var steppedIt := old(stepping).Some? && old(stepping).value.tid == tid;
              if threads == map[] then targetState == NoProcess
              else if steppedIt && old(Alive()) then
                targetState == ProcessSuspended && stepping.None? && pendingStep.None?
              else
                old(Alive()) ==>
                  targetState == old(targetState) && stepping == old(stepping) && pendingStep == old(pendingStep)
      ensures old(Alive()) || !Alive()
      ensures old(PendingOk()) && Alive() ==> PendingOk()
    {
      hide Valid, ThreadsOk, RefsOk, Covered, AllArmed;
      var steppingThisThread := stepping.Some? && stepping.value.tid == tid;
      Forget(tid);
      if threads == map[] {
        targetState := NoProcess;
      } else if steppingThisThread {
        var ok := Suspend();
      }
    }

    method Forget(tid: nat)
      requires Threads(stoppingToHandleBreakpoints) && RegistersValid()
      modifies this`threads, this`registers
      ensures Threads(stoppingToHandleBreakpoints) && RegistersValid() && threads == old(threads) - {tid}
    {
      hide ThreadsOk, ArmsPushed;
      ThreadsOkRemove(breakpointLocations, code, stoppingToHandleBreakpoints, stepping, causes, threads, tid);
      CoveredRemove(threads, registers, tid);
      threads, registers := threads - {tid}, registers - {tid};
    }

    // The initial exec of a thread that is stopped by it: breakpoints are activated and the initial step, if any,
    // begins.
    method ProcessInitialExec(tid: nat, resolved: map<nat, seq<(nat, nat)>>, res: PendingResolution,
                              symbolsNeeded: bool)
      requires Sound() && targetState == Starting && PendingOk() && tid in threads && threads[tid].state == Running
      modifies this`breakpointLocations, this`memory, this`breakpoints, this`registers, this`threads,
               this`stoppingToHandleBreakpoints, this`stepping, this`targetState, this`pendingStep,
               this`waitingForSymbols, hardwareBreakpoints
      ensures Sound() && PendingOk()
      ensures NothingToActivate(old(breakpoints), resolved) && old(pendingStep).None? ==>
                && S() == old(S()) && stoppingToHandleBreakpoints == old(stoppingToHandleBreakpoints)
                && targetState == ProcessRunning && stepping.None? && pendingStep.None? &&
                    waitingForSymbols == symbolsNeeded
                && (!symbolsNeeded ==> LetRun(old(threads)[tid := Stopped(old(threads)[tid], tid in causes)], threads))
      ensures OthersStopped(old(threads), threads)
    {
      hide Good, UpToDate, ThreadsOk, RefsOk, RegistersShaped, AllArmed, Covered;
      StopThread(tid);
      targetState := if pendingStep.Some? then Stepping else ProcessRunning;
      var assertionsHold := TryPendingStepAndActivateBreakpoints(resolved, res, symbolsNeeded);
    }

    // drop_caches: symbols have been loaded.
    method DropCaches(resolved: map<nat, seq<(nat, nat)>>, res: PendingResolution, symbolsNeeded: bool)
        returns (assertionsHold: bool)
      requires Sound()
      modifies this`breakpointLocations, this`memory, this`breakpoints, this`registers, this`threads,
               this`stoppingToHandleBreakpoints, this`stepping, this`targetState, this`pendingStep,
               this`waitingForSymbols, hardwareBreakpoints
      ensures assertionsHold <==> (ProcessReadyAt(old(targetState)) ==> old(PendingOk()))
      ensures !ProcessReadyAt(old(targetState)) ==>
          targetState == old(targetState) && stepping == old(stepping) && pendingStep == old(pendingStep)
      ensures assertionsHold ==> Sound() && (old(PendingOk()) ==> PendingOk())
      ensures OthersStopped(old(threads), threads)
    {
      hide Good, UpToDate, ThreadsOk, RefsOk, RegistersShaped, AllArmed, Covered;
      if !ProcessReady() {
        return true;
      }
      assertionsHold := TryPendingStepAndActivateBreakpoints(resolved, res, symbolsNeeded);
    }

    // The end of process_events: once every thread has stopped, handle_breakpoints happens. If that fails, threads
    // stay stopped.
    method FinishEvents() returns (ok: bool)
      requires Sound() && Alive()
      modifies this`breakpointLocations, this`memory, this`breakpoints, this`registers, this`threads,
               this`stoppingToHandleBreakpoints, hardwareBreakpoints
      ensures Sound()
      ensures ok || SomeWriteFailed(old(registers), registers)
      ensures if old(stoppingToHandleBreakpoints && !AnyThreadRunning())
              then Rearmed(old(S()), KnownPcs(old(threads)), StepTid(), S())
                   && (ok ==> !stoppingToHandleBreakpoints && SlotsPushed()
                              && LetRun(Marked(old(threads), old(breakpointLocations)), threads))
                   && (!ok ==> stoppingToHandleBreakpoints && threads == Marked(old(threads), old(breakpointLocations)))
              else
                && ok && threads == old(threads) && S() == old(S())
                && stoppingToHandleBreakpoints == old(stoppingToHandleBreakpoints)
      ensures OthersStopped(old(threads), threads)
    {
      hide Good, UpToDate, ThreadsOk, RefsOk, NotOnPatch, Rearmed, KnownPcs, AllArmed, Covered, MarkUpTo,
          RegistersShaped;
      ok := true;
      if stoppingToHandleBreakpoints && !AnyThreadRunning() {
        ok := HandleNow();
        if !ok {
          ThreadsOkRelax(breakpointLocations, code, false, true, stepping, stepping, causes, threads);
          return;
        }
        stoppingToHandleBreakpoints := false;
        ResumeThreadsIfNeeded();
      }
    }

    // ---------- The debuggee ----------

    // A running thread executes: an int3 if there is one where it is, otherwise anything, ending at pc; in
    // single-step mode one instruction, and a trap after it.
    method Execute(tid: nat, pc: nat, trap: Option<Cause>)
      requires Sound() && tid in threads && tid !in causes && threads[tid].state == Running && !threads[tid].exiting
      requires trap.Some? ==> trap.value == HardwareHit || trap.value == SentSignal
      modifies this`threads, this`causes
      ensures Sound()
      ensures var t := old(threads)[tid];
              if t.pc in memory && memory[t.pc] == INT3 then
                causes == old(causes)[tid := Int3(t.pc)] && threads == old(threads)[tid := t.(pc := t.pc + 1)]
              else
                && threads == old(threads)[tid := t.(pc := pc)]
                && causes == if t.singleStepping then old(causes)[tid := SingleStepped]
                             else if trap.Some? then old(causes)[tid := trap.value] else old(causes)
    {
      hide Inv, DataOk, RegistersValid, ThreadsOk, Covered, RefsOk, NeedsStep;
      var t := threads[tid];
      Executed(T(), code, stoppingToHandleBreakpoints, stepping, causes, threads, tid, pc, trap);
      CoveredUpdate(threads, registers, tid, t.(pc := t.pc + 1));
      CoveredUpdate(threads, registers, tid, t.(pc := pc));
      if t.pc in memory && memory[t.pc] == INT3 {
        threads := threads[tid := t.(pc := t.pc + 1)];
        causes := causes[tid := Int3(t.pc)];
      } else {
        threads := threads[tid := t.(pc := pc)];
        if t.singleStepping {
          causes := causes[tid := SingleStepped];
        } else if trap.Some? {
          causes := causes[tid := trap.value];
        }
      }
    }

    // The debuggee changes its memory, but not where there are breakpoints or int3 traps to handle.
    method DebuggeeWrites(code': Memory)
      requires Sound() && LeavesLocationsAlone(T(), code, code')
      requires forall l <- breakpointLocations :: OriginalByte(code', l.addr) == OriginalByte(code, l.addr)
      requires forall tid <- causes.Keys :: causes[tid].Int3? ==>
          OriginalByte(code', causes[tid].at) == OriginalByte(code, causes[tid].at)
      modifies this`memory, this`code
      ensures Sound() && code == code' && memory == Overlay(old(T()), code')
    {
      hide Inv, DataOk, ThreadsOk, Covered, RefsOk, RegistersValid, LeavesLocationsAlone, Overlay, OriginalByte;
      OverlayKeeps(T(), code, code');
      ThreadsOkCode(breakpointLocations, code, code', stoppingToHandleBreakpoints, stepping, causes, threads);
      memory := Overlay(Table(breakpointLocations, hardwareBreakpoints[..], memory), code');
      code := code';
    }
  }
}
