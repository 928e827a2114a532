// Line steps: the decoder walk that picks internal breakpoints, and the judgement of whether a stop
// completes the step (Debugger::step, determine_some_step_breakpoint_locations_arch,
// handle_step_stop in src/debugger.rs).
module LineStep {
  import opened Options
  import opened StepBreakpoints
  import opened StepRanges

  datatype FlowKind = Normal | Call | Return | CondBranch | UncondBranch | Syscall | Interrupt

  datatype Insn = Insn(len: nat, flow: FlowKind, target: Option<nat>)

  // What the decoder returns at each address; an absent address is one it cannot decode (length 0).
  type Code = map<nat, Insn>

  datatype StepKind = Into | Over | Out

  datatype StepBreakpoint = StepBreakpoint(kind: StepBreakpointType, addr: nat)

  predicate IsBranch(insn: Insn) {
    insn.flow.UncondBranch? || insn.flow.CondBranch?
  }

  // jump_target_may_be_outside_ranges
  predicate JumpMayLeave(insn: Insn, ranges: seq<Range>) {
    if !(insn.flow.UncondBranch? || insn.flow.CondBranch? || insn.flow.Call?) then true
    else match insn.target
      case None => true
      case Some(addr) => MayBeOutside(ranges, addr)
  }

  // ---- The decoder walk ------------------------------------------------------------------------

  predicate Decodes(code: Code, at: nat, end: nat) {
    at < end && at in code && code[at].len > 0 && at + code[at].len <= end
  }

  // Addresses of the instructions decoded from `at` until `end` or until decoding fails.
  function Walk(code: Code, at: nat, end: nat): seq<nat>
    decreases end - at
  {
    if Decodes(code, at, end) then [at] + Walk(code, at + code[at].len, end) else []
  }

  // The breakpoint the walk places on an instruction.
  ghost predicate Places(types: set<StepBreakpointType>, code: Code, all: seq<Range>, b: StepBreakpoint) {
    b.addr in code && b.kind in types &&
    match b.kind
    case Call => code[b.addr].flow.Call?
    case JumpOut => IsBranch(code[b.addr]) && JumpMayLeave(code[b.addr], all)
    case _ => false
  }

  ghost predicate PlacesOneOf(types: set<StepBreakpointType>, code: Code, all: seq<Range>, visited: seq<nat>,
                              b: StepBreakpoint) {
    b.addr in visited && Places(types, code, all, b)
  }

  // A branch gets a breakpoint unless all its targets are known and in the ranges.
  lemma LeavesIff(insn: Insn, ranges: seq<Range>)
    requires IsBranch(insn) && Canonical(ranges)
    ensures JumpMayLeave(insn, ranges) <==> insn.target.None? || !Contains(ranges, insn.target.value)
  {
    if insn.target.Some? {
      MembershipIsContains(ranges, insn.target.value);
    }
  }

  // Running over a system call, or over a call, which may contain one.
  predicate MayDoSyscall(types: set<StepBreakpointType>, insn: Insn) {
    insn.flow.Syscall? || (insn.flow.Call? && StepBreakpointType.Call !in types)
  }

  // One range of determine_some_step_breakpoint_locations_arch; `readable` is whether the code could
  // be read.
  method DetermineStepBreakpoints(code: Code, readable: bool, types: set<StepBreakpointType>, range: Range,
                                  all: seq<Range>, skipFirst: bool)
    returns (ok: bool, added: seq<StepBreakpoint>, syscalls: bool)
    ensures ok <==> readable || (StepBreakpointType.Call !in types && JumpOut !in types)
    ensures
      var walked := Walk(code, range.start, range.end);
      var visited := Visited(skipFirst, walked);
      ok ==>
        && (forall b :: b in added <==>
             (b == StepBreakpoint(AfterRange, range.end) && AfterRange in types)
             || PlacesOneOf(types, code, all, visited, b))
        && (syscalls <==> (StepBreakpointType.Call in types || JumpOut in types)
                          && exists a :: a in visited && a in code && (code[a].flow.Syscall? ||
                               (code[a].flow.Call? && StepBreakpointType.Call !in types)))
  {
    added := [];
    syscalls := false;
    if AfterRange in types {
      added := added + [StepBreakpoint(AfterRange, range.end)];
    }
    if StepBreakpointType.Call !in types && JumpOut !in types {
      return true, added, false;
    }
    if !readable {
      return false, added, false;
    }
    var skip := skipFirst;
    var ip := range.start;
    ghost var first := added;
    ghost var walked: seq<nat> := [];
    assert Looked(code, types, all, range, skipFirst, first, walked, ip, skip, added, syscalls);
    while Decodes(code, ip, range.end)
      invariant Looked(code, types, all, range, skipFirst, first, walked, ip, skip, added, syscalls)
      decreases range.end - ip
    {
      var insn := code[ip];
      ghost var was, wasSyscalls := added, syscalls;
      if skip {
        skip := false;
      } else {
        match insn.flow {
          case Syscall =>
            syscalls := true;
          case Call =>
            if StepBreakpointType.Call in types {
              added := added + [StepBreakpoint(StepBreakpointType.Call, ip)];
            } else {
              syscalls := true;
            }
          case UncondBranch =>
            if JumpOut in types && JumpMayLeave(insn, all) {
              added := added + [StepBreakpoint(JumpOut, ip)];
            }
          case CondBranch =>
            if JumpOut in types && JumpMayLeave(insn, all) {
              added := added + [StepBreakpoint(JumpOut, ip)];
            }
          case _ =>
        }
        assert forall b :: b in added <==> b in was || (b.addr == ip && Places(types, code, all, b));
        assert syscalls <==> wasSyscalls || MayDoSyscall(types, insn);
      }
      LookedStep(code, types, all, range, skipFirst, first, walked, ip, was, wasSyscalls, added, syscalls);
      walked := walked + [ip];
      ip := ip + insn.len;
    }
    ok := true;
    assert walked == Walk(code, range.start, range.end);
  }

  function Visited(skipFirst: bool, walked: seq<nat>): seq<nat> {
    if skipFirst && walked != [] then walked[1..] else walked
  }

  // The walk so far: `walked` is done, `ip` comes next.
  ghost predicate Looked(code: Code, types: set<StepBreakpointType>, all: seq<Range>, range: Range, skipFirst: bool,
                         first: seq<StepBreakpoint>, walked: seq<nat>, ip: nat, skip: bool,
                         added: seq<StepBreakpoint>, syscalls: bool) {
    var visited := Visited(skipFirst, walked);
    && walked + Walk(code, ip, range.end) == Walk(code, range.start, range.end)
    && (skip <==> skipFirst && walked == [])
    && (forall b :: b in added <==> b in first || PlacesOneOf(types, code, all, visited, b))
    && (syscalls <==> exists a :: a in visited && a in code && MayDoSyscall(types, code[a]))
  }

  lemma LookedStep(code: Code, types: set<StepBreakpointType>, all: seq<Range>, range: Range, skipFirst: bool,
                   first: seq<StepBreakpoint>, walked: seq<nat>, ip: nat, was: seq<StepBreakpoint>, wasSyscalls: bool,
                   added: seq<StepBreakpoint>, syscalls: bool)
    requires Decodes(code, ip, range.end)
    requires var skip := skipFirst && walked == [];
             && Looked(code, types, all, range, skipFirst, first, walked, ip, skip, was, wasSyscalls)
             && (if skip then added == was && syscalls == wasSyscalls
                 else && (forall b :: b in added <==> b in was || (b.addr == ip && Places(types, code, all, b)))
                      && (syscalls <==> wasSyscalls || MayDoSyscall(types, code[ip])))
    ensures Looked(code, types, all, range, skipFirst, first, walked + [ip], ip + code[ip].len, false,
                   added, syscalls)
  {
    hide Walk, PlacesOneOf, Places, MayDoSyscall;
    WalkNext(code, walked, ip, range.end);
    VisitNext(skipFirst, walked, ip);
    if !(skipFirst && walked == []) {
      VisitOne(types, code, all, Visited(skipFirst, walked), ip);
    }
  }

  lemma WalkNext(code: Code, walked: seq<nat>, ip: nat, end: nat)
    requires Decodes(code, ip, end)
    ensures (walked + [ip]) + Walk(code, ip + code[ip].len, end) == walked + Walk(code, ip, end)
  {
  }

  lemma VisitNext(skipFirst: bool, walked: seq<nat>, ip: nat)
    ensures Visited(skipFirst, walked + [ip])
            == if skipFirst && walked == [] then [] else Visited(skipFirst, walked) + [ip]
  {
  }

  lemma VisitOne(types: set<StepBreakpointType>, code: Code, all: seq<Range>, visited: seq<nat>, ip: nat)
    requires ip in code
    ensures forall b :: PlacesOneOf(types, code, all, visited + [ip], b) <==>
              PlacesOneOf(types, code, all, visited, b) || (b.addr == ip && Places(types, code, all, b))
    ensures (exists a :: a in visited + [ip] && a in code && MayDoSyscall(types, code[a])) <==>
              (exists a :: a in visited && a in code && MayDoSyscall(types, code[a])) || MayDoSyscall(types, code[ip])
  {
  }

  // ---- The plan of a step ----------------------------------------------------------------------

  // Instruction addresses the walk found in some range.
  ghost predicate Instruction(code: Code, ranges: seq<Range>, a: nat) {
    exists i :: 0 <= i < |ranges| && a in Walk(code, ranges[i].start, ranges[i].end)
  }

  ghost predicate RangeEnd(ranges: seq<Range>, a: nat) {
    exists i :: 0 <= i < |ranges| && ranges[i].end == a
  }

  // The breakpoints of a step.
  ghost predicate PlannedAt(types: set<StepBreakpointType>, code: Code, walked: seq<Range>, all: seq<Range>,
                            ret: Option<nat>, b: StepBreakpoint) {
    || (b.kind == AfterRet && AfterRet in types && ret == Some(b.addr))
    || (b.kind == AfterRange && AfterRange in types && RangeEnd(walked, b.addr))
    || (Instruction(code, walked, b.addr) && Places(types, code, all, b))
  }

  ghost predicate Planned(bps: seq<StepBreakpoint>, types: set<StepBreakpointType>, code: Code, walked: seq<Range>,
                          all: seq<Range>, ret: Option<nat>) {
    forall b :: b in bps <==> PlannedAt(types, code, walked, all, ret, b)
  }

  lemma PlanOneMore(bps: seq<StepBreakpoint>, added: seq<StepBreakpoint>, types: set<StepBreakpointType>, code: Code,
                    i: nat, ranges: seq<Range>, ret: Option<nat>)
    requires i < |ranges| && Planned(bps, types, code, ranges[..i], ranges, ret)
    requires forall b :: b in added <==>
               (b == StepBreakpoint(AfterRange, ranges[i].end) && AfterRange in types)
               || PlacesOneOf(types, code, ranges, Walk(code, ranges[i].start, ranges[i].end), b)
    ensures Planned(bps + added, types, code, ranges[..i + 1], ranges, ret)
  {
  }

  ghost predicate SyscallIn(types: set<StepBreakpointType>, code: Code, range: Range) {
    exists a :: a in Walk(code, range.start, range.end) && a in code && MayDoSyscall(types, code[a])
  }

  // Whether other threads must not be kept suspended during the step.
  ghost predicate SyscallInAny(types: set<StepBreakpointType>, code: Code, ranges: seq<Range>) {
    (StepBreakpointType.Call in types || JumpOut in types)
    && exists i :: 0 <= i < |ranges| && SyscallIn(types, code, ranges[i])
  }

  lemma OneMoreRange(types: set<StepBreakpointType>, code: Code, ranges: seq<Range>, i: nat)
    requires i < |ranges|
    ensures SyscallInAny(types, code, ranges[..i + 1])
            <==> SyscallInAny(types, code, ranges[..i])
                 || ((StepBreakpointType.Call in types || JumpOut in types) && SyscallIn(types, code, ranges[i]))
  {
  }

  lemma SameEmptiness(ranges: seq<Range>, input: seq<Range>)
    requires SameCover(ranges, input) && Ordered(input) && Canonical(ranges)
    ensures ranges == [] <==> input == []
  {
    if ranges != [] {
      assert CoversPoint(ranges[0], 2 * ranges[0].start);
      assert Covered(input, 2 * ranges[0].start);
    }
    if input != [] {
      assert CoversPoint(input[0], 2 * input[0].start);
      assert Covered(ranges, 2 * input[0].start);
    }
  }

  datatype StepPlan =
    | Failed
    | Plan(ranges: seq<Range>, breakpoints: seq<StepBreakpoint>, mayDoSyscalls: bool)

  // The second half of step(): sweep the ranges, then choose the breakpoints.
  method PlanStep(kind: StepKind, input: seq<Range>, types: set<StepBreakpointType>, code: Code, readable: bool,
                  ret: Option<nat>) returns (plan: StepPlan)
    requires Ordered(input)
    ensures plan.Failed? <==>
              || (kind == Out && AfterRet in types && ret == None)
              || (!readable && input != [] && (StepBreakpointType.Call in types || JumpOut in types))
    ensures plan.Plan? ==>
      && Canonical(plan.ranges) && SameCover(plan.ranges, input)
      && Planned(plan.breakpoints, types, code, plan.ranges, plan.ranges, ret)
      && (plan.mayDoSyscalls <==> SyscallInAny(types, code, plan.ranges))
  {
    var ranges := Sweep(input);
    assert ranges != [] <==> input != [] by { SameEmptiness(ranges, input); }
    hide Canonical, SameCover, Walk;
    var bps: seq<StepBreakpoint> := [];
    if AfterRet in types {
      match ret {
        case Some(addr) => bps := [StepBreakpoint(AfterRet, addr)];
        case None =>
          if kind == Out {
            return Failed;
          }
      }
    }
    assert Planned(bps, types, code, ranges[..0], ranges, ret);
    var mayDoSyscalls := false;
    for i := 0 to |ranges|
      invariant Planned(bps, types, code, ranges[..i], ranges, ret)
      invariant mayDoSyscalls <==> SyscallInAny(types, code, ranges[..i])
      invariant i > 0 ==> readable || (StepBreakpointType.Call !in types && JumpOut !in types)
    {
      OneMoreRange(types, code, ranges, i);
      var ok, added, syscalls := DetermineStepBreakpoints(code, readable, types, ranges[i], ranges, false);
      if !ok {
        return Failed;
      }
      PlanOneMore(bps, added, types, code, i, ranges, ret);
      bps := bps + added;
      mayDoSyscalls := mayDoSyscalls || syscalls;
    }
    assert ranges[..|ranges|] == ranges;
    plan := Plan(ranges, bps, mayDoSyscalls);
  }

  // ---- The stepped thread ----------------------------------------------------------------------

  datatype Frame = Frame(cfa: int, ret: nat)

  // Frames from the outermost to the innermost.
  datatype Machine = Machine(pc: nat, frames: seq<Frame>)

  // The stack grows down: an inner frame has a smaller canonical frame address.
  ghost predicate GoodStack(frames: seq<Frame>) {
    frames != [] && forall i, j :: 0 <= i < j < |frames| ==> frames[i].cfa > frames[j].cfa
  }

  ghost predicate GoesTo(insn: Insn, pc: nat) {
    insn.target.Some? ==> pc == insn.target.value
  }

  // One instruction. A string instruction may stay where it is.
  ghost predicate Executes(insn: Insn, m: Machine, m': Machine)
    requires m.frames != []
  {
    var next := m.pc + insn.len;
    match insn.flow
    case UncondBranch => m'.frames == m.frames && GoesTo(insn, m'.pc)
    case CondBranch => m'.frames == m.frames && (m'.pc == next || GoesTo(insn, m'.pc))
    case Call =>
      && |m'.frames| == |m.frames| + 1 && m'.frames[..|m.frames|] == m.frames
      && m'.frames[|m.frames|].ret == next
      && m'.frames[|m.frames|].cfa < m.frames[|m.frames| - 1].cfa
      && GoesTo(insn, m'.pc)
    case Return =>
      && |m.frames| >= 2
      && m'.frames == m.frames[..|m.frames| - 1] && m'.pc == m.frames[|m.frames| - 1].ret
    case _ => m'.frames == m.frames && (m'.pc == next || m'.pc == m.pc)
  }

  // Code outside the decoded ranges may do anything one instruction can do.
  ghost predicate Steps(code: Code, ranges: seq<Range>, m: Machine, m': Machine)
    requires m.frames != []
  {
    if Instruction(code, ranges, m.pc) && m.pc in code then Executes(code[m.pc], m, m')
    else exists insn: Insn :: Executes(insn, m, m')
  }

  // The instructions of every range fill it exactly.
  ghost predicate Tiles(code: Code, at: nat, end: nat)
    decreases end - at
  {
    at == end || (Decodes(code, at, end) && Tiles(code, at + code[at].len, end))
  }

  ghost predicate Tiled(code: Code, ranges: seq<Range>) {
    forall i :: 0 <= i < |ranges| ==> Tiles(code, ranges[i].start, ranges[i].end)
  }

  lemma {:induction false} WalkStays(code: Code, at: nat, end: nat, a: nat)
    requires a in Walk(code, at, end)
    ensures at <= a < end && Decodes(code, a, end)
    decreases end - at
  {
    if a != at {
      WalkStays(code, at + code[at].len, end, a);
    }
  }

  // In a tiled range the instruction after one found by the walk is found too, unless the range ends.
  lemma {:induction false} WalkContinues(code: Code, at: nat, end: nat, a: nat)
    requires Tiles(code, at, end) && a in Walk(code, at, end)
    ensures a in code
    ensures a + code[a].len == end || a + code[a].len in Walk(code, at, end)
    decreases end - at
  {
    var next := at + code[at].len;
    if a == at {
      assert next != end ==> next in Walk(code, next, end);
    } else {
      WalkContinues(code, next, end, a);
    }
  }

  ghost predicate Follows(code: Code, ranges: seq<Range>, a: nat) {
    Instruction(code, ranges, a) || RangeEnd(ranges, a)
  }

  lemma InstructionFollows(code: Code, ranges: seq<Range>, a: nat)
    requires Tiled(code, ranges) && Instruction(code, ranges, a)
    ensures a in code && Follows(code, ranges, a + code[a].len)
  {
    var i :| 0 <= i < |ranges| && a in Walk(code, ranges[i].start, ranges[i].end);
    WalkContinues(code, ranges[i].start, ranges[i].end, a);
  }

  lemma InstructionInside(code: Code, ranges: seq<Range>, a: nat)
    requires Instruction(code, ranges, a)
    ensures Contains(ranges, a)
  {
    var i :| 0 <= i < |ranges| && a in Walk(code, ranges[i].start, ranges[i].end);
    WalkStays(code, ranges[i].start, ranges[i].end, a);
  }

  // ---- Judging a stop --------------------------------------------------------------------------

  // handle_step_stop once the frame address is known, without the statement filter.
  predicate StepDone(kind: StepKind, stepCfa: int, ranges: seq<Range>, cfa: int, addr: nat) {
    match kind
    case Into => cfa != stepCfa || !InRanges(ranges, addr)
    case Over => cfa > stepCfa || (cfa == stepCfa && !InRanges(ranges, addr))
    case Out => cfa > stepCfa
  }

  // What the user asked for: for a frame at depth `base`, a step is over when the thread is back in a
  // caller, or in the stepped frame outside the ranges, or (stepping into) in a callee.
  ghost predicate Escaped(kind: StepKind, base: nat, ranges: seq<Range>, m: Machine) {
    || |m.frames| <= base
    || (kind != Out && |m.frames| == base + 1 && !Contains(ranges, m.pc))
    || (kind == Into && |m.frames| > base + 1)
  }

  // A stop: the thread stands on a step breakpoint, or has just been single-stepped because its last
  // stop was on a call or jump-out breakpoint.
  ghost predicate StandsOn(bps: seq<StepBreakpoint>, m: Machine) {
    exists kind :: StepBreakpoint(kind, m.pc) in bps
  }

  ghost predicate SingleSteppedFrom(bps: seq<StepBreakpoint>, m: Machine) {
    StepBreakpoint(StepBreakpointType.Call, m.pc) in bps || StepBreakpoint(JumpOut, m.pc) in bps
  }

  ghost predicate Stops(bps: seq<StepBreakpoint>, m: Machine, m': Machine) {
    StandsOn(bps, m') || SingleSteppedFrom(bps, m)
  }

  // The judgement by frame addresses agrees with the frames themselves.
  lemma JudgementIsEscape(kind: StepKind, base: nat, ranges: seq<Range>, start: Machine, m: Machine)
    requires Canonical(ranges) && GoodStack(start.frames) && GoodStack(m.frames) && |start.frames| > base
    requires var n := if |m.frames| <= base then |m.frames| else base + 1;
             m.frames[..n] == start.frames[..n]
    ensures StepDone(kind, start.frames[base].cfa, ranges, m.frames[|m.frames| - 1].cfa, m.pc)
            <==> Escaped(kind, base, ranges, m)
  {
    MembershipIsContains(ranges, m.pc);
    var n := |m.frames|;
    if n <= base {
      assert m.frames[n - 1] == m.frames[..n][n - 1] == start.frames[n - 1];
    } else {
      assert m.frames[base] == m.frames[..base + 1][base] == start.frames[base];
    }
  }

  // ---- No escape -------------------------------------------------------------------------------

  // The kinds of breakpoints are enough for the code of the ranges.
  ghost predicate TypesSuffice(kind: StepKind, types: set<StepBreakpointType>, code: Code, ranges: seq<Range>) {
    && AfterRange in types
    && (kind == Into ==> StepBreakpointType.Call in types)
    && (JumpOut in types || forall a :: Instruction(code, ranges, a) && a in code ==> !IsBranch(code[a]))
    && (AfterRet in types || forall a :: Instruction(code, ranges, a) && a in code ==> !code[a].flow.Return?)
  }

  // Where a thread that has not escaped can be.
  ghost predicate Held(base: nat, code: Code, ranges: seq<Range>, start: Machine, m: Machine) {
    && GoodStack(m.frames)
    && |m.frames| > base && |start.frames| > base && m.frames[..base + 1] == start.frames[..base + 1]
    && (if |m.frames| == base + 1 then Instruction(code, ranges, m.pc)
        else Follows(code, ranges, m.frames[base + 1].ret))
  }

  // Branches taken in the stepped frame do not land inside an instruction of the ranges.
  ghost predicate LandsWell(base: nat, code: Code, ranges: seq<Range>, m: Machine, m': Machine) {
    |m.frames| == base + 1 && m.pc in code && IsBranch(code[m.pc]) && Contains(ranges, m'.pc)
    ==> Instruction(code, ranges, m'.pc)
  }

  // The only way out the breakpoints cannot watch: a return when the return address is unknown.
  ghost predicate UnwatchedReturn(base: nat, ret: Option<nat>, m': Machine) {
    ret == None && |m'.frames| == base
  }

  lemma ExecutesKeepsGood(insn: Insn, m: Machine, m': Machine)
    requires GoodStack(m.frames) && Executes(insn, m, m')
    ensures GoodStack(m'.frames)
  {
  }

  // One step of a held thread: it is still held, or it has escaped and the debugger stops it there.
  lemma HeldStep(kind: StepKind, base: nat, types: set<StepBreakpointType>, code: Code, ranges: seq<Range>,
                 ret: Option<nat>, bps: seq<StepBreakpoint>, start: Machine, m: Machine, m': Machine)
    requires kind != Out && Canonical(ranges) && Tiled(code, ranges)
    requires TypesSuffice(kind, types, code, ranges)
    requires Planned(bps, types, code, ranges, ranges, ret)
    requires Held(base, code, ranges, start, m) && Steps(code, ranges, m, m')
    requires ret.Some? ==> ret.value == start.frames[base].ret
    requires LandsWell(base, code, ranges, m, m')
    requires !Escaped(kind, base, ranges, m)
    ensures Held(base, code, ranges, start, m') || Escaped(kind, base, ranges, m')
    ensures Escaped(kind, base, ranges, m') ==> Stops(bps, m, m') || UnwatchedReturn(base, ret, m')
  {
    if |m.frames| == base + 1 {
      InstructionFollows(code, ranges, m.pc);
      HeldInFrame(kind, base, types, code, ranges, ret, bps, start, m, m');
    } else {
      var insn: Insn :| Executes(insn, m, m');
      HeldInCallee(insn, kind, base, types, code, ranges, ret, bps, start, m, m');
    }
  }

  lemma AtRangeEnd(types: set<StepBreakpointType>, code: Code, ranges: seq<Range>, ret: Option<nat>,
                   bps: seq<StepBreakpoint>, m': Machine)
    requires AfterRange in types && Planned(bps, types, code, ranges, ranges, ret)
    requires RangeEnd(ranges, m'.pc)
    ensures StandsOn(bps, m')
  {
    assert PlannedAt(types, code, ranges, ranges, ret, StepBreakpoint(AfterRange, m'.pc));
    assert StepBreakpoint(AfterRange, m'.pc) in bps;
  }

  lemma HeldInCallee(insn: Insn, kind: StepKind, base: nat, types: set<StepBreakpointType>, code: Code,
                     ranges: seq<Range>, ret: Option<nat>, bps: seq<StepBreakpoint>, start: Machine, m: Machine,
                     m': Machine)
    requires kind == Over && Canonical(ranges) && AfterRange in types
    requires Planned(bps, types, code, ranges, ranges, ret)
    requires Held(base, code, ranges, start, m) && |m.frames| > base + 1 && Executes(insn, m, m')
    ensures Held(base, code, ranges, start, m') || Escaped(kind, base, ranges, m')
    ensures Escaped(kind, base, ranges, m') ==> Stops(bps, m, m')
  {
    hide Walk, Canonical;
    ExecutesKeepsGood(insn, m, m');
    assert m'.frames[..base + 1] == start.frames[..base + 1] by {
      assert m'.frames[..base + 1] == m.frames[..base + 1];
    }
    if |m'.frames| > base + 1 {
      assert m'.frames[base + 1] == m.frames[base + 1];
    } else if Instruction(code, ranges, m'.pc) {
      InstructionInside(code, ranges, m'.pc);
    } else {
      AtRangeEnd(types, code, ranges, ret, bps, m');
      RangeEndOutside(ranges, m'.pc);
    }
  }

  lemma RangeEndsOutside(ranges: seq<Range>)
    requires Canonical(ranges)
    ensures forall a :: RangeEnd(ranges, a) ==> !Contains(ranges, a)
  {
  }

  // A branch out of the ranges has a jump-out breakpoint.
  lemma LeavingBranch(types: set<StepBreakpointType>, code: Code, ranges: seq<Range>, ret: Option<nat>,
                      bps: seq<StepBreakpoint>, m: Machine, to: nat)
    requires Canonical(ranges) && JumpOut in types && Planned(bps, types, code, ranges, ranges, ret)
    requires Instruction(code, ranges, m.pc) && m.pc in code && IsBranch(code[m.pc])
    requires GoesTo(code[m.pc], to) && !Contains(ranges, to)
    ensures SingleSteppedFrom(bps, m)
  {
    MembershipIsContains(ranges, to);
    assert PlannedAt(types, code, ranges, ranges, ret, StepBreakpoint(JumpOut, m.pc));
  }

  lemma RangeEndOutside(ranges: seq<Range>, a: nat)
    requires Canonical(ranges) && RangeEnd(ranges, a)
    ensures !Contains(ranges, a)
  {
  }

  // Going on to the next instruction, or back to it from a call.
  lemma HeldInFrame(kind: StepKind, base: nat, types: set<StepBreakpointType>, code: Code, ranges: seq<Range>,
                    ret: Option<nat>, bps: seq<StepBreakpoint>, start: Machine, m: Machine, m': Machine)
    requires kind != Out && Canonical(ranges) && TypesSuffice(kind, types, code, ranges)
    requires Planned(bps, types, code, ranges, ranges, ret)
    requires Held(base, code, ranges, start, m) && |m.frames| == base + 1
    requires m.pc in code && Executes(code[m.pc], m, m')
    requires Follows(code, ranges, m.pc + code[m.pc].len)
    requires ret.Some? ==> ret.value == start.frames[base].ret
    requires LandsWell(base, code, ranges, m, m')
    ensures Held(base, code, ranges, start, m') || Escaped(kind, base, ranges, m')
    ensures Escaped(kind, base, ranges, m') ==> Stops(bps, m, m') || UnwatchedReturn(base, ret, m')
  {
    hide Walk, Canonical;
    var insn := code[m.pc];
    ExecutesKeepsGood(insn, m, m');
    if insn.flow.Call? {
      assert m'.frames[..base + 1] == start.frames[..base + 1];
      if kind == Into {
        assert PlannedAt(types, code, ranges, ranges, ret, StepBreakpoint(StepBreakpointType.Call, m.pc));
      }
    } else if insn.flow.Return? {
      assert m.frames[base] == m.frames[..base + 1][base] == start.frames[base];
      if ret.Some? {
        assert PlannedAt(types, code, ranges, ranges, ret, StepBreakpoint(AfterRet, m'.pc));
        assert StepBreakpoint(AfterRet, m'.pc) in bps;
      }
    } else if Contains(ranges, m'.pc) {
      RangeEndsOutside(ranges);
    } else {
      InstructionInside(code, ranges, m.pc);
      if Instruction(code, ranges, m'.pc) {
        InstructionInside(code, ranges, m'.pc);
      } else if RangeEnd(ranges, m'.pc) {
        AtRangeEnd(types, code, ranges, ret, bps, m');
      } else {
        LeavingBranch(types, code, ranges, ret, bps, m, m'.pc);
      }
    }
  }

  // ---- Whole steps -----------------------------------------------------------------------------

  ghost predicate Execution(code: Code, ranges: seq<Range>, run: seq<Machine>) {
    && (forall i :: 0 <= i < |run| ==> run[i].frames != [])
    && (forall i :: 0 <= i < |run| - 1 ==> Steps(code, ranges, run[i], run[i + 1]))
  }

  // run[k] is where the step should complete: the first escaped state.
  ghost predicate FirstEscape(kind: StepKind, base: nat, ranges: seq<Range>, run: seq<Machine>, k: nat) {
    && k < |run| && Escaped(kind, base, ranges, run[k])
    && forall i :: 0 <= i < k ==> !Escaped(kind, base, ranges, run[i])
  }

  // The judgement handle_step_stop would make in a state of the run.
  ghost predicate JudgedDone(kind: StepKind, base: nat, ranges: seq<Range>, start: Machine, m: Machine)
    requires m.frames != [] && |start.frames| > base
  {
    StepDone(kind, start.frames[base].cfa, ranges, m.frames[|m.frames| - 1].cfa, m.pc)
  }

  lemma EscapeAgrees(kind: StepKind, base: nat, input: seq<Range>, ranges: seq<Range>, m: Machine)
    requires SameCover(ranges, input)
    ensures Escaped(kind, base, input, m) <==> Escaped(kind, base, ranges, m)
  {
    ContainsIsCovered(input, m.pc);
    ContainsIsCovered(ranges, m.pc);
  }

  lemma {:induction false} HeldUntil(kind: StepKind, base: nat, types: set<StepBreakpointType>, code: Code,
                                     ranges: seq<Range>, ret: Option<nat>, bps: seq<StepBreakpoint>,
                                     run: seq<Machine>, j: nat)
    requires kind != Out && Canonical(ranges) && Tiled(code, ranges)
    requires TypesSuffice(kind, types, code, ranges)
    requires Planned(bps, types, code, ranges, ranges, ret)
    requires Execution(code, ranges, run) && j < |run|
    requires Held(base, code, ranges, run[0], run[0])
    requires ret.Some? ==> ret.value == run[0].frames[base].ret
    requires forall i :: 0 <= i < |run| - 1 ==> LandsWell(base, code, ranges, run[i], run[i + 1])
    requires forall i :: 0 <= i <= j ==> !Escaped(kind, base, ranges, run[i])
    ensures Held(base, code, ranges, run[0], run[j])
  {
    hide Canonical, Planned, TypesSuffice, Tiled, LandsWell, Steps, Escaped;
    if j > 0 {
      HeldUntil(kind, base, types, code, ranges, ret, bps, run, j - 1);
      HeldStep(kind, base, types, code, ranges, ret, bps, run[0], run[j - 1], run[j]);
    }
  }

  // A step changes no frame but the innermost, so the judgement is right about the next state too.
  lemma JudgedRight(kind: StepKind, base: nat, code: Code, ranges: seq<Range>, start: Machine, m: Machine, m': Machine)
    requires Canonical(ranges) && GoodStack(start.frames)
    requires GoodStack(m.frames) && Steps(code, ranges, m, m')
    requires |m.frames| > base && |start.frames| > base
    requires m.frames[..base + 1] == start.frames[..base + 1]
    ensures GoodStack(m'.frames)
    ensures JudgedDone(kind, base, ranges, start, m') <==> Escaped(kind, base, ranges, m')
  {
    hide Canonical;
    var insn: Insn :| Executes(insn, m, m');
    ExecutesKeepsGood(insn, m, m');
    var n := if |m'.frames| <= base then |m'.frames| else base + 1;
    assert m'.frames[..n] == m.frames[..n] == m.frames[..base + 1][..n] == start.frames[..n];
    JudgementIsEscape(kind, base, ranges, start, m');
  }

  // A source-line step, or an instruction step over a call, of the innermost frame or an outer one: whatever the
  // program does, the step is not
  // judged done before it is over, and the moment it is over the debugger has the thread stopped and
  // judges it done.
  lemma {:induction false} LineStepIsExact(kind: StepKind, base: nat, input: seq<Range>,
                                           types: set<StepBreakpointType>, code: Code, ranges: seq<Range>,
                                           ret: Option<nat>, bps: seq<StepBreakpoint>, run: seq<Machine>, k: nat)
    requires kind != Out && Canonical(ranges) && SameCover(ranges, input)
    requires Tiled(code, ranges) && TypesSuffice(kind, types, code, ranges)
    requires Planned(bps, types, code, ranges, ranges, ret)
    requires Execution(code, ranges, run) && k < |run|
    requires Held(base, code, ranges, run[0], run[0]) && !Escaped(kind, base, input, run[0])
    requires ret.Some? ==> ret.value == run[0].frames[base].ret
    requires forall i :: 0 <= i < |run| - 1 ==> LandsWell(base, code, ranges, run[i], run[i + 1])
    requires FirstEscape(kind, base, input, run, k)
    ensures k > 0
    ensures forall i :: 0 <= i < k ==> !JudgedDone(kind, base, ranges, run[0], run[i])
    ensures Stops(bps, run[k - 1], run[k]) || UnwatchedReturn(base, ret, run[k])
    ensures JudgedDone(kind, base, ranges, run[0], run[k])
  {
    hide Canonical, Planned, TypesSuffice, Tiled, LandsWell, Escaped, SameCover, Walk;
    forall i | 0 <= i < |run| ensures Escaped(kind, base, input, run[i]) <==> Escaped(kind, base, ranges, run[i]) {
      EscapeAgrees(kind, base, input, ranges, run[i]);
    }
    HeldUntil(kind, base, types, code, ranges, ret, bps, run, k - 1);
    HeldStep(kind, base, types, code, ranges, ret, bps, run[0], run[k - 1], run[k]);
    forall i | 0 <= i < k ensures !JudgedDone(kind, base, ranges, run[0], run[i]) {
      HeldUntil(kind, base, types, code, ranges, ret, bps, run, i);
      JudgementIsEscape(kind, base, ranges, run[0], run[i]);
    }
    JudgedRight(kind, base, code, ranges, run[0], run[k - 1], run[k]);
  }

  // The instruction a held thread is about to execute in its own frame is one that was looked at: if no system call was
  // found, it is none, and it is a call only if calls have breakpoints.
  lemma LookedAt(types: set<StepBreakpointType>, code: Code, ranges: seq<Range>, a: nat)
    requires Instruction(code, ranges, a) && !SyscallInAny(types, code, ranges)
    requires StepBreakpointType.Call in types || JumpOut in types
    ensures a in code && !code[a].flow.Syscall? && (code[a].flow.Call? ==> StepBreakpointType.Call in types)
  {
    var i :| 0 <= i < |ranges| && a in Walk(code, ranges[i].start, ranges[i].end);
    WalkStays(code, ranges[i].start, ranges[i].end, a);
    assert !SyscallIn(types, code, ranges[i]);
  }

  // If the plan leaves other threads suspended, the step runs nothing that might wait for them: until it is over, the
  // thread stays in its frame, makes no system call, and makes no call but one that ends the step.
  lemma {:induction false} NothingWaits(kind: StepKind, base: nat, types: set<StepBreakpointType>, code: Code,
                                        ranges: seq<Range>, ret: Option<nat>, bps: seq<StepBreakpoint>,
                                        run: seq<Machine>, k: nat, i: nat)
    requires kind != Out && Canonical(ranges) && Tiled(code, ranges) && TypesSuffice(kind, types, code, ranges)
    requires Planned(bps, types, code, ranges, ranges, ret) && !SyscallInAny(types, code, ranges)
    requires (StepBreakpointType.Call in types <==> kind == Into) && (kind == Over ==> JumpOut in types)
    requires Execution(code, ranges, run) && i < k < |run|
    requires Held(base, code, ranges, run[0], run[0]) && |run[0].frames| == base + 1
    requires ret.Some? ==> ret.value == run[0].frames[base].ret
    requires forall j :: 0 <= j < |run| - 1 ==> LandsWell(base, code, ranges, run[j], run[j + 1])
    requires FirstEscape(kind, base, ranges, run, k)
    ensures |run[i].frames| == base + 1 && run[i].pc in code && !code[run[i].pc].flow.Syscall?
    ensures code[run[i].pc].flow.Call? ==> kind == Into && i + 1 == k
  {
    hide Canonical, Planned, TypesSuffice, Tiled, LandsWell, SyscallInAny;
    HeldUntil(kind, base, types, code, ranges, ret, bps, run, i);
    if i > 0 {
      NothingWaits(kind, base, types, code, ranges, ret, bps, run, k, i - 1);
      HeldUntil(kind, base, types, code, ranges, ret, bps, run, i - 1);
      SameFrame(kind, base, code, ranges, run[i - 1], run[i]);
    }
    LookedAt(types, code, ranges, run[i].pc);
    assert Steps(code, ranges, run[i], run[i + 1]);
  }

  lemma SameFrame(kind: StepKind, base: nat, code: Code, ranges: seq<Range>, m: Machine, m': Machine)
    requires kind != Out && |m.frames| == base + 1 && Instruction(code, ranges, m.pc) && m.pc in code
    requires Steps(code, ranges, m, m') && !Escaped(kind, base, ranges, m')
    requires code[m.pc].flow.Call? ==> kind == Into
    ensures |m'.frames| == base + 1
  {
  }

  // Stepping out of a function: over exactly when the function has returned, and stopped there.
  lemma {:induction false} StepOutIsExact(base: nat, code: Code, bps: seq<StepBreakpoint>, ret: nat,
                                          run: seq<Machine>, k: nat)
    requires base > 0 && Planned(bps, {AfterRet}, code, [], [], Some(ret))
    requires Execution(code, [], run) && k < |run|
    requires |run[0].frames| > base && GoodStack(run[0].frames) && ret == run[0].frames[base].ret
    requires FirstEscape(Out, base, [], run, k)
    ensures k > 0
    ensures forall i :: 0 <= i < k ==> !JudgedDone(Out, base, [], run[0], run[i])
    ensures StandsOn(bps, run[k]) && JudgedDone(Out, base, [], run[0], run[k])
  {
    forall i | 0 <= i < k ensures !JudgedDone(Out, base, [], run[0], run[i]) {
      FramesKept(base, code, run, i);
      JudgementIsEscape(Out, base, [], run[0], run[i]);
    }
    FramesKept(base, code, run, k - 1);
    var insn: Insn :| Executes(insn, run[k - 1], run[k]);
    JudgedRight(Out, base, code, [], run[0], run[k - 1], run[k]);
    assert run[k - 1].frames[base] == run[k - 1].frames[..base + 1][base] == run[0].frames[base];
    assert PlannedAt({AfterRet}, code, [], [], Some(ret), StepBreakpoint(AfterRet, ret));
    assert StepBreakpoint(AfterRet, run[k].pc) in bps;
  }

  lemma {:induction false} FramesKept(base: nat, code: Code, run: seq<Machine>, j: nat)
    requires Execution(code, [], run) && j < |run|
    requires |run[0].frames| > base && GoodStack(run[0].frames)
    requires forall i :: 0 <= i <= j ==> !Escaped(Out, base, [], run[i])
    ensures GoodStack(run[j].frames) && |run[j].frames| > base
    ensures run[j].frames[..base + 1] == run[0].frames[..base + 1]
  {
    if j > 0 {
      FramesKept(base, code, run, j - 1);
      var insn: Insn :| Executes(insn, run[j - 1], run[j]);
      ExecutesKeepsGood(insn, run[j - 1], run[j]);
      assert run[j].frames[..base + 1] == run[j - 1].frames[..base + 1];
    }
  }
}
