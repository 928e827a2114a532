# Verified models of nnd

nnd is a debugger for Linux programs. This project models the parts of it that keep state under rules that are easy
to break, and proves those rules: over every history, run or input, unless a row says otherwise.

| files | what they model |
|---|---|
| DebuggeeMemory, BreakpointTable, HandleBreakpoints, BreakpointHistory, Placement, SlotScope | the table of breakpoint locations, the bytes poked into the debuggee, the four hardware slots, and every history of operations on them |
| DebugRegisters, DebuggerModel, DebuggerSession, Debugger, DebuggerRuns | the debugger as an object: debug registers, trap handling, stepping state, pending steps, and whole sessions |
| StepRanges, StepBreakpoints, LineStep, StatementSteps, LineStepSession | stepping by source lines: ranges, internal breakpoints, statements, when a step is over, and whole steps on the debugger's own state |
| AttachProtocol, CoreFormat, CoreDump | the core dumper: stopping every thread, the file format, and the image |
| Uleb128, VarintDecoders, UlebCodec | ULEB128 numbers as in section 7.6 of DWARF version 5 |
| StyledCells, StyledLayout, StyledText | styled text: import, style adjustments, splitting and wrapping |
| Arena, Names, StringTable | the arena, unique names, and searching by name |
| WorkerPool | the worker pool |
| Options, Bytes, Alignment | shared definitions |

Where the program works by changing things in place, so do the methods here; each is proved equal to a function of
the old state, or against the property it is for, and the lemmas are about those functions. `dafny verify
dfyconfig.toml` checks everything.

## Findings

Eight properties that the program relies on do not always hold. Each has a lemma or a method with a concrete case, and,
where it can be said, the exact condition.

- When a hardware location is deactivated, a data breakpoint on the same address loses its slot but stays active
  (src/debugger.rs:2836-2841): `BreakpointHistory.DeactivateKeepsWatchesIff`, `BreakpointHistory.SharedAddressLosesSlot`,
  `BreakpointHistory.SharedAddressReached`.
- A SIGTRAP for an injected int3 that is queued behind another stop is taken for a finished single step if the thread is
  then let run in single-step mode, and the thread goes on in the middle of the patched instruction
  (src/debugger.rs:3432 mentions the race): `DebuggerSession.TrapClassification` has the exact condition,
  `DebuggerRuns.QueuedTrapMisread` a run.
- A thread that happens to be stopped where a breakpoint is becomes marked to ignore its next hit there, although it has
  not hit the breakpoint yet (src/debugger.rs:2985-3013; the comment there knows of it): `DebuggerRuns.HitMissed` is a
  run, `DebuggerSession.SwallowedIff` says what the mark costs.
- Where a step has a hardware location, its slot is for the stepped thread. If the user puts a breakpoint there
  meanwhile, the location counts as active and the slot stays as it is (src/debugger.rs:2735), so other threads run
  through the breakpoint: `SlotScope.AllThreadsIff` has the exact condition, `SlotScope.LateBreakpointMissed` a history.
- A step that stops on statements only may come to another stretch of the line it started on. The first instruction of
  that stretch is then skipped when breakpoints are placed (src/debugger.rs:3257-3269), so a call or a jump there goes
  unnoticed: `StatementSteps.FirstUnguarded`, `StatementSteps.CallMissed`. `StatementSteps.ExtensionCovers` has the
  exact condition for the address to be in the ranges, and `StatementSteps.ExtendedStep` shows that no other
  instruction of a new range gets away.
- The range of such a stretch is pushed to the end of a list that is searched by bisection (src/debugger.rs:3262, 3182).
  The list may be searched afterwards if and only if the range comes last: `StatementSteps.PushedSearchableIff`,
  `StatementSteps.PushedBefore`.
- With 65535 mappings or more, the count of program headers does not fit in the header of a core file
  (src/core_dumper.rs:579-676): `CoreDump.ImageReadsBackIff`, `CoreFormat.TooManyHeaders`.
- The comment at src/arena.rs:345-350 expects no name to use bytes up to '#'. What matters is narrower: a repeated
  name must not be followed by a longer one that goes on with something not greater than the last suffix. Names with a
  space do so ("a", "a", "a b"): `Names.DisambiguatedSortedIff`, `Names.SpaceInNameUnsorts`, `Names.HashInNameCollides`.

The arms of src/debugger.rs:3567-3568 for hidden breakpoints other than that on library loads cannot be reached:
`DebuggerState.Debugger.ScanReferences`.

## Assumptions

- Debugger: native ptrace mode. Reading and writing memory fails exactly where it is not mapped. What the kernel and the
  CPU report for each cause of a trap is the predicate `Reported`: si_code may be wrong in the ways that the comments at
  src/debugger.rs:3410-3446 describe. In sessions the debuggee does not change the bytes of locations in the table.
  Conditions of breakpoints, addresses found by symbols, and whether a step is done are inputs of the events that need
  them. The exec event and the end of a batch of events are each one event. The user interface offers the user only
  breakpoints that are not hidden (src/ui.rs:2212, 5128).
- Stepping: instructions tile the ranges, a branch that lands in the ranges lands at an instruction and not inside one,
  calls and returns are paired (no longjmp and no exceptions), an inner frame has a smaller canonical frame address,
  and finding that address succeeds. For a whole step on the debugger's state, other threads stay stopped and every
  location could be armed.
- Attach loop: a listing of threads is atomic, thread ids are not reused, and interruptions and reports about other
  threads come finitely often.
- Core file: a write makes progress, and the process may change while it is dumped (what counts is what was read).
- ULEB128: the bytes that a decoder reads from where it starts can be read (`UlebCodec.BytesRead`), as the buffers of
  the benchmark provide (other_things/varint_benchmark.c:245).
- Styled text: each byte is annotated with whether a character and a grapheme start there and with its width;
  segmentation is compositional. Lines are closed before they are used.
- Arena: a pointer is a chunk and an offset. The base-10 logarithm is the number of digits that it stands for.
- Worker pool: a step is one access to the mutex, the condition variable or the queue. Panics abort the program, as its
  profile says.

## Model

| member | source | states |
|---|---|---|
| DebuggeeMemory.PatchByteIsUpdate | src/debugger.rs:2782-2797 | reading, masking and writing back an aligned word changes exactly the one byte meant, whatever else shares the word |
| DebuggerState.Debugger.PokeByte | src/debugger.rs:2848-2858 | the same for the method that both patching and restoring use |
| DebuggerState.Debugger.AddBreakpointLocation | src/debugger.rs:2714-2730 | the table becomes the one with the reference added |
| DebuggerSession.RefAdded | src/debugger.rs:2714-2730 | the reference is then found at its address, whether or not a location was there |
| DebuggerSession.RefKept | src/debugger.rs:2714-2730 | no reference that was at any address is lost by adding one |
| BreakpointTable.AddLocationKeeps | src/debugger.rs:2714-2730 | adding a location keeps the table strictly sorted, memory patched exactly at active software locations, and each slot owned |
| DebuggerState.Debugger.ActivateBreakpointLocation | src/debugger.rs:2733-2801 | patches the byte or takes a free slot, with the error the program reports when neither is possible |
| BreakpointTable.ActivateKeeps | src/debugger.rs:2733-2801 | activation keeps the table invariant |
| DebuggerState.Debugger.DeactivateBreakpointLocation | src/debugger.rs:2804-2862 | restores the byte or frees every slot at the address |
| BreakpointTable.DeactivateKeeps | src/debugger.rs:2804-2862 | deactivation keeps the table invariant |
| DebuggerState.Debugger.RestoreCode | src/debugger.rs:3874-3897 | shutdown of an attached process leaves all of memory as it was before the debugger |
| DebuggerState.Debugger.LoadCodeForDecode | src/debugger.rs:1464-1480 | reads original code, with no injected int3, and fails exactly if the range is too long or not mapped |
| DebuggerState.Debugger.CompactLocations | src/debugger.rs:2903-2912 | the in-place swap loop leaves exactly the referenced locations, in order, the others deactivated |
| HandleBreakpoints.CompactKeeps | src/debugger.rs:2903-2912 | compaction keeps the invariant and drops exactly the locations without references |
| DebuggerState.Debugger.ConvertLocations | src/debugger.rs:2970-3017 | converts each location by where threads stand, and marks the threads whose next hit is to be ignored |
| DebuggerState.Debugger.ArmLocations | src/debugger.rs:3019-3035 | tries every location that may be retried, with its error |
| HandleBreakpoints.HandleCorrect | src/debugger.rs:2901-3035 | after the table part of handle_breakpoints: the referenced locations remain, hardware if and only if a thread stands there, active if and only if without error, and an error tells why |
| HandleBreakpoints.OriginalCodeUnderThreads | src/debugger.rs:2970-3035 | the byte under every thread is original code afterwards, so no thread executes an injected int3 where it is resumed |
| DebuggerState.Debugger.HandleBreakpoints | src/debugger.rs:2901-3047 | the whole of handle_breakpoints: the above, apart from slots the kernel refuses; on success every active slot has been pushed, and is armed in every live thread that has stopped before and whose registers could be written, whether it was programmed just now or earlier |
| DebuggerSession.RearmedKeepsRefs | src/debugger.rs:2901-3047 | handle_breakpoints loses no reference, except to a data breakpoint whose slot was refused |
| DebugRegisters.Dr7RoundTrip | src/debugger.rs:3050-3067 | the OR of the slots' DR7 bits decodes to each slot's enable, access kind and size |
| DebugRegisters.Dr7OrSlot | src/debugger.rs:3089-3094 | collecting one slot at a time gives the same DR7 |
| DebuggerState.Debugger.SetAddresses | src/debugger.rs:3089-3094 | DR0 to DR3 and the DR7 to write arm exactly the slots that apply to the thread |
| DebuggerState.Debugger.RejectSlot | src/debugger.rs:3140-3157 | giving up a refused slot: its owner is always found and deactivated, as the unwraps assume |
| DebuggerState.Debugger.TryOneByOne | src/debugger.rs:3124-3160 | after EINVAL: every refused slot is given up and the new DR7 holds the rest |
| DebuggerState.Debugger.WriteDr7 | src/debugger.rs:3106-3165 | on success the thread is armed; only refused slots changed, and nothing if no write failed; it gives up only if a write fails, with a refusal only after six |
| DebuggerState.Debugger.SetDebugRegistersForThread | src/debugger.rs:3069-3165 | the thread is armed with what its slots mean, unless a write fails; nothing else changes unless one does; all other threads stay armed with every slot pushed before |
| DebuggerState.Debugger.PushDebugRegisters | src/debugger.rs:3037-3044 | every live thread is armed, unless it is gone, before slots count as pushed; if no write fails it succeeds, and changes nothing else |
| DebuggerRuns.ArmedEverywhere | src/debugger.rs:3037-3044 | in every state of a session, a slot that has been pushed is armed, at its address and as it asks, in every live thread that has stopped before, unless a write to its registers has failed |
| DebuggerState.Debugger.ActivateBreakpoint | src/debugger.rs:2493-2528 | takes a slot, adds locations, or disables the breakpoint |
| BreakpointHistory.ActivateBreakpointKeeps | src/debugger.rs:2493-2528 | activation keeps the state good and every active data breakpoint its slot |
| Placement.ActivatedRefs | src/debugger.rs:2516-2529 | a breakpoint on code that is activated gets a reference at each of its addresses; no other reference changes, and no other breakpoint |
| Placement.ActivatedWatch | src/debugger.rs:2497-2515 | a data breakpoint takes a free slot for exactly what it watches, or is disabled if there is none |
| DebuggerState.Debugger.ActivateBreakpoints | src/debugger.rs:2489-2543 | several activations in some order, then handle_breakpoints now or when all threads have stopped |
| DebuggerState.Debugger.DeactivateBreakpoint | src/debugger.rs:2545-2567 | drops references lazily and frees the slot at once |
| BreakpointHistory.DeactivateBreakpointKeeps | src/debugger.rs:2545-2567 | it keeps the state good and the other data breakpoints their slots |
| Placement.DeactivatedRefs | src/debugger.rs:2549-2553 | exactly its own references go, at every address; every other breakpoint keeps all of its own and stays as it is |
| DebuggerState.Debugger.RetainReferences | src/debugger.rs:2549-2553 | every location keeps exactly the references not dropped |
| DebuggerState.Debugger.AddBreakpoint | src/debugger.rs:2408-2420 | fails exactly for a bad data size; otherwise the new breakpoint is activated if the process is ready, and failing to arm it is reported |
| DebuggerState.Debugger.RemoveBreakpoint | src/debugger.rs:2422-2429 | the breakpoint and exactly its references are gone; the hidden one is not offered to the user |
| BreakpointHistory.StartingPoolOk | src/debugger.rs:462-473 | exactly one breakpoint is hidden, that on library loads, also when breakpoints are carried over to another process; these stay as they were but for being active and resolved |
| BreakpointHistory.DefaultPoolIs | src/debugger.rs:462-471 | the breakpoints of a first process: on library loads, hidden, on panics, and on exceptions, disabled |
| DebuggerState.Debugger.SetBreakpointEnabled | src/debugger.rs:2431-2445 | disabling deactivates and drops exactly its references; enabling activates if the process is ready; other breakpoints on code stay; setting the same value changes nothing |
| DebuggerState.Debugger.SetStopOnRead | src/debugger.rs:2459-2477 | a data breakpoint is given up and, if the process is ready, taken up again with its new access kind |
| BreakpointHistory.RejectShape | src/debugger.rs:3140-3157 | a refusal changes no memory, frees only slots, keeps all references to code breakpoints, and a location whose slot is refused is not tried again |
| BreakpointHistory.LazyDeactivateKeeps | src/debugger.rs:3532-3534 | deactivating a stale location when it is hit keeps the invariant |
| BreakpointHistory.OverlayKeeps | src/debugger.rs:2714-2862 | the debuggee may write anywhere but where an int3 is injected |
| BreakpointHistory.EveryHistory | src/debugger.rs:2408-3165 | over every history of adding, removing, enabling, arming, converting, refusing and hitting, and of writes by the debuggee away from injected int3: sorted, patched exactly where active, slots owned, one hidden breakpoint |
| Placement.EveryHistoryPlaced | src/debugger.rs:2408-3165 | over every history: each active breakpoint has a reference at each of its addresses, and there are no others |
| BreakpointHistory.HandleUpToDate | src/debugger.rs:2901-3035 | while the debuggee leaves the bytes of all locations alone, the byte kept for each is the program's own, also after handle_breakpoints |
| BreakpointHistory.EveryHistoryOwnsSlots | src/debugger.rs:2498-2516 | over every history in which no data breakpoint shares an address with a location, every active data breakpoint keeps a slot |
| BreakpointHistory.SlotsInUse | src/debugger.rs:2498-2516 | then each active hardware location and data breakpoint owns exactly one slot, and no other slot is in use |
| BreakpointHistory.DeactivateKeepsWatchesIff | src/debugger.rs:2836-2841 | deactivating a hardware location leaves every data breakpoint its slot if and only if none watches that address |
| BreakpointHistory.SharedAddressLosesSlot | src/debugger.rs:2836-2841 | a state where it does not |
| BreakpointHistory.SharedAddressReached | src/debugger.rs:2836-2841 | that state is reached from the breakpoints every session starts with |
| SlotScope.HandledScope | src/debugger.rs:2768-2775 | the slot that handle_breakpoints takes for a location is for all threads if a breakpoint of the user is there, and for the stepped thread otherwise; a slot in use stays as it was |
| SlotScope.AllThreadsIff | src/debugger.rs:2733-2775 | hence the slot where the user has a breakpoint is for all threads if and only if it was not taken for the stepped thread before |
| SlotScope.LateBreakpointMissed | src/debugger.rs:2733-2775 | a history in which it was: the breakpoint is active, and armed in one thread only |
| DebuggerRuns.BreakpointsArmed | src/debugger.rs:2901-3035 | in every state of a session in which handle_breakpoints is not due, every active breakpoint is armed at each of its addresses, by an int3 or a slot, unless that failed with an error |
| DebuggerSession.TrapClassification | src/debugger.rs:3449-3498 | the instruction pointer ends where it belongs if and only if an own int3 is not mistaken for a finished single step |
| DebuggerState.Debugger.ClassifyTrap | src/debugger.rs:3449-3498 | what the handler concludes about a trap: software or not, whose int3, and where the thread is |
| DebuggerState.Debugger.IsProgramTrap | src/debugger.rs:3481-3492 | int3 of the program itself is told from an injected one |
| DebuggerState.Debugger.HitLocation | src/debugger.rs:3523-3587 | which references stop the thread, make it single-step, or tell of libraries, and that a software location is dealt with before it goes on |
| DebuggerState.Debugger.ScanReferences | src/debugger.rs:3539-3580 | the loop over references, with the unwraps on the step and the breakpoint; a hidden reference makes the debugger look for libraries and never stops, so the arms for other hidden breakpoints are not reached |
| DebuggerState.Debugger.ScanSlots | src/debugger.rs:3589-3601 | which data breakpoints stop the thread |
| DebuggerState.Debugger.HandleBreakpointHits | src/debugger.rs:3406-3609 | whether the trap stops the process, from the state before it |
| DebuggerState.Debugger.FinishStop | src/debugger.rs:3611-3624 | a hit or a completed step ends the step and suspends the process; breakpoints a step needs besides are in the table |
| DebuggerState.Debugger.ProcessTrap | src/debugger.rs:1075-1112 | a trap from its cause to the resumed thread: position, hit, single-stepping from a call or jump breakpoint, step state, what is left of the trap in the thread; whether the process is stopped is given exactly from the state before |
| DebuggerRuns.Traps | src/debugger.rs:3406-3624 | a running process stops for a trap if and only if an active breakpoint whose condition holds was resolved to that address (and the thread is not marked), a data breakpoint was hit, or the program asked for it; during a step none of these counts |
| DebuggerRuns.HitCounts | src/debugger.rs:3406-3624 | a run, from the start, in which a thread comes to a breakpoint and the process is suspended |
| DebuggerSession.MarkedIff | src/debugger.rs:2985-3013 | exactly the threads that stand where a software location is converted are marked, unless they stand on an int3 of the program |
| DebuggerSession.SwallowedIff | src/debugger.rs:2985-3013 | what the mark on a thread that stands at a converted location costs: exactly a hit on code there that would have stopped it |
| DebuggerState.Debugger.ProcessStop | src/debugger.rs:1010-1020 | an interrupted thread is stopped where it is, its trap queued if one is due, and resumed if it should run; at its first stop its debug registers are written |
| DebuggerState.Debugger.ProcessSignal | src/debugger.rs:1113-1134 | fatal signals suspend and end the step, others are passed on |
| DebuggerState.Debugger.ProcessExit | src/debugger.rs:1052-1071 | the thread is marked and let go; the process is exiting, with no step, once all threads are |
| DebuggerState.Debugger.ProcessGone | src/debugger.rs:959-988 | losing the stepped thread suspends the process; losing the last one ends it |
| DebuggerState.Debugger.ProcessClone | src/debugger.rs:1035-1051 | a new thread runs and keeps everything sound |
| DebuggerState.Debugger.Execute | src/debugger.rs:3411-3426 | a running thread executes an int3 if there is one, one instruction when single-stepping, else anything; soundness is kept |
| DebuggerState.Debugger.DebuggeeWrites | src/debugger.rs:2782-2790 | the debuggee changes its memory away from locations and the session stays sound |
| DebuggerState.Debugger.FinishEvents | src/debugger.rs:1181-1191 | handle_breakpoints happens once all threads have stopped, and those that should run do; if it fails, which is only if writing registers does, they stay stopped |
| DebuggerState.Debugger.CancelStepping | src/debugger.rs:1251-1263 | no step, no pending step, no step reference is left |
| DebuggerState.Debugger.ResumeThread | src/debugger.rs:2125-2152 | single-step mode exactly if requested or stepping; never from an injected int3 with no trap due |
| DebuggerState.Debugger.ResumeThreadsIfNeeded | src/debugger.rs:2060-2071 | exactly the threads that should run are let run, and none that is to stay stopped; the unwrap of the step in progress never fails |
| DebuggerState.Debugger.Suspend | src/debugger.rs:1324-1344 | allowed exactly while running or stepping; ends the step |
| DebuggerState.Debugger.Resume | src/debugger.rs:1295-1322 | allowed exactly when suspended, stepping or waiting; all threads run unless symbols are needed, which it waits for then and only then |
| DebuggerState.Debugger.StartStep | src/debugger.rs:1502-1508 | the assertions on entry hold; every step breakpoint is in the table; the thread runs, single-stepping if asked to, and no thread that is to stay stopped |
| DebuggerState.Debugger.PlaceStepBreakpoints | src/debugger.rs:1905-1930 | the stepped thread is not single-stepped from an injected int3 |
| DebuggerState.Debugger.AddStepBreakpointLocations | src/debugger.rs:1993-2011 | a thread standing on a call or jump breakpoint is flagged as if it had hit it |
| DebuggerState.Debugger.StepToCursor | src/debugger.rs:2013-2035 | the step waits for symbols, starts with a breakpoint at each address of the cursor, or suspends |
| DebuggerState.Debugger.TryPendingStepAndActivateBreakpoints | src/debugger.rs:1414-1460 | its assertions hold if and only if a pending step is in state Stepping with no step in progress |
| DebuggerState.Debugger.DropCaches | src/debugger.rs:1265-1293 | the same for its caller: nothing happens unless the process is ready |
| DebuggerState.Debugger.ProcessInitialExec | src/debugger.rs:1172-1177 | the initial exec activates breakpoints and begins the initial step |
| DebuggerState.Debugger.constructor | src/debugger.rs:717-885 | a process that is started: all invariants hold, with the breakpoints carried over or the default ones |
| DebuggerState.Debugger.Attach | src/debugger.rs:536-596 | a process that is attached to: all invariants hold |
| DebuggerRuns.Happens | src/debugger.rs:886-1204 | any one event keeps all invariants and the step state as its users assume, no assertion fails, and no thread is let run that is to stay stopped: while the process is suspended, breakpoints are to be handled, symbols are awaited, or a step keeps the others stopped |
| DebuggerRuns.Run | src/debugger.rs:886-1204 | over every run, from a start or an attach, with the user, the kernel and the debuggee doing anything: no assertion about the step state fails, everything stays sound, and the breakpoints can be carried over |
| DebuggerRuns.HitMissed | src/debugger.rs:2990-2998 | a run, from the start, in which a thread comes to an armed breakpoint for the first time and the hit is ignored |
| DebuggerRuns.QueuedTrapMisread | src/debugger.rs:3429-3432 | a run in which a trap queued behind another stop leaves a thread in the middle of an instruction |
| StepRanges.Sweep | src/debugger.rs:1750-1767 | the event sweep gives the canonical list of what the input covers |
| StepRanges.CleanUpRanges | src/disassembly.rs:312-331 | so does the in-place sort and merge |
| StepRanges.CanonicalUnique | src/debugger.rs:1776 | there is only one canonical list for a set of points |
| StepRanges.SweepAndMergeAgree | src/disassembly.rs:312-331 | hence the two algorithms compute the same list, which contains exactly the addresses of the input |
| StepRanges.MembershipAgrees | src/debugger.rs:3181-3183 | the binary searches for membership mean "in some input range", also for jump targets |
| LineStep.DetermineStepBreakpoints | src/debugger.rs:1953-1991 | one range: exactly the breakpoints the types ask for on the instructions decoded, and whether it may do a system call |
| LineStep.LeavesIff | src/debugger.rs:1492-1500 | a branch gets a breakpoint if and only if its target is unknown or outside the ranges |
| LineStep.PlanStep | src/debugger.rs:1750-1831 | the whole plan of a step: canonical ranges and exactly the breakpoints for them; it fails exactly if a return address or code that it needs is missing |
| LineStep.JudgementIsEscape | src/debugger.rs:3176-3207 | the judgement by frame address means that the thread has left the stepped frame or its ranges |
| LineStep.LineStepIsExact | src/debugger.rs:1808-1831 | no escape: whatever the program does in tiled ranges, the step is not judged done early, and at its first escape the thread is stopped and judged done |
| LineStep.NothingWaits | src/debugger.rs:1957-1985 | a step that leaves other threads suspended runs nothing that might wait for them: no system call, and no call but one that ends it |
| LineStep.StepOutIsExact | src/debugger.rs:1808-1825 | stepping out is over exactly when the frame has returned, stopped at the return address |
| LineStepSession.BeginLineStep | src/debugger.rs:1833-1945 | the plan is carried out: its breakpoints are in the table, the step is in progress, and other threads are kept stopped unless it steps out, may do a system call, or begins in one |
| LineStepSession.StepTrap | src/debugger.rs:3611-3624 | a trap of the stepped thread ends the step if and only if its state is escaped; otherwise it goes on, single-stepping from a call or jump breakpoint |
| LineStepSession.RunsInto | src/debugger.rs:3411-3447 | a running thread that stands on an armed location traps there, and the trap is about that address |
| LineStepSession.StopsOnBreakpoint | src/debugger.rs:3411-3624 | hence a step that is over there ends there |
| LineStepSession.StopsAfterSingleStep | src/debugger.rs:3539-3624 | a step that is over one instruction after a call or jump breakpoint ends right there: the trap, handle_breakpoints, the single step and the judgement |
| LineStepSession.LineStepEnds | src/debugger.rs:3611-3624 | a whole line step on an armed table: whatever the program does, it is over for the first time in some state, and the debugger stops the thread in that very state |
| StatementSteps.HandleStepStop | src/debugger.rs:3192-3282 | the judgement with regard to statements: done, going on, or taking in more code, with exactly the breakpoints for it, and whether it may wait for other threads |
| StatementSteps.WhichIsDone | src/debugger.rs:3197-3209 | the two halves of the judgement tell having left the frame from having left the ranges |
| StatementSteps.PushedSearchableIff | src/debugger.rs:3259-3262 | with the new range the list may be searched, and the search is right, if and only if the range neither begins nor ends before the last one |
| StatementSteps.PushedBefore | src/debugger.rs:3259-3262 | code that lies before breaks that |
| StatementSteps.ExtensionCovers | src/debugger.rs:3237-3262 | an address is in the ranges afterwards if and only if it was before, or is in the new stretch and is not the beginning of a statement |
| StatementSteps.ExtendedStep | src/debugger.rs:3237-3272 | no escape from a new range: one instruction later the thread is in a range, in a callee, back in the caller, or stopped, unless it is the instruction that was skipped |
| StatementSteps.FirstUnguarded | src/debugger.rs:3257-3272 | which has no breakpoint, whatever it does |
| StatementSteps.CallMissed | src/debugger.rs:3257-3272 | a step into calls that misses one for that reason |
| LineStepSession.StatementTrap | src/debugger.rs:3611-3624 | in a session: the step ends if and only if it is judged done, and the breakpoints for new code are in the table before the thread goes on |
| AttachProtocol.Tracer.AttachAll | src/core_dumper.rs:94-177 | when the attach loop ends with success, every live thread is traced, stopped and listed once; it gives up only if a call fails, there are more than thirty threads or stops for signals, or no thread is alive |
| AttachProtocol.Tracer.SeizeAll | src/core_dumper.rs:114-124 | a round: the new threads are seized and waited for |
| AttachProtocol.Tracer.WaitAll | src/core_dumper.rs:126-168 | all of them have stopped or exited, through other signals and interruptions |
| AttachProtocol.StopIsStable | src/core_dumper.rs:94-177 | and it stays so: no thread can start or be created |
| CoreFormat.NotesReadBack | src/core_dumper.rs:483-493 | the note area decodes to exactly the notes added, for any names and contents |
| CoreFormat.HeadersReadBackIff | src/core_dumper.rs:579-676 | a reader finds the program headers written if and only if there are fewer than 65536 |
| CoreFormat.TooManyHeaders | src/core_dumper.rs:612-623 | with 65536 it finds none |
| CoreFormat.WrittenIsCoreFile | src/core_dumper.rs:600-627 | a reader takes the file for a 64-bit little-endian core file of an x86-64, with headers of the sizes expected |
| CoreFormat.LayoutIsSound | src/core_dumper.rs:579-612 | ranges are page aligned in memory and file, cover their mappings, and are disjoint in the file |
| CoreDump.CoreDumper.AddNote | src/core_dumper.rs:483-493 | the notes buffer is the encoding of the notes so far |
| CoreDump.CoreDumper.FlushBuf | src/core_dumper.rs:678-698 | through any partial writes, all is written in order once, or the error is reported after a prefix |
| CoreDump.CoreDumper.WriteHeaders | src/core_dumper.rs:579-676 | the layout and the header bytes |
| CoreDump.CoreDumper.DumpMemoryRanges | src/core_dumper.rs:702-736 | for any buffer size: every range is read once, in order, and written |
| CoreDump.CoreDumper.Dump | src/core_dumper.rs:178-218 | the file is the image, headers, notes, padding and data, unless a write fails |
| CoreDump.ImageIsExact | src/core_dumper.rs:702-736 | each byte of a dumped range is in the file where the layout says, as reading it gave, zero if that failed |
| CoreDump.SegmentsMapMemory | src/core_dumper.rs:579-676 | a reader finds one segment for each mapping, in order: it covers the mapping and no page more, is aligned, has its permissions, has all of it in the file or nothing according to what is to be dumped, and byte p_offset + k of the file is what reading p_vaddr + k gave |
| CoreDump.StillProcessIsCopied | src/core_dumper.rs:702-736 | a process that stands still and can be read is copied exactly: a reader finds its memory, at its addresses, in the segments |
| CoreDump.ImageReadsBackIff | src/core_dumper.rs:579-676 | a reader of the whole file finds a header for each mapping and for the notes if and only if there are fewer than 65535 mappings, and then the notes that were added |
| UlebCodec.EncodeUleb128 | other_things/varint_benchmark.c:215-225 | the loop writes the encoding and nothing else |
| UlebCodec.EncodeDecodes | other_things/varint_benchmark.c:215-225 | the encoding of every 64-bit number is a terminated string of at most ten bytes with that value |
| UlebCodec.ParseSimple | other_things/varint_benchmark.c:20-30 | the simple loop gives the value and the length |
| VarintDecoders.FastCorrect | other_things/varint_benchmark.c:65-213 | every fast decoder gives value and length of every encoding of up to ten bytes, whatever follows |
| VarintDecoders.HybridFlat | other_things/varint_benchmark.c:65-100 | parse_hybrid |
| VarintDecoders.BranchlessFlat | other_things/varint_benchmark.c:102-119 | parse_branchless, with pext |
| VarintDecoders.Branchless2Flat | other_things/varint_benchmark.c:121-193 | parse_branchless2 to 4, with any of the three ways to pack groups |
| VarintDecoders.SimdFlat | other_things/varint_benchmark.c:195-213 | parse_simd |
| UlebCodec.LoadFor | other_things/varint_benchmark.c:65-213 | what each decoder loads holds the encoding, though parse_hybrid reads 8 or 10 bytes, parse_branchless 8 or 16, the others 16 |
| UlebCodec.ParseFast | other_things/varint_benchmark.c:65-213 | on a buffer of which that many bytes can be read: the same as the simple loop |
| UlebCodec.DecodeStream | other_things/varint_benchmark.c:237-296 | decoding a concatenation of encodings with any fast decoder gives back the numbers; 7 or 15 spare bytes after it are enough |
| StyledTexts.StyledText.Write | src/common_ui.rs:246-252 | text is appended to the open line with its style |
| StyledTexts.StyledText.CloseSpan | src/common_ui.rs:277-281 | an empty span is not added |
| StyledTexts.StyledText.CloseLine | src/common_ui.rs:283-287 | the open line becomes the last one |
| StyledTexts.StyledText.ImportSpans | src/common_ui.rs:334-345 | the spans' cells are appended, in the span structure they had |
| StyledTexts.StyledText.ImportLines | src/common_ui.rs:320-332 | the lines copied have the same cells |
| StyledTexts.StyledText.ImportSubstring | src/common_ui.rs:347-364 | the cells of a byte range, counted from the first span |
| StyledTexts.StyledText.ImportLineWithAdjustments | src/common_ui.rs:366-402 | the text is unchanged, and every character has its style with every adjustment that covers its first byte, in list order |
| StyledTexts.StyledText.SplitByNewline | src/common_ui.rs:493-524 | the lines and byte ranges are those of the text split at newlines, contiguous and complete |
| StyledTexts.StyledText.LineWrap | src/common_ui.rs:415-491 | pieces, positions and lines meet the specification of wrapping: number of lines, contiguous pieces of whole graphemes, each as long as fits, indicators |
| StyledLayout.WrapUnique | src/common_ui.rs:415-491 | only one output meets it |
| StyledLayout.LinesFit | src/common_ui.rs:415-491 | no line is wider than asked for, unless it has a single grapheme of text |
| StyledLayout.FittingText | src/common_ui.rs:415-491 | text that fits, in width and number of lines, is left as it is |
| StyledLayout.ContentIsPrefix | src/common_ui.rs:415-491 | without indicators, the output is the source up to where it stopped |
| StyledLayout.WrapKeepsContent | src/common_ui.rs:415-491 | nothing is lost or repeated unless the text is truncated |
| StyledLayout.ComposedRanges | src/common_ui.rs:415-524 | composed with the ranges of splitting, the reported ranges partition the original text |
| StyledTexts.StrPrefixWithWidth | src/common_ui.rs:202-214 | the longest prefix of whole graphemes within the width, and the next grapheme |
| StyledTexts.ChooseEnd | src/common_ui.rs:436-470 | where an output line ends: all that is left if it fits and may end there, or else the most whole graphemes that fit before the indicator, or one if none does |
| StyledCells.Applied | src/common_ui.rs:163-181 | what an adjustment does to a style: each color channel moves as far as it goes, and added modifiers win over removed ones |
| Arenas.Arena.PickChunk | src/arena.rs:150-185 | the current chunk if it has room, or the next, or a new one; and which one is nominated for later; existing chunks stay as they are |
| Arenas.Arena.Alloc | src/arena.rs:44-51 | a new aligned block, apart from every live one, whose contents stay; nothing is wasted but for alignment |
| Arenas.Arena.AddSlice | src/arena.rs:64-80 | the block holds the bytes; all others keep theirs |
| Arenas.Arena.PushToArray | src/arena.rs:88-125 | the array is its old contents and the new element, in place exactly if it is the last of its chunk and there is room, else moved to where it can double; all others keep theirs |
| Arenas.ArenaWrite.Write | src/arena.rs:271-294 | appends, moving to another chunk exactly if it does not fit; no allocation changes |
| Arenas.ArenaWrite.Migrate | src/arena.rs:277-290 | the copy goes to a different chunk |
| Arenas.ArenaWrite.Finish | src/arena.rs:260-267 | the block holds the concatenation of what was written, where it was written; there is none exactly if that is empty |
| Names.DisambiguatedSortedIff | src/arena.rs:345-373 | a sorted list stays sorted and becomes free of duplicates if and only if no two neighbouring groups clash |
| Names.AboveHashNoClash | src/arena.rs:345-350 | names of bytes greater than '#' never clash |
| Names.HashInNameCollides | src/arena.rs:345-350 | with '#' in a name two results can be equal |
| Names.SpaceInNameUnsorts | src/arena.rs:345-350 | with a space in a name the result can be unsorted |
| Names.SuffixReads | src/arena.rs:357-372 | the first name of a group stays as it is; the others get a hash sign and their decimal number, from 2 up, in as many digits as the size of the group has |
| Names.SuffixesOrdered | src/arena.rs:355-372 | suffixes of a group are ordered like the indices, at any number of digits |
| StringTables.StringTable.AddSlice | src/arena.rs:308-312 | the table has one more string, and its id |
| StringTables.StringTable.Disambiguate | src/arena.rs:364-372 | the same with the name's suffix |
| StringTables.StringTable.BinarySearch | src/arena.rs:318-325 | finds an id of the name, or the name is not in a strictly sorted table |
| StringTables.FillTable | src/symbols.rs:1500-1521 | the loop over groups gives every entry its disambiguated name and its id |
| StringTables.FindsExactly | src/arena.rs:318-325 | for a sorted list without clashes, the table then finds exactly the id of every name it gave out |
| WorkerPool.ExactlyOnceInOrder | src/executor.rs:26-46 | over every interleaving: tasks leave the queue in the order they entered, each once |
| WorkerPool.InvKept | src/executor.rs:26-46 | every step keeps mutual exclusion, order, that no task is lost, and that every queued task has a wakeup coming while a worker waits |
| WorkerPool.NoLostWakeup | src/executor.rs:26-46 | a nonempty queue leaves a worker not waiting or an adder about to notify |
| WorkerPool.RunsEnd | src/executor.rs:26-46 | without new calls and spurious wakeups every run ends |
| WorkerPool.StuckIffDone | src/executor.rs:26-46 | it ends exactly when all tasks are done, all calls have returned and all workers wait |
| WorkerPool.Executor.AddBoxed | src/executor.rs:26-29 | each step of add_boxed |
| WorkerPool.Executor.WorkerThread | src/executor.rs:35-46 | each step of a worker |
| WorkerPool.Executor.Run | src/executor.rs:17-46 | any schedule of steps is a run of the pool |

## Left out

- Remote mode (the GDB stub owns the trap bytes), reading symbols, unwinding, expression evaluation, the user interface.
- DebuggerState.Debugger.HandleBreakpoints: errors of ptrace other than refused slots and vanished threads end it early with `false`; which threads are armed is not said then, but the table is.
- DebuggerState.Debugger.TryPendingStepAndActivateBreakpoints: goes on where the program ends early because handle_breakpoints failed.
- DebuggerState.Debugger.DebuggeeWrites: does not let the debuggee change the byte of any location in the table, not even of one that is inactive, because the byte kept for it tells the program's own traps from injected ones and is then out of date until the location is activated. The table's own invariants allow it (`BreakpointHistory.EveryHistory`).
- DebuggerState.Debugger.ProcessTrap: ptrace errors while debug registers are refreshed are ignored; stop reasons and hit counters are not kept.
- DebuggerState.Debugger.ProcessExit: step references left in the table when the whole process is exiting are allowed; nothing is claimed about the step state from then on.
- DebuggerState.Debugger.StartStep: does not choose the ranges from line tables or inlined functions; those are inputs of `LineStep.PlanStep`.
- BreakpointHistory.EveryHistory: errors that end the compaction loop of handle_breakpoints early are not modelled; with memory that can be read and written they do not occur.
- BreakpointHistory.SlotsInUse: does not say which slot; which threads it is for is in `SlotScope.HandledScope`.
- LineStep.LineStepIsExact: a step that takes in more code in the middle is in `StatementSteps` one instruction at a time only; breakpoints for catch blocks are left out; stepping by single instructions is in `DebuggerState.Debugger.StartStep` only.
- LineStepSession.LineStepEnds: the run up to the last stop but one is that of `LineStep.LineStepIsExact`; the session is followed from there.
- StatementSteps.HandleStepStop: what line information says of an address is an input; keeping other threads suspended after a new range is left out.
- StepRanges.Sweep: static addresses are taken as shifted to dynamic ones already, which a monotone shift allows.
- AttachProtocol.Tracer.AttachAll: a thread that never stops makes it wait forever, which is not modelled.
- CoreDump.CoreDumper.Dump: the contents of notes (registers, process information) and the fork injection are left out.
- CoreFormat.NotesReadBack: names, descriptions and types have to fit in the four-byte fields.
- UlebCodec.ParseSimple: strings of more than ten bytes are left out: shifting a 64-bit word by 70 is undefined in C.
- StyledTexts.StyledText.LineWrap: offsets are integers without overflow; lists of positions that the caller does not ask for are always kept.
- Arenas.Arena.Alloc: chunks are sequences of bytes, not memory; alignment is that of offsets within a chunk, since chunks themselves are allocated without alignment.
- StringTables.StringTable.BinarySearch: the search is the partition point it stands for, not its halving loop.
- WorkerPool.Executor.Run: a pool without threads (`Executor::invalid`) runs nothing and is left out.
- `BigVec`, settings, logging, progress bars, resource statistics and the sketches under other_things are left out: they would add easy members only.
