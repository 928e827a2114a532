// What an internal breakpoint of a step is for (StepBreakpointType in src/debugger.rs).
module StepBreakpoints {
  datatype StepBreakpointType = Call | JumpOut | AfterRet | AfterRange | Catch | Cursor(level: nat)
}
