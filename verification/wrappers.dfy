/** Value types shared by the helpers of the process-execution utilities. */
module Wrappers {

  /** A value that may be absent: Python's `None` for an optional argument,
      or a library call that failed. */
  datatype Option<+T> = None | Some(value: T)

  /** What a helper does to its caller: hand a value back, terminate the
      host process through `sys.exit(code)`, or let a `KeyboardInterrupt`
      propagate untouched. Process termination is a value here, not an
      effect. */
  datatype Completion<+T> = Returned(value: T) | Exit(code: int) | Interrupt
}
