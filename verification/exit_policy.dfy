/** The exit-code policy of the two process runners, `run` and `run_async`:
    once the child has ended, whether the helper hands control back to its
    caller or terminates the host process, and with which status. */
module ExitPolicy {
  import opened Wrappers

  /** The status the helpers exit with when the child cannot be launched or
      run, or anything else goes wrong while it runs. */
  const FailureCode: int := -1

  /** The return code a child reports when it was killed (SIGKILL), which is
      what the timeout of `run_async` does to it. */
  const KilledCode: int := -9

  /** The expected return code both helpers use when the caller gives none
      (`expected_return=0`). */
  const DefaultExpected: Option<int> := Some(0)

  /** How running the child went: it finished with some output and return
      code, an exception was raised while launching or running it, or the user
      interrupted (`KeyboardInterrupt`). */
  datatype Child<T> = Finished(output: T, returncode: int) | Failed | Interrupted

  /** `should_exit` in `run`: the child's return code when an expected code
      is given and the child's code differs from it. */
  function RunShouldExit(expected: Option<int>, returncode: int): (r: Option<int>)
    ensures r.Some? ==> r.value == returncode
    ensures r.None? <==> expected.None? || expected == Some(returncode)
  {
    if expected.Some? && returncode != expected.value then Some(returncode) else None
  }

  /** `should_exit` in `run_async`: as in `run`, except that the kill code is
      accepted as well. */
  function AsyncShouldExit(expected: Option<int>, returncode: int): (r: Option<int>)
    ensures r == if returncode == KilledCode then None else RunShouldExit(expected, returncode)
  {
    if expected.Some? && returncode != expected.value && returncode != KilledCode
    then Some(returncode)
    else None
  }

  /** The outcome of a helper once its child has ended and `should_exit` has
      been decided: an interrupt propagates, any other failure exits with
      status -1, and a finished child's output is handed back unless
      `should_exit` names a status. */
  function Conclude<T>(child: Child<T>, shouldExit: int -> Option<int>): Completion<T>
  {
    match child
    case Interrupted => Interrupt
    case Failed => Exit(FailureCode)
    case Finished(output, returncode) =>
      var s := shouldExit(returncode);
      if s.Some? then Exit(s.value) else Returned(output)
  }

  /** `run`: the captured output comes back exactly when there is no expected
      code or the child's code equals it; otherwise the host exits with the
      child's own code, and a failure to launch or run exits with -1. */
  function Run<T>(expected: Option<int>, child: Child<T>): (r: Completion<T>)
    ensures r.Returned? <==>
            child.Finished? && (expected.None? || child.returncode == expected.value)
    ensures r.Returned? ==> r.value == child.output
    ensures r.Exit? && child.Finished? ==> r.code == child.returncode
    ensures r.Exit? && !child.Finished? ==> r.code == FailureCode
    ensures r.Interrupt? <==> child.Interrupted?
  {
    Conclude(child, (rc: int) => RunShouldExit(expected, rc))
  }

  /** `run_async`, once its child has ended. It is a generator: the lines it
      streamed were already yielded, and finishing it hands nothing back, so
      its child's output is `()`. It exits with the child's code only when an
      expected code is given and the child's code is neither that code nor
      the kill code; failures exit with -1 and interrupts propagate, as in
      `run`. */
  function RunAsync(expected: Option<int>, child: Child<()>): (r: Completion<()>)
    ensures r.Exit? && child.Finished? <==>
            child.Finished? && expected.Some? && child.returncode != expected.value
            && child.returncode != KilledCode
    ensures r.Returned? ==> child.Finished?
    ensures r.Exit? ==> r.code == (if child.Finished? then child.returncode else FailureCode)
    ensures r.Interrupt? <==> child.Interrupted?
  {
    Conclude(child, (rc: int) => AsyncShouldExit(expected, rc))
  }

  /** Without an expected code neither helper ever exits because of the
      child's return code. */
  lemma NoExpectationAcceptsAnyCode<T>(output: T, returncode: int)
    ensures Run(None, Finished(output, returncode)) == Returned(output)
    ensures RunAsync(None, Finished((), returncode)) == Returned(())
  {
  }

  /** A mismatch makes both helpers exit with the child's code even when
      that code is 0, the usual success status. */
  lemma MismatchExitsEvenWithZero<T>(output: T)
    ensures Run(Some(1), Finished(output, 0)) == Exit(0)
    ensures RunAsync(Some(1), Finished((), 0)) == Exit(0)
  {
  }

  /** Under the default expectation, code 0 is accepted and any other code
      makes `run` exit with it; `run_async` accepts the kill code as well. */
  lemma DefaultExpectation<T>(output: T, returncode: int)
    ensures returncode == 0 ==> Run(DefaultExpected, Finished(output, returncode)) == Returned(output)
    ensures returncode != 0 ==> Run(DefaultExpected, Finished(output, returncode)) == Exit(returncode)
    ensures RunAsync(DefaultExpected, Finished((), returncode)) ==
            if returncode == 0 || returncode == KilledCode then Returned(()) else Exit(returncode)
  {
  }

  /** The kill code is accepted by `run_async` whatever code is expected. */
  lemma KillCodeAlwaysAccepted(expected: Option<int>)
    ensures RunAsync(expected, Finished((), KilledCode)) == Returned(())
  {
  }

  /** On the same child outcome, `run_async` accepts everything `run`
      accepts; the two disagree exactly when a killed child was expected to
      end with another code, and then `run` exits with the kill code while
      `run_async` returns. */
  lemma AsyncDiffersFromRunOnlyOnKill(expected: Option<int>, child: Child<()>)
    ensures Run(expected, child).Returned? ==> RunAsync(expected, child) == Run(expected, child)
    ensures RunAsync(expected, child) != Run(expected, child) <==>
            child.Finished? && child.returncode == KilledCode
            && expected.Some? && expected.value != KilledCode
    ensures RunAsync(expected, child) != Run(expected, child) ==>
            Run(expected, child) == Exit(KilledCode) && RunAsync(expected, child) == Returned(())
  {
    if child.Finished? {
      assert child.output == ();
    }
  }

  /** The exit statuses of both helpers in one place: a finished child's
      exit is its own return code, any other exit is -1, and with a matching
      code neither helper exits. It only collects what the contracts of `Run`
      and `RunAsync` already state. */
  lemma ExitStatuses<T>(expected: Option<int>, child: Child<T>, asyncChild: Child<()>)
    ensures Run(expected, child).Exit? ==>
            (if child.Finished? then Run(expected, child).code == child.returncode
             else Run(expected, child).code == FailureCode)
    ensures RunAsync(expected, asyncChild).Exit? ==>
            (if asyncChild.Finished? then RunAsync(expected, asyncChild).code == asyncChild.returncode
             else RunAsync(expected, asyncChild).code == FailureCode)
    ensures child.Finished? && expected == Some(child.returncode) ==> !Run(expected, child).Exit?
    ensures asyncChild.Finished? && expected == Some(asyncChild.returncode) ==>
            !RunAsync(expected, asyncChild).Exit?
  {
  }
}
