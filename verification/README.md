# Process-execution helpers of the gelpia front end, modelled in Dafny

The gelpia front end runs its external solver through a few helpers in
`src/frontend/ian_utils.py`. `run` starts a child process and blocks until it
ends. `run_async` streams the child's output line by line, with a background
`AsyncReader` thread filling a queue. `IanArgumentParser` reads flags from an
argument file line by line. This project models the sequential decisions in
these helpers and proves properties of them:

- `ArgLines`: the argument-line filter of
  `IanArgumentParser.convert_arg_line_to_args`. The line is split shell-style.
  Blank tokens are skipped. The first non-blank token that starts with `#`
  ends the line. A failed split terminates with status -1. `shlex.split`
  comes in as a parameter `split: string -> Option<seq<string>>`, where
  `None` stands for a split that raises. The filter is specified by
  `ArgsOf(tokens)`: the non-blank tokens before the first comment token.
  `ConvertArgLineToArgs` is the loop, proved equal to that specification.
- `ExitPolicy`: what `run` and `run_async` do once the child has ended. They
  either hand control back, terminate the host with `sys.exit(code)`, or let
  a `KeyboardInterrupt` through. `Completion` models `sys.exit` as the value
  `Exit(code)`. How the child went is a `Child` value: `Finished(output,
  returncode)`, `Failed` (any exception while launching or running it) or
  `Interrupted`. For `run_async`, a generator that hands nothing back when it
  finishes, the output is `()`. `DefaultExpected` is the default
  `expected_return=0`.
- `AsyncReading`: the `AsyncReader.run` loop as a class method. It works on
  a `TextStream`, whose `pending` field holds the results `readline` will
  return (then `""` forever), and on a `LineQueue` (`queue.Queue`). It is
  proved to queue `Consumed(results)`: every result up to and including the
  first `""`. It leaves `Unread(results)` on the stream.

`convert_arg_line_to_args` catches every exception with a bare
`except:`. A `KeyboardInterrupt` during the split therefore also ends in
status -1 there. In `run` and `run_async` an interrupt propagates.

## Model

| member | source | states |
|---|---|---|
| ArgLines.SpaceIsPythonWhitespace | src/frontend/ian_utils.py:141 | `IsSpace`, the character test behind `strip()`, holds exactly for the 29 characters of Python's `str.isspace`, listed one by one in `PythonWhitespace` |
| ArgLines.LStrip | src/frontend/ian_utils.py:141 | `lstrip()` gives a suffix of the token that does not start with whitespace, and everything it drops is whitespace |
| ArgLines.RStrip | src/frontend/ian_utils.py:141 | `rstrip()` gives a prefix of the token that does not end with whitespace, and everything it drops is whitespace |
| ArgLines.BlankIffStripEmpty | src/frontend/ian_utils.py:141 | `IsBlank` (all characters whitespace) holds exactly when `strip()` leaves nothing, which is the test `not arg.strip()` |
| ArgLines.CommentIffHashAfterStrip | src/frontend/ian_utils.py:141-144 | `IsComment` holds exactly when `strip()` leaves something and the token's first character is `#`: the token at which the loop breaks |
| ArgLines.ConvertArgLineToArgs | src/frontend/ian_utils.py:138-149 | a failed split gives `Exit(-1)` and produces no token; otherwise the result is exactly `ArgsOf` of the split tokens |
| ArgLines.CommentStart | src/frontend/ian_utils.py:143-144 | the position where the filter stops: no token before it is a comment token, and the token at it (if any) is one |
| ArgLines.NonBlank | src/frontend/ian_utils.py:141-142 | the blank-skipping step keeps only tokens of the input, none of them blank, and never lengthens the sequence |
| ArgLines.ArgsOfAppend | src/frontend/ian_utils.py:140-145 | on `a + b` the filter gives `a`'s arguments alone if `a` holds a comment token; otherwise it gives `a`'s non-blank tokens followed by `b`'s arguments |
| ArgLines.NonBlankEmbedding | src/frontend/ian_utils.py:141-142 | skipping blank tokens keeps the others in their order (a strictly increasing index embedding), and every non-blank token is kept |
| ArgLines.ArgsAreSubsequence | src/frontend/ian_utils.py:140-145 | the output is an order-preserving subsequence of the split tokens, taken only from before the first comment token, and contains every non-blank token before it |
| ArgLines.ArgsAreNotBlankNorComment | src/frontend/ian_utils.py:141-145 | no emitted token is blank, and none starts with `#` |
| ArgLines.CommentTruncates | src/frontend/ian_utils.py:143-144 | for any comment token at position k, the output equals that of the tokens before k: nothing after a comment token is emitted |
| ArgLines.BlankTokenSkipped | src/frontend/ian_utils.py:141-142 | inserting a blank token anywhere leaves the output unchanged, so a blank token never ends the line |
| ArgLines.WithoutCommentOnlyBlanksDropped | src/frontend/ian_utils.py:140-145 | when no token is a comment token, the output is exactly the split tokens with the blank ones removed |
| ArgLines.AllBlankGivesNothing | src/frontend/ian_utils.py:140-142 | tokens that are all blank give no output: an empty line, or one of spaces and tabs, splits into no tokens, and a line of other whitespace, such as U+00A0, splits into blank tokens, which are skipped |
| ArgLines.ArgsOfIdempotent | src/frontend/ian_utils.py:140-145 | filtering the output again changes nothing |
| ArgLines.QuotedSpaceAndCommentExample | src/frontend/ian_utils.py:140-145 | the tokens of `a b "c d" # e f` give `a`, `b`, `c d` |
| ArgLines.BlankThenCommentExample | src/frontend/ian_utils.py:141-144 | a blank token before `#y` is skipped and `#y` ends the line |
| ExitPolicy.RunShouldExit | src/frontend/ian_utils.py:40-46 | `run`'s `should_exit` is the child's code when set, and stays unset exactly when no code is expected or the code matches |
| ExitPolicy.AsyncShouldExit | src/frontend/ian_utils.py:102-108 | `run_async`'s `should_exit` is `run`'s, except that it stays unset for the kill code -9 |
| ExitPolicy.Run | src/frontend/ian_utils.py:40-62 | `run` returns the child's output exactly when no code is expected or the code matches. Otherwise it exits with the child's own code. A launch or runtime failure exits with -1, and an interrupt propagates |
| ExitPolicy.RunAsync | src/frontend/ian_utils.py:102-122 | a finished child leads to an exit exactly when a code is expected and the child's code is neither that code nor -9; the exit status is then the child's code; failures exit with -1; interrupts propagate; a normal end hands nothing back, since the lines were already yielded |
| ExitPolicy.NoExpectationAcceptsAnyCode | src/frontend/ian_utils.py:40-41 | with no expected code, neither helper exits for any return code |
| ExitPolicy.MismatchExitsEvenWithZero | src/frontend/ian_utils.py:41-46 | a child that returns 0 when 1 was expected makes both helpers exit with status 0 |
| ExitPolicy.DefaultExpectation | src/frontend/ian_utils.py:30-108 | under the default `expected_return=0`, code 0 is accepted and any other code, -9 included, makes `run` exit with it; `run_async` accepts 0 and -9 and exits with any other code |
| ExitPolicy.KillCodeAlwaysAccepted | src/frontend/ian_utils.py:102-103 | `run_async` accepts return code -9 whatever code is expected |
| ExitPolicy.AsyncDiffersFromRunOnlyOnKill | src/frontend/ian_utils.py:102-108 | `run_async` accepts all that `run` accepts. The two differ exactly when a code other than -9 was expected and the child returned -9. Then `run` exits with -9 and `run_async` returns |
| ExitPolicy.ExitStatuses | src/frontend/ian_utils.py:46-119 | for both helpers, a finished child's exit status is its own return code and any other exit is -1; a matching code never leads to an exit |
| AsyncReading.TextStream.ReadLine | src/frontend/ian_utils.py:25 | `readline` returns the next pending result and drops it, or `""` once the stream is exhausted |
| AsyncReading.LineQueue.Put | src/frontend/ian_utils.py:26 | putting an item appends it at the back of the queue |
| AsyncReading.AsyncReader.constructor | src/frontend/ian_utils.py:17-20 | the reader holds the given stream and queue |
| AsyncReading.AsyncReader.Run | src/frontend/ian_utils.py:22-26 | the queue grows by exactly `Consumed` of the stream's results, in order, and the stream keeps exactly `Unread` of them |
| AsyncReading.Consumed | src/frontend/ian_utils.py:23-26 | what the reader queues is never empty, ends with `""`, and is at most one longer than the stream's results |
| AsyncReading.UnreadIsSuffix | src/frontend/ian_utils.py:24-26 | what the reader leaves on the stream is a suffix of its results, and something is left only when the reader met a `""` |
| AsyncReading.OnlyLastConsumedIsEmpty | src/frontend/ian_utils.py:24-26 | the last queued item is the only `""`: the reader stops at the first empty read |
| AsyncReading.ConsumedThenUnread | src/frontend/ian_utils.py:24-26 | what is queued followed by what is left is the stream itself, so nothing past the first `""` is read. Without a `""` everything is queued, then one `""` |
| AsyncReading.ConsumedUpToFirstEmpty | src/frontend/ian_utils.py:24-26 | with the first `""` at position k, the queued items are exactly results 0..k and the rest stays unread |
| AsyncReading.TextStreamFullyQueued | src/frontend/ian_utils.py:23-26 | for a real text stream, whose lines are non-empty until its end, all lines are queued in order, then one `""`, and the stream is left exhausted |

## Left out

- Launching the child with `subprocess.Popen`, reading its pipe and decoding its output (src/frontend/ian_utils.py:34-38, 71-75): OS I/O. For `run`, a UTF-8 decoding error (line 37) is one of the exceptions that `Failed` stands for. For `run_async`, decoding happens inside `readline` in the reader thread, with the locale's encoding.
- AsyncReading.AsyncReader.Run: `readline` never raises in the model. In the source, a `readline` that raises (a decoding error, say) ends the reader thread with nothing more queued, so no `""` is queued; `run_async` does not see that error. Nothing reads the pipe any more, so a child that keeps writing blocks once the pipe is full; the return-code policy then applies only if the child still ends (the timeout kills it with -9, which is accepted; with `timeout == 0` `run_async` polls forever).
- The reader thread's start, the shared queue's thread safety, the poll and drain loops of `run_async` keyed on `proc.poll()` and `is_alive()`, and the 100 ms sleep (src/frontend/ian_utils.py:78-99): their point is concurrency. So the lines `run_async` yields to its caller, including the final `""`, which `run_async` yields from either loop, are not modelled. Only the reader's own sequential loop is.
- The wall-clock timeout, `proc.kill()` and `time_func` (src/frontend/ian_utils.py:69, 89-94, 126-130): they depend on real time and floating point. The kill shows up only as the tolerated return code -9.
- The internals of `shlex.split`: library tokenisation, taken as a parameter that may fail.
- Logging and colour output, the "Killed by timeout" message, the transcript that `run_async` logs (it holds only the lines taken in the poll loop), and the `argparse` base class: foreign collaborators.
- The 8-bit truncation the operating system applies to the status given to `sys.exit` (-1 becomes 255): outside the helpers.
- A generator closed before it is exhausted: `convert_arg_line_to_args`'s bare `except:` would then also turn `GeneratorExit` into status -1. The model produces all tokens at once, as `argparse` consumes them.
- ExitPolicy.RunAsync: applies only to a `run_async` generator that runs to its end. If the caller closes it early, `GeneratorExit` passes by `except Exception` (line 111), the `with` block waits for the child, and the policy of lines 102-122 is never applied.
- src/globopt.cc is not part of this model: it is a floating-point interval branch-and-bound over helpers that are not available.
