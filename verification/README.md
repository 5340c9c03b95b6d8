# common-decorators: a verified model of `retry` and `log`

This project models two decorators from `decorators.py` in Dafny and
proves what they do.

- `retry(max_retries=5, timeout=0)` wraps a function in a loop. The loop
  calls the function until a call returns, or until `max_retries + 1` calls
  have all raised an `Exception`. Each retried failure prints
  "Retry attempt n due to error: e" and then sleeps `timeout` seconds. When
  the budget is spent, the last exception is re-raised unchanged.
- `log(func)` calls the function once and appends a two-line record to
  `log.txt`. Both lines carry one timestamp. The first line gives the name
  and the arguments. The second gives the result, or the exception, which
  is then re-raised.

How the model represents them:

- The wrapped function is given by its outcome on each call.
  `f(args, n)` is what call number `n` (from 0) does with the arguments
  `args`. It returns a value (`Ok`), or raises an `Exception` (`Err`), or
  raises a `BaseException` that is not an `Exception`, such as
  KeyboardInterrupt (`Fatal`). A function that behaves differently on each
  call is therefore covered.
- `Retry.Wrapper` is the `while` loop itself, with its local `retryCount`.
  It returns how the invocation ended and an ordered trace of events: each
  call of `f` with its arguments, each printed notice, each `time.sleep`.
  Its postcondition equates these with `Retry.Expected`, a definition
  without a loop. Expected says which attempt decides the invocation
  (`Retry.Deciding`), and that every attempt before it was a retried
  failure (`Retry.Rounds`). The lemmas state the decorator's promises about
  `Expected`.
- The ways an invocation can end (`Retry.Resolution`):
  - `Passed(o)`: the deciding attempt's outcome is handed on unchanged.
  - `UnboundResult`: a negative `max_retries` means the loop never runs,
    and `return result` raises UnboundLocalError.
  - `SleepRefused(t, error)`: the first `time.sleep`, right after the first
    notice, refuses a `timeout` it cannot wait. CPython converts the duration
    to 64-bit nanoseconds first, so above 9223372036 seconds, or below
    -9223372036, it raises OverflowError. Any other negative duration
    raises ValueError (`Retry.SleepRefusal`).
- A wrapper invocation touches no shared state. `Wrapper` has no
  `modifies` clause, and its outputs are a function of its inputs alone. So
  separate invocations cannot affect each other's attempt count.
- `log.txt` is a `Log.LogFile` object whose `lines` field is appended to in
  place. `Log.Logged` is the `log` wrapper. The timestamp, the function's
  name, and the text of `str(args)`, `str(kwargs)`, `str(result)` and
  `str(e)` are inputs. The model does not compute that text.

## Model

| member | source | states |
|---|---|---|
| `Retry.Deciding` | decorators.py:34-44 | The deciding attempt is within the budget (at most `max_retries`, counting from 0). Every attempt before it raised an `Exception`. If it is not the last allowed attempt, it did not raise one. |
| `Retry.Rounds` | decorators.py:36-42 | Each retried attempt adds exactly three events, so `n` retried attempts make `3n` events. What those events are is proved by `RoundsViews`, `RoundsShape` and `RoundsInOrder`. |
| `Retry.Wrapper` | decorators.py:30-47 | The loop's result and its trace of calls, notices and sleeps equal the loop-free definition `Expected`, for every policy, including negative `max_retries` and a `timeout` that `time.sleep` refuses. The loop invariant keeps `retryCount` between 0 and `max_retries`, and keeps every attempt so far a failure. |
| `Retry.RoundsViews` | decorators.py:36-42 | The first `n` retried attempts make `n` calls, all with `args`. They print `n` notices: notice i is numbered i+1 and carries the error of attempt i. They make `n` sleeps of `timeout` each. |
| `Retry.RoundsInOrder` | decorators.py:36-42 | Retried attempt i (from 0) takes events 3i to 3i+2, in this order: its call with `args`, notice i+1 with that attempt's error, and a sleep of `timeout`. |
| `Retry.RoundsShape` | decorators.py:39-42 | Within the retried attempts, a sleep comes right after each notice and nowhere else. Every call passes `args`, and the last event is a sleep. |
| `Retry.AttemptCount` | decorators.py:34-45 | With `max_retries >= 0` and a `timeout` that `time.sleep` accepts (0 to 9223372036 seconds), the deciding attempt's outcome is handed on unchanged. The function is called exactly once per attempt up to and including the deciding one. There is one sleep per retried failure, at most `max_retries` sleeps. |
| `Retry.ExhaustedReraisesLast` | decorators.py:34-44 | With `max_retries >= 0` and a `timeout` that `time.sleep` accepts (0 to 9223372036 seconds): if every allowed attempt raises an `Exception`, there are exactly `max_retries + 1` calls and `max_retries` notices. The exception re-raised is the last attempt's own. |
| `Retry.FirstSuccessReturned` | decorators.py:34-45 | If the first success is attempt k (1 <= k <= `max_retries + 1`), and either `time.sleep` accepts the `timeout` or k = 1, there are exactly k calls and k-1 notices, and that attempt's value is returned unchanged. |
| `Retry.NoticesNumbered` | decorators.py:39-44 | For every policy, notices are numbered 1, 2, … consecutively. Notice n carries the error of attempt n, and there are at most max(0, `max_retries`) of them. With a valid policy there is exactly one per failure before the deciding attempt, so neither the exhausting failure nor a success prints one. |
| `Retry.SleepsFollowNotices` | decorators.py:31-42 | For every policy, `time.sleep` is called right after each notice and never otherwise, and every sleep lasts `timeout`. There are as many sleeps as notices. Every call passes the wrapper's own `args`. |
| `Retry.BoundedAttempts` | decorators.py:32-44 | For every policy, the number of calls is at most `max_retries + 1`, and zero when `max_retries` is negative. A non-negative budget makes at least one call. |
| `Retry.ZeroRetries` | decorators.py:34-44 | With `max_retries == 0` there is exactly one call and no notice or sleep, and the outcome of that call is handed on at once. |
| `Retry.NegativeBudgetUnbound` | decorators.py:34-45 | With `max_retries < 0` nothing is called, and the invocation ends in UnboundLocalError. |
| `Retry.RefusedSleepStops` | decorators.py:40-42 | With a `timeout` that `time.sleep` refuses and a first attempt that fails and is retried, the trace is: call, notice 1, sleep. The invocation then ends with the exception of `time.sleep`: OverflowError beyond 64-bit nanoseconds, otherwise ValueError for a negative duration. |
| `Retry.TwoFailuresThenSuccess` | decorators.py:30-45 | Under `retry(max_retries=2, timeout=0)`, a function that raises twice and then returns v makes three calls and prints notices 1 and 2 with the two errors. The wrapper returns v. |
| `Retry.DefaultPolicyExhausted` | decorators.py:20-44 | Under `retry()` (five retries, no wait), a function that always raises is called six times and prints notices 1 to 5 with the first five errors. Its sixth exception is re-raised. |
| `Log.LogFile.Write` | decorators.py:61-63 | Writing to the file opened for appending adds one line at the end and changes nothing already there. |
| `Log.Logged` | decorators.py:57-70 | The function is called once and its outcome is handed on unchanged. The file's earlier lines stay as they were, and exactly the record of the call is appended after them. |
| `Log.RecordShape` | decorators.py:59-69 | A call that returns, or raises an `Exception`, adds exactly two lines. First comes "[ts] Function name called with arguments: args kwargs". Then comes "[ts] Result: result" or "[ts] Function name raised an exception: e". Both lines start with the same "[ts] ". A call that raises a non-`Exception` adds nothing. |
| `Log.SecondLineTellsOutcome` | decorators.py:62-69 | Right after the stamp, a record's second line reads "Result: " exactly when the call returned. It reads "Function " exactly when the call raised. |
| `Log.StampRoundTrip` | decorators.py:60-69 | If the timestamp holds no ']' (true of "%Y-%m-%d %H:%M:%S"), reading the text between the leading '[' and the first ']' of either record line gives back the timestamp written. |

## Left out

- `runtime` (decorators.py:5-17) is not modelled. It only reads the wall clock, subtracts two floats and prints the difference, so it has no decision logic to verify.
- `time.sleep` is recorded as a `Sleep` event and causes no delay. Its refusal of a duration is modelled as `SleepRefused`, following CPython's integer conversion to 64-bit nanoseconds. Other Python implementations may set a different bound.
- `print` of the notice never fails in the model. A `str(e)` that itself raises inside the f-string would end the invocation with that exception before any sleep.
- `print` is recorded as a `Notice` event holding the attempt number and the exception object. The text of `str(e)` inside the message is not computed.
- `timeout` is an integer number of seconds. Python also accepts a float there.
- `log` writes to a sequence of lines, not to a real file. Some write failures are left out: `open`, `write`, `datetime.now` or `str(result)` raising an `Exception` inside the `try` would send the success path into the `except` branch. The model's writes never fail.
- `log` counts one appended line per `file.write`. A rendering that itself contains a newline would add more physical lines to `log.txt`.
- `datetime.now().strftime(...)`, `func.__name__` and the `str` renderings of `args`, `kwargs`, the result and the exception are inputs, not computed. Since neither decorator uses `functools.wraps`, a `log` placed outside another decorator records the name `wrapper`. In the model that is the name the caller passes.
- Decorator and closure mechanics are modelled by passing the policy and the function to `Retry.Wrapper` directly. This covers `retry(...)` returning `decorator_function`, which returns `wrapper`, and the unpacking of `*args` and `**kwargs`. The arguments are one value of a type parameter.
- Composing the decorators (for instance `retry` around `log`) is not modelled.
- Concurrency is not modelled. The code takes no lock around the log file, and the model is sequential.
- Asynchronous interruption is not modelled, such as a KeyboardInterrupt arriving during `time.sleep`. An interrupt raised by the wrapped function itself is modelled as `Fatal`.
