/** What one call of a wrapped callable can do, shared by the `retry` and
    `log` decorators. */
module Outcomes {

  /** The result of calling the wrapped function once.
      - Ok: it returned `value`.
      - Err: it raised `error`, an instance of Python's `Exception`, which the
        decorators' `except Exception` clauses catch.
      - Fatal: it raised `error`, a `BaseException` that is not an `Exception`
        (KeyboardInterrupt, SystemExit, GeneratorExit). No `except Exception`
        clause catches it, so it passes through both decorators untouched. */
  datatype Outcome<+T, +E> = Ok(value: T) | Err(error: E) | Fatal(error: E)

  datatype Option<+T> = None | Some(value: T)
}
