/** The `retry(max_retries, timeout)` decorator of decorators.py.

    The wrapped function is modelled by what it does on each call:
    `f(args, n)` is the outcome of its call number `n` (counting from 0)
    with the arguments `args`, so a function that fails twice and then
    succeeds is one whose outcomes at 0 and 1 are `Err` and at 2 is `Ok`.
    The side effects of the wrapper (calling `f`, printing a notice,
    sleeping) are recorded, in order, as a trace of events. */
module Retry {
  import opened Outcomes

  /** The two arguments of the decorator factory `retry`. */
  datatype Policy = Policy(maxRetries: int, timeout: int)

  /** `retry()` with its default arguments. */
  const DefaultPolicy := Policy(5, 0)

  /** One observable step of the wrapper: a call of the wrapped function with
      the given arguments, a printed "Retry attempt <attempt> due to error:
      <error>" notice, or a `time.sleep(seconds)` call. */
  datatype Event<+A, +E> = Call(args: A) | Notice(attempt: nat, error: E) | Sleep(seconds: int)

  /** How one invocation of the wrapper ends.
      - Passed: with an outcome of the wrapped function, handed on unchanged
        (its return value is returned, its exception re-raised as it is).
      - UnboundResult: with Python's UnboundLocalError, raised by
        `return result` when the loop never ran (a negative `max_retries`).
      - SleepRefused: with the exception `time.sleep(seconds)` raises
        because it refuses the duration. */
  datatype Resolution<+T, +E> = Passed(outcome: Outcome<T, E>) | UnboundResult | SleepRefused(seconds: int, error: SleepError)

  /** The exceptions CPython's `time.sleep` raises for an integer duration
      it cannot wait: OverflowError when the duration in nanoseconds does not
      fit in a signed 64-bit integer (checked first), ValueError when it is
      negative. */
  datatype SleepError = OverflowError | ValueError

  /** The largest number of whole seconds whose nanoseconds fit in a signed
      64-bit integer: (2^63 - 1) / 10^9, rounded toward zero. */
  const MaxSleepSeconds: int := 9_223_372_036

  /** Whether `time.sleep(seconds)` refuses the duration, and with what. */
  function SleepRefusal(seconds: int): Option<SleepError>
  {
    if seconds < -MaxSleepSeconds || MaxSleepSeconds < seconds then Some(OverflowError)
    else if seconds < 0 then Some(ValueError)
    else None
  }

  /** An invocation of the wrapper: how it ended and what it did. */
  datatype Run<+A, +T, +E> = Run(result: Resolution<T, E>, events: seq<Event<A, E>>)

  // ---------------------------------------------------------------------
  // Reference definition
  // ---------------------------------------------------------------------

  /** The attempt that decides the invocation: the first attempt, from `from`
      on, that does not raise an `Exception`, or the last one allowed,
      `last`, if every attempt before it raises one. */
  function Deciding<A, T, E>(f: (A, nat) -> Outcome<T, E>, args: A, last: nat, from: nat): (d: nat)
    requires from <= last
    requires forall j :: 0 <= j < from ==> f(args, j).Err?
    ensures from <= d <= last
    ensures forall j :: 0 <= j < d ==> f(args, j).Err?
    ensures d < last ==> !f(args, d).Err?
    decreases last - from
  {
    if from == last || !f(args, from).Err? then from
    else Deciding(f, args, last, from + 1)
  }

  /** The events of the first `n` attempts when each of them failed and was
      retried: the call, the notice numbered `n`, the sleep. */
  function Rounds<A, T, E>(f: (A, nat) -> Outcome<T, E>, args: A, n: nat, timeout: int): (s: seq<Event<A, E>>)
    requires forall j :: 0 <= j < n ==> f(args, j).Err?
    ensures |s| == 3 * n
  {
    if n == 0 then []
    else Rounds(f, args, n - 1, timeout) + [Call(args), Notice(n, f(args, n - 1).error), Sleep(timeout)]
  }

  /** What one invocation of the wrapper does, stated without the loop:
      with a budget of `maxRetries + 1` attempts, every attempt before the
      deciding one fails and is retried, and the deciding one's outcome is
      passed on. */
  function Expected<A, T, E>(p: Policy, f: (A, nat) -> Outcome<T, E>, args: A): Run<A, T, E>
  {
    if p.maxRetries < 0 then Run(UnboundResult, [])
    else
      var d := Deciding(f, args, p.maxRetries, 0);
      if 0 < d && SleepRefusal(p.timeout).Some? then
        Run(SleepRefused(p.timeout, SleepRefusal(p.timeout).value),
            [Call(args), Notice(1, f(args, 0).error), Sleep(p.timeout)])
      else
        Run(Passed(f(args, d)), Rounds(f, args, d, p.timeout) + [Call(args)])
  }

  // ---------------------------------------------------------------------
  // The wrapper
  // ---------------------------------------------------------------------

  /** `wrapper(*args, **kwargs)` as built by `retry(p.maxRetries,
      p.timeout)(func)`: the attempt counter `retryCount` is local to the
      invocation and starts at 0. */
  method Wrapper<A, T, E>(p: Policy, f: (A, nat) -> Outcome<T, E>, args: A)
    returns (result: Resolution<T, E>, events: seq<Event<A, E>>)
    ensures Run(result, events) == Expected(p, f, args)
  {
    var retryCount := 0;
    // Python's local `result`: unbound until a call returns
    var returned: Option<T> := None;
    events := [];
    while retryCount <= p.maxRetries
      invariant 0 <= retryCount
      invariant retryCount == 0 || retryCount <= p.maxRetries
      invariant returned.None?
      invariant forall j :: 0 <= j < retryCount ==> f(args, j).Err?
      invariant 0 < retryCount ==> SleepRefusal(p.timeout).None?
      invariant events == Rounds(f, args, retryCount, p.timeout)
      decreases p.maxRetries + 1 - retryCount
    {
      var outcome := f(args, retryCount);
      events := events + [Call(args)];
      if outcome.Ok? {
        assert Deciding(f, args, p.maxRetries, 0) == retryCount;
        returned := Some(outcome.value);
        break;
      } else if outcome.Fatal? {
        // not an `Exception`: `except Exception` does not catch it
        assert Deciding(f, args, p.maxRetries, 0) == retryCount;
        result := Passed(outcome);
        return;
      }
      retryCount := retryCount + 1;
      if retryCount <= p.maxRetries {
        events := events + [Notice(retryCount, outcome.error)];
        events := events + [Sleep(p.timeout)];
        match SleepRefusal(p.timeout)
        case Some(error) =>
          result := SleepRefused(p.timeout, error);
          return;
        case None =>
      } else {
        // the bare `raise` re-raises the exception of this last attempt
        assert Deciding(f, args, p.maxRetries, 0) == retryCount - 1;
        result := Passed(outcome);
        return;
      }
    }
    match returned
    case None =>
      result := UnboundResult;
    case Some(v) =>
      result := Passed(Ok(v));
  }

  // ---------------------------------------------------------------------
  // Views of a trace
  // ---------------------------------------------------------------------

  /** The arguments of each call of the wrapped function, in order. */
  function Calls<A, E>(events: seq<Event<A, E>>): seq<A>
  {
    if events == [] then []
    else (if events[0].Call? then [events[0].args] else []) + Calls(events[1..])
  }

  /** The number and the error of each printed notice, in order. */
  function Notices<A, E>(events: seq<Event<A, E>>): seq<(nat, E)>
  {
    if events == [] then []
    else (if events[0].Notice? then [(events[0].attempt, events[0].error)] else []) + Notices(events[1..])
  }

  /** The duration of each `time.sleep` call, in order. */
  function Sleeps<A, E>(events: seq<Event<A, E>>): seq<int>
  {
    if events == [] then []
    else (if events[0].Sleep? then [events[0].seconds] else []) + Sleeps(events[1..])
  }

  lemma {:induction false} CallsDistribute<A, E>(a: seq<Event<A, E>>, b: seq<Event<A, E>>)
    ensures Calls(a + b) == Calls(a) + Calls(b)
  {
    if a == [] {
      assert a + b == b;
    } else {
      var head := if a[0].Call? then [a[0].args] else [];
      assert (a + b)[0] == a[0] && (a + b)[1..] == a[1..] + b;
      assert Calls(a + b) == head + Calls(a[1..] + b);
      CallsDistribute(a[1..], b);
      assert Calls(a) == head + Calls(a[1..]);
    }
  }

  lemma {:induction false} NoticesDistribute<A, E>(a: seq<Event<A, E>>, b: seq<Event<A, E>>)
    ensures Notices(a + b) == Notices(a) + Notices(b)
  {
    if a == [] {
      assert a + b == b;
    } else {
      var head := if a[0].Notice? then [(a[0].attempt, a[0].error)] else [];
      assert (a + b)[0] == a[0] && (a + b)[1..] == a[1..] + b;
      assert Notices(a + b) == head + Notices(a[1..] + b);
      NoticesDistribute(a[1..], b);
      assert Notices(a) == head + Notices(a[1..]);
    }
  }

  lemma {:induction false} SleepsDistribute<A, E>(a: seq<Event<A, E>>, b: seq<Event<A, E>>)
    ensures Sleeps(a + b) == Sleeps(a) + Sleeps(b)
  {
    if a == [] {
      assert a + b == b;
    } else {
      var head := if a[0].Sleep? then [a[0].seconds] else [];
      assert (a + b)[0] == a[0] && (a + b)[1..] == a[1..] + b;
      assert Sleeps(a + b) == head + Sleeps(a[1..] + b);
      SleepsDistribute(a[1..], b);
      assert Sleeps(a) == head + Sleeps(a[1..]);
    }
  }

  /** The views of a joined trace are the joined views. */
  lemma ViewsDistribute<A, E>(a: seq<Event<A, E>>, b: seq<Event<A, E>>)
    ensures Calls(a + b) == Calls(a) + Calls(b)
    ensures Notices(a + b) == Notices(a) + Notices(b)
    ensures Sleeps(a + b) == Sleeps(a) + Sleeps(b)
  {
    CallsDistribute(a, b);
    NoticesDistribute(a, b);
    SleepsDistribute(a, b);
  }

  lemma ViewsOfOne<A, E>(e: Event<A, E>)
    ensures Calls([e]) == if e.Call? then [e.args] else []
    ensures Notices([e]) == if e.Notice? then [(e.attempt, e.error)] else []
    ensures Sleeps([e]) == if e.Sleep? then [e.seconds] else []
  {
    assert [e][1..] == [];
  }

  /** The views of one retried attempt: its call, its notice, its sleep. */
  lemma ViewsOfRound<A, E>(args: A, n: nat, e: E, timeout: int)
    ensures Calls([Call(args), Notice(n, e), Sleep(timeout)]) == [args]
    ensures Notices([Call(args), Notice(n, e), Sleep(timeout)]) == [(n, e)]
    ensures Sleeps([Call(args), Notice(n, e), Sleep(timeout)]) == [timeout]
  {
    var c, m, z := Call(args), Notice(n, e), Sleep(timeout);
    assert [c, m, z] == [c] + [m] + [z];
    ViewsDistribute([c], [m]);
    ViewsDistribute([c] + [m], [z]);
    ViewsOfOne(c);
    ViewsOfOne(m);
    ViewsOfOne(z);
  }

  /** The retried attempts call `f` with `args` each time, print notices
      numbered 1 to `n` carrying each attempt's own error, and sleep
      `timeout` once per notice. */
  lemma {:induction false} RoundsViews<A, T, E>(f: (A, nat) -> Outcome<T, E>, args: A, n: nat, timeout: int)
    requires forall j :: 0 <= j < n ==> f(args, j).Err?
    ensures |Calls(Rounds(f, args, n, timeout))| == n
    ensures forall i :: 0 <= i < n ==> Calls(Rounds(f, args, n, timeout))[i] == args
    ensures |Notices(Rounds(f, args, n, timeout))| == n
    ensures forall i :: 0 <= i < n ==> Notices(Rounds(f, args, n, timeout))[i] == (i + 1, f(args, i).error)
    ensures Sleeps(Rounds(f, args, n, timeout)) == seq(n, _ => timeout)
  {
    if n > 0 {
      var prev := Rounds(f, args, n - 1, timeout);
      var round := [Call(args), Notice(n, f(args, n - 1).error), Sleep(timeout)];
      RoundsViews(f, args, n - 1, timeout);
      ViewsDistribute(prev, round);
      ViewsOfRound(args, n, f(args, n - 1).error, timeout);
    }
  }

  /** A `time.sleep` call happens right after each notice and nowhere else. */
  ghost predicate SleepAfterEachNotice<A, E>(events: seq<Event<A, E>>)
  {
    forall i {:trigger events[i]} :: 0 <= i < |events| ==> (events[i].Sleep? <==> 0 < i && events[i - 1].Notice?)
  }

  /** Every call passes `args` and every sleep lasts `timeout`. */
  ghost predicate Uniform<A, E>(events: seq<Event<A, E>>, args: A, timeout: int)
  {
    forall i :: 0 <= i < |events| ==>
      (events[i].Call? ==> events[i].args == args) && (events[i].Sleep? ==> events[i].seconds == timeout)
  }

  /** Joining two traces keeps both shapes when the join itself does not
      put a sleep anywhere but right after a notice. */
  lemma ShapeOfJoin<A, E>(a: seq<Event<A, E>>, b: seq<Event<A, E>>, args: A, timeout: int)
    requires SleepAfterEachNotice(a) && SleepAfterEachNotice(b)
    requires Uniform(a, args, timeout) && Uniform(b, args, timeout)
    requires b != [] ==> (b[0].Sleep? <==> a != [] && a[|a| - 1].Notice?)
    ensures SleepAfterEachNotice(a + b) && Uniform(a + b, args, timeout)
  {
    var s := a + b;
    forall i | 0 <= i < |s|
      ensures s[i].Sleep? <==> 0 < i && s[i - 1].Notice?
    {
      if i < |a| {
        assert s[i] == a[i];
        if 0 < i { assert s[i - 1] == a[i - 1]; }
      } else if i == |a| {
        assert s[i] == b[0];
        if 0 < i { assert s[i - 1] == a[|a| - 1]; }
      } else {
        var k := i - |a|;
        assert s[i] == b[k] && s[i - 1] == b[k - 1];
        assert b[k].Sleep? <==> 0 < k && b[k - 1].Notice?;
      }
    }
    forall i | 0 <= i < |s|
      ensures (s[i].Call? ==> s[i].args == args) && (s[i].Sleep? ==> s[i].seconds == timeout)
    {
      if i < |a| { assert s[i] == a[i]; } else { assert s[i] == b[i - |a|]; }
    }
  }

  /** Within the retried attempts a sleep comes right after each notice and
      nowhere else, and every call gets the same arguments. */
  lemma {:induction false} RoundsShape<A, T, E>(f: (A, nat) -> Outcome<T, E>, args: A, n: nat, timeout: int)
    requires forall j :: 0 <= j < n ==> f(args, j).Err?
    ensures SleepAfterEachNotice(Rounds(f, args, n, timeout))
    ensures Uniform(Rounds(f, args, n, timeout), args, timeout)
    ensures 0 < n ==> Rounds(f, args, n, timeout)[3 * n - 1] == Sleep(timeout)
  {
    if n > 0 {
      var prev := Rounds(f, args, n - 1, timeout);
      RoundsShape(f, args, n - 1, timeout);
      ShapeOfJoin(prev, [Call(args), Notice(n, f(args, n - 1).error), Sleep(timeout)], args, timeout);
    }
  }

  /** Retried attempt `i` (from 0) takes events `3 * i` to `3 * i + 2`, in
      the source's order: its call, then its notice numbered `i + 1` with its
      error, then its sleep. */
  lemma {:induction false} RoundsInOrder<A, T, E>(f: (A, nat) -> Outcome<T, E>, args: A, n: nat, timeout: int)
    requires forall j :: 0 <= j < n ==> f(args, j).Err?
    ensures forall i :: 0 <= i < n ==>
      Rounds(f, args, n, timeout)[3 * i..3 * i + 3] == [Call(args), Notice(i + 1, f(args, i).error), Sleep(timeout)]
  {
    if n > 0 {
      var prev := Rounds(f, args, n - 1, timeout);
      var s := Rounds(f, args, n, timeout);
      RoundsInOrder(f, args, n - 1, timeout);
      forall i | 0 <= i < n
        ensures s[3 * i..3 * i + 3] == [Call(args), Notice(i + 1, f(args, i).error), Sleep(timeout)]
      {
        if i < n - 1 {
          assert s[3 * i..3 * i + 3] == prev[3 * i..3 * i + 3];
        } else {
          assert s[3 * i..3 * i + 3] == [Call(args), Notice(n, f(args, n - 1).error), Sleep(timeout)];
        }
      }
    }
  }

  // ---------------------------------------------------------------------
  // Properties of an invocation
  // ---------------------------------------------------------------------

  /** With a valid policy (a non-negative budget and a duration
      `time.sleep` accepts) the wrapper calls `f` once per attempt up to and
      including the deciding one, and passes the deciding attempt's outcome
      on unchanged: every attempt before it raised an `Exception`, and it is
      either the first that did not or the last of the `maxRetries + 1`
      allowed. */
  lemma AttemptCount<A, T, E>(p: Policy, f: (A, nat) -> Outcome<T, E>, args: A)
    requires 0 <= p.maxRetries && SleepRefusal(p.timeout).None?
    ensures var d := Deciding(f, args, p.maxRetries, 0);
      && Expected(p, f, args).result == Passed(f(args, d))
      && |Calls(Expected(p, f, args).events)| == d + 1
      && |Sleeps(Expected(p, f, args).events)| == d
      && d <= p.maxRetries
  {
    var d := Deciding(f, args, p.maxRetries, 0);
    RoundsViews(f, args, d, p.timeout);
    ViewsDistribute(Rounds(f, args, d, p.timeout), [Call(args)]);
  }

  /** Under a valid policy, a function that raises an `Exception` on every
      attempt is called exactly `maxRetries + 1` times, and the exception of the last attempt
      is the one re-raised. */
  lemma ExhaustedReraisesLast<A, T, E>(p: Policy, f: (A, nat) -> Outcome<T, E>, args: A)
    requires 0 <= p.maxRetries && SleepRefusal(p.timeout).None?
    requires forall j :: 0 <= j <= p.maxRetries ==> f(args, j).Err?
    ensures Expected(p, f, args).result == Passed(Err(f(args, p.maxRetries).error))
    ensures |Calls(Expected(p, f, args).events)| == p.maxRetries + 1
    ensures |Notices(Expected(p, f, args).events)| == p.maxRetries
  {
    AttemptCount(p, f, args);
    NoticesNumbered(p, f, args);
  }

  /** A function whose first success is attempt `k` (counting from 1) is
      called exactly `k` times and its return value is returned unchanged,
      provided no refused sleep ends the invocation first. */
  lemma FirstSuccessReturned<A, T, E>(p: Policy, f: (A, nat) -> Outcome<T, E>, args: A, k: nat)
    requires 1 <= k <= p.maxRetries + 1
    requires SleepRefusal(p.timeout).None? || k == 1
    requires forall j :: 0 <= j < k - 1 ==> f(args, j).Err?
    requires f(args, k - 1).Ok?
    ensures Expected(p, f, args).result == Passed(Ok(f(args, k - 1).value))
    ensures |Calls(Expected(p, f, args).events)| == k
    ensures |Notices(Expected(p, f, args).events)| == k - 1
  {
    var d := Deciding(f, args, p.maxRetries, 0);
    assert d == k - 1;
    var s := Rounds(f, args, d, p.timeout);
    RoundsViews(f, args, d, p.timeout);
    ViewsDistribute(s, [Call(args)]);
  }

  /** Notices are numbered 1, 2, ... consecutively, the n-th carries the
      error of attempt n, and there are at most `maxRetries` of them; with a
      valid policy there is one per failed attempt before the deciding one,
      so neither the exhausting failure nor a success prints one. */
  lemma NoticesNumbered<A, T, E>(p: Policy, f: (A, nat) -> Outcome<T, E>, args: A)
    ensures var ns := Notices(Expected(p, f, args).events);
      && |ns| <= (if p.maxRetries < 0 then 0 else p.maxRetries)
      && forall i :: 0 <= i < |ns| ==> f(args, i).Err? && ns[i] == (i + 1, f(args, i).error)
    ensures 0 <= p.maxRetries && SleepRefusal(p.timeout).None? ==>
      |Notices(Expected(p, f, args).events)| == Deciding(f, args, p.maxRetries, 0)
  {
    if 0 <= p.maxRetries {
      var d := Deciding(f, args, p.maxRetries, 0);
      if 0 < d && SleepRefusal(p.timeout).Some? {
        ViewsOfRound(args, 1, f(args, 0).error, p.timeout);
      } else {
        var s := Rounds(f, args, d, p.timeout);
        RoundsViews(f, args, d, p.timeout);
        ViewsDistribute(s, [Call(args)]);
      }
    }
  }

  /** `time.sleep(timeout)` is called right after each notice and at no
      other time, so there are exactly as many sleeps as notices; and every
      attempt passes the wrapped function the arguments the wrapper was
      called with. */
  lemma SleepsFollowNotices<A, T, E>(p: Policy, f: (A, nat) -> Outcome<T, E>, args: A)
    ensures SleepAfterEachNotice(Expected(p, f, args).events)
    ensures Uniform(Expected(p, f, args).events, args, p.timeout)
    ensures |Sleeps(Expected(p, f, args).events)| == |Notices(Expected(p, f, args).events)|
  {
    if 0 <= p.maxRetries {
      var d := Deciding(f, args, p.maxRetries, 0);
      if 0 < d && SleepRefusal(p.timeout).Some? {
        ViewsOfRound(args, 1, f(args, 0).error, p.timeout);
      } else {
        var s := Rounds(f, args, d, p.timeout);
        RoundsShape(f, args, d, p.timeout);
        RoundsViews(f, args, d, p.timeout);
        ViewsDistribute(s, [Call(args)]);
        ShapeOfJoin(s, [Call(args)], args, p.timeout);
      }
    }
  }

  /** The number of calls never exceeds the budget of `maxRetries + 1`, and
      a valid budget always makes at least one. */
  lemma BoundedAttempts<A, T, E>(p: Policy, f: (A, nat) -> Outcome<T, E>, args: A)
    ensures |Calls(Expected(p, f, args).events)| <= (if p.maxRetries < 0 then 0 else p.maxRetries + 1)
    ensures 0 <= p.maxRetries ==> 1 <= |Calls(Expected(p, f, args).events)|
  {
    if 0 <= p.maxRetries {
      var d := Deciding(f, args, p.maxRetries, 0);
      if 0 < d && SleepRefusal(p.timeout).Some? {
        ViewsOfRound(args, 1, f(args, 0).error, p.timeout);
      } else {
        RoundsViews(f, args, d, p.timeout);
        ViewsDistribute(Rounds(f, args, d, p.timeout), [Call(args)]);
      }
    }
  }

  /** With `maxRetries == 0` there is one call, no notice and no sleep, and
      whatever the call did is passed on at once. */
  lemma ZeroRetries<A, T, E>(p: Policy, f: (A, nat) -> Outcome<T, E>, args: A)
    requires p.maxRetries == 0
    ensures Expected(p, f, args) == Run(Passed(f(args, 0)), [Call(args)])
  {
  }

  /** With a negative `maxRetries` the loop never runs: no call is made and
      `return result` raises UnboundLocalError. */
  lemma NegativeBudgetUnbound<A, T, E>(p: Policy, f: (A, nat) -> Outcome<T, E>, args: A)
    requires p.maxRetries < 0
    ensures Expected(p, f, args) == Run(UnboundResult, [])
  {
  }

  /** With a `timeout` that `time.sleep` refuses (a negative one, or one
      too large for 64-bit nanoseconds), the first retried failure prints its
      notice and then `time.sleep` raises, ending the invocation. */
  lemma RefusedSleepStops<A, T, E>(p: Policy, f: (A, nat) -> Outcome<T, E>, args: A)
    requires 1 <= p.maxRetries && SleepRefusal(p.timeout).Some?
    requires f(args, 0).Err?
    ensures Expected(p, f, args) ==
      Run(SleepRefused(p.timeout, SleepRefusal(p.timeout).value),
          [Call(args), Notice(1, f(args, 0).error), Sleep(p.timeout)])
  {
  }

  /** A function that raises twice and then returns `v`, under
      `retry(max_retries=2, timeout=0)`: `v` is returned after three calls
      and two notices. */
  lemma TwoFailuresThenSuccess<A, T, E>(f: (A, nat) -> Outcome<T, E>, args: A, v: T)
    requires f(args, 0).Err? && f(args, 1).Err? && f(args, 2) == Ok(v)
    ensures Expected(Policy(2, 0), f, args).result == Passed(Ok(v))
    ensures |Calls(Expected(Policy(2, 0), f, args).events)| == 3
    ensures Notices(Expected(Policy(2, 0), f, args).events) == [(1, f(args, 0).error), (2, f(args, 1).error)]
  {
    FirstSuccessReturned(Policy(2, 0), f, args, 3);
    NoticesNumbered(Policy(2, 0), f, args);
  }

  /** Under `retry()`, with its defaults of five retries and no wait, a
      function that always raises an `Exception` is called six times, prints
      notices 1 to 5, and its sixth exception is re-raised. */
  lemma DefaultPolicyExhausted<A, T, E>(f: (A, nat) -> Outcome<T, E>, args: A)
    requires forall j :: 0 <= j <= 5 ==> f(args, j).Err?
    ensures Expected(DefaultPolicy, f, args).result == Passed(Err(f(args, 5).error))
    ensures |Calls(Expected(DefaultPolicy, f, args).events)| == 6
    ensures var ns := Notices(Expected(DefaultPolicy, f, args).events);
      |ns| == 5 && forall i :: 0 <= i < 5 ==> ns[i] == (i + 1, f(args, i).error)
  {
    ExhaustedReraisesLast(DefaultPolicy, f, args);
    NoticesNumbered(DefaultPolicy, f, args);
  }
}
