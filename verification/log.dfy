/** The `log` decorator of decorators.py.

    The file `log.txt` is modelled as the sequence of its lines; each
    `file.write(text + "\n")` appends one line. The clock reading, the
    function's `__name__` and Python's renderings of the arguments, the
    keyword arguments, the result and the exception are inputs to the model:
    the text they stand for is not computed here. */
module Log {
  import opened Outcomes

  /** The append target `log.txt`, opened in mode "a" for every record. */
  class LogFile {
    var lines: seq<string>

    /** The file as it is before the first record is written. */
    constructor (existing: seq<string>)
      ensures lines == existing
    {
      lines := existing;
    }

    /** `file.write(line + "\n")` on a file opened for appending. */
    method Write(line: string)
      modifies this
      ensures lines == old(lines) + [line]
    {
      lines := lines + [line];
    }
  }

  /** What the log line of one call shows of it: the function's `__name__`
      and the renderings `str(args)` and `str(kwargs)`. */
  datatype Invocation = Invocation(name: string, argsText: string, kwargsText: string)

  /** The "[timestamp] " prefix every line of a record starts with. */
  function Stamp(timestamp: string): string
  {
    "[" + timestamp + "] "
  }

  function CallLine(timestamp: string, call: Invocation): string
  {
    Stamp(timestamp) + ("Function " + call.name + " called with arguments: " + call.argsText + " " + call.kwargsText)
  }

  function ResultLine(timestamp: string, resultText: string): string
  {
    Stamp(timestamp) + ("Result: " + resultText)
  }

  function RaisedLine(timestamp: string, call: Invocation, errorText: string): string
  {
    Stamp(timestamp) + ("Function " + call.name + " raised an exception: " + errorText)
  }

  /** The lines one call adds to the log: the call line and then the result
      or the exception, both with the one timestamp; none when the call
      raised something `except Exception` does not catch. `show` and
      `describe` stand for Python's `str` of the result and of the
      exception. */
  function Record<T, E>(timestamp: string, call: Invocation, outcome: Outcome<T, E>,
                        show: T -> string, describe: E -> string): seq<string>
  {
    match outcome
    case Ok(v) => [CallLine(timestamp, call), ResultLine(timestamp, show(v))]
    case Err(e) => [CallLine(timestamp, call), RaisedLine(timestamp, call, describe(e))]
    case Fatal(_) => []
  }

  /** `wrapper(*args, **kwargs)` as built by `log(func)`: calls `f` once,
      appends the record of the call to `file` and hands the outcome on
      unchanged (the result returned, the exception re-raised). `now` is the
      clock reading taken after the call, formatted "%Y-%m-%d %H:%M:%S". */
  method Logged<A, T, E>(file: LogFile, f: A -> Outcome<T, E>, args: A, call: Invocation,
                         now: string, show: T -> string, describe: E -> string)
    returns (outcome: Outcome<T, E>)
    modifies file
    ensures outcome == f(args)
    ensures file.lines == old(file.lines) + Record(now, call, outcome, show, describe)
  {
    outcome := f(args);
    match outcome
    case Ok(v) =>
      file.Write(CallLine(now, call));
      file.Write(ResultLine(now, show(v)));
    case Err(e) =>
      file.Write(CallLine(now, call));
      file.Write(RaisedLine(now, call, describe(e)));
    case Fatal(_) =>
      // not an `Exception`: the except clause is skipped and nothing is written
  }

  // ---------------------------------------------------------------------
  // Properties of a record
  // ---------------------------------------------------------------------

  /** A call that returns or raises an `Exception` adds exactly two lines:
      first the call line, then the result line or the exception line. Both
      start with the same "[timestamp] " prefix. */
  lemma RecordShape<T, E>(timestamp: string, call: Invocation, outcome: Outcome<T, E>,
                          show: T -> string, describe: E -> string)
    ensures var r := Record(timestamp, call, outcome, show, describe);
      && (outcome.Fatal? <==> r == [])
      && (!outcome.Fatal? ==> |r| == 2 && r[0] == CallLine(timestamp, call))
      && (outcome.Ok? ==> r[1] == ResultLine(timestamp, show(outcome.value)))
      && (outcome.Err? ==> r[1] == RaisedLine(timestamp, call, describe(outcome.error)))
      && forall line :: line in r ==> Stamp(timestamp) <= line
  {
    RecordLinesStamped(timestamp, call, outcome, show, describe);
  }

  /** Every line of a record is its stamp followed by the rest of the line. */
  lemma RecordLinesStamped<T, E>(timestamp: string, call: Invocation, outcome: Outcome<T, E>,
                                 show: T -> string, describe: E -> string)
    ensures forall line :: line in Record(timestamp, call, outcome, show, describe) ==>
      Stamp(timestamp) <= line && line == Stamp(timestamp) + line[|Stamp(timestamp)|..]
  {
    var st := Stamp(timestamp);
    StampIsPrefix(st, "Function " + call.name + " called with arguments: " + call.argsText + " " + call.kwargsText);
    match outcome
    case Ok(v) => StampIsPrefix(st, "Result: " + show(v));
    case Err(e) => StampIsPrefix(st, "Function " + call.name + " raised an exception: " + describe(e));
    case Fatal(_) =>
  }

  lemma StampIsPrefix(st: string, text: string)
    ensures st <= st + text && (st + text)[|st|..] == text
  {
  }

  /** The second line of a record tells a returned call from a raising one:
      right after its stamp it reads "Result: " exactly when the call
      returned, and "Function " exactly when it raised. */
  lemma SecondLineTellsOutcome<T, E>(timestamp: string, call: Invocation, outcome: Outcome<T, E>,
                                     show: T -> string, describe: E -> string)
    requires !outcome.Fatal?
    ensures var line := Record(timestamp, call, outcome, show, describe)[1];
      && |Stamp(timestamp)| <= |line|
      && ("Result: " <= line[|Stamp(timestamp)|..] <==> outcome.Ok?)
      && ("Function " <= line[|Stamp(timestamp)|..] <==> outcome.Err?)
  {
    var st := Stamp(timestamp);
    var line := Record(timestamp, call, outcome, show, describe)[1];
    if outcome.Ok? {
      var rest := "Result: " + show(outcome.value);
      assert line == st + rest;
      assert line[|st|..] == rest;
      assert rest[0] == 'R';
    } else {
      var rest := "Function " + call.name + " raised an exception: " + describe(outcome.error);
      assert line == st + rest;
      assert line[|st|..] == rest;
      assert rest[0] == 'F';
    }
  }

  // ---------------------------------------------------------------------
  // Reading a timestamp back
  // ---------------------------------------------------------------------

  /** The text up to the first ']', if there is one. */
  function UpToBracket(s: string): Option<string>
  {
    if s == [] then None
    else if s[0] == ']' then Some([])
    else match UpToBracket(s[1..])
      case None => None
      case Some(p) => Some([s[0]] + p)
  }

  /** The timestamp a log line starts with: the text between its leading
      '[' and the first ']'. */
  function StampOf(line: string): Option<string>
  {
    if line != [] && line[0] == '[' then UpToBracket(line[1..]) else None
  }

  lemma {:induction false} UpToBracketOf(text: string, rest: string)
    requires ']' !in text
    ensures UpToBracket(text + "]" + rest) == Some(text)
  {
    if text != [] {
      assert (text + "]" + rest)[1..] == text[1..] + "]" + rest;
      UpToBracketOf(text[1..], rest);
      assert [text[0]] + text[1..] == text;
    }
  }

  /** Both lines of a record give back the timestamp they were written
      with, since a "%Y-%m-%d %H:%M:%S" timestamp holds no ']'. */
  lemma {:induction false} StampRoundTrip<T, E>(timestamp: string, call: Invocation, outcome: Outcome<T, E>,
                                                show: T -> string, describe: E -> string)
    requires ']' !in timestamp
    ensures forall line :: line in Record(timestamp, call, outcome, show, describe) ==> StampOf(line) == Some(timestamp)
  {
    RecordLinesStamped(timestamp, call, outcome, show, describe);
    forall line | line in Record(timestamp, call, outcome, show, describe)
      ensures StampOf(line) == Some(timestamp)
    {
      var text := line[|Stamp(timestamp)|..];
      assert line == Stamp(timestamp) + text;
      StampOfStamped(timestamp, text);
    }
  }

  /** A line that starts with the stamp of a timestamp without ']' gives
      that timestamp back. */
  lemma StampOfStamped(timestamp: string, text: string)
    requires ']' !in timestamp
    ensures StampOf(Stamp(timestamp) + text) == Some(timestamp)
  {
    var line := Stamp(timestamp) + text;
    assert line[1..] == timestamp + "]" + (" " + text);
    UpToBracketOf(timestamp, " " + text);
  }
}
