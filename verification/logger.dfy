/**
 * The pure parts of the simple logger: parsing the configured level, the
 * level threshold, and the assembly of a log line from a message and
 * key/value arguments. Writing to standard output is modelled as appending
 * the line to a sequence of emitted lines.
 */
module Logger {
  import Errors

  datatype LogLevel = Debug | Info | Warn | Error

  /** The numeric value of a level (iota order). */
  function Severity(l: LogLevel): nat
  {
    match l
    case Debug => 0
    case Info => 1
    case Warn => 2
    case Error => 3
  }

  predicate AtMost(a: LogLevel, b: LogLevel)
  {
    Severity(a) <= Severity(b)
  }

  /** The levels form a total order, DEBUG below INFO below WARN below ERROR. */
  lemma LevelsTotallyOrdered()
    ensures forall a, b :: AtMost(a, b) || AtMost(b, a)
    ensures forall a, b :: AtMost(a, b) && AtMost(b, a) ==> a == b
    ensures forall a, b, c :: AtMost(a, b) && AtMost(b, c) ==> AtMost(a, c)
    ensures AtMost(Debug, Info) && AtMost(Info, Warn) && AtMost(Warn, Error)
  {
  }

  /** The name a level is written with inside a log line. */
  function LevelName(l: LogLevel): string
  {
    match l
    case Debug => "DEBUG"
    case Info => "INFO"
    case Warn => "WARN"
    case Error => "ERROR"
  }

  /** parseLogLevel: only the exact lower-case and upper-case names are
      recognised; every other string, mixed case included, means INFO. */
  function ParseLogLevel(s: string): (l: LogLevel)
    ensures l == Debug <==> s == "debug" || s == "DEBUG"
    ensures l == Warn <==> s == "warn" || s == "WARN"
    ensures l == Error <==> s == "error" || s == "ERROR"
    ensures l == Info <==> !(s in {"debug", "DEBUG", "warn", "WARN", "error", "ERROR"})
  {
    if s == "debug" || s == "DEBUG" then Debug
    else if s == "info" || s == "INFO" then Info
    else if s == "warn" || s == "WARN" then Warn
    else if s == "error" || s == "ERROR" then Error
    else Info
  }

  /** Parsing the name a level is written with gives the level back. */
  lemma ParseLevelName(l: LogLevel)
    ensures ParseLogLevel(LevelName(l)) == l
  {
  }

  datatype SimpleLogger = SimpleLogger(level: LogLevel)

  /** New: a logger at the parsed level. */
  function New(level: string): SimpleLogger
  {
    SimpleLogger(ParseLogLevel(level))
  }

  /** A call at level `at` emits when the configured level is at most `at`. */
  predicate Enabled(lg: SimpleLogger, at: LogLevel)
  {
    lg.level == Debug || (lg.level == Info && at != Debug)
    || (lg.level == Warn && (at == Warn || at == Error)) || at == Error
  }

  lemma EnabledIsThreshold(lg: SimpleLogger, at: LogLevel)
    ensures Enabled(lg, at) <==> AtMost(lg.level, at)
    ensures Enabled(lg, Error)
    ensures Enabled(lg, Debug) <==> lg.level == Debug
  {
  }

  /** A key/value argument, already reduced to what formatValue can tell apart:
      a string, an error, or any other value together with its fmt.Sprint text. */
  datatype LogValue = Str(s: string) | Err(e: Errors.Error) | Other(rendered: string)

  /** formatValue: a string as is, an error by its text, anything else as rendered. */
  function FormatValue(v: LogValue): string
  {
    match v
    case Str(s) => s
    case Err(e) => Errors.Text(e)
    case Other(r) => r
  }

  /** A logged error shows the message of each error along its cause chain,
      outermost first, separated by ": "; strings and other values are shown
      as they are. */
  lemma FormatValueShowsChain(v: LogValue)
    ensures v.Str? ==> FormatValue(v) == v.s
    ensures v.Err? ==> FormatValue(v) == Errors.JoinColon(Errors.Labels(Errors.Chain(v.e)))
    ensures v.Other? ==> FormatValue(v) == v.rendered
  {
    if v.Err? {
      Errors.TextJoinsChain(v.e);
    }
  }

  /** Every key that has a value after it is a string; the source asserts this
      with a type assertion that panics otherwise. */
  predicate KeysAreStrings(kvs: seq<LogValue>)
  {
    forall i :: 0 <= i < |kvs| - 1 && i % 2 == 0 ==> kvs[i].Str?
  }

  lemma KeysAreStringsSuffix(kvs: seq<LogValue>, i: nat)
    requires KeysAreStrings(kvs)
    requires i <= |kvs| && i % 2 == 0
    ensures KeysAreStrings(kvs[i..])
  {
  }

  /** The " k=v" parts, one per complete pair, in order. */
  function Pairs(kvs: seq<LogValue>): string
    requires KeysAreStrings(kvs)
  {
    if |kvs| < 2 then ""
    else
      KeysAreStringsSuffix(kvs, 2);
      " " + kvs[0].s + "=" + FormatValue(kvs[1]) + Pairs(kvs[2..])
  }

  function Prefix(level: string, msg: string): string
  {
    "[" + level + "] " + msg
  }

  /** The line a call writes: the prefix, then " |" and the pairs when any
      argument was given. */
  function Line(level: string, msg: string, kvs: seq<LogValue>): string
    requires KeysAreStrings(kvs)
  {
    Prefix(level, msg) + (if |kvs| == 0 then "" else " |" + Pairs(kvs))
  }

  /** An unpaired trailing key is dropped, though " |" is still written. */
  lemma {:induction false} TrailingKeyDropped(level: string, msg: string, kvs: seq<LogValue>, key: LogValue)
    requires KeysAreStrings(kvs) && |kvs| % 2 == 0
    ensures KeysAreStrings(kvs + [key])
    ensures Pairs(kvs + [key]) == Pairs(kvs)
    ensures Line(level, msg, kvs + [key]) == Prefix(level, msg) + " |" + Pairs(kvs)
  {
    var all := kvs + [key];
    forall i | 0 <= i < |all| - 1 && i % 2 == 0 ensures all[i].Str? {
      assert all[i] == kvs[i];
    }
    if |kvs| >= 2 {
      assert all[2..] == kvs[2..] + [key];
      KeysAreStringsSuffix(kvs, 2);
      TrailingKeyDropped(level, msg, kvs[2..], key);
    }
  }

  function Rest(kvs: seq<LogValue>, i: nat): seq<LogValue>
  {
    if i <= |kvs| then kvs[i..] else []
  }

  /** One turn of the assembly loop: the pair at an even position, if complete,
      followed by the pairs after it. */
  lemma PairsStep(kvs: seq<LogValue>, i: nat)
    requires KeysAreStrings(kvs)
    requires i < |kvs| && i % 2 == 0
    ensures KeysAreStrings(Rest(kvs, i)) && KeysAreStrings(Rest(kvs, i + 2))
    ensures i + 1 < |kvs| ==>
              kvs[i].Str? && Pairs(Rest(kvs, i)) == " " + kvs[i].s + "=" + FormatValue(kvs[i + 1]) + Pairs(Rest(kvs, i + 2))
    ensures i + 1 >= |kvs| ==> Pairs(Rest(kvs, i)) == "" && Rest(kvs, i + 2) == []
  {
    KeysAreStringsSuffix(kvs, i);
    if i + 2 <= |kvs| {
      KeysAreStringsSuffix(kvs, i + 2);
      assert kvs[i..][2..] == kvs[i + 2..];
    }
  }

  /** logWithLevel's message assembly, a loop over the arguments two at a time. */
  method LogLine(level: string, msg: string, kvs: seq<LogValue>) returns (line: string)
    requires KeysAreStrings(kvs)
    ensures line == Line(level, msg, kvs)
    ensures |line| >= |Prefix(level, msg)| && line[..|Prefix(level, msg)|] == Prefix(level, msg)
  {
    line := Prefix(level, msg);
    if |kvs| > 0 {
      line := line + " |";
      var i: nat := 0;
      while i < |kvs|
        invariant i <= |kvs| + 1 && i % 2 == 0
        invariant KeysAreStrings(Rest(kvs, i))
        invariant line + Pairs(Rest(kvs, i)) == Prefix(level, msg) + " |" + Pairs(kvs)
      {
        PairsStep(kvs, i);
        if i + 1 < |kvs| {
          line := line + (" " + kvs[i].s + "=" + FormatValue(kvs[i + 1]));
        }
        i := i + 2;
      }
      assert Rest(kvs, i) == [];
      assert Pairs(Rest(kvs, i)) == "";
      assert line == Prefix(level, msg) + " |" + Pairs(kvs);
      assert Prefix(level, msg) + " |" + Pairs(kvs) == Prefix(level, msg) + (" |" + Pairs(kvs));
    }
    var tail := if |kvs| == 0 then "" else " |" + Pairs(kvs);
    assert line == Prefix(level, msg) + tail;
    assert (Prefix(level, msg) + tail)[..|Prefix(level, msg)|] == Prefix(level, msg);
  }

  /** A call at level `at`: the line is appended when the level passes the threshold. */
  method Log(lg: SimpleLogger, at: LogLevel, msg: string, kvs: seq<LogValue>, out: seq<string>)
    returns (out': seq<string>)
    requires KeysAreStrings(kvs)
    ensures AtMost(lg.level, at) ==> out' == out + [Line(LevelName(at), msg, kvs)]
    ensures !AtMost(lg.level, at) ==> out' == out
  {
    EnabledIsThreshold(lg, at);
    if Enabled(lg, at) {
      var line := LogLine(LevelName(at), msg, kvs);
      out' := out + [line];
    } else {
      out' := out;
    }
  }

  method LogDebug(lg: SimpleLogger, msg: string, kvs: seq<LogValue>, out: seq<string>) returns (out': seq<string>)
    requires KeysAreStrings(kvs)
    ensures lg.level == Debug ==> out' == out + [Line("DEBUG", msg, kvs)]
    ensures lg.level != Debug ==> out' == out
  {
    out' := Log(lg, Debug, msg, kvs, out);
  }

  method LogInfo(lg: SimpleLogger, msg: string, kvs: seq<LogValue>, out: seq<string>) returns (out': seq<string>)
    requires KeysAreStrings(kvs)
    ensures lg.level in {Debug, Info} ==> out' == out + [Line("INFO", msg, kvs)]
    ensures lg.level in {Warn, Error} ==> out' == out
  {
    out' := Log(lg, Info, msg, kvs, out);
  }

  method LogWarn(lg: SimpleLogger, msg: string, kvs: seq<LogValue>, out: seq<string>) returns (out': seq<string>)
    requires KeysAreStrings(kvs)
    ensures lg.level != Error ==> out' == out + [Line("WARN", msg, kvs)]
    ensures lg.level == Error ==> out' == out
  {
    out' := Log(lg, Warn, msg, kvs, out);
  }

  method LogError(lg: SimpleLogger, msg: string, kvs: seq<LogValue>, out: seq<string>) returns (out': seq<string>)
    requires KeysAreStrings(kvs)
    ensures out' == out + [Line("ERROR", msg, kvs)]
  {
    out' := Log(lg, Error, msg, kvs, out);
  }
}
