/** The leveled logger (internal/utils/logger.go): the level set from the
    `LOG_LEVEL` environment variable and the threshold filter. */
module Logger {
  import opened Wrappers
  import opened Text

  /** `LogLevel`, in increasing severity. */
  datatype LogLevel = Debug | Info | Warn | Error

  /** The level's value as a Go `iota` constant. */
  function Rank(l: LogLevel): (n: nat)
    ensures n < 4
    ensures n == 0 <==> l == Debug
    ensures n == 3 <==> l == Error
  {
    match l
    case Debug => 0
    case Info => 1
    case Warn => 2
    case Error => 3
  }

  /** Severity order: Debug < Info < Warn < Error, and no two levels tie. */
  lemma RankOrder()
    ensures Rank(Debug) < Rank(Info) < Rank(Warn) < Rank(Error)
    ensures forall a: LogLevel, b: LogLevel :: Rank(a) == Rank(b) ==> a == b
  {
  }

  /** The level used when `LOG_LEVEL` names none. */
  const DefaultLevel: LogLevel := Info

  /** The lower-case name of a level. */
  function Name(l: LogLevel): string {
    match l
    case Debug => "debug"
    case Info => "info"
    case Warn => "warn"
    case Error => "error"
  }

  /** The upper-case name of a level. */
  function UpperName(l: LogLevel): string {
    match l
    case Debug => "DEBUG"
    case Info => "INFO"
    case Warn => "WARN"
    case Error => "ERROR"
  }

  /** `init`: the all-lower-case or all-upper-case name of a level selects
      it; anything else, unset and mixed case included, leaves Info. */
  function LevelFromEnv(v: string): (l: LogLevel)
    ensures l != DefaultLevel ==> v == Name(l) || v == UpperName(l)
    ensures l != DefaultLevel ==> Lower(v) == Name(l)
  {
    if v == "debug" || v == "DEBUG" then Debug
    else if v == "info" || v == "INFO" then Info
    else if v == "warn" || v == "WARN" then Warn
    else if v == "error" || v == "ERROR" then Error
    else DefaultLevel
  }

  /** Both accepted spellings of every level select it. */
  lemma LevelNamesRoundTrip(l: LogLevel)
    ensures LevelFromEnv(Name(l)) == l
    ensures LevelFromEnv(UpperName(l)) == l
  {
  }

  /** Mixed case is not understood: "Debug", "Warn" and "Error" give Info,
      and so does an unset variable. */
  lemma MixedCaseIgnored()
    ensures LevelFromEnv("Debug") == Info
    ensures LevelFromEnv("Warn") == Info
    ensures LevelFromEnv("Error") == Info
    ensures LevelFromEnv("") == Info
  {
    assert "Debug" != "debug" && "Debug" != "DEBUG" by { assert "Debug"[1] == 'e'; }
    assert "Warn" != "warn" && "Warn" != "WARN" by { assert "Warn"[1] == 'a'; }
    assert "Error" != "error" && "Error" != "ERROR" by { assert "Error"[1] == 'r'; }
  }

  /** `log`'s filter: a message is written unless its level ranks below the
      current one. */
  predicate Emits(level: LogLevel, current: LogLevel) {
    !(Rank(level) < Rank(current))
  }

  /** The filter is a threshold: errors always pass, Debug shows
      everything, and a level that passes lets every more severe one pass. */
  lemma EmitsIsThreshold(level: LogLevel, current: LogLevel, more: LogLevel)
    ensures Emits(Error, current)
    ensures Emits(level, Debug)
    ensures Emits(level, current) && Rank(level) <= Rank(more) ==> Emits(more, current)
    ensures Emits(level, current) <==> Rank(current) <= Rank(level)
  {
  }

  /** The one line `log` writes, if any: timestamp, prefix and message. */
  function LogLine(current: LogLevel, level: LogLevel, timestamp: string, prefix: string,
                   msg: string): (line: Option<string>)
    ensures line.Some? <==> Rank(current) <= Rank(level)
    ensures line.Some? ==> line.value == "[" + timestamp + "] " + prefix + " " + msg + "\n"
  {
    if Rank(level) < Rank(current) then None
    else Some("[" + timestamp + "] " + prefix + " " + msg + "\n")
  }

  /** The levels of the `Request` and `Response` helpers. */
  const RequestLevel: LogLevel := Debug
  const ResponseLevel: LogLevel := Debug

  /** Request and response lines appear only when the level is Debug. */
  lemma TrafficOnlyAtDebug(current: LogLevel, ts: string, prefix: string, msg: string)
    ensures LogLine(current, RequestLevel, ts, prefix, msg).Some? <==> current == Debug
    ensures LogLine(current, ResponseLevel, ts, prefix, msg).Some? <==> current == Debug
  {
  }

  /** With `LOG_LEVEL` unset, Info, Warn and Error lines appear and Debug
      lines do not. */
  lemma DefaultFilter(level: LogLevel, ts: string, prefix: string, msg: string)
    ensures LogLine(LevelFromEnv(""), level, ts, prefix, msg).Some? <==> level != Debug
  {
    MixedCaseIgnored();
  }
}
