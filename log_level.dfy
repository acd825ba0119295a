/** The severity levels a `log` statement may name, and their parser. */
module LogLevels {
  import opened Wrappers

  datatype LogLevel = Trace | Debug | Info | Warn | Error

  /** The lower-case name each level is written with in a mapping program. */
  function Name(level: LogLevel): string {
    match level
    case Trace => "trace"
    case Debug => "debug"
    case Info => "info"
    case Warn => "warn"
    case Error => "error"
  }

  /** `LogLevel::try_from`: accepts exactly the five lower-case names. */
  function TryFrom(level: string): (r: Result<LogLevel>)
    ensures r.Ok? <==> level in {"trace", "debug", "info", "warn", "error"}
    ensures r.Ok? ==> Name(r.value) == level
    ensures r.Err? ==> r.error == "invalid log level"
  {
    match level
    case "trace" => Ok(Trace)
    case "debug" => Ok(Debug)
    case "info" => Ok(Info)
    case "warn" => Ok(Warn)
    case "error" => Ok(Error)
    case _ => Err("invalid log level")
  }

  /** Every level's name parses back to that level. */
  lemma NameRoundTrip(level: LogLevel)
    ensures TryFrom(Name(level)) == Ok(level)
  {
  }
}
