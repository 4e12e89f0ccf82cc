/** The `LogLevel` string enum and `stringToLogLevel` (src/logLevel.ts). */
module LogLevels {
  import opened Wrappers

  /** The eight levels, lowest to highest. */
  datatype LogLevel = Trace | Debug | Info | Warn | Error | Crit | Fatal | SuperInfo {

    /** The enum member's string value. */
    function Name(): string {
      match this
      case Trace => "trace"
      case Debug => "debug"
      case Info => "info"
      case Warn => "warn"
      case Error => "error"
      case Crit => "crit"
      case Fatal => "fatal"
      case SuperInfo => "superInfo"
    }
  }

  /** Different levels have different string values. */
  lemma NamesDistinct(a: LogLevel, b: LogLevel)
    requires a != b
    ensures a.Name() != b.Name()
  {
    match a
    case Trace => assert a.Name()[0] == 't';
    case Debug => assert a.Name()[0] == 'd';
    case Info => assert a.Name()[0] == 'i';
    case Warn => assert a.Name()[0] == 'w';
    case Error => assert a.Name()[0] == 'e';
    case Crit => assert a.Name() == "crit" && a.Name()[1] == 'r';
    case Fatal => assert a.Name()[0] == 'f';
    case SuperInfo => assert a.Name()[0] == 's';
  }

  const InvalidLogLevel := "INVALID_LOG_LEVEL"

  /** `stringToLogLevel`: the member whose value is `s`, or the thrown
      `INVALID_LOG_LEVEL` error when no member has that value. The
      comparison is exact, so a different letter case is an error. */
  function StringToLogLevel(s: string): (r: Result<LogLevel, string>)
    ensures r.Ok? ==> r.value.Name() == s
    ensures r.Err? ==> r.error == InvalidLogLevel && forall l: LogLevel :: l.Name() != s
  {
    match s
    case "trace" => Ok(Trace)
    case "debug" => Ok(Debug)
    case "info" => Ok(Info)
    case "warn" => Ok(Warn)
    case "error" => Ok(Error)
    case "crit" => Ok(Crit)
    case "fatal" => Ok(Fatal)
    case "superInfo" => Ok(SuperInfo)
    case _ => Err(InvalidLogLevel)
  }

  /** Every level's string value converts back to that level. */
  lemma StringToLogLevelRoundTrip(l: LogLevel)
    ensures StringToLogLevel(l.Name()) == Ok(l)
  {
    var r := StringToLogLevel(l.Name());
    if r.Ok? && r.value != l {
      NamesDistinct(r.value, l);
    }
  }

  /** Distinct accepted strings give distinct levels. */
  lemma StringToLogLevelInjective(s: string, t: string)
    requires StringToLogLevel(s).Ok? && StringToLogLevel(t).Ok?
    requires s != t
    ensures StringToLogLevel(s).value != StringToLogLevel(t).value
  {
  }

  /** The upper-case spelling of a level is not accepted. */
  lemma UpperCaseRejected()
    ensures StringToLogLevel("TRACE").Err? && StringToLogLevel("SUPERINFO").Err?
    ensures StringToLogLevel("superinfo").Err?
  {
  }
}
