/** Log levels, incident statuses, log events and the pipeline's alert event. */
module Schemas {
  import opened Prelude

  datatype LogLevel = DEBUG | INFO | WARN | WARNING | ERROR | CRITICAL | FATAL {
    function Rank(): nat {
      match this
      case DEBUG => 10
      case INFO => 20
      case WARN => 30
      case WARNING => 30
      case ERROR => 40
      case CRITICAL => 50
      case FATAL => 50
    }

    /** `LogLevel.normalize` on the name of a level: the two aliases collapse. */
    function Normalize(): (level: LogLevel)
      ensures level.Rank() == Rank()
      ensures !level.WARNING? && !level.FATAL?
    {
      match this
      case WARNING => WARN
      case FATAL => CRITICAL
      case other => other
    }
  }

  lemma LevelsInOrder()
    ensures DEBUG.Rank() < INFO.Rank() < WARN.Rank() == WARNING.Rank() < ERROR.Rank()
    ensures ERROR.Rank() < CRITICAL.Rank() == FATAL.Rank()
    ensures forall level: LogLevel :: level.Normalize() ==
              (if level == WARNING then WARN else if level == FATAL then CRITICAL else level)
  {
  }

  /** The graver of two levels by name; `a` where they are equally grave. */
  function Graver(a: LogLevel, b: LogLevel): LogLevel {
    if a == CRITICAL || a == FATAL then a
    else if b == CRITICAL || b == FATAL then b
    else if a == ERROR || b == ERROR then ERROR
    else if a == WARN || a == WARNING then a
    else if b == WARN || b == WARNING then b
    else if a == INFO || b == INFO then INFO
    else DEBUG
  }

  lemma GraverByRank(a: LogLevel, b: LogLevel)
    ensures Graver(a, b) == if b.Rank() > a.Rank() then b else a
  {
  }

  /** The level is below the minimum, by name. */
  predicate TooLow(level: LogLevel, minimum: LogLevel) {
    match minimum
    case DEBUG => false
    case INFO => level == DEBUG
    case WARN => level == DEBUG || level == INFO
    case WARNING => level == DEBUG || level == INFO
    case ERROR => level != ERROR && level != CRITICAL && level != FATAL
    case CRITICAL => level != CRITICAL && level != FATAL
    case FATAL => level != CRITICAL && level != FATAL
  }

  datatype AlertStatus = Open | Updated | Acknowledged | Resolved | Suppressed {
    predicate Active() { Open? || Updated? || Acknowledged? }
    predicate OperatorSettable() { !Suppressed? }
  }

  /** A log event reduced to what dedup reads. `clock` is the event-time clock, already clamped
      against far-future skew; `stamp` is the raw timestamp that ends up in `last_seen`. */
  datatype LogEvent = LogEvent(
    clock: Time,
    stamp: Time,
    level: LogLevel,
    service: string,
    host: string,
    message: string,
    errorCode: Option<string>,
    traceId: Option<string>,
    labels: map<string, string>)

  datatype AlertEvent = AlertEvent(
    id: string,
    fingerprint: string,
    title: string,
    description: string,
    severity: LogLevel,
    service: string,
    host: string,
    status: AlertStatus,
    occurrenceCount: nat,
    firstSeen: Time,
    lastSeen: Time,
    errorCode: Option<string>,
    traceId: Option<string>,
    labels: map<string, string>,
    sampleMessage: string,
    isNew: bool)

  /** None and the empty string are both falsy. */
  predicate Given(text: Option<string>) {
    text.Some? && text.value != ""
  }
}
