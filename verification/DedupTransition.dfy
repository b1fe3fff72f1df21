/** The window and refire rules: one pure transition, run by both dedup adapters. */
module DedupTransition {
  import opened Prelude
  import opened Schemas

  datatype IncidentState = IncidentState(
    alertId: string,
    fingerprint: string,
    firstSeen: Time,
    lastSeen: Time,
    occurrenceCount: nat,
    lastEmittedAt: Time,
    severity: LogLevel,
    service: string,
    host: string,
    title: string,
    sampleMessage: string,
    errorCode: Option<string>,
    traceId: Option<string>,
    labels: map<string, string>,
    windowSeconds: int)

  datatype Action = New | Update | Suppress

  datatype TransitionResult = TransitionResult(action: Action, state: IncidentState)

  function AtLeast(floor: int, value: int): int {
    if value < floor then floor else value
  }

  /** `existing.window_seconds or window_seconds` decides how long the last event keeps it alive. */
  predicate WindowExpired(existing: IncidentState, clock: Time, windowSeconds: int) {
    var window := if existing.windowSeconds != 0 then existing.windowSeconds else windowSeconds;
    clock - existing.lastSeen > window as real
  }

  function Opened(event: LogEvent, fingerprint: string, window: int, title: string, newId: string): IncidentState {
    IncidentState(newId, fingerprint, event.stamp, event.stamp, 1, event.clock, event.level, event.service,
                  event.host, title, event.message, event.errorCode, event.traceId, event.labels, window)
  }

  function Counted(active: IncidentState, event: LogEvent, window: int): IncidentState {
    active.(occurrenceCount := (if active.occurrenceCount == 0 then 1 else active.occurrenceCount) + 1,
            lastSeen := event.stamp,
            sampleMessage := event.message,
            windowSeconds := window,
            traceId := if Given(event.traceId) then event.traceId else active.traceId,
            severity := if event.level.Rank() > active.severity.Rank() then event.level else active.severity)
  }

  function Transition(existing: Option<IncidentState>, event: LogEvent, fingerprint: string,
                      windowSeconds: int, refireSeconds: int, title: string, newId: string): TransitionResult {
    var window := AtLeast(1, windowSeconds);
    var refire := AtLeast(0, refireSeconds);
    if existing.None? || WindowExpired(existing.value, event.clock, window) then
      TransitionResult(New, Opened(event, fingerprint, window, title, newId))
    else
      var st := Counted(existing.value, event, window);
      if event.clock - st.lastEmittedAt < refire as real then TransitionResult(Suppress, st)
      else TransitionResult(Update, st.(lastEmittedAt := event.clock))
  }

  function OrUnknown(text: string): string {
    if text == "" then "unknown" else text
  }

  function AlertFromState(st: IncidentState, isNew: bool, description: string): (alert: AlertEvent)
    ensures alert.status.Open? || alert.status.Updated?
  {
    AlertEvent(st.alertId, st.fingerprint, st.title, description, st.severity, OrUnknown(st.service),
               OrUnknown(st.host), if isNew then Open else Updated,
               if st.occurrenceCount == 0 then 1 else st.occurrenceCount,
               st.firstSeen, st.lastSeen, st.errorCode, st.traceId, st.labels, st.sampleMessage, isNew)
  }
}
