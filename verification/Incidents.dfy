/** Incident rows: how an emit inserts or refreshes one, and how an operator's status change
    moves its timeline. */
module Incidents {
  import opened Prelude
  import opened Schemas

  datatype AlertRecord = AlertRecord(
    id: string,
    fingerprint: string,
    title: string,
    description: string,
    severity: LogLevel,
    service: string,
    host: string,
    status: AlertStatus,
    occurrenceCount: nat,
    firstSeen: Time,
    lastSeen: Time,
    errorCode: Option<string>,
    traceId: Option<string>,
    labels: map<string, string>,
    sampleMessage: string,
    acknowledgedAt: Option<Time>,
    resolvedAt: Option<Time>,
    ttaSeconds: Option<nat>,
    ttrSeconds: Option<nat>,
    updatedAt: Time)

  // --- db/mapping.py ------------------------------------------------------------

  function RecordFromEvent(alert: AlertEvent, now: Time): AlertRecord {
    AlertRecord(alert.id, alert.fingerprint, alert.title, alert.description, alert.severity, alert.service,
                alert.host, alert.status, alert.occurrenceCount, alert.firstSeen, alert.lastSeen, alert.errorCode,
                alert.traceId, alert.labels, alert.sampleMessage, None, None, None, None, now)
  }

  function MergedCount(record: AlertRecord, alert: AlertEvent): nat {
    if alert.isNew || alert.occurrenceCount <= record.occurrenceCount
    then record.occurrenceCount + 1
    else alert.occurrenceCount
  }

  function Refreshed(record: AlertRecord, alert: AlertEvent, now: Time): AlertRecord {
    record.(occurrenceCount := MergedCount(record, alert),
            lastSeen := alert.lastSeen,
            status := if record.status.Acknowledged? then Acknowledged else Updated,
            severity := alert.severity,
            sampleMessage := if alert.sampleMessage != "" then alert.sampleMessage else record.sampleMessage,
            traceId := if Given(alert.traceId) then alert.traceId else record.traceId,
            updatedAt := now)
  }

  // --- metrics.py ---------------------------------------------------------------

  /** `max(0, int(seconds))`: truncation towards zero, never negative. */
  function SecondsBetween(start: Time, end: Time): nat {
    if end < start then 0 else (end - start).Floor
  }

  function StatusChanged(row: AlertRecord, status: AlertStatus, now: Time): AlertRecord {
    var prev := row.status;
    var moved := row.(status := status, updatedAt := now);
    if status.Acknowledged? && (prev.Open? || prev.Updated?) then
      moved.(acknowledgedAt := Some(now), ttaSeconds := Some(SecondsBetween(row.firstSeen, now)))
    else if status.Resolved? && !prev.Resolved? then
      var ttr := SecondsBetween(row.firstSeen, now);
      var resolved := moved.(resolvedAt := Some(now), ttrSeconds := Some(ttr));
      if row.acknowledgedAt.None?
      then resolved.(acknowledgedAt := Some(now), ttaSeconds := Some(ttr))
      else resolved
    else if status.Open? && prev.Acknowledged? then
      moved.(acknowledgedAt := None, ttaSeconds := None)
    else if (status.Open? || status.Updated?) && prev.Resolved? then
      moved.(resolvedAt := None, ttrSeconds := None, acknowledgedAt := None, ttaSeconds := None)
    else moved
  }

  // --- the timeline invariant ------------------------------------------------------

  /** Whole seconds from `start` to `end`, rounded down; none if the end comes first. */
  predicate IsDuration(seconds: nat, start: Time, end: Time) {
    if end < start then seconds == 0 else seconds as real <= end - start < seconds as real + 1.0
  }

  lemma SecondsAreWhole(start: Time, end: Time)
    ensures IsDuration(SecondsBetween(start, end), start, end)
  {
  }

  /** A stamp and its duration appear together, the duration is measured from first_seen, and no
      stamp lies in the future. */
  ghost predicate StampOk(stamp: Option<Time>, seconds: Option<nat>, firstSeen: Time, now: Time) {
    match stamp
    case None => seconds == None
    case Some(at) => at <= now && seconds.Some? && IsDuration(seconds.value, firstSeen, at)
  }

  ghost predicate TimelineOk(row: AlertRecord, now: Time) {
    && !row.status.Suppressed?
    && StampOk(row.acknowledgedAt, row.ttaSeconds, row.firstSeen, now)
    && StampOk(row.resolvedAt, row.ttrSeconds, row.firstSeen, now)
    && (row.status.Acknowledged? ==> row.acknowledgedAt.Some?)
    && (row.status.Resolved? ==>
          && row.acknowledgedAt.Some? && row.resolvedAt.Some?
          && row.acknowledgedAt.value <= row.resolvedAt.value)
  }

  lemma LaterIsLonger(start: Time, a: Time, b: Time, m: nat, n: nat)
    requires a <= b && IsDuration(m, start, a) && IsDuration(n, start, b)
    ensures m <= n
  {
  }

  /** A resolved row was acknowledged no later than it was resolved, and faster. */
  lemma ResolvedMeansTtaWithinTtr(row: AlertRecord, now: Time)
    requires TimelineOk(row, now) && row.status.Resolved?
    ensures row.ttaSeconds.Some? && row.ttrSeconds.Some? && row.ttaSeconds.value <= row.ttrSeconds.value
  {
    LaterIsLonger(row.firstSeen, row.acknowledgedAt.value, row.resolvedAt.value, row.ttaSeconds.value, row.ttrSeconds.value);
  }

  lemma StatusChangeKeepsTimeline(row: AlertRecord, status: AlertStatus, before: Time, now: Time)
    requires TimelineOk(row, before) && before <= now && status.OperatorSettable()
    ensures TimelineOk(StatusChanged(row, status, now), now)
    ensures StatusChanged(row, status, now).status == status
  {
  }

  /** A pipeline refresh never touches the timeline, never un-acknowledges, and always counts up. */
  lemma RefreshKeepsTimeline(row: AlertRecord, alert: AlertEvent, before: Time, now: Time)
    requires TimelineOk(row, before) && before <= now && row.status.Active()
    ensures TimelineOk(Refreshed(row, alert, now), now)
    ensures Refreshed(row, alert, now).status.Acknowledged? <==> row.status.Acknowledged?
    ensures Refreshed(row, alert, now).status.Active()
    ensures Refreshed(row, alert, now).occurrenceCount > row.occurrenceCount
  {
  }

  lemma NewRowHasTimeline(alert: AlertEvent, now: Time)
    requires !alert.status.Suppressed? && alert.status.Active() && !alert.status.Acknowledged?
    ensures TimelineOk(RecordFromEvent(alert, now), now)
  {
  }

  // --- field by field ---------------------------------------------------------------------------

  /** The acknowledge stamp: set when an open or updated row is acknowledged and when a row without one is
      resolved, cleared when a row is opened from acknowledged or reopened from resolved, else kept. */
  function AckStampAfter(row: AlertRecord, status: AlertStatus, now: Time): Option<Time> {
    if status == Acknowledged && (row.status == Open || row.status == Updated) then Some(now)
    else if status == Resolved && row.status != Resolved && row.acknowledgedAt == None then Some(now)
    else if status == Open && (row.status == Acknowledged || row.status == Resolved) then None
    else if status == Updated && row.status == Resolved then None
    else row.acknowledgedAt
  }

  /** The resolve stamp: set when a row becomes resolved, cleared when it is reopened from there, else kept. */
  function ResolveStampAfter(row: AlertRecord, status: AlertStatus, now: Time): Option<Time> {
    if status == Resolved && row.status != Resolved then Some(now)
    else if (status == Open || status == Updated) && row.status == Resolved then None
    else row.resolvedAt
  }

  /** A duration goes with its stamp: measured anew where the stamp is set or moved, gone with it, else kept. */
  predicate DurationFollows(before: Option<nat>, after: Option<nat>, measured: bool, stamp: Option<Time>, firstSeen: Time) {
    if measured then stamp.Some? && after.Some? && IsDuration(after.value, firstSeen, stamp.value)
    else if stamp == None && before != None then after == None
    else after == before
  }

  /** What a status change does to each field; fields that are not mentioned keep their value. */
  predicate FollowsStatus(row: AlertRecord, status: AlertStatus, now: Time, after: AlertRecord) {
    && after == row.(status := status, updatedAt := now,
                     acknowledgedAt := AckStampAfter(row, status, now),
                     resolvedAt := ResolveStampAfter(row, status, now),
                     ttaSeconds := after.ttaSeconds, ttrSeconds := after.ttrSeconds)
    && DurationFollows(row.ttaSeconds, after.ttaSeconds,
                       (status == Acknowledged && (row.status == Open || row.status == Updated))
                       || (status == Resolved && row.status != Resolved && row.acknowledgedAt == None),
                       after.acknowledgedAt, row.firstSeen)
    && DurationFollows(row.ttrSeconds, after.ttrSeconds, status == Resolved && row.status != Resolved,
                       after.resolvedAt, row.firstSeen)
  }

  predicate StampsHaveDurations(row: AlertRecord) {
    (row.acknowledgedAt == None <==> row.ttaSeconds == None) && (row.resolvedAt == None <==> row.ttrSeconds == None)
  }

  lemma StatusChangeByField(row: AlertRecord, status: AlertStatus, now: Time)
    requires StampsHaveDurations(row)
    ensures FollowsStatus(row, status, now, StatusChanged(row, status, now))
  {
  }

  /** An inserted row shows the alert, field by field, and starts without stamps. */
  lemma NewRowShowsTheAlert(alert: AlertEvent, now: Time)
    ensures var row := RecordFromEvent(alert, now);
            && row.id == alert.id && row.fingerprint == alert.fingerprint
            && row.title == alert.title && row.description == alert.description
            && row.severity == alert.severity && row.status == alert.status
            && row.service == alert.service && row.host == alert.host
            && row.occurrenceCount == alert.occurrenceCount
            && row.firstSeen == alert.firstSeen && row.lastSeen == alert.lastSeen
            && row.errorCode == alert.errorCode && row.traceId == alert.traceId && row.labels == alert.labels
            && row.sampleMessage == alert.sampleMessage && row.updatedAt == now
            && row.acknowledgedAt == None && row.resolvedAt == None && row.ttaSeconds == None && row.ttrSeconds == None
  {
  }

  /** A refresh takes over the alert's severity and last_seen, its message and trace id if it gives any, and
      its count if that is larger and the alert is not new, else one more; it keeps everything else, an
      acknowledgement included. */
  lemma RefreshShowsTheAlert(row: AlertRecord, alert: AlertEvent, now: Time)
    ensures Refreshed(row, alert, now) == row.(
              severity := alert.severity,
              lastSeen := alert.lastSeen,
              occurrenceCount := if !alert.isNew && alert.occurrenceCount > row.occurrenceCount
                                 then alert.occurrenceCount else row.occurrenceCount + 1,
              sampleMessage := if alert.sampleMessage == "" then row.sampleMessage else alert.sampleMessage,
              traceId := if alert.traceId == None || alert.traceId == Some("") then row.traceId else alert.traceId,
              status := if row.status == Acknowledged then Acknowledged else Updated,
              updatedAt := now)
  {
  }

  // --- where stamps can be out of step with the status ------------------------------------------

  /** Rows that need a stamp have it; suppressed is never reached. */
  predicate Stamped(row: AlertRecord) {
    && !row.status.Suppressed?
    && (row.status.Acknowledged? || row.status.Resolved? ==> row.acknowledgedAt.Some?)
    && (row.status.Resolved? ==> row.resolvedAt.Some?)
  }

  /** Only resolved rows carry a resolve stamp. */
  predicate ResolveStampFits(row: AlertRecord) {
    row.resolvedAt.Some? ==> row.status.Resolved?
  }

  /** Only acknowledged and resolved rows carry an acknowledge stamp. */
  predicate AckStampFits(row: AlertRecord) {
    row.acknowledgedAt.Some? ==> row.status.Acknowledged? || row.status.Resolved?
  }

  /** A status change breaks the fit of the resolve stamp exactly when it acknowledges a resolved row. */
  lemma ResolveStampKeptExactly(row: AlertRecord, status: AlertStatus, now: Time)
    requires Stamped(row) && status.OperatorSettable() && ResolveStampFits(row)
    ensures ResolveStampFits(StatusChanged(row, status, now)) <==> !(row.status.Resolved? && status.Acknowledged?)
  {
  }

  /** A status change breaks the fit of the acknowledge stamp exactly when it sets an acknowledged row
      to updated. */
  lemma AckStampKeptExactly(row: AlertRecord, status: AlertStatus, now: Time)
    requires Stamped(row) && status.OperatorSettable() && AckStampFits(row)
    ensures AckStampFits(StatusChanged(row, status, now)) <==> !(row.status.Acknowledged? && status.Updated?)
  {
  }

  /** What happens to one row: operators set a status, the pipeline refreshes it while it is active. */
  datatype Change = Operator(status: AlertStatus, at: Time) | Refresh(alert: AlertEvent, at: Time)

  function ChangedBy(row: AlertRecord, change: Change): AlertRecord {
    match change
    case Operator(status, at) => if status.OperatorSettable() then StatusChanged(row, status, at) else row
    case Refresh(alert, at) => if row.status.Active() then Refreshed(row, alert, at) else row
  }

  function RowAfter(row: AlertRecord, history: seq<Change>): AlertRecord {
    if history == [] then row else ChangedBy(RowAfter(row, history[..|history| - 1]), history[|history| - 1])
  }

  predicate AcknowledgesResolved(row: AlertRecord, change: Change) {
    change.Operator? && change.status.Acknowledged? && row.status.Resolved?
  }

  predicate UpdatesAcknowledged(row: AlertRecord, change: Change) {
    change.Operator? && change.status.Updated? && row.status.Acknowledged?
  }

  lemma {:induction false} HistoryKeepsStamped(row: AlertRecord, history: seq<Change>)
    requires Stamped(row)
    ensures Stamped(RowAfter(row, history))
  {
    if history != [] {
      HistoryKeepsStamped(row, history[..|history| - 1]);
    }
  }

  lemma AfterNext(row: AlertRecord, history: seq<Change>, k: nat)
    requires k < |history|
    ensures RowAfter(row, history[..k + 1]) == ChangedBy(RowAfter(row, history[..k]), history[k])
  {
    assert history[..k + 1][..k] == history[..k];
  }

  lemma ResolveStampFitsStep(row: AlertRecord, change: Change)
    requires Stamped(row) && ResolveStampFits(row) && !AcknowledgesResolved(row, change)
    ensures ResolveStampFits(ChangedBy(row, change))
  {
  }

  lemma {:induction false} ResolveStampFitsUpTo(row: AlertRecord, history: seq<Change>, k: nat)
    requires Stamped(row) && ResolveStampFits(row) && k <= |history|
    requires forall i :: 0 <= i < k ==> !AcknowledgesResolved(RowAfter(row, history[..i]), history[i])
    ensures ResolveStampFits(RowAfter(row, history[..k]))
  {
    if k > 0 {
      ResolveStampFitsUpTo(row, history, k - 1);
      AfterNext(row, history, k - 1);
      HistoryKeepsStamped(row, history[..k - 1]);
      ResolveStampFitsStep(RowAfter(row, history[..k - 1]), history[k - 1]);
    }
  }

  /** Over whole histories of one row: the resolve stamp fits the status throughout exactly when no
      operator ever acknowledges the row while it is resolved. */
  lemma ResolveStampFitsExactly(row: AlertRecord, history: seq<Change>)
    requires Stamped(row) && ResolveStampFits(row)
    ensures (forall k :: 0 <= k <= |history| ==> ResolveStampFits(RowAfter(row, history[..k])))
       <==> (forall k :: 0 <= k < |history| ==> !AcknowledgesResolved(RowAfter(row, history[..k]), history[k]))
  {
    if k :| 0 <= k < |history| && AcknowledgesResolved(RowAfter(row, history[..k]), history[k]) {
      AfterNext(row, history, k);
      HistoryKeepsStamped(row, history[..k]);
      assert !ResolveStampFits(RowAfter(row, history[..k + 1]));
    } else {
      forall k | 0 <= k <= |history| ensures ResolveStampFits(RowAfter(row, history[..k])) {
        ResolveStampFitsUpTo(row, history, k);
      }
    }
  }

  lemma AckStampFitsStep(row: AlertRecord, change: Change)
    requires Stamped(row) && AckStampFits(row) && !UpdatesAcknowledged(row, change)
    ensures AckStampFits(ChangedBy(row, change))
  {
  }

  lemma {:induction false} AckStampFitsUpTo(row: AlertRecord, history: seq<Change>, k: nat)
    requires Stamped(row) && AckStampFits(row) && k <= |history|
    requires forall i :: 0 <= i < k ==> !UpdatesAcknowledged(RowAfter(row, history[..i]), history[i])
    ensures AckStampFits(RowAfter(row, history[..k]))
  {
    if k > 0 {
      AckStampFitsUpTo(row, history, k - 1);
      AfterNext(row, history, k - 1);
      HistoryKeepsStamped(row, history[..k - 1]);
      AckStampFitsStep(RowAfter(row, history[..k - 1]), history[k - 1]);
    }
  }

  /** The acknowledge stamp fits the status throughout exactly when no operator ever sets the row to
      updated while it is acknowledged. */
  lemma AckStampFitsExactly(row: AlertRecord, history: seq<Change>)
    requires Stamped(row) && AckStampFits(row)
    ensures (forall k :: 0 <= k <= |history| ==> AckStampFits(RowAfter(row, history[..k])))
       <==> (forall k :: 0 <= k < |history| ==> !UpdatesAcknowledged(RowAfter(row, history[..k]), history[k]))
  {
    if k :| 0 <= k < |history| && UpdatesAcknowledged(RowAfter(row, history[..k]), history[k]) {
      AfterNext(row, history, k);
      HistoryKeepsStamped(row, history[..k]);
      assert !AckStampFits(RowAfter(row, history[..k + 1]));
    } else {
      forall k | 0 <= k <= |history| ensures AckStampFits(RowAfter(row, history[..k])) {
        AckStampFitsUpTo(row, history, k);
      }
    }
  }

  /** An inserted row starts with both properties. */
  lemma NewRowFits(alert: AlertEvent, now: Time)
    requires alert.status.Open? || alert.status.Updated?
    ensures var row := RecordFromEvent(alert, now);
            Stamped(row) && ResolveStampFits(row) && AckStampFits(row)
  {
  }

  /** Resolving, re-acknowledging and then reopening a row leaves its old resolve stamp in place,
      while reopening it directly clears the whole timeline. */
  lemma ReacknowledgingKeepsTheResolveStamp(row: AlertRecord, t1: Time, t2: Time, t3: Time)
    requires row.status.Open? || row.status.Updated? || row.status.Acknowledged?
    ensures
      var resolved := StatusChanged(row, Resolved, t1);
      var reacked := StatusChanged(resolved, Acknowledged, t2);
      && reacked.status.Acknowledged? && reacked.resolvedAt == Some(t1)
      && StatusChanged(reacked, Open, t3).resolvedAt == Some(t1)
      && StatusChanged(resolved, Open, t3).resolvedAt == None
      && StatusChanged(resolved, Open, t3).acknowledgedAt == None
  {
  }

  /** Un-acknowledging through `updated` keeps the acknowledge stamp on an open row, while going
      straight to `open` wipes it. */
  lemma DetourKeepsTheAckStamp(row: AlertRecord, t1: Time, t2: Time, t3: Time)
    requires row.status.Open? || row.status.Updated?
    ensures
      var acked := StatusChanged(row, Acknowledged, t1);
      var detour := StatusChanged(StatusChanged(acked, Updated, t2), Open, t3);
      && detour.status.Open? && detour.acknowledgedAt == Some(t1)
      && StatusChanged(acked, Open, t3).acknowledgedAt == None
  {
  }

  /** Resolving a row nobody acknowledged makes both durations equal. */
  lemma ImplicitAckMakesTtaTtr(row: AlertRecord, now: Time)
    requires row.acknowledgedAt == None && !row.status.Resolved?
    ensures StatusChanged(row, Resolved, now).ttaSeconds == StatusChanged(row, Resolved, now).ttrSeconds
    ensures StatusChanged(row, Resolved, now).acknowledgedAt == StatusChanged(row, Resolved, now).resolvedAt
  {
  }
}
