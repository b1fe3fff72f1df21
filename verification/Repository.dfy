/** The repository as the processes call it: rows that are loaded, changed field by field and
    written back, and methods that update the tables in place. Each method is tied to the function
    that describes its committed transaction.
 */
module Repository {
  import opened Prelude
  import opened Schemas
  import opened Incidents
  import opened OutboxTable
  import opened OutboxFields
  import opened IdempotencyKey
  import opened EmitProtocol

  /** One loaded incident row; the columns that never change stay in `origin`. */
  class AlertRow {
    const origin: AlertRecord
    var severity: LogLevel
    var status: AlertStatus
    var occurrenceCount: nat
    var lastSeen: Time
    var traceId: Option<string>
    var sampleMessage: string
    var acknowledgedAt: Option<Time>
    var resolvedAt: Option<Time>
    var ttaSeconds: Option<nat>
    var ttrSeconds: Option<nat>
    var updatedAt: Time

    constructor (record: AlertRecord)
      ensures Value() == record
    {
      origin := record;
      severity := record.severity;
      status := record.status;
      occurrenceCount := record.occurrenceCount;
      lastSeen := record.lastSeen;
      traceId := record.traceId;
      sampleMessage := record.sampleMessage;
      acknowledgedAt := record.acknowledgedAt;
      resolvedAt := record.resolvedAt;
      ttaSeconds := record.ttaSeconds;
      ttrSeconds := record.ttrSeconds;
      updatedAt := record.updatedAt;
    }

    function Value(): AlertRecord
      reads this
    {
      origin.(severity := severity, status := status, occurrenceCount := occurrenceCount, lastSeen := lastSeen,
              traceId := traceId, sampleMessage := sampleMessage, acknowledgedAt := acknowledgedAt,
              resolvedAt := resolvedAt, ttaSeconds := ttaSeconds, ttrSeconds := ttrSeconds, updatedAt := updatedAt)
    }

    method ApplyStatusTimestamps(newStatus: AlertStatus, now: Time)
      modifies this
      ensures Value() == StatusChanged(old(Value()), newStatus, now)
      ensures StampsHaveDurations(old(Value())) ==> FollowsStatus(old(Value()), newStatus, now, Value())
    {
      if StampsHaveDurations(Value()) {
        StatusChangeByField(Value(), newStatus, now);
      }
      var prev := status;
      status := newStatus;
      updatedAt := now;
      if newStatus.Acknowledged? && (prev.Open? || prev.Updated?) {
        acknowledgedAt := Some(now);
        ttaSeconds := Some(SecondsBetween(origin.firstSeen, now));
      } else if newStatus.Resolved? && !prev.Resolved? {
        resolvedAt := Some(now);
        ttrSeconds := Some(SecondsBetween(origin.firstSeen, now));
        if acknowledgedAt.None? {
          acknowledgedAt := Some(now);
          ttaSeconds := ttrSeconds;
        }
      } else if newStatus.Open? && prev.Acknowledged? {
        acknowledgedAt := None;
        ttaSeconds := None;
      } else if (newStatus.Open? || newStatus.Updated?) && prev.Resolved? {
        resolvedAt := None;
        ttrSeconds := None;
        acknowledgedAt := None;
        ttaSeconds := None;
      }
    }

    method ApplyEvent(alert: AlertEvent, now: Time)
      modifies this
      ensures Value() == Refreshed(old(Value()), alert, now)
    {
      if alert.isNew || alert.occurrenceCount <= occurrenceCount {
        occurrenceCount := occurrenceCount + 1;
      } else {
        occurrenceCount := alert.occurrenceCount;
      }
      lastSeen := alert.lastSeen;
      if !status.Acknowledged? {
        status := Updated;
      }
      severity := alert.severity;
      if alert.sampleMessage != "" {
        sampleMessage := alert.sampleMessage;
      }
      if Given(alert.traceId) {
        traceId := alert.traceId;
      }
      updatedAt := now;
    }
  }

  datatype DispatchLog = DispatchLog(alertId: string, channel: string, success: bool, idempotencyKey: string)

  /** Keys with a successful entry in the audit log. */
  function AuditedKeys(log: seq<DispatchLog>): set<string> {
    set i | 0 <= i < |log| && log[i].success :: log[i].idempotencyKey
  }

  /** The attempt inside one session: refresh the active row or insert a new one. */
  ghost function EmitOnce(db: Database, alert: AlertEvent, policy: EmitPolicy, freshId: string, now: Time): Option<Committed> {
    match FindActive(db.alerts, alert.fingerprint)
    case Some(id) => Some(RefreshTxn(db, id, alert, policy, now))
    case None => InsertTxn(db, WithFreeId(db.alerts, alert, freshId), policy, now)
  }

  /** The attempt and, after an IntegrityError, its one retry as an update. */
  ghost function EmitWithRetry(
    db: Database, alert: AlertEvent, policy: EmitPolicy, freshId: string, retryId: string, now: Time): Option<Committed>
  {
    match EmitOnce(db, alert, policy, freshId, now)
    case Some(c) => Some(c)
    case None => EmitOnce(db, WithFreeId(db.alerts, alert, freshId).(isNew := false), policy, retryId, now)
  }

  /** The row is open, updated or acknowledged for this fingerprint. */
  predicate IsOpenFor(row: AlertRecord, fingerprint: string) {
    row.fingerprint == fingerprint && (row.status == Open || row.status == Updated || row.status == Acknowledged)
  }

  lemma ResolvedRowByField(db: Database, fingerprint: string, now: Time, id: string)
    requires id in db.alerts
    ensures var after := ResolveTxn(db, fingerprint, now).alerts[id];
            if IsOpenFor(db.alerts[id], fingerprint)
            then after.status == Resolved
                 && (StampsHaveDurations(db.alerts[id]) ==> FollowsStatus(db.alerts[id], Resolved, now, after))
            else after == db.alerts[id]
  {
    if StampsHaveDurations(db.alerts[id]) {
      StatusChangeByField(db.alerts[id], Resolved, now);
    }
  }

  function Ids(claimed: seq<ClaimedOutboxRow>): seq<nat> {
    seq(|claimed|, i requires 0 <= i < |claimed| => claimed[i].id)
  }

  datatype StatusOutcome = InvalidStatus | UnknownAlert | ActiveConflict | Changed(record: AlertRecord)

  datatype ClaimedOutboxRow = ClaimedOutboxRow(id: nat, row: OutboxRow)

  class AlertRepository {
    var alerts: map<string, AlertRecord>
    var outbox: map<nat, OutboxRow>
    var nextOutboxId: nat
    var dispatchLog: seq<DispatchLog>

    constructor ()
      ensures Db() == Database(map[], EMPTY_OUTBOX) && dispatchLog == []
    {
      alerts := map[];
      outbox := map[];
      nextOutboxId := 0;
      dispatchLog := [];
    }

    function Table(): Outbox
      reads this
    {
      Outbox(outbox, nextOutboxId)
    }

    function Db(): Database
      reads this
    {
      Database(alerts, Table())
    }

    // --- incidents ------------------------------------------------------------------

    method FindActiveId(fingerprint: string) returns (found: Option<string>)
      requires AlertsOk(alerts)
      ensures found == FindActive(alerts, fingerprint)
    {
      var active := set id | id in alerts && IsActive(alerts, id, fingerprint);
      if active == {} {
        assert forall id :: IsActive(alerts, id, fingerprint) ==> id in active;
        return None;
      }
      var id :| id in active;
      return Some(id);
    }

    method EnqueueInSession(alert: AlertEvent, channels: seq<string>, now: Time) returns (created: seq<string>)
      modifies this`outbox, this`nextOutboxId
      ensures (Table(), created) == EnqueueEach(old(Table()), alert, channels, now)
    {
      created := [];
      for i := 0 to |channels|
        invariant (Table(), created) == EnqueueEach(old(Table()), alert, channels[..i], now)
      {
        assert channels[..i + 1][..i] == channels[..i];
        var key := Print(alert.id, channels[i], alert.occurrenceCount);
        if !HasKey(Table(), key) {
          outbox := outbox[nextOutboxId := PendingRow(key, alert.id, channels[i], now)];
          nextOutboxId := nextOutboxId + 1;
          created := created + [key];
        }
      }
      assert channels[..|channels|] == channels;
    }

    /** One session: select, refresh or insert, enqueue; an insert the indexes refuse changes nothing. */
    method UpsertAndMaybeEnqueueOnce(alert: AlertEvent, policy: EmitPolicy, freshId: string, now: Time)
      returns (committed: Option<Committed>)
      requires AlertsOk(alerts)
      modifies this`alerts, this`outbox, this`nextOutboxId
      ensures committed == EmitOnce(old(Db()), alert, policy, freshId, now)
      ensures Db() == if committed.Some? then committed.value.db else old(Db())
    {
      var existing := FindActiveId(alert.fingerprint);
      var record, written;
      match existing {
        case Some(id) =>
          var row := new AlertRow(alerts[id]);
          row.ApplyEvent(alert, now);
          record := row.Value();
          written := alert.(id := record.id, isNew := false, occurrenceCount := record.occurrenceCount);
        case None =>
          written := alert;
          if alert.id in alerts {
            written := written.(id := freshId, isNew := true);
          }
          if written.id in alerts {
            return None;
          }
          record := RecordFromEvent(written, now);
      }
      alerts := alerts[record.id := record];
      var keys := [];
      if ShouldEnqueue(record, written, policy) {
        keys := EnqueueInSession(written, EnabledChannels(policy.dispatch), now);
      }
      return Some(Committed(Db(), record, written, keys));
    }

    method UpsertAndMaybeEnqueue(alert: AlertEvent, policy: EmitPolicy, freshId: string, retryId: string, now: Time)
      returns (committed: Option<Committed>)
      requires AlertsOk(alerts)
      modifies this`alerts, this`outbox, this`nextOutboxId
      ensures committed == EmitWithRetry(old(Db()), alert, policy, freshId, retryId, now)
      ensures Db() == if committed.Some? then committed.value.db else old(Db())
    {
      committed := UpsertAndMaybeEnqueueOnce(alert, policy, freshId, now);
      if committed.None? {
        var again := if alert.id in alerts then alert.(id := freshId, isNew := true) else alert;
        committed := UpsertAndMaybeEnqueueOnce(again.(isNew := false), policy, retryId, now);
      }
    }

    /** `InvalidStatus` is the ValueError, `ActiveConflict` the IntegrityError of the unique index. */
    method SetAlertStatus(alertId: string, status: AlertStatus, now: Time) returns (outcome: StatusOutcome)
      requires AlertsOk(alerts)
      modifies this`alerts
      ensures Db() == StatusTxn(old(Db()), alertId, status, now)
      ensures outcome.InvalidStatus? <==> status == Suppressed
      ensures outcome.UnknownAlert? <==> status != Suppressed && alertId !in old(alerts)
      ensures outcome.ActiveConflict? <==>
                && status != Suppressed && status != Resolved && alertId in old(alerts)
                && exists other :: other in old(alerts) && other != alertId
                                   && IsOpenFor(old(alerts)[other], old(alerts)[alertId].fingerprint)
      ensures outcome.ActiveConflict? ==> Db() == old(Db())
      ensures outcome.Changed? ==>
                && alerts == old(alerts)[alertId := outcome.record] && outcome.record.status == status
                && (StampsHaveDurations(old(alerts)[alertId]) ==>
                      FollowsStatus(old(alerts)[alertId], status, now, outcome.record))
    {
      if !status.OperatorSettable() {
        return InvalidStatus;
      }
      if alertId !in alerts {
        return UnknownAlert;
      }
      var row := new AlertRow(alerts[alertId]);
      row.ApplyStatusTimestamps(status, now);
      var record := row.Value();
      var conflict := exists other :: other in alerts && other != alertId && IsActive(alerts, other, record.fingerprint);
      assert record.fingerprint == alerts[alertId].fingerprint;
      assert forall other :: other in alerts ==>
               (IsActive(alerts, other, record.fingerprint) <==> IsOpenFor(alerts[other], record.fingerprint));
      if record.status.Active() && conflict {
        return ActiveConflict;
      }
      alerts := alerts[alertId := record];
      return Changed(record);
    }

    /** Exactly the open, updated and acknowledged rows of the fingerprint become resolved. */
    method ResolveAlert(fingerprint: string, now: Time)
      modifies this`alerts
      ensures Db() == ResolveTxn(old(Db()), fingerprint, now)
      ensures alerts.Keys == old(alerts).Keys
      ensures forall id :: id in alerts ==>
                if IsOpenFor(old(alerts)[id], fingerprint)
                then alerts[id].status == Resolved
                     && (StampsHaveDurations(old(alerts)[id]) ==> FollowsStatus(old(alerts)[id], Resolved, now, alerts[id]))
                else alerts[id] == old(alerts)[id]
    {
      var todo := set id | id in alerts && IsActive(alerts, id, fingerprint);
      while todo != {}
        invariant alerts.Keys == old(alerts).Keys
        invariant forall id :: id in todo ==> id in alerts && alerts[id] == old(alerts)[id]
        invariant forall id :: id in todo ==> IsActive(old(alerts), id, fingerprint)
        invariant forall id | id in alerts && id !in todo ::
                    alerts[id] == ResolveTxn(old(Db()), fingerprint, now).alerts[id]
        decreases |todo|
      {
        var id :| id in todo;
        var row := new AlertRow(alerts[id]);
        row.ApplyStatusTimestamps(Resolved, now);
        alerts := alerts[id := row.Value()];
        todo := todo - {id};
      }
      assert alerts == ResolveTxn(old(Db()), fingerprint, now).alerts;
      forall id | id in alerts
        ensures if IsOpenFor(old(alerts)[id], fingerprint)
                then alerts[id].status == Resolved
                     && (StampsHaveDurations(old(alerts)[id]) ==> FollowsStatus(old(alerts)[id], Resolved, now, alerts[id]))
                else alerts[id] == old(alerts)[id]
      {
        ResolvedRowByField(old(Db()), fingerprint, now, id);
      }
    }

    // --- audit log --------------------------------------------------------------------

    method LogDispatch(entry: DispatchLog)
      modifies this`dispatchLog
      ensures dispatchLog == old(dispatchLog) + [entry]
      ensures AuditedKeys(dispatchLog)
              == old(AuditedKeys(dispatchLog)) + (if entry.success then {entry.idempotencyKey} else {})
    {
      dispatchLog := dispatchLog + [entry];
      forall key | key in old(AuditedKeys(dispatchLog)) ensures key in AuditedKeys(dispatchLog) {
        var i :| 0 <= i < |old(dispatchLog)| && old(dispatchLog)[i].success && old(dispatchLog)[i].idempotencyKey == key;
        assert dispatchLog[i] == old(dispatchLog)[i];
      }
      assert dispatchLog[|dispatchLog| - 1] == entry;
    }

    method DispatchIdempotencySucceeded(key: string) returns (succeeded: bool)
      ensures succeeded <==> key in AuditedKeys(dispatchLog)
      ensures succeeded <==> exists i :: 0 <= i < |dispatchLog| && dispatchLog[i].idempotencyKey == key && dispatchLog[i].success
    {
      succeeded := exists i :: 0 <= i < |dispatchLog| && dispatchLog[i].idempotencyKey == key && dispatchLog[i].success;
    }

    // --- outbox ------------------------------------------------------------------------

    method ClaimOutboxBatch(batchSize: nat, staleSeconds: nat, now: Time) returns (claimed: seq<ClaimedOutboxRow>)
      modifies this`outbox
      ensures var (after, ids) := ClaimBatch(old(Table()), now, batchSize, staleSeconds);
              && Table() == after
              && |claimed| == |ids|
              && forall i :: 0 <= i < |ids| ==>
                   ids[i] in after.rows && claimed[i] == ClaimedOutboxRow(ids[i], after.rows[ids[i]])
      ensures TakesTheFirst(old(Table()), Ids(claimed), now, batchSize, staleSeconds)
      ensures LeavesClaimed(old(Table()), Table(), Ids(claimed), now, staleSeconds)
    {
      ClaimRowByRow(Table(), now, batchSize, staleSeconds);
      outbox := RecoverStale(Table(), now, staleSeconds).rows;
      var candidateIds := Candidates(Table(), now, batchSize);
      CandidatesAreDue(Table(), now, batchSize);
      claimed := SwapEach(candidateIds, now);
      ClaimBatchTakesFirstDue(old(Table()), now, batchSize, staleSeconds);
      assert Ids(claimed) == candidateIds;
    }

    /** The loop of compare-and-swaps; inside one transaction each of them wins. */
    method SwapEach(candidateIds: seq<nat>, now: Time) returns (claimed: seq<ClaimedOutboxRow>)
      requires Distinct(candidateIds)
      requires forall a :: 0 <= a < |candidateIds| ==> IsDue(Table(), candidateIds[a], now)
      modifies this`outbox
      ensures (Table(), candidateIds) == ClaimEach(old(Table()), candidateIds, now)
      ensures |claimed| == |candidateIds|
      ensures forall j :: 0 <= j < |claimed| ==>
                && candidateIds[j] in old(outbox)
                && claimed[j] == ClaimedOutboxRow(candidateIds[j], ClaimedRow(old(outbox)[candidateIds[j]], now))
    {
      ghost var recovered := Table();
      claimed := [];
      for i := 0 to |candidateIds|
        invariant nextOutboxId == recovered.nextId
        invariant (Table(), candidateIds[..i]) == ClaimEach(recovered, candidateIds[..i], now)
        invariant |claimed| == i
        invariant forall j :: 0 <= j < i ==>
                    claimed[j] == ClaimedOutboxRow(candidateIds[j], ClaimedRow(recovered.rows[candidateIds[j]], now))
      {
        var oid := candidateIds[i];
        ClaimEachStep(recovered, candidateIds, i, now);
        if oid in outbox && outbox[oid].status.Claimable() && outbox[oid].nextAttemptAt <= now {
          outbox := outbox[oid := ClaimedRow(outbox[oid], now)];
          claimed := claimed + [ClaimedOutboxRow(oid, outbox[oid])];
        }
      }
      assert candidateIds[..|candidateIds|] == candidateIds;
    }

    method MarkOutboxSent(outboxId: nat, now: Time)
      modifies this`outbox
      ensures Table() == MarkSent(old(Table()), outboxId, now)
    {
      if outboxId !in outbox {
        return;
      }
      outbox := outbox[outboxId := outbox[outboxId].(status := Sent, lastError := None, updatedAt := now)];
    }

    /** `Overflowed` stands for the OverflowError of the delay computation; nothing is committed then. */
    method MarkOutboxFailed(outboxId: nat, error: string, maxAttempts: nat, now: Time) returns (outcome: MarkOutcome)
      modifies this`outbox
      ensures (Table(), outcome) == MarkFailed(old(Table()), outboxId, now, error, maxAttempts)
    {
      if outboxId !in outbox {
        return Missing;
      }
      var row := outbox[outboxId];
      row := row.(lastError := StoredError(error));
      if row.attempts >= maxAttempts {
        outbox := outbox[outboxId := row.(status := Dead, updatedAt := now)];
        return MarkedDead;
      }
      var delay := Backoff(row.attempts);
      if delay.None? {
        return Overflowed;
      }
      outbox := outbox[outboxId := row.(status := Failed, nextAttemptAt := now + delay.value as real, updatedAt := now)];
      return MarkedFailed;
    }

    method RedriveOutbox(selection: Selection, now: Time) returns (count: nat)
      modifies this`outbox
      ensures Table() == Redrive(old(Table()), selection, now)
      ensures LeavesRedriven(old(Table()), Table(), selection, now)
      ensures count == |set id | id in old(outbox) && IsRedriven(old(outbox)[id], id, selection)|
    {
      RedriveRowByRow(Table(), selection, now);
      var rows := RedriveIds(Table(), selection);
      count := |rows|;
      var todo := rows;
      while todo != {}
        invariant todo <= rows && outbox.Keys == old(outbox).Keys
        invariant forall id :: id in outbox ==>
                    outbox[id] == if id in rows && id !in todo then RedrivenRow(old(outbox)[id], now) else old(outbox)[id]
        decreases |todo|
      {
        var id :| id in todo;
        outbox := outbox[id := RedrivenRow(outbox[id], now)];
        todo := todo - {id};
      }
      assert Table() == Redrive(old(Table()), selection, now);
    }

    method DeleteOutbox(selection: Selection) returns (count: nat)
      modifies this`outbox
      ensures Table() == Delete(old(Table()), selection)
      ensures forall id :: id in outbox <==> id in old(outbox) && !IsDeleted(old(outbox)[id], id, selection)
      ensures forall id :: id in outbox ==> outbox[id] == old(outbox)[id]
      ensures count == |set id | id in old(outbox) && IsDeleted(old(outbox)[id], id, selection)|
    {
      DeleteRowByRow(Table(), selection);
      var doomed := DeleteIds(Table(), selection);
      count := |doomed|;
      outbox := outbox - doomed;
    }
  }

  lemma CandidatesAreDue(ob: Outbox, now: Time, limit: nat)
    ensures Distinct(Candidates(ob, now, limit))
    ensures forall a :: 0 <= a < |Candidates(ob, now, limit)| ==> IsDue(ob, Candidates(ob, now, limit)[a], now)
  {
    forall a | 0 <= a < |Candidates(ob, now, limit)| ensures IsDue(ob, Candidates(ob, now, limit)[a], now) {
      assert Candidates(ob, now, limit)[a] in Due(ob, now);
    }
  }

  /** The next candidate is still due and untouched, and claiming it is the next step of the fold. */
  lemma ClaimEachStep(recovered: Outbox, ids: seq<nat>, i: nat, now: Time)
    requires i < |ids| && Distinct(ids)
    requires forall a :: 0 <= a < |ids| ==> IsDue(recovered, ids[a], now)
    ensures var before := ClaimEach(recovered, ids[..i], now).0;
            && IsDue(before, ids[i], now)
            && IsDue(recovered, ids[i], now)
            && before.rows[ids[i]] == recovered.rows[ids[i]]
            && ClaimEach(recovered, ids[..i + 1], now) == (TryClaim(before, ids[i], now).0, ids[..i + 1])
  {
    ClaimEachWinsDueRows(recovered, ids[..i], now);
    assert ids[i] !in ids[..i];
    assert ids[..i + 1][..i] == ids[..i];
    assert ids[..i + 1] == ids[..i] + [ids[i]];
  }
}
