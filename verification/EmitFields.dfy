/** What one uninterrupted emit leaves behind, with statuses and fields written out: it counts on the
    open row of its fingerprint if there is one, and else inserts a row of its own. */
module EmitFields {
  import opened Prelude
  import opened Schemas
  import opened Incidents
  import opened EmitProtocol
  import opened Repository

  /** Some row of the fingerprint is open, updated or acknowledged. */
  predicate HasOpenRow(alerts: map<string, AlertRecord>, fingerprint: string) {
    exists id :: id in alerts && IsOpenFor(alerts[id], fingerprint)
  }

  predicate HasResolvedRow(alerts: map<string, AlertRecord>, fingerprint: string) {
    exists id :: id in alerts && alerts[id].fingerprint == fingerprint && alerts[id].status == Resolved
  }

  /** Reopening is disallowed, no row of the fingerprint is open, and some row of it is resolved. */
  predicate MustStayClosed(alerts: map<string, AlertRecord>, fingerprint: string, policy: EmitPolicy) {
    !policy.allowReopen && !HasOpenRow(alerts, fingerprint) && HasResolvedRow(alerts, fingerprint)
  }

  lemma OpenMeansActive(alerts: map<string, AlertRecord>, fingerprint: string)
    ensures forall id :: id in alerts ==> (IsActive(alerts, id, fingerprint) <==> IsOpenFor(alerts[id], fingerprint))
    ensures HasActive(alerts, fingerprint) <==> HasOpenRow(alerts, fingerprint)
  {
    if HasOpenRow(alerts, fingerprint) {
      var id :| id in alerts && IsOpenFor(alerts[id], fingerprint);
      assert IsActive(alerts, id, fingerprint);
    }
  }

  /** Emits are skipped by policy exactly then. */
  lemma ReopenPolicyByStatus(alerts: map<string, AlertRecord>, fingerprint: string, policy: EmitPolicy)
    ensures ReopenDisallowed(alerts, fingerprint, policy) <==> MustStayClosed(alerts, fingerprint, policy)
  {
    OpenMeansActive(alerts, fingerprint);
    if HasResolvedRow(alerts, fingerprint) {
      var id :| id in alerts && alerts[id].fingerprint == fingerprint && alerts[id].status == Resolved;
      assert HasResolved(alerts, fingerprint);
    }
  }

  /** Of several rows of a fingerprint at most one is open, updated or acknowledged, in every run. */
  lemma AtMostOneOpenRow(steps: seq<Step>, i: string, j: string, fingerprint: string)
    requires i in Run(INITIAL, steps).db.alerts && IsOpenFor(Run(INITIAL, steps).db.alerts[i], fingerprint)
    requires j in Run(INITIAL, steps).db.alerts && IsOpenFor(Run(INITIAL, steps).db.alerts[j], fingerprint)
    ensures i == j
  {
    RunKeepsWorld(steps);
    OpenMeansActive(Run(INITIAL, steps).db.alerts, fingerprint);
  }

  /** Every duration of every row of every run is the whole seconds from first_seen to its stamp. */
  lemma DurationsAreWholeSeconds(steps: seq<Step>, id: string)
    requires id in Run(INITIAL, steps).db.alerts
    ensures var row := Run(INITIAL, steps).db.alerts[id];
            && (row.ttaSeconds.Some? <==> row.acknowledgedAt.Some?) && (row.ttrSeconds.Some? <==> row.resolvedAt.Some?)
            && (row.ttaSeconds.Some? ==>
                  var n, at := row.ttaSeconds.value, row.acknowledgedAt.value;
                  if at < row.firstSeen then n == 0 else n as real <= at - row.firstSeen < n as real + 1.0)
            && (row.ttrSeconds.Some? ==>
                  var n, at := row.ttrSeconds.value, row.resolvedAt.value;
                  if at < row.firstSeen then n == 0 else n as real <= at - row.firstSeen < n as real + 1.0)
  {
    RunKeepsWorld(steps);
    assert TimelineOk(Run(INITIAL, steps).db.alerts[id], Run(INITIAL, steps).clock);
  }

  // --- one attempt ------------------------------------------------------------------------------

  /** With an open row, the emit changes that row and no other, and reports it. */
  lemma EmitCountsOnTheOpenRow(db: Database, id: string, alert: AlertEvent, policy: EmitPolicy, freshId: string, now: Time)
    requires AlertsOk(db.alerts) && id in db.alerts && IsOpenFor(db.alerts[id], alert.fingerprint)
    ensures var attempt := EmitOnce(db, alert, policy, freshId, now);
            && attempt.Some?
            && attempt.value.db.alerts == db.alerts[id := attempt.value.record]
            && attempt.value.record.id == id && attempt.value.record.fingerprint == alert.fingerprint
            && attempt.value.record.severity == alert.severity && attempt.value.record.lastSeen == alert.lastSeen
            && attempt.value.record.firstSeen == db.alerts[id].firstSeen
            && attempt.value.record.status == (if db.alerts[id].status == Acknowledged then Acknowledged else Updated)
            && attempt.value.record.occurrenceCount ==
                 (if !alert.isNew && alert.occurrenceCount > db.alerts[id].occurrenceCount
                  then alert.occurrenceCount else db.alerts[id].occurrenceCount + 1)
            && attempt.value.alert == alert.(id := id, isNew := false,
                                             occurrenceCount := attempt.value.record.occurrenceCount)
  {
    OpenMeansActive(db.alerts, alert.fingerprint);
    assert IsActive(db.alerts, id, alert.fingerprint);
    assert HasActive(db.alerts, alert.fingerprint);
    assert FindActive(db.alerts, alert.fingerprint) == Some(id);
    RefreshShowsTheAlert(db.alerts[id], alert, now);
  }

  /** Without an open row, the emit inserts one that shows the alert, under the alert's id or, if a row
      already has it, under the fresh one, and leaves every other row alone. */
  lemma EmitInsertsItsRow(db: Database, alert: AlertEvent, policy: EmitPolicy, freshId: string, now: Time)
    requires !HasOpenRow(db.alerts, alert.fingerprint) && freshId !in db.alerts
    ensures var attempt := EmitOnce(db, alert, policy, freshId, now);
            var id := if alert.id in db.alerts then freshId else alert.id;
            && attempt.Some?
            && attempt.value.db.alerts == db.alerts[id := attempt.value.record]
            && attempt.value.record.id == id && attempt.value.record.fingerprint == alert.fingerprint
            && attempt.value.record.severity == alert.severity && attempt.value.record.status == alert.status
            && attempt.value.record.firstSeen == alert.firstSeen && attempt.value.record.lastSeen == alert.lastSeen
            && attempt.value.record.occurrenceCount == alert.occurrenceCount
            && attempt.value.alert == alert.(id := id, isNew := alert.isNew || alert.id in db.alerts)
  {
    OpenMeansActive(db.alerts, alert.fingerprint);
    NewRowShowsTheAlert(WithFreeId(db.alerts, alert, freshId), now);
  }

  /** The emit reported under `id` counted on an open row that was there, or is a new open row. */
  ghost predicate LandsOn(before: map<string, AlertRecord>, after: map<string, AlertRecord>, fingerprint: string, id: string) {
    && after.Keys == before.Keys + {id} && IsOpenFor(after[id], fingerprint)
    && (HasOpenRow(before, fingerprint) <==> id in before)
    && (id in before ==> IsOpenFor(before[id], fingerprint))
  }

  /** An emit with an unused fresh id always lands. */
  lemma EmitLands(db: Database, alert: PipelineAlert, policy: EmitPolicy, freshId: string, retryId: string, now: Time)
    requires AlertsOk(db.alerts) && (HasOpenRow(db.alerts, alert.fingerprint) || freshId !in db.alerts)
    ensures var attempt := EmitWithRetry(db, alert, policy, freshId, retryId, now);
            attempt.Some? && LandsOn(db.alerts, attempt.value.db.alerts, alert.fingerprint, attempt.value.alert.id)
  {
    if HasOpenRow(db.alerts, alert.fingerprint) {
      var id :| id in db.alerts && IsOpenFor(db.alerts[id], alert.fingerprint);
      EmitCountsOnTheOpenRow(db, id, alert, policy, freshId, now);
    } else {
      EmitInsertsItsRow(db, alert, policy, freshId, now);
    }
  }

  /** With reopening allowed, an emit after a resolve leaves a second row, which is active, beside the
      resolved one. */
  lemma ReopenAddsARow(db: Database, resolved: string, alert: PipelineAlert, policy: EmitPolicy, freshId: string,
                       retryId: string, now: Time)
    requires policy.allowReopen && !HasOpenRow(db.alerts, alert.fingerprint) && freshId !in db.alerts
    requires resolved in db.alerts && db.alerts[resolved].fingerprint == alert.fingerprint
    requires db.alerts[resolved].status == Resolved
    ensures !ReopenDisallowed(db.alerts, alert.fingerprint, policy)
    ensures var attempt := EmitWithRetry(db, alert, policy, freshId, retryId, now);
            && attempt.Some?
            && var id := attempt.value.record.id;
            && id !in db.alerts && id != resolved
            && attempt.value.db.alerts.Keys == db.alerts.Keys + {id}
            && IsOpenFor(attempt.value.db.alerts[id], alert.fingerprint)
            && attempt.value.db.alerts[resolved] == db.alerts[resolved]
  {
    ReopenPolicyByStatus(db.alerts, alert.fingerprint, policy);
    EmitInsertsItsRow(db, alert, policy, freshId, now);
  }
}
