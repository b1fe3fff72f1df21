/** What emits achieve: fresh notifications, all-or-nothing commits, one row out of a race,
    and one row ever when reopening is disallowed. */
module EmitOutcomes {
  import opened Prelude
  import opened Incidents
  import opened EmitProtocol

  // --- commits ------------------------------------------------------------------------

  datatype Landing = Landing(committed: Committed, policy: EmitPolicy)

  /** The emit transaction this step commits, if it commits one. */
  ghost function CommitOf(w: World, step: Step): Option<Landing> {
    match step
    case Begin(process, alert, policy, _) =>
      if process in w.inFlight || ReopenDisallowed(w.db.alerts, alert.fingerprint, policy) then None
      else RefreshOf(w, alert, policy)
    case Flush(process) =>
      if process in w.inFlight && w.inFlight[process].Inserting? then
        var policy := w.inFlight[process].policy;
        match InsertTxn(w.db, w.inFlight[process].alert, policy, w.clock)
        case Some(c) => Some(Landing(c, policy))
        case None => None
      else None
    case Retry(process, _) =>
      if process in w.inFlight && w.inFlight[process].Retrying?
      then RefreshOf(w, w.inFlight[process].alert, w.inFlight[process].policy)
      else None
    case _ => None
  }

  ghost function RefreshOf(w: World, alert: PipelineAlert, policy: EmitPolicy): Option<Landing> {
    match FindActive(w.db.alerts, alert.fingerprint)
    case Some(id) => Some(Landing(RefreshTxn(w.db, id, alert, policy, w.clock), policy))
    case None => None
  }

  predicate IsEmitStep(step: Step) {
    step.Begin? || step.Flush? || step.Retry?
  }

  /** An emit step either commits incident and outbox rows together or changes neither table. */
  lemma EmitIsAllOrNothing(w: World, step: Step)
    requires IsEmitStep(step)
    ensures match CommitOf(w, step)
            case Some(landing) => Apply(w, step).db == landing.committed.db
            case None => Apply(w, step).db == w.db
  {
  }

  /** In every run, an emit that should notify adds exactly one row per enabled channel, under keys
      disjoint from every key issued before, even if their rows were deleted since. */
  lemma EveryCommitEnqueuesFreshly(steps: seq<Step>, step: Step)
    ensures var w := Run(INITIAL, steps);
            match CommitOf(w, step)
            case Some(landing) =>
              && EnqueuesFreshly(w.db, w.issued, landing.committed, landing.policy, w.clock)
              && Apply(w, step).issued == w.issued + KeysOf(landing.committed, landing.policy)
            case None => Apply(w, step).issued == w.issued
  {
    RunKeepsWorld(steps);
    CommitEnqueuesFreshly(Run(INITIAL, steps), step);
  }

  lemma CommitEnqueuesFreshly(w: World, step: Step)
    requires WorldOk(w)
    ensures match CommitOf(w, step)
            case Some(landing) =>
              && EnqueuesFreshly(w.db, w.issued, landing.committed, landing.policy, w.clock)
              && Apply(w, step).issued == w.issued + KeysOf(landing.committed, landing.policy)
            case None => Apply(w, step).issued == w.issued
  {
    match step
    case Begin(process, alert, policy, _) => RefreshCommitIsFresh(w, process, alert, policy);
    case Flush(process) =>
      if CommitOf(w, step).Some? {
        InsertKeepsWorld(w, process, w.inFlight[process].alert, w.inFlight[process].policy);
      }
    case Retry(process, _) =>
      if process in w.inFlight {
        RefreshCommitIsFresh(w, process, w.inFlight[process].alert, w.inFlight[process].policy);
      }
    case _ =>
  }

  lemma RefreshCommitIsFresh(w: World, process: nat, alert: PipelineAlert, policy: EmitPolicy)
    requires WorldOk(w)
    ensures match RefreshOf(w, alert, policy)
            case Some(landing) => EnqueuesFreshly(w.db, w.issued, landing.committed, landing.policy, w.clock)
            case None => true
  {
    match FindActive(w.db.alerts, alert.fingerprint)
    case Some(id) => RefreshKeepsWorld(w, process, id, alert, policy);
    case None =>
  }

  /** A commit that inserts writes a row that is not acknowledged; one that refreshes is not new. */
  lemma AcknowledgedMeansRefreshed(w: World, step: Step)
    requires CommitOf(w, step).Some?
    ensures var c := CommitOf(w, step).value.committed;
            c.record.status.Acknowledged? ==> !c.alert.isNew
  {
  }

  lemma KeysMeanEnqueued(db: Database, issued: set<Key>, c: Committed, policy: EmitPolicy, now: Time)
    requires EnqueuesFreshly(db, issued, c, policy, now)
    ensures c.keys != [] <==> ShouldEnqueue(c.record, c.alert, policy)
  {
  }

  /** With ack suppression on, a commit enqueues nothing and reports the suppression exactly when
      the row it wrote is acknowledged; otherwise every enabled channel is notified. */
  lemma AckSuppressionIsExact(w: World, step: Step)
    requires WorldOk(w) && CommitOf(w, step).Some?
    ensures var Landing(c, policy) := CommitOf(w, step).value;
            && (AckSuppressed(c.record, c.alert, policy) <==> policy.suppressWhileAcked && c.record.status.Acknowledged?)
            && (c.keys == [] <==>
                 || EnabledChannels(policy.dispatch) == []
                 || (policy.suppressWhileAcked && c.record.status.Acknowledged?))
  {
    var Landing(c, policy) := CommitOf(w, step).value;
    CommitEnqueuesFreshly(w, step);
    AcknowledgedMeansRefreshed(w, step);
    KeysMeanEnqueued(w.db, w.issued, c, policy, w.clock);
  }

  /** Only operators take a row out of acknowledged or resolved. */
  lemma OnlyOperatorsReopen(w: World, step: Step, id: string)
    requires WorldOk(w) && id in w.db.alerts
    requires w.db.alerts[id].status.Acknowledged? || w.db.alerts[id].status.Resolved?
    requires id in Apply(w, step).db.alerts && Apply(w, step).db.alerts[id].status != w.db.alerts[id].status
    ensures step.SetStatus? || step.ResolveFingerprint?
  {
    if IsEmitStep(step) {
      EmitIsAllOrNothing(w, step);
    }
  }

  // --- the insert race -------------------------------------------------------------------

  /** An emit that sees no active row commits nothing yet and holds its insert. */
  lemma BeginParksAnInsert(w: World, p: nat, alert: PipelineAlert, policy: EmitPolicy, freshId: string)
    requires p !in w.inFlight && !HasActive(w.db.alerts, alert.fingerprint)
    requires !ReopenDisallowed(w.db.alerts, alert.fingerprint, policy)
    ensures Apply(w, Begin(p, alert, policy, freshId))
            == w.(inFlight := w.inFlight[p := Inserting(WithFreeId(w.db.alerts, alert, freshId), policy, false)])
  {
  }

  lemma FlushInserts(w: World, p: nat)
    requires p in w.inFlight && w.inFlight[p].Inserting?
    requires w.inFlight[p].alert.id !in w.db.alerts && !HasActive(w.db.alerts, w.inFlight[p].alert.fingerprint)
    ensures var alert := w.inFlight[p].alert;
            && Apply(w, Flush(p)).db.alerts == w.db.alerts[alert.id := RecordFromEvent(alert, w.clock)]
            && Apply(w, Flush(p)).inFlight == w.inFlight - {p}
  {
  }

  /** The unique index refuses the second insert; nothing is written and the emit is kept for one retry. */
  lemma FlushIsRefused(w: World, p: nat)
    requires p in w.inFlight && w.inFlight[p].Inserting? && !w.inFlight[p].lastTry
    requires HasActive(w.db.alerts, w.inFlight[p].alert.fingerprint)
    ensures Apply(w, Flush(p))
            == w.(inFlight := w.inFlight[p := Retrying(w.inFlight[p].alert.(isNew := false), w.inFlight[p].policy)])
  {
  }

  lemma RetryRefreshes(w: World, p: nat, id: string, freshId: string)
    requires WorldOk(w) && p in w.inFlight && w.inFlight[p].Retrying?
    requires IsActive(w.db.alerts, id, w.inFlight[p].alert.fingerprint)
    ensures Apply(w, Retry(p, freshId)).db.alerts
            == w.db.alerts[id := Refreshed(w.db.alerts[id], w.inFlight[p].alert, w.clock)]
    ensures Apply(w, Retry(p, freshId)).inFlight == w.inFlight - {p}
  {
    assert HasActive(w.db.alerts, w.inFlight[p].alert.fingerprint);
    var found := FindActive(w.db.alerts, w.inFlight[p].alert.fingerprint);
    assert found == Some(id);
  }

  /** The first half of the race: both select, the first inserts, the second is refused. */
  lemma RaceUntilRefusal(w: World, p: nat, q: nat, first: PipelineAlert, second: PipelineAlert,
                         policy1: EmitPolicy, policy2: EmitPolicy, fresh1: string, fresh2: string)
    returns (selected: World, inserted: World, refused: World)
    requires WorldOk(w) && p != q && p !in w.inFlight && q !in w.inFlight
    requires first.fingerprint == second.fingerprint && !HasActive(w.db.alerts, first.fingerprint)
    requires !ReopenDisallowed(w.db.alerts, first.fingerprint, policy1)
    requires !ReopenDisallowed(w.db.alerts, first.fingerprint, policy2)
    requires fresh1 !in w.db.alerts
    ensures selected == Apply(Apply(w, Begin(p, first, policy1, fresh1)), Begin(q, second, policy2, fresh2))
    ensures inserted == Apply(selected, Flush(p)) && refused == Apply(inserted, Flush(q))
    ensures selected.db == w.db && refused.db == inserted.db && refused.clock == w.clock
    ensures var row := WithFreeId(w.db.alerts, first, fresh1);
            && row.id !in w.db.alerts
            && inserted.db.alerts == w.db.alerts[row.id := RecordFromEvent(row, w.clock)]
            && IsActive(inserted.db.alerts, row.id, first.fingerprint)
    ensures refused.inFlight
            == w.inFlight[q := Retrying(WithFreeId(w.db.alerts, second, fresh2).(isNew := false), policy2)]
  {
    var a := WithFreeId(w.db.alerts, first, fresh1);
    var b := WithFreeId(w.db.alerts, second, fresh2);
    BeginParksAnInsert(w, p, first, policy1, fresh1);
    var selected1 := Apply(w, Begin(p, first, policy1, fresh1));
    BeginParksAnInsert(selected1, q, second, policy2, fresh2);
    selected := Apply(selected1, Begin(q, second, policy2, fresh2));
    assert selected.inFlight == w.inFlight[p := Inserting(a, policy1, false)][q := Inserting(b, policy2, false)];
    FlushInserts(selected, p);
    inserted := Apply(selected, Flush(p));
    assert IsActive(inserted.db.alerts, a.id, first.fingerprint);
    FlushIsRefused(inserted, q);
    refused := Apply(inserted, Flush(q));
  }

  lemma StepsKeepWorld(w: World, p: nat, q: nat, begin1: Step, begin2: Step,
                       selected: World, inserted: World, refused: World)
    requires WorldOk(w) && selected == Apply(Apply(w, begin1), begin2)
    requires inserted == Apply(selected, Flush(p)) && refused == Apply(inserted, Flush(q))
    ensures WorldOk(refused)
  {
    StepKeepsWorld(w, begin1);
    StepKeepsWorld(Apply(w, begin1), begin2);
    StepKeepsWorld(selected, Flush(p));
    StepKeepsWorld(inserted, Flush(q));
  }

  /** The retry counts on the row that the other emit inserted. */
  lemma RetryCountsOnTheWinner(w: World, q: nat, row: PipelineAlert, second: PipelineAlert, policy: EmitPolicy,
                               freshId: string)
    requires WorldOk(w) && q in w.inFlight && w.inFlight[q] == Retrying(second, policy)
    requires row.fingerprint == second.fingerprint && !second.isNew
    requires row.id in w.db.alerts && w.db.alerts[row.id] == RecordFromEvent(row, w.clock)
    requires IsActive(w.db.alerts, row.id, second.fingerprint)
    ensures var final := Apply(w, Retry(q, freshId));
            && final.db.alerts.Keys == w.db.alerts.Keys
            && final.inFlight == w.inFlight - {q}
            && IsActive(final.db.alerts, row.id, second.fingerprint)
            && final.db.alerts[row.id].occurrenceCount ==
                 if second.occurrenceCount <= row.occurrenceCount then row.occurrenceCount + 1 else second.occurrenceCount
  {
    RetryRefreshes(w, q, row.id, freshId);
  }

  /** The first insert has been written and the second one refused. */
  ghost predicate RaceRefused(w: World, refused: World, q: nat, row: PipelineAlert, second: PipelineAlert, policy: EmitPolicy) {
    && WorldOk(refused) && refused.clock == w.clock
    && row.id !in w.db.alerts
    && refused.db.alerts == w.db.alerts[row.id := RecordFromEvent(row, w.clock)]
    && IsActive(refused.db.alerts, row.id, second.fingerprint)
    && refused.inFlight == w.inFlight[q := Retrying(second, policy)]
  }

  /** One row was added, and it counts both emits. */
  ghost predicate CountsBoth(w: World, inserted: World, final: World, winner: string, first: nat, second: nat) {
    && winner !in w.db.alerts
    && inserted.db.alerts.Keys == final.db.alerts.Keys == w.db.alerts.Keys + {winner}
    && inserted.db.alerts[winner].occurrenceCount == first
    && final.db.alerts[winner].occurrenceCount == (if second <= first then first + 1 else second)
    && final.db.alerts[winner].status.Active()
  }

  lemma RetryEndsTheRace(w: World, inserted: World, refused: World, q: nat, row: PipelineAlert, second: PipelineAlert,
                         policy: EmitPolicy, freshId: string)
    requires q !in w.inFlight && row.fingerprint == second.fingerprint && !second.isNew
    requires RaceRefused(w, refused, q, row, second, policy) && refused.db == inserted.db
    ensures var final := Apply(refused, Retry(q, freshId));
            && CountsBoth(w, inserted, final, row.id, row.occurrenceCount, second.occurrenceCount)
            && final.db.alerts[row.id].fingerprint == row.fingerprint
            && final.inFlight == w.inFlight
  {
    RetryCountsOnTheWinner(refused, q, row, second, policy, freshId);
  }

  /** Two emits of one new fingerprint both see no active row. The second insert is refused without
      a trace, and its retry counts on the winner's row: one row, a strictly larger count. */
  lemma InsertRaceEndsWithOneRow(w: World, p: nat, q: nat, first: PipelineAlert, second: PipelineAlert,
                                 policy1: EmitPolicy, policy2: EmitPolicy,
                                 fresh1: string, fresh2: string, fresh3: string)
    returns (winner: string, selected: World, inserted: World, refused: World, final: World)
    requires WorldOk(w) && p != q && p !in w.inFlight && q !in w.inFlight
    requires first.fingerprint == second.fingerprint && !HasActive(w.db.alerts, first.fingerprint)
    requires !ReopenDisallowed(w.db.alerts, first.fingerprint, policy1)
    requires !ReopenDisallowed(w.db.alerts, first.fingerprint, policy2)
    requires fresh1 !in w.db.alerts
    ensures selected == Apply(Apply(w, Begin(p, first, policy1, fresh1)), Begin(q, second, policy2, fresh2))
    ensures inserted == Apply(selected, Flush(p)) && refused == Apply(inserted, Flush(q))
    ensures final == Apply(refused, Retry(q, fresh3))
    ensures selected.db == w.db && refused.db == inserted.db && final.inFlight == w.inFlight
    ensures CountsBoth(w, inserted, final, winner, first.occurrenceCount, second.occurrenceCount)
    ensures final.db.alerts[winner].fingerprint == first.fingerprint
  {
    selected, inserted, refused := RaceUntilRefusal(w, p, q, first, second, policy1, policy2, fresh1, fresh2);
    StepsKeepWorld(w, p, q, Begin(p, first, policy1, fresh1), Begin(q, second, policy2, fresh2),
                   selected, inserted, refused);
    var row := WithFreeId(w.db.alerts, first, fresh1);
    var again := WithFreeId(w.db.alerts, second, fresh2).(isNew := false);
    winner := row.id;
    RetryEndsTheRace(w, inserted, refused, q, row, again, policy2, fresh3);
    final := Apply(refused, Retry(q, fresh3));
  }

  // --- emits serialized with operator actions -----------------------------------------------

  datatype SerialStep =
    | Emit(alert: PipelineAlert, policy: EmitPolicy, freshId: string, retryId: string)
    | Other(step: Step)

  /** One emit from SELECT to commit with nobody in between, its retry included. */
  ghost function SerialEmit(w: World, alert: PipelineAlert, policy: EmitPolicy, freshId: string, retryId: string): World {
    var flushed := Apply(Apply(w, Begin(0, alert, policy, freshId)), Flush(0));
    Apply(Apply(flushed, Retry(0, retryId)), Flush(0))
  }

  ghost function ApplySerial(w: World, s: SerialStep): World {
    match s
    case Emit(alert, policy, freshId, retryId) => SerialEmit(w, alert, policy, freshId, retryId)
    case Other(step) => if IsEmitStep(step) then w else Apply(w, step)
  }

  ghost function RunSerial(w: World, steps: seq<SerialStep>): World {
    if steps == [] then w else ApplySerial(RunSerial(w, steps[..|steps| - 1]), steps[|steps| - 1])
  }

  ghost predicate OneRowPerFingerprint(alerts: map<string, AlertRecord>) {
    forall i, j | i in alerts && j in alerts :: alerts[i].fingerprint == alerts[j].fingerprint ==> i == j
  }

  lemma FlushEmptiesOrParksARetry(w: World, alert: PipelineAlert, policy: EmitPolicy, lastTry: bool)
    requires w.inFlight == map[0 := Inserting(alert, policy, lastTry)]
    ensures var after := Apply(w, Flush(0));
            || (after.inFlight == map[]
                && (after.db == w.db || after.db.alerts == w.db.alerts[alert.id := RecordFromEvent(alert, w.clock)]))
            || (!lastTry && after.db == w.db && after.inFlight == map[0 := Retrying(alert.(isNew := false), policy)])
  {
  }

  lemma RefreshKeepsRows(w: World, process: nat, id: string, alert: PipelineAlert, policy: EmitPolicy)
    requires WorldOk(w) && IsActive(w.db.alerts, id, alert.fingerprint) && OneRowPerFingerprint(w.db.alerts)
    ensures OneRowPerFingerprint(RefreshTxn(w.db, id, alert, policy, w.clock).db.alerts)
  {
  }

  lemma SelectFindsRow(w: World, alert: PipelineAlert, policy: EmitPolicy, freshId: string, lastTry: bool)
    requires WorldOk(w) && OneRowPerFingerprint(w.db.alerts) && w.inFlight.Keys <= {0}
    requires HasActive(w.db.alerts, alert.fingerprint)
    ensures var after := SelectAndWrite(w, 0, alert, policy, freshId, lastTry);
            OneRowPerFingerprint(after.db.alerts) && after.inFlight == map[]
  {
    match FindActive(w.db.alerts, alert.fingerprint)
    case Some(id) => RefreshKeepsRows(w, 0, id, alert, policy);
  }

  lemma SelectParksInsert(w: World, alert: PipelineAlert, policy: EmitPolicy, freshId: string, lastTry: bool)
    requires w.inFlight.Keys <= {0}
    requires !HasActive(w.db.alerts, alert.fingerprint)
    ensures SelectAndWrite(w, 0, alert, policy, freshId, lastTry)
            == w.(inFlight := map[0 := Inserting(WithFreeId(w.db.alerts, alert, freshId), policy, lastTry)])
  {
    assert w.inFlight[0 := Inserting(WithFreeId(w.db.alerts, alert, freshId), policy, lastTry)]
        == map[0 := Inserting(WithFreeId(w.db.alerts, alert, freshId), policy, lastTry)];
  }

  /** After SELECT and INSERT with nobody in between, a fingerprint without any row gets at most one. */
  lemma SelectFlushKeepsOneRow(w: World, alert: PipelineAlert, policy: EmitPolicy, freshId: string, lastTry: bool)
    requires WorldOk(w) && OneRowPerFingerprint(w.db.alerts)
    requires w.inFlight.Keys <= {0}
    requires !HasActive(w.db.alerts, alert.fingerprint) ==>
               forall id :: id in w.db.alerts ==> w.db.alerts[id].fingerprint != alert.fingerprint
    ensures var after := Apply(SelectAndWrite(w, 0, alert, policy, freshId, lastTry), Flush(0));
            && OneRowPerFingerprint(after.db.alerts)
            && WorldOk(after)
            && (|| after.inFlight == map[]
                || (!lastTry && after.db == w.db && after.inFlight.Keys == {0} && after.inFlight[0].Retrying?
                    && after.inFlight[0].alert.fingerprint == alert.fingerprint))
  {
    var selected := SelectAndWrite(w, 0, alert, policy, freshId, lastTry);
    SelectAndWriteKeepsWorld(w, 0, alert, policy, freshId, lastTry);
    StepKeepsWorld(selected, Flush(0));
    if HasActive(w.db.alerts, alert.fingerprint) {
      SelectFindsRow(w, alert, policy, freshId, lastTry);
    } else {
      SelectParksInsert(w, alert, policy, freshId, lastTry);
      FlushEmptiesOrParksARetry(selected, WithFreeId(w.db.alerts, alert, freshId), policy, lastTry);
    }
  }

  lemma SerialEmitKeepsOneRow(w: World, alert: PipelineAlert, policy: EmitPolicy, freshId: string, retryId: string)
    requires WorldOk(w) && w.inFlight == map[] && !policy.allowReopen
    requires OneRowPerFingerprint(w.db.alerts)
    ensures OneRowPerFingerprint(SerialEmit(w, alert, policy, freshId, retryId).db.alerts)
    ensures SerialEmit(w, alert, policy, freshId, retryId).inFlight == map[]
    ensures WorldOk(SerialEmit(w, alert, policy, freshId, retryId))
  {
    var begun := Apply(w, Begin(0, alert, policy, freshId));
    var flushed := Apply(begun, Flush(0));
    if !ReopenDisallowed(w.db.alerts, alert.fingerprint, policy) {
      if !HasActive(w.db.alerts, alert.fingerprint) {
        NoRowAtAll(w, alert.fingerprint, policy);
      }
      SelectFlushKeepsOneRow(w, alert, policy, freshId, false);
      if flushed.inFlight != map[] {
        SelectFlushKeepsOneRow(flushed, flushed.inFlight[0].alert, flushed.inFlight[0].policy, retryId, true);
      }
    }
  }

  /** Where no row is active and reopening is disallowed, passing the policy means there is no row. */
  lemma NoRowAtAll(w: World, fingerprint: string, policy: EmitPolicy)
    requires WorldOk(w) && !policy.allowReopen
    requires !ReopenDisallowed(w.db.alerts, fingerprint, policy) && !HasActive(w.db.alerts, fingerprint)
    ensures forall id :: id in w.db.alerts ==> w.db.alerts[id].fingerprint != fingerprint
  {
    forall id | id in w.db.alerts ensures w.db.alerts[id].fingerprint != fingerprint {
      assert TimelineOk(w.db.alerts[id], w.clock);
      assert w.db.alerts[id].status.Active() || w.db.alerts[id].status.Resolved?;
      assert !IsActive(w.db.alerts, id, fingerprint);
    }
  }

  /** If every emit disallows reopening, a fingerprint never gets a second row. */
  lemma {:induction false} NoReopenMeansOneRowEver(steps: seq<SerialStep>)
    requires forall i :: 0 <= i < |steps| && steps[i].Emit? ==> !steps[i].policy.allowReopen
    ensures WorldOk(RunSerial(INITIAL, steps))
    ensures RunSerial(INITIAL, steps).inFlight == map[]
    ensures OneRowPerFingerprint(RunSerial(INITIAL, steps).db.alerts)
  {
    if steps == [] {
    } else {
      var front := steps[..|steps| - 1];
      var last := steps[|steps| - 1];
      NoReopenMeansOneRowEver(front);
      var w := RunSerial(INITIAL, front);
      match last
      case Emit(alert, policy, freshId, retryId) => SerialEmitKeepsOneRow(w, alert, policy, freshId, retryId);
      case Other(step) =>
        StepKeepsWorld(w, step);
        if !IsEmitStep(step) {
          OthersAddNoRow(w, step);
        }
    }
  }

  lemma OthersAddNoRow(w: World, step: Step)
    requires WorldOk(w) && !IsEmitStep(step)
    ensures Apply(w, step).db.alerts.Keys == w.db.alerts.Keys
    ensures Apply(w, step).inFlight == w.inFlight
    ensures forall id :: id in w.db.alerts ==>
              Apply(w, step).db.alerts[id].fingerprint == w.db.alerts[id].fingerprint
  {
  }
}
