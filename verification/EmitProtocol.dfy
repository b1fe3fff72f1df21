/** Emits, operator actions and outbox traffic over one database.

    An emit that finds an active incident refreshes it in one transaction. An emit that finds
    none inserts, and other processes may commit between its SELECT and its INSERT; the partial
    unique index and the primary key then make the insert fail and the emit is retried once.
 */
module EmitProtocol {
  import opened Prelude
  import opened Schemas
  import opened Incidents
  import opened OutboxTable
  import opened IdempotencyKey
  import ClaimOrder

  datatype Database = Database(alerts: map<string, AlertRecord>, outbox: Outbox)

  // --- channels ------------------------------------------------------------------

  datatype DispatchSettings = DispatchSettings(enabled: bool, zenduty: bool, teams: bool, webhook: bool)

  const ZENDUTY := "zenduty"
  const TEAMS := "microsoft_teams"
  const WEBHOOK := "webhook"

  function EnabledChannels(settings: DispatchSettings): seq<string> {
    if !settings.enabled then []
    else
      (if settings.zenduty then [ZENDUTY] else [])
      + (if settings.teams then [TEAMS] else [])
      + (if settings.webhook then [WEBHOOK] else [])
  }

  /** Each switch turns on its own channel, and channels keep their order. */
  lemma ChannelsBySwitch(settings: DispatchSettings)
    ensures var names := EnabledChannels(settings);
            && ("zenduty" in names <==> settings.enabled && settings.zenduty)
            && ("microsoft_teams" in names <==> settings.enabled && settings.teams)
            && ("webhook" in names <==> settings.enabled && settings.webhook)
            && (settings == DispatchSettings(true, true, true, true) ==> names == ["zenduty", "microsoft_teams", "webhook"])
            && forall name <- names :: name == "zenduty" || name == "microsoft_teams" || name == "webhook"
  {
    assert ZENDUTY[0] != TEAMS[0] && ZENDUTY[0] != WEBHOOK[0] && TEAMS[0] != WEBHOOK[0];
  }

  lemma ChannelNamesAreKeySafe(settings: DispatchSettings)
    ensures forall a, b :: 0 <= a < b < |EnabledChannels(settings)| ==>
              EnabledChannels(settings)[a] != EnabledChannels(settings)[b]
    ensures forall c :: c in EnabledChannels(settings) ==> ColonFree(c)
  {
    assert ZENDUTY[0] != TEAMS[0] && ZENDUTY[0] != WEBHOOK[0] && TEAMS[0] != WEBHOOK[0];
    assert ColonFree(ZENDUTY) && ColonFree(TEAMS) && ColonFree(WEBHOOK);
  }

  /** The channels an emit enqueues to, and the two YAML switches that steer it. */
  datatype EmitPolicy = EmitPolicy(dispatch: DispatchSettings, suppressWhileAcked: bool, allowReopen: bool)

  /** Alerts leave dedup open or updated. */
  type PipelineAlert = a: AlertEvent | a.status.Open? || a.status.Updated?
    witness AlertEvent("", "", "", "", ERROR, "", "", Open, 1, 0.0, 0.0, None, None, map[], "", true)

  // --- one transaction --------------------------------------------------------------

  predicate IsActive(alerts: map<string, AlertRecord>, id: string, fingerprint: string) {
    id in alerts && alerts[id].fingerprint == fingerprint && alerts[id].status.Active()
  }

  predicate HasActive(alerts: map<string, AlertRecord>, fingerprint: string) {
    exists id :: id in alerts && IsActive(alerts, id, fingerprint)
  }

  predicate HasResolved(alerts: map<string, AlertRecord>, fingerprint: string) {
    exists id :: id in alerts && alerts[id].fingerprint == fingerprint && alerts[id].status.Resolved?
  }

  ghost function FindActive(alerts: map<string, AlertRecord>, fingerprint: string): (found: Option<string>)
    ensures found.Some? ==> IsActive(alerts, found.value, fingerprint)
    ensures found.None? ==> !HasActive(alerts, fingerprint)
  {
    if HasActive(alerts, fingerprint) then
      var id :| IsActive(alerts, id, fingerprint);
      Some(id)
    else None
  }

  /** One outbox row per channel, existing keys skipped; returns the keys created. */
  function EnqueueEach(ob: Outbox, alert: AlertEvent, channels: seq<string>, now: Time): (Outbox, seq<string>) {
    if channels == [] then (ob, [])
    else
      var (before, keys) := EnqueueEach(ob, alert, channels[..|channels| - 1], now);
      var channel := channels[|channels| - 1];
      var key := Print(alert.id, channel, alert.occurrenceCount);
      if HasKey(before, key) then (before, keys)
      else (Insert(before, key, alert.id, channel, now), keys + [key])
  }

  predicate AckSuppressed(record: AlertRecord, alert: AlertEvent, policy: EmitPolicy) {
    !alert.isNew && policy.suppressWhileAcked && record.status.Acknowledged?
  }

  predicate ShouldEnqueue(record: AlertRecord, alert: AlertEvent, policy: EmitPolicy) {
    EnabledChannels(policy.dispatch) != [] && !AckSuppressed(record, alert, policy)
  }

  /** The committed database, the written row, the alert as the transaction left it, the new keys. */
  datatype Committed = Committed(db: Database, record: AlertRecord, alert: AlertEvent, keys: seq<string>)

  function WriteAndEnqueue(db: Database, record: AlertRecord, alert: AlertEvent, policy: EmitPolicy, now: Time): Committed {
    var alerts := db.alerts[record.id := record];
    if ShouldEnqueue(record, alert, policy) then
      var (ob, keys) := EnqueueEach(db.outbox, alert, EnabledChannels(policy.dispatch), now);
      Committed(Database(alerts, ob), record, alert, keys)
    else Committed(db.(alerts := alerts), record, alert, [])
  }

  function RefreshTxn(db: Database, id: string, alert: AlertEvent, policy: EmitPolicy, now: Time): Committed
    requires id in db.alerts
  {
    var record := Refreshed(db.alerts[id], alert, now);
    WriteAndEnqueue(db, record, alert.(id := record.id, isNew := false, occurrenceCount := record.occurrenceCount), policy, now)
  }

  /** Reuse of an id that already has a row gets a fresh one and counts as a new incident. */
  function WithFreeId(alerts: map<string, AlertRecord>, alert: AlertEvent, freshId: string): AlertEvent {
    if alert.id in alerts then alert.(id := freshId, isNew := true) else alert
  }

  /** None is the IntegrityError of the primary key or of the partial unique index: everything rolls back. */
  function InsertTxn(db: Database, alert: AlertEvent, policy: EmitPolicy, now: Time): Option<Committed> {
    if alert.id in db.alerts || HasActive(db.alerts, alert.fingerprint) then None
    else Some(WriteAndEnqueue(db, RecordFromEvent(alert, now), alert, policy, now))
  }

  predicate ReopenDisallowed(alerts: map<string, AlertRecord>, fingerprint: string, policy: EmitPolicy) {
    !policy.allowReopen && !HasActive(alerts, fingerprint) && HasResolved(alerts, fingerprint)
  }

  // --- the interleaving model ----------------------------------------------------------

  datatype Key = Key(alertId: string, channel: string, count: nat)

  /** An emit between its SELECT and its INSERT, or between its first failure and its retry. */
  datatype InFlight =
    | Inserting(alert: PipelineAlert, policy: EmitPolicy, lastTry: bool)
    | Retrying(alert: PipelineAlert, policy: EmitPolicy)

  /** `issued`: every idempotency key ever enqueued. */
  datatype World = World(db: Database, inFlight: map<nat, InFlight>, issued: set<Key>, clock: Time)

  datatype Step =
    | Begin(process: nat, alert: PipelineAlert, policy: EmitPolicy, freshId: string)
    | Flush(process: nat)
    | Retry(process: nat, freshId: string)
    | SetStatus(alertId: string, status: AlertStatus)
    | ResolveFingerprint(fingerprint: string)
    | Deliver(tx: ClaimOrder.Transaction)
    | Tick(now: Time)

  function KeysOf(c: Committed, policy: EmitPolicy): set<Key> {
    if c.keys == [] then {}
    else set channel | channel in EnabledChannels(policy.dispatch) :: Key(c.alert.id, channel, c.alert.occurrenceCount)
  }

  function Land(w: World, process: nat, c: Committed, policy: EmitPolicy): World {
    w.(db := c.db, inFlight := w.inFlight - {process}, issued := w.issued + KeysOf(c, policy))
  }

  ghost function SelectAndWrite(
    w: World, process: nat, alert: PipelineAlert, policy: EmitPolicy, freshId: string, lastTry: bool): World
  {
    match FindActive(w.db.alerts, alert.fingerprint)
    case Some(id) => Land(w, process, RefreshTxn(w.db, id, alert, policy, w.clock), policy)
    case None =>
      w.(inFlight := w.inFlight[process := Inserting(WithFreeId(w.db.alerts, alert, freshId), policy, lastTry)])
  }

  function ApplyFlush(w: World, process: nat): World {
    if process in w.inFlight && w.inFlight[process].Inserting? then
      var emit := w.inFlight[process];
      match InsertTxn(w.db, emit.alert, emit.policy, w.clock)
      case Some(c) => Land(w, process, c, emit.policy)
      case None =>
        w.(inFlight := if emit.lastTry then w.inFlight - {process}
                       else w.inFlight[process := Retrying(emit.alert.(isNew := false), emit.policy)])
    else w
  }

  /** An operator's status change; the unique index refuses a second active row. */
  function StatusTxn(db: Database, alertId: string, status: AlertStatus, now: Time): Database {
    if alertId !in db.alerts || !status.OperatorSettable() then db
    else
      var row := StatusChanged(db.alerts[alertId], status, now);
      if row.status.Active()
         && exists other :: other in db.alerts && other != alertId && IsActive(db.alerts, other, row.fingerprint)
      then db
      else db.(alerts := db.alerts[alertId := row])
  }

  function ResolveTxn(db: Database, fingerprint: string, now: Time): Database {
    db.(alerts := map id | id in db.alerts ::
          if IsActive(db.alerts, id, fingerprint) then StatusChanged(db.alerts[id], Resolved, now) else db.alerts[id])
  }

  ghost function Apply(w: World, step: Step): World {
    match step
    case Begin(process, alert, policy, freshId) =>
      if process in w.inFlight || ReopenDisallowed(w.db.alerts, alert.fingerprint, policy) then w
      else SelectAndWrite(w, process, alert, policy, freshId, false)
    case Flush(process) => ApplyFlush(w, process)
    case Retry(process, freshId) =>
      if process in w.inFlight && w.inFlight[process].Retrying?
      then SelectAndWrite(w, process, w.inFlight[process].alert, w.inFlight[process].policy, freshId, true)
      else w
    case SetStatus(alertId, status) => w.(db := StatusTxn(w.db, alertId, status, w.clock))
    case ResolveFingerprint(fingerprint) => w.(db := ResolveTxn(w.db, fingerprint, w.clock))
    case Deliver(tx) => if tx.Enqueue? then w else w.(db := w.db.(outbox := ClaimOrder.Commit(w.db.outbox, tx)))
    case Tick(now) => if w.clock <= now then w.(clock := now) else w
  }

  ghost function Run(w: World, steps: seq<Step>): World {
    if steps == [] then w else Apply(Run(w, steps[..|steps| - 1]), steps[|steps| - 1])
  }

  const INITIAL := World(Database(map[], EMPTY_OUTBOX), map[], {}, 0.0)

  // --- what every run keeps ---------------------------------------------------------------

  /** At most one active row per fingerprint; rows sit under their own id. */
  ghost predicate AlertsOk(alerts: map<string, AlertRecord>) {
    && (forall id :: id in alerts ==> alerts[id].id == id)
    && (forall i, j, fp :: IsActive(alerts, i, fp) && IsActive(alerts, j, fp) ==> i == j)
  }

  ghost predicate TimelinesOk(alerts: map<string, AlertRecord>, now: Time) {
    forall id :: id in alerts ==> TimelineOk(alerts[id], now)
  }

  /** Every key ever issued names an existing incident whose count has reached the key's. */
  ghost predicate IssuedOk(alerts: map<string, AlertRecord>, issued: set<Key>) {
    forall k :: k in issued ==>
      k.alertId in alerts && k.count <= alerts[k.alertId].occurrenceCount && ColonFree(k.channel)
  }

  ghost predicate OutboxOk(ob: Outbox, issued: set<Key>) {
    && Valid(ob)
    && (forall id :: id in ob.rows ==>
          exists k :: k in issued && ob.rows[id].idempotencyKey == Print(k.alertId, k.channel, k.count))
  }

  ghost predicate WorldOk(w: World) {
    && AlertsOk(w.db.alerts)
    && TimelinesOk(w.db.alerts, w.clock)
    && IssuedOk(w.db.alerts, w.issued)
    && OutboxOk(w.db.outbox, w.issued)
  }

  /** Incidents are never removed, keep their fingerprint and first_seen, and never count down. */
  ghost predicate Grows(before: map<string, AlertRecord>, after: map<string, AlertRecord>) {
    forall id :: id in before ==>
      && id in after
      && after[id].fingerprint == before[id].fingerprint
      && after[id].firstSeen == before[id].firstSeen
      && before[id].occurrenceCount <= after[id].occurrenceCount
  }

  // --- enqueueing -----------------------------------------------------------------------

  ghost predicate AppendsRows(ob: Outbox, after: Outbox, alert: AlertEvent, channels: seq<string>, now: Time) {
    && after.nextId == ob.nextId + |channels|
    && (forall id :: id in after.rows <==> id in ob.rows || ob.nextId <= id < after.nextId)
    && (forall id :: id in ob.rows ==> after.rows[id] == ob.rows[id])
    && (forall i :: 0 <= i < |channels| ==>
          after.rows[ob.nextId + i] ==
            OutboxRow(Print(alert.id, channels[i], alert.occurrenceCount), alert.id, channels[i], true, Pending, 0, now, None,
                      now))
  }

  lemma AppendOneMore(ob: Outbox, before: Outbox, alert: AlertEvent, channels: seq<string>, channel: string, now: Time)
    requires Valid(ob) && Valid(before) && AppendsRows(ob, before, alert, channels, now)
    requires ColonFree(channel) && channel !in channels && forall c :: c in channels ==> ColonFree(c)
    requires !HasKey(ob, Print(alert.id, channel, alert.occurrenceCount))
    ensures !HasKey(before, Print(alert.id, channel, alert.occurrenceCount))
  {
    var key := Print(alert.id, channel, alert.occurrenceCount);
    forall id | id in before.rows ensures before.rows[id].idempotencyKey != key {
      if id !in ob.rows {
        var i := id - ob.nextId;
        assert before.rows[ob.nextId + i].channel == channels[i];
        if before.rows[id].idempotencyKey == key {
          PrintIsInjective(alert.id, channels[i], alert.occurrenceCount, alert.id, channel, alert.occurrenceCount);
        }
      }
    }
  }

  /** Fresh keys: one pending row per channel, in order, and nothing else changes. */
  lemma {:induction false} FreshEnqueueAddsOneRowPerChannel(ob: Outbox, alert: AlertEvent, channels: seq<string>, now: Time)
    requires Valid(ob)
    requires forall a, b :: 0 <= a < b < |channels| ==> channels[a] != channels[b]
    requires forall c :: c in channels ==> ColonFree(c)
    requires forall c :: c in channels ==> !HasKey(ob, Print(alert.id, c, alert.occurrenceCount))
    ensures var (after, keys) := EnqueueEach(ob, alert, channels, now);
            && Valid(after)
            && AppendsRows(ob, after, alert, channels, now)
            && |keys| == |channels|
            && (forall i :: 0 <= i < |keys| ==> keys[i] == Print(alert.id, channels[i], alert.occurrenceCount))
  {
    if channels == [] {
    } else {
      var n := |channels| - 1;
      var front := channels[..n];
      assert channels == front + [channels[n]];
      FreshEnqueueAddsOneRowPerChannel(ob, alert, front, now);
      var before := EnqueueEach(ob, alert, front, now).0;
      AppendOneMore(ob, before, alert, front, channels[n], now);
      InsertKeepsKeys(before, Print(alert.id, channels[n], alert.occurrenceCount), alert.id, channels[n], now);
      InsertAppends(ob, before, alert, front, channels[n], now);
    }
  }

  lemma InsertAppends(ob: Outbox, before: Outbox, alert: AlertEvent, channels: seq<string>, channel: string, now: Time)
    requires Valid(ob) && AppendsRows(ob, before, alert, channels, now)
    requires !HasKey(before, Print(alert.id, channel, alert.occurrenceCount))
    ensures AppendsRows(ob, Insert(before, Print(alert.id, channel, alert.occurrenceCount), alert.id, channel, now),
                        alert, channels + [channel], now)
  {
    var after := Insert(before, Print(alert.id, channel, alert.occurrenceCount), alert.id, channel, now);
    var all := channels + [channel];
    forall i | 0 <= i < |all|
      ensures after.rows[ob.nextId + i] == PendingRow(Print(alert.id, all[i], alert.occurrenceCount), alert.id, all[i], now)
    {
      assert i < |channels| ==> ob.nextId + i in before.rows && all[i] == channels[i];
    }
  }

  predicate KeyPresent(ob: Outbox, alert: AlertEvent, channel: string) {
    HasKey(ob, Print(alert.id, channel, alert.occurrenceCount))
  }

  lemma InsertKeepsKeys(ob: Outbox, key: string, alertId: string, channel: string, now: Time)
    requires Valid(ob)
    ensures Valid(Insert(ob, key, alertId, channel, now)) && HasKey(Insert(ob, key, alertId, channel, now), key)
    ensures forall k :: HasKey(ob, k) ==> HasKey(Insert(ob, key, alertId, channel, now), k)
  {
    var after := Insert(ob, key, alertId, channel, now);
    assert !HasKey(ob, key) ==> ob.nextId in after.rows && after.rows[ob.nextId].idempotencyKey == key;
    forall k | HasKey(ob, k) ensures HasKey(after, k) {
      var id :| id in ob.rows && ob.rows[id].idempotencyKey == k;
      assert id in after.rows && after.rows[id] == ob.rows[id];
    }
  }

  lemma {:induction false} EnqueuedKeysArePresent(ob: Outbox, alert: AlertEvent, channels: seq<string>, now: Time)
    requires Valid(ob)
    ensures Valid(EnqueueEach(ob, alert, channels, now).0)
    ensures forall c :: c in channels ==> KeyPresent(EnqueueEach(ob, alert, channels, now).0, alert, c)
  {
    if channels == [] {
    } else {
      var front := channels[..|channels| - 1];
      var last := channels[|channels| - 1];
      EnqueuedKeysArePresent(ob, alert, front, now);
      var before := EnqueueEach(ob, alert, front, now).0;
      InsertKeepsKeys(before, Print(alert.id, last, alert.occurrenceCount), alert.id, last, now);
      forall c | c in channels ensures KeyPresent(EnqueueEach(ob, alert, channels, now).0, alert, c) {
        assert c in front || c == last;
        assert c in front ==> KeyPresent(before, alert, c);
      }
    }
  }

  lemma {:induction false} PresentKeysAreSkipped(ob: Outbox, alert: AlertEvent, channels: seq<string>, now: Time)
    requires forall c :: c in channels ==> KeyPresent(ob, alert, c)
    ensures EnqueueEach(ob, alert, channels, now) == (ob, [])
  {
    if channels == [] {
    } else {
      PresentKeysAreSkipped(ob, alert, channels[..|channels| - 1], now);
      assert KeyPresent(ob, alert, channels[|channels| - 1]);
    }
  }

  /** Enqueueing the same alert again creates nothing, whatever the outbox held before. */
  lemma ReenqueueIsNoOp(ob: Outbox, alert: AlertEvent, channels: seq<string>, now: Time, later: Time)
    requires Valid(ob)
    ensures EnqueueEach(EnqueueEach(ob, alert, channels, now).0, alert, channels, later)
            == (EnqueueEach(ob, alert, channels, now).0, [])
  {
    EnqueuedKeysArePresent(ob, alert, channels, now);
    PresentKeysAreSkipped(EnqueueEach(ob, alert, channels, now).0, alert, channels, later);
  }

  /** A commit that should enqueue adds exactly one pending row per enabled channel, under keys
      that were never issued before; any other commit leaves the outbox alone. */
  ghost predicate EnqueuesFreshly(db: Database, issued: set<Key>, c: Committed, policy: EmitPolicy, now: Time) {
    var channels := EnabledChannels(policy.dispatch);
    if ShouldEnqueue(c.record, c.alert, policy) then
      && |c.keys| == |channels|
      && (forall i :: 0 <= i < |c.keys| ==>
            && c.keys[i] == Print(c.alert.id, channels[i], c.alert.occurrenceCount)
            && !HasKey(db.outbox, c.keys[i]))
      && KeysOf(c, policy) !! issued
      && |KeysOf(c, policy)| == |channels|
      && AppendsRows(db.outbox, c.db.outbox, c.alert, channels, now)
    else
      c.keys == [] && c.db.outbox == db.outbox
  }

  lemma {:induction false} KeySetSize(id: string, channels: seq<string>, count: nat)
    requires forall a, b :: 0 <= a < b < |channels| ==> channels[a] != channels[b]
    ensures |set channel | channel in channels :: Key(id, channel, count)| == |channels|
  {
    var keys := set channel | channel in channels :: Key(id, channel, count);
    if channels == [] {
      assert keys == {};
    } else {
      var front := channels[..|channels| - 1];
      var last := Key(id, channels[|channels| - 1], count);
      KeySetSize(id, front, count);
      var frontKeys := set channel | channel in front :: Key(id, channel, count);
      assert channels == front + [channels[|channels| - 1]];
      assert keys == frontKeys + {last};
      assert last !in frontKeys;
    }
  }

  lemma NewKeysAreAbsent(ob: Outbox, issued: set<Key>, id: string, channel: string, count: nat)
    requires OutboxOk(ob, issued) && ColonFree(channel)
    requires forall k :: k in issued ==> ColonFree(k.channel)
    requires forall k :: k in issued && k.alertId == id ==> k.count < count
    ensures !HasKey(ob, Print(id, channel, count))
  {
    if HasKey(ob, Print(id, channel, count)) {
      var row :| row in ob.rows && ob.rows[row].idempotencyKey == Print(id, channel, count);
      var k :| k in issued && ob.rows[row].idempotencyKey == Print(k.alertId, k.channel, k.count);
      PrintIsInjective(k.alertId, k.channel, k.count, id, channel, count);
    }
  }

  lemma AppendedKeysAreIssued(ob: Outbox, after: Outbox, issued: set<Key>, added: set<Key>, alert: AlertEvent,
                              channels: seq<string>, now: Time)
    requires OutboxOk(ob, issued) && AppendsRows(ob, after, alert, channels, now) && Valid(after)
    requires forall channel :: channel in channels ==> Key(alert.id, channel, alert.occurrenceCount) in added
    ensures OutboxOk(after, issued + added)
  {
    forall id | id in after.rows
      ensures exists k :: k in issued + added && after.rows[id].idempotencyKey == Print(k.alertId, k.channel, k.count)
    {
      if id in ob.rows {
        var k :| k in issued && ob.rows[id].idempotencyKey == Print(k.alertId, k.channel, k.count);
        assert k in issued + added;
      } else {
        var i := id - ob.nextId;
        var k := Key(alert.id, channels[i], alert.occurrenceCount);
        assert after.rows[ob.nextId + i].idempotencyKey == Print(k.alertId, k.channel, k.count);
        assert k in issued + added;
      }
    }
  }

  /** The heart of key freshness: the written count is beyond every key issued for that alert. */
  lemma WriteEnqueuesFreshly(db: Database, issued: set<Key>, record: AlertRecord, alert: AlertEvent, policy: EmitPolicy,
                             now: Time)
    requires OutboxOk(db.outbox, issued)
    requires forall k :: k in issued ==> ColonFree(k.channel)
    requires forall k :: k in issued && k.alertId == alert.id ==> k.count < alert.occurrenceCount
    ensures var c := WriteAndEnqueue(db, record, alert, policy, now);
            EnqueuesFreshly(db, issued, c, policy, now) && OutboxOk(c.db.outbox, issued + KeysOf(c, policy))
  {
    var channels := EnabledChannels(policy.dispatch);
    var c := WriteAndEnqueue(db, record, alert, policy, now);
    ChannelNamesAreKeySafe(policy.dispatch);
    if ShouldEnqueue(record, alert, policy) {
      forall channel | channel in channels ensures !HasKey(db.outbox, Print(alert.id, channel, alert.occurrenceCount)) {
        NewKeysAreAbsent(db.outbox, issued, alert.id, channel, alert.occurrenceCount);
      }
      FreshEnqueueAddsOneRowPerChannel(db.outbox, alert, channels, now);
      KeySetSize(alert.id, channels, alert.occurrenceCount);
      forall i | 0 <= i < |c.keys| ensures !HasKey(db.outbox, c.keys[i]) {
        assert channels[i] in channels;
      }
      AppendedKeysAreIssued(db.outbox, c.db.outbox, issued, KeysOf(c, policy), alert, channels, now);
    }
  }

  // --- every step keeps the invariant -------------------------------------------------------

  lemma PutKeepsAlerts(alerts: map<string, AlertRecord>, record: AlertRecord)
    requires AlertsOk(alerts)
    requires record.status.Active() ==>
               forall id :: IsActive(alerts, id, record.fingerprint) ==> id == record.id
    ensures AlertsOk(alerts[record.id := record])
  {
    var after := alerts[record.id := record];
    forall i, j, fp | IsActive(after, i, fp) && IsActive(after, j, fp) ensures i == j {
      assert i != record.id ==> IsActive(alerts, i, fp);
      assert j != record.id ==> IsActive(alerts, j, fp);
    }
  }

  lemma PutKeepsIssued(alerts: map<string, AlertRecord>, record: AlertRecord, issued: set<Key>)
    requires IssuedOk(alerts, issued)
    requires Grows(alerts, alerts[record.id := record])
    ensures IssuedOk(alerts[record.id := record], issued)
  {
  }

  lemma NewKeysAreCovered(c: Committed, policy: EmitPolicy)
    requires c.record.id == c.alert.id && c.record.occurrenceCount == c.alert.occurrenceCount
    requires c.record.id in c.db.alerts && c.db.alerts[c.record.id] == c.record
    ensures IssuedOk(c.db.alerts, KeysOf(c, policy))
  {
    ChannelNamesAreKeySafe(policy.dispatch);
  }

  lemma LandKeepsWorld(w: World, process: nat, c: Committed, policy: EmitPolicy)
    requires WorldOk(w)
    requires c.db.alerts == w.db.alerts[c.record.id := c.record]
    requires c.record.id == c.alert.id && c.record.occurrenceCount == c.alert.occurrenceCount
    requires c.record.status.Active() && TimelineOk(c.record, w.clock)
    requires forall id :: IsActive(w.db.alerts, id, c.record.fingerprint) ==> id == c.record.id
    requires Grows(w.db.alerts, c.db.alerts)
    requires OutboxOk(c.db.outbox, w.issued + KeysOf(c, policy))
    ensures WorldOk(Land(w, process, c, policy))
  {
    PutKeepsAlerts(w.db.alerts, c.record);
    PutKeepsIssued(w.db.alerts, c.record, w.issued);
    NewKeysAreCovered(c, policy);
  }

  lemma WriteKeepsWorld(w: World, process: nat, record: AlertRecord, alert: AlertEvent, policy: EmitPolicy)
    requires WorldOk(w)
    requires forall k :: k in w.issued && k.alertId == alert.id ==> k.count < alert.occurrenceCount
    requires record.id == alert.id && record.occurrenceCount == alert.occurrenceCount
    requires record.status.Active() && TimelineOk(record, w.clock)
    requires forall id :: IsActive(w.db.alerts, id, record.fingerprint) ==> id == record.id
    requires Grows(w.db.alerts, w.db.alerts[record.id := record])
    ensures var c := WriteAndEnqueue(w.db, record, alert, policy, w.clock);
            && EnqueuesFreshly(w.db, w.issued, c, policy, w.clock)
            && WorldOk(Land(w, process, c, policy))
            && Grows(w.db.alerts, c.db.alerts)
  {
    WriteEnqueuesFreshly(w.db, w.issued, record, alert, policy, w.clock);
    LandKeepsWorld(w, process, WriteAndEnqueue(w.db, record, alert, policy, w.clock), policy);
  }

  lemma RefreshKeepsWorld(w: World, process: nat, id: string, alert: PipelineAlert, policy: EmitPolicy)
    requires WorldOk(w) && IsActive(w.db.alerts, id, alert.fingerprint)
    ensures var c := RefreshTxn(w.db, id, alert, policy, w.clock);
            && EnqueuesFreshly(w.db, w.issued, c, policy, w.clock)
            && WorldOk(Land(w, process, c, policy))
            && Grows(w.db.alerts, c.db.alerts)
  {
    var record := Refreshed(w.db.alerts[id], alert, w.clock);
    RefreshKeepsTimeline(w.db.alerts[id], alert, w.clock, w.clock);
    var written := alert.(id := record.id, isNew := false, occurrenceCount := record.occurrenceCount);
    WriteKeepsWorld(w, process, record, written, policy);
  }

  lemma InsertKeepsWorld(w: World, process: nat, alert: PipelineAlert, policy: EmitPolicy)
    requires WorldOk(w) && InsertTxn(w.db, alert, policy, w.clock).Some?
    ensures var c := InsertTxn(w.db, alert, policy, w.clock).value;
            && EnqueuesFreshly(w.db, w.issued, c, policy, w.clock)
            && WorldOk(Land(w, process, c, policy))
            && Grows(w.db.alerts, c.db.alerts)
  {
    var record := RecordFromEvent(alert, w.clock);
    NewRowHasTimeline(alert, w.clock);
    WriteKeepsWorld(w, process, record, alert, policy);
  }

  lemma StatusKeepsWorld(w: World, alertId: string, status: AlertStatus)
    requires WorldOk(w)
    ensures WorldOk(w.(db := StatusTxn(w.db, alertId, status, w.clock)))
    ensures Grows(w.db.alerts, StatusTxn(w.db, alertId, status, w.clock).alerts)
  {
    if StatusTxn(w.db, alertId, status, w.clock) != w.db {
      StatusChangeKeepsTimeline(w.db.alerts[alertId], status, w.clock, w.clock);
      PutKeepsAlerts(w.db.alerts, StatusChanged(w.db.alerts[alertId], status, w.clock));
    }
  }

  lemma ResolveKeepsWorld(w: World, fingerprint: string)
    requires WorldOk(w)
    ensures WorldOk(w.(db := ResolveTxn(w.db, fingerprint, w.clock)))
    ensures Grows(w.db.alerts, ResolveTxn(w.db, fingerprint, w.clock).alerts)
  {
    var after := ResolveTxn(w.db, fingerprint, w.clock).alerts;
    ResolveKeepsAlerts(w.db, fingerprint, w.clock);
    forall id | id in after ensures TimelineOk(after[id], w.clock) {
      StatusChangeKeepsTimeline(w.db.alerts[id], Resolved, w.clock, w.clock);
    }
  }

  lemma ResolveKeepsAlerts(db: Database, fingerprint: string, now: Time)
    requires AlertsOk(db.alerts)
    ensures AlertsOk(ResolveTxn(db, fingerprint, now).alerts)
  {
    var after := ResolveTxn(db, fingerprint, now).alerts;
    forall i, j, fp | IsActive(after, i, fp) && IsActive(after, j, fp) ensures i == j {
      assert IsActive(db.alerts, i, fp) && IsActive(db.alerts, j, fp);
    }
  }

  lemma DeliveryKeepsOutbox(ob: Outbox, issued: set<Key>, tx: ClaimOrder.Transaction)
    requires OutboxOk(ob, issued) && !tx.Enqueue?
    ensures OutboxOk(ClaimOrder.Commit(ob, tx), issued)
  {
    ClaimOrder.CommitKeepsValid(ob, tx);
    ClaimOrder.CommitKeepsKeys(ob, tx);
  }

  lemma TickKeepsTimelines(alerts: map<string, AlertRecord>, before: Time, now: Time)
    requires TimelinesOk(alerts, before) && before <= now
    ensures TimelinesOk(alerts, now)
  {
  }

  lemma SelectAndWriteKeepsWorld(w: World, process: nat, alert: PipelineAlert, policy: EmitPolicy, freshId: string,
                                 lastTry: bool)
    requires WorldOk(w)
    ensures WorldOk(SelectAndWrite(w, process, alert, policy, freshId, lastTry))
    ensures Grows(w.db.alerts, SelectAndWrite(w, process, alert, policy, freshId, lastTry).db.alerts)
  {
    match FindActive(w.db.alerts, alert.fingerprint)
    case Some(id) => RefreshKeepsWorld(w, process, id, alert, policy);
    case None =>
  }

  lemma StepKeepsWorld(w: World, step: Step)
    requires WorldOk(w)
    ensures WorldOk(Apply(w, step))
    ensures Grows(w.db.alerts, Apply(w, step).db.alerts)
  {
    match step
    case Begin(process, alert, policy, freshId) => SelectAndWriteKeepsWorld(w, process, alert, policy, freshId, false);
    case Flush(process) =>
      if process in w.inFlight && w.inFlight[process].Inserting? {
        var emit := w.inFlight[process];
        if InsertTxn(w.db, emit.alert, emit.policy, w.clock).Some? {
          InsertKeepsWorld(w, process, emit.alert, emit.policy);
        }
      }
    case Retry(process, freshId) =>
      if process in w.inFlight && w.inFlight[process].Retrying? {
        SelectAndWriteKeepsWorld(w, process, w.inFlight[process].alert, w.inFlight[process].policy, freshId, true);
      }
    case SetStatus(alertId, status) => StatusKeepsWorld(w, alertId, status);
    case ResolveFingerprint(fingerprint) => ResolveKeepsWorld(w, fingerprint);
    case Deliver(tx) =>
      if !tx.Enqueue? { DeliveryKeepsOutbox(w.db.outbox, w.issued, tx); }
    case Tick(now) =>
      if w.clock <= now { TickKeepsTimelines(w.db.alerts, w.clock, now); }
  }

  /** Over every interleaving: at most one active row per fingerprint, consistent timelines, and
      every key ever issued bounded by its incident's count. */
  lemma {:induction false} RunKeepsWorld(steps: seq<Step>)
    ensures WorldOk(Run(INITIAL, steps))
  {
    if steps == [] {
    } else {
      RunKeepsWorld(steps[..|steps| - 1]);
      StepKeepsWorld(Run(INITIAL, steps[..|steps| - 1]), steps[|steps| - 1]);
    }
  }
}
