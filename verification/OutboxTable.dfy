/** The `dispatch_outbox` table: what each committed statement of `AlertRepository` does to it.

    Every function here is one SQL statement or one short transaction. The repository class
    (Repository.dfy) implements them by assignment and loops; the interleaving model
    (DispatchProtocol.dfy) composes them in any order.
 */
module OutboxTable {
  import opened Prelude

  datatype OutboxStatus = Pending | Processing | Sent | Failed | Dead {
    predicate Claimable() { Pending? || Failed? }
    predicate Redrivable() { Dead? || Failed? }
  }

  /** `payloadOk`: whether the stored payload parses. It is written once and never changed. */
  datatype OutboxRow = OutboxRow(
    idempotencyKey: string,
    alertId: string,
    channel: string,
    payloadOk: bool,
    status: OutboxStatus,
    attempts: nat,
    nextAttemptAt: Time,
    lastError: Option<string>,
    updatedAt: Time)

  /** `nextId` is the autoincrement counter: ids are never handed out twice. */
  datatype Outbox = Outbox(rows: map<nat, OutboxRow>, nextId: nat)

  const EMPTY_OUTBOX := Outbox(map[], 0)

  ghost predicate Valid(ob: Outbox) {
    && (forall id :: id in ob.rows ==> id < ob.nextId)
    && (forall i, j | i in ob.rows && j in ob.rows ::
          ob.rows[i].idempotencyKey == ob.rows[j].idempotencyKey ==> i == j)
  }

  // --- insert -----------------------------------------------------------------

  predicate HasKey(ob: Outbox, key: string) {
    exists id :: id in ob.rows && ob.rows[id].idempotencyKey == key
  }

  /** The emit path serializes the alert itself, so the payload of its rows parses. */
  function PendingRow(key: string, alertId: string, channel: string, now: Time): OutboxRow {
    OutboxRow(key, alertId, channel, true, Pending, 0, now, None, now)
  }

  /** Insert one row unless its unique key is already taken. */
  function InsertRow(ob: Outbox, row: OutboxRow): Outbox {
    if HasKey(ob, row.idempotencyKey) then ob else Outbox(ob.rows[ob.nextId := row], ob.nextId + 1)
  }

  function Insert(ob: Outbox, key: string, alertId: string, channel: string, now: Time): Outbox {
    InsertRow(ob, PendingRow(key, alertId, channel, now))
  }

  // --- claim ------------------------------------------------------------------

  predicate IsStale(row: OutboxRow, now: Time, staleSeconds: nat) {
    row.status.Processing? && row.updatedAt < now - staleSeconds as real
  }

  function RecoveredRow(row: OutboxRow, now: Time): OutboxRow {
    row.(status := Pending, nextAttemptAt := now, updatedAt := now)
  }

  function RecoverStale(ob: Outbox, now: Time, staleSeconds: nat): Outbox {
    ob.(rows := map id | id in ob.rows ::
          if IsStale(ob.rows[id], now, staleSeconds) then RecoveredRow(ob.rows[id], now) else ob.rows[id])
  }

  predicate IsDue(ob: Outbox, id: nat, now: Time) {
    id in ob.rows && ob.rows[id].status.Claimable() && ob.rows[id].nextAttemptAt <= now
  }

  function Due(ob: Outbox, now: Time): set<nat> {
    set id | id in ob.rows && IsDue(ob, id, now)
  }

  /** ORDER BY next_attempt_at, id. */
  predicate Precedes(rows: map<nat, OutboxRow>, i: nat, j: nat)
    requires i in rows && j in rows
  {
    || rows[i].nextAttemptAt < rows[j].nextAttemptAt
    || (rows[i].nextAttemptAt == rows[j].nextAttemptAt && i < j)
  }

  ghost predicate IsFirst(rows: map<nat, OutboxRow>, s: set<nat>, m: nat)
    requires s <= rows.Keys
  {
    m in s && forall j :: j in s && j != m ==> Precedes(rows, m, j)
  }

  lemma {:induction false} FirstExists(rows: map<nat, OutboxRow>, s: set<nat>) returns (m: nat)
    requires s != {} && s <= rows.Keys
    ensures IsFirst(rows, s, m)
  {
    var x :| x in s;
    var rest := s - {x};
    if rest == {} {
      m := x;
      assert s == {x};
    } else {
      var other := FirstExists(rows, rest);
      m := if Precedes(rows, other, x) then other else x;
      forall j | j in s && j != m ensures Precedes(rows, m, j) {
        assert j == x || j in rest;
        assert j == other || j == x || Precedes(rows, other, j);
      }
    }
  }

  function First(rows: map<nat, OutboxRow>, s: set<nat>): (m: nat)
    requires s != {} && s <= rows.Keys
    ensures m in s
    ensures forall j :: j in s && j != m ==> Precedes(rows, m, j)
  {
    assert exists m :: IsFirst(rows, s, m) by { var m := FirstExists(rows, s); }
    var m :| m in s && forall j :: j in s && j != m ==> Precedes(rows, m, j);
    m
  }

  predicate Distinct(ids: seq<nat>) {
    forall a, b :: 0 <= a < b < |ids| ==> ids[a] != ids[b]
  }

  /** The first `limit` ids of `s` in claim order: sorted, complete up to the limit, and closed
      downwards (nothing left out comes before something taken). */
  function TakeFirst(rows: map<nat, OutboxRow>, s: set<nat>, limit: nat): (ids: seq<nat>)
    requires s <= rows.Keys
    ensures forall a :: 0 <= a < |ids| ==> ids[a] in s
    ensures forall a, b :: 0 <= a < b < |ids| ==> Precedes(rows, ids[a], ids[b])
    ensures |ids| <= limit && (|ids| < limit ==> forall j :: j in s ==> j in ids)
    ensures forall a, j :: 0 <= a < |ids| && j in s && j !in ids ==> Precedes(rows, ids[a], j)
    ensures Distinct(ids)
  {
    if limit == 0 || s == {} then []
    else
      var m := First(rows, s);
      [m] + TakeFirst(rows, s - {m}, limit - 1)
  }

  function Candidates(ob: Outbox, now: Time, limit: nat): seq<nat> {
    TakeFirst(ob.rows, Due(ob, now), limit)
  }

  function ClaimedRow(row: OutboxRow, now: Time): OutboxRow {
    row.(status := Processing, attempts := row.attempts + 1, updatedAt := now)
  }

  /** UPDATE … WHERE id AND status is claimable AND due: true when the row count is 1. */
  function TryClaim(ob: Outbox, id: nat, now: Time): (Outbox, bool) {
    if IsDue(ob, id, now) then (ob.(rows := ob.rows[id := ClaimedRow(ob.rows[id], now)]), true)
    else (ob, false)
  }

  function ClaimEach(ob: Outbox, ids: seq<nat>, now: Time): (Outbox, seq<nat>) {
    if ids == [] then (ob, [])
    else
      var (before, claimed) := ClaimEach(ob, ids[..|ids| - 1], now);
      var id := ids[|ids| - 1];
      var (after, won) := TryClaim(before, id, now);
      (after, if won then claimed + [id] else claimed)
  }

  /** The whole claim transaction: recover stale rows, select, compare-and-swap each candidate. */
  function ClaimBatch(ob: Outbox, now: Time, limit: nat, staleSeconds: nat): (Outbox, seq<nat>) {
    var recovered := RecoverStale(ob, now, staleSeconds);
    ClaimEach(recovered, Candidates(recovered, now, limit), now)
  }

  // --- mark -------------------------------------------------------------------

  function MarkSent(ob: Outbox, id: nat, now: Time): Outbox {
    if id !in ob.rows then ob
    else ob.(rows := ob.rows[id := ob.rows[id].(status := Sent, lastError := None, updatedAt := now)])
  }

  function Pow2(n: nat): (p: nat)
    ensures p >= 1
  {
    if n == 0 then 1 else 2 * Pow2(n - 1)
  }

  const BACKOFF_CAP_SECONDS: nat := 300

  /** Largest exponent for which the float power 2.0 ** n is finite. */
  const MAX_FLOAT_EXPONENT: nat := 1023

  function Delay(attempts: nat): nat {
    var power := Pow2(if attempts < 1 then 1 else attempts);
    if power < BACKOFF_CAP_SECONDS then power else BACKOFF_CAP_SECONDS
  }

  /** `min(300.0, 2.0 ** max(1, attempts))`; None where the float power overflows and raises. */
  function Backoff(attempts: nat): Option<nat> {
    if attempts > MAX_FLOAT_EXPONENT then None else Some(Delay(attempts))
  }

  function StoredError(error: string): Option<string> {
    if error == "" then None else Some(if |error| > 2000 then error[..2000] else error)
  }

  datatype MarkOutcome = Missing | MarkedDead | MarkedFailed | Overflowed

  /** What a failed attempt makes of one row; None when computing the delay raises. */
  function FailedRow(row: OutboxRow, now: Time, error: string, maxAttempts: nat): Option<OutboxRow> {
    if row.attempts >= maxAttempts then
      Some(row.(status := Dead, lastError := StoredError(error), updatedAt := now))
    else match Backoff(row.attempts)
      case None => None
      case Some(delay) =>
        Some(row.(status := Failed, lastError := StoredError(error),
                  nextAttemptAt := now + delay as real, updatedAt := now))
  }

  function MarkFailed(ob: Outbox, id: nat, now: Time, error: string, maxAttempts: nat): (Outbox, MarkOutcome) {
    if id !in ob.rows then (ob, Missing)
    else match FailedRow(ob.rows[id], now, error, maxAttempts)
      case None => (ob, Overflowed)
      case Some(row) => (ob.(rows := ob.rows[id := row]), if row.status.Dead? then MarkedDead else MarkedFailed)
  }

  // --- operator actions -----------------------------------------------------------

  datatype Selection = ByIds(ids: set<nat>) | AllMatching(status: OutboxStatus)

  /** Rows a redrive resets: explicit ids must be dead or failed, a status filter is taken literally. */
  predicate RedriveSelects(ob: Outbox, sel: Selection, id: nat) {
    && id in ob.rows
    && match sel
       case ByIds(ids) => id in ids && ob.rows[id].status.Redrivable()
       case AllMatching(status) => ob.rows[id].status == status
  }

  function RedriveIds(ob: Outbox, sel: Selection): set<nat> {
    set id | id in ob.rows && RedriveSelects(ob, sel, id)
  }

  function RedrivenRow(row: OutboxRow, now: Time): OutboxRow {
    row.(status := Pending, attempts := 0, nextAttemptAt := now, lastError := None, updatedAt := now)
  }

  function Redrive(ob: Outbox, sel: Selection, now: Time): Outbox {
    ob.(rows := map id | id in ob.rows ::
          if RedriveSelects(ob, sel, id) then RedrivenRow(ob.rows[id], now) else ob.rows[id])
  }

  /** Explicit ids are deleted whatever their status. */
  predicate DeleteSelects(ob: Outbox, sel: Selection, id: nat) {
    && id in ob.rows
    && match sel
       case ByIds(ids) => id in ids
       case AllMatching(status) => ob.rows[id].status == status
  }

  function DeleteIds(ob: Outbox, sel: Selection): set<nat> {
    set id | id in ob.rows && DeleteSelects(ob, sel, id)
  }

  function Delete(ob: Outbox, sel: Selection): Outbox {
    ob.(rows := map id | id in ob.rows && !DeleteSelects(ob, sel, id) :: ob.rows[id])
  }

  // --- facts about the claim transaction --------------------------------------------

  /** Inside one transaction every selected candidate is won, and nothing else changes. */
  lemma {:induction false} ClaimEachWinsDueRows(ob: Outbox, ids: seq<nat>, now: Time)
    requires Distinct(ids)
    requires forall a :: 0 <= a < |ids| ==> IsDue(ob, ids[a], now)
    ensures ClaimEach(ob, ids, now).1 == ids
    ensures ClaimEach(ob, ids, now).0.nextId == ob.nextId
    ensures ClaimEach(ob, ids, now).0.rows.Keys == ob.rows.Keys
    ensures forall id | id in ob.rows ::
              ClaimEach(ob, ids, now).0.rows[id] == if id in ids then ClaimedRow(ob.rows[id], now) else ob.rows[id]
  {
    if ids == [] {
    } else {
      var front := ids[..|ids| - 1];
      ClaimEachWinsDueRows(ob, front, now);
      assert ids == front + [ids[|ids| - 1]];
    }
  }

  /** The batch a claim returns is exactly the first `limit` due rows after stale recovery. */
  lemma ClaimBatchTakesFirstDue(ob: Outbox, now: Time, limit: nat, staleSeconds: nat)
    ensures
      var recovered := RecoverStale(ob, now, staleSeconds);
      var (after, claimed) := ClaimBatch(ob, now, limit, staleSeconds);
      && claimed == Candidates(recovered, now, limit)
      && after.nextId == ob.nextId
      && after.rows.Keys == ob.rows.Keys
      && (forall id :: id in claimed ==>
            && IsDue(recovered, id, now)
            && after.rows[id] == ClaimedRow(recovered.rows[id], now))
      && (forall id :: id in ob.rows && id !in claimed ==> after.rows[id] == recovered.rows[id])
  {
    var recovered := RecoverStale(ob, now, staleSeconds);
    var ids := Candidates(recovered, now, limit);
    forall a | 0 <= a < |ids| ensures IsDue(recovered, ids[a], now) {
      assert ids[a] in Due(recovered, now);
    }
    ClaimEachWinsDueRows(recovered, ids, now);
  }
}
