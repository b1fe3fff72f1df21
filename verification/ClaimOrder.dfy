/** Claiming is fair: rows are served in (next_attempt_at, id) order and nothing that happens
    after a row's due time can overtake it. */
module ClaimOrder {
  import opened Prelude
  import opened OutboxTable

  /** One committed transaction on the outbox. */
  datatype Transaction =
    | Claim(now: Time, limit: nat, staleSeconds: nat)
    | Enqueue(key: string, alertId: string, channel: string, now: Time)
    | Sent(id: nat, now: Time)
    | Fail(id: nat, now: Time, error: string, maxAttempts: nat)
    | RedriveRows(selection: Selection, now: Time)
    | DeleteRows(selection: Selection)

  function Commit(ob: Outbox, tx: Transaction): Outbox {
    match tx
    case Claim(now, limit, staleSeconds) => ClaimBatch(ob, now, limit, staleSeconds).0
    case Enqueue(key, alertId, channel, now) => Insert(ob, key, alertId, channel, now)
    case Sent(id, now) => MarkSent(ob, id, now)
    case Fail(id, now, error, maxAttempts) => MarkFailed(ob, id, now, error, maxAttempts).0
    case RedriveRows(selection, now) => Redrive(ob, selection, now)
    case DeleteRows(selection) => Delete(ob, selection)
  }

  function ClaimedBy(ob: Outbox, tx: Transaction): seq<nat> {
    if tx.Claim? then ClaimBatch(ob, tx.now, tx.limit, tx.staleSeconds).1 else []
  }

  predicate NoEarlierThan(tx: Transaction, t: Time) {
    tx.DeleteRows? || t <= tx.now
  }

  /** The transaction marks, redrives or deletes row `r` itself. */
  predicate Touches(ob: Outbox, tx: Transaction, r: nat) {
    match tx
    case Claim(_, _, _) => false
    case Enqueue(_, _, _, _) => false
    case Sent(id, _) => id == r
    case Fail(id, _, _, _) => id == r
    case RedriveRows(selection, _) => RedriveSelects(ob, selection, r)
    case DeleteRows(selection) => DeleteSelects(ob, selection, r)
  }

  predicate Waiting(ob: Outbox, r: nat) {
    r in ob.rows && ob.rows[r].status.Claimable()
  }

  /** Claimable rows that the claim order puts before `r`. */
  function Ahead(ob: Outbox, r: nat): set<nat>
    requires r in ob.rows
  {
    set q | q in ob.rows && ob.rows[q].status.Claimable() && Precedes(ob.rows, q, r)
  }

  lemma RecoveryOvertakesNothing(ob: Outbox, r: nat, now: Time, staleSeconds: nat)
    requires Waiting(ob, r) && ob.rows[r].nextAttemptAt < now
    ensures Waiting(RecoverStale(ob, now, staleSeconds), r)
    ensures RecoverStale(ob, now, staleSeconds).rows[r] == ob.rows[r]
    ensures Ahead(RecoverStale(ob, now, staleSeconds), r) <= Ahead(ob, r)
  {
  }

  /** No enqueue, mark, redrive or deletion of another row puts anything in front of `r`. */
  lemma NothingOvertakes(ob: Outbox, tx: Transaction, r: nat, t: Time)
    requires Valid(ob) && Waiting(ob, r) && ob.rows[r].nextAttemptAt < t
    requires !tx.Claim? && NoEarlierThan(tx, t) && !Touches(ob, tx, r)
    ensures Waiting(Commit(ob, tx), r) && Commit(ob, tx).rows[r] == ob.rows[r]
    ensures Ahead(Commit(ob, tx), r) <= Ahead(ob, r)
  {
  }

  ghost function Elements(ids: seq<nat>): (elements: set<nat>)
    ensures forall id :: id in elements <==> id in ids
  {
    if ids == [] then {} else {ids[0]} + Elements(ids[1..])
  }

  lemma {:induction false} DistinctCardinality(ids: seq<nat>)
    requires Distinct(ids)
    ensures |Elements(ids)| == |ids|
  {
    if ids == [] {
    } else {
      var rest := ids[1..];
      assert Distinct(rest) by {
        assert forall a, b :: 0 <= a < b < |rest| ==> rest[a] == ids[a + 1] && rest[b] == ids[b + 1];
      }
      DistinctCardinality(rest);
      assert ids[0] !in rest by {
        assert forall a :: 0 <= a < |rest| ==> rest[a] == ids[a + 1];
      }
    }
  }

  lemma UnservedWaitsBehindABatch(ob: Outbox, r: nat, now: Time, limit: nat)
    requires Waiting(ob, r) && IsDue(ob, r, now)
    requires r !in Candidates(ob, now, limit)
    ensures |Candidates(ob, now, limit)| == limit
    ensures forall id :: id in Candidates(ob, now, limit) ==> id in Ahead(ob, r)
  {
    assert r in Due(ob, now);
    var ids := Candidates(ob, now, limit);
    forall id | id in ids ensures id in Ahead(ob, r) {
      var a :| 0 <= a < |ids| && ids[a] == id;
      assert id in Due(ob, now);
    }
  }

  /** A claim serves `r`, or takes a full batch of rows that were ahead of it. */
  lemma ClaimServesOrAdvances(ob: Outbox, tx: Transaction, r: nat)
    requires Valid(ob) && Waiting(ob, r)
    requires tx.Claim? && ob.rows[r].nextAttemptAt < tx.now
    ensures || r in ClaimedBy(ob, tx)
            || (&& Waiting(Commit(ob, tx), r) && Commit(ob, tx).rows[r] == ob.rows[r]
                && |Ahead(Commit(ob, tx), r)| + tx.limit <= |Ahead(ob, r)|)
  {
    var recovered := RecoverStale(ob, tx.now, tx.staleSeconds);
    RecoveryOvertakesNothing(ob, r, tx.now, tx.staleSeconds);
    ClaimBatchTakesFirstDue(ob, tx.now, tx.limit, tx.staleSeconds);
    var ids := Candidates(recovered, tx.now, tx.limit);
    if r !in ids {
      UnservedWaitsBehindABatch(recovered, r, tx.now, tx.limit);
      DistinctCardinality(ids);
      var taken := Elements(ids);
      var after := Commit(ob, tx);
      AheadAfterClaim(recovered, after, r, taken);
      SubsetCardinality(Ahead(after, r), Ahead(ob, r) - taken);
    }
  }

  lemma AheadAfterClaim(recovered: Outbox, after: Outbox, r: nat, taken: set<nat>)
    requires r in recovered.rows && after.rows.Keys == recovered.rows.Keys && r !in taken
    requires forall id :: id in taken ==> id in after.rows && after.rows[id].status.Processing?
    requires forall id :: id in after.rows && id !in taken ==> after.rows[id] == recovered.rows[id]
    ensures Ahead(after, r) <= Ahead(recovered, r) - taken
  {
  }

  /** Apart from enqueueing, no transaction adds a row or changes a key. */
  lemma CommitKeepsKeys(ob: Outbox, tx: Transaction)
    requires !tx.Enqueue?
    ensures Commit(ob, tx).nextId == ob.nextId
    ensures forall id :: id in Commit(ob, tx).rows ==>
              id in ob.rows && Commit(ob, tx).rows[id].idempotencyKey == ob.rows[id].idempotencyKey
  {
    if tx.Claim? {
      ClaimBatchTakesFirstDue(ob, tx.now, tx.limit, tx.staleSeconds);
      forall id | id in ob.rows ensures Commit(ob, tx).rows[id].idempotencyKey == ob.rows[id].idempotencyKey {
        assert id in ClaimedBy(ob, tx) || id !in ClaimedBy(ob, tx);
      }
    }
  }

  lemma CommitKeepsValid(ob: Outbox, tx: Transaction)
    requires Valid(ob)
    ensures Valid(Commit(ob, tx))
  {
    if !tx.Enqueue? {
      CommitKeepsKeys(ob, tx);
    }
  }

  // --- whole runs --------------------------------------------------------------------------

  predicate EventuallyClaimed(ob: Outbox, run: seq<Transaction>, r: nat)
    decreases |run|
  {
    run != [] && (r in ClaimedBy(ob, run[0]) || EventuallyClaimed(Commit(ob, run[0]), run[1..], r))
  }

  /** Until `r` is claimed, no transaction of the run marks, redrives or deletes it. */
  predicate LeftAlone(ob: Outbox, run: seq<Transaction>, r: nat)
    decreases |run|
  {
    || run == []
    || r in ClaimedBy(ob, run[0])
    || (!Touches(ob, run[0], r) && LeftAlone(Commit(ob, run[0]), run[1..], r))
  }

  /** How many rows the claim calls of a run could return together. */
  function Capacity(run: seq<Transaction>): nat {
    if run == [] then 0 else (if run[0].Claim? then run[0].limit else 0) + Capacity(run[1..])
  }

  lemma {:induction false} CapacityPastTheQueueServes(ob: Outbox, run: seq<Transaction>, r: nat, t: Time)
    requires Valid(ob) && Waiting(ob, r) && ob.rows[r].nextAttemptAt < t
    requires forall i :: 0 <= i < |run| ==> NoEarlierThan(run[i], t)
    requires LeftAlone(ob, run, r)
    requires Capacity(run) > |Ahead(ob, r)|
    ensures EventuallyClaimed(ob, run, r)
    decreases |run|
  {
    if r !in ClaimedBy(ob, run[0]) {
      var after := Commit(ob, run[0]);
      CommitKeepsValid(ob, run[0]);
      assert NoEarlierThan(run[0], t);
      if run[0].Claim? {
        ClaimServesOrAdvances(ob, run[0], r);
      } else {
        NothingOvertakes(ob, run[0], r, t);
        SubsetCardinality(Ahead(after, r), Ahead(ob, r));
      }
      CapacityPastTheQueueServes(after, run[1..], r, t);
    }
  }

  function ClaimCalls(run: seq<Transaction>): nat {
    if run == [] then 0 else (if run[0].Claim? then 1 else 0) + ClaimCalls(run[1..])
  }

  lemma {:induction false} CapacityOfEqualBatches(run: seq<Transaction>, batch: nat)
    requires forall i :: 0 <= i < |run| && run[i].Claim? ==> run[i].limit == batch
    ensures Capacity(run) == ClaimCalls(run) * batch
  {
    if run == [] {
    } else {
      CapacityOfEqualBatches(run[1..], batch);
      assert run[0].Claim? ==> (1 + ClaimCalls(run[1..])) * batch == batch + ClaimCalls(run[1..]) * batch;
    }
  }

  lemma EnoughCalls(k: nat, batch: nat, calls: nat)
    requires batch >= 1 && calls >= k / batch + 1
    ensures calls * batch > k
  {
    var q := k / batch;
    assert calls * batch >= (q + 1) * batch by { ScaledOrder(q + 1, calls, batch); }
    assert (q + 1) * batch == q * batch + batch;
    assert q * batch + k % batch == k;
  }

  lemma {:induction false} ScaledOrder(a: nat, b: nat, factor: nat)
    requires a <= b
    ensures a * factor <= b * factor
  {
    if a < b {
      ScaledOrder(a, b - 1, factor);
      assert b * factor == (b - 1) * factor + factor;
    }
  }

  /** With k rows ahead of it, a row past its due time is claimed within k / batch + 1 claim calls,
      whatever else is committed in between. */
  lemma NoStarvation(ob: Outbox, run: seq<Transaction>, r: nat, t: Time, batch: nat)
    requires batch >= 1
    requires Valid(ob) && Waiting(ob, r) && ob.rows[r].nextAttemptAt < t
    requires forall i :: 0 <= i < |run| ==> NoEarlierThan(run[i], t)
    requires forall i :: 0 <= i < |run| && run[i].Claim? ==> run[i].limit == batch
    requires LeftAlone(ob, run, r)
    requires ClaimCalls(run) >= |Ahead(ob, r)| / batch + 1
    ensures EventuallyClaimed(ob, run, r)
  {
    CapacityOfEqualBatches(run, batch);
    EnoughCalls(|Ahead(ob, r)|, batch, ClaimCalls(run));
    CapacityPastTheQueueServes(ob, run, r, t);
  }
}
