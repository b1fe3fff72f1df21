/** What each transaction on the outbox leaves behind, row by row, with statuses, times and counters
    written out. */
module OutboxFields {
  import opened Prelude
  import opened OutboxTable

  // --- claim ------------------------------------------------------------------------------------

  /** Taken from a worker that has not touched it for longer than `staleSeconds`. */
  predicate Abandoned(row: OutboxRow, now: Time, staleSeconds: nat) {
    row.status == Processing && row.updatedAt + staleSeconds as real < now
  }

  /** When the row counts as due in this claim: abandoned rows from now on. */
  function DueAt(row: OutboxRow, now: Time, staleSeconds: nat): Time {
    if Abandoned(row, now, staleSeconds) then now else row.nextAttemptAt
  }

  /** Pending and failed rows whose time has come, and abandoned ones. */
  predicate MayBeClaimed(row: OutboxRow, now: Time, staleSeconds: nat) {
    Abandoned(row, now, staleSeconds) || ((row.status == Pending || row.status == Failed) && row.nextAttemptAt <= now)
  }

  predicate ServedBefore(ob: Outbox, i: nat, j: nat, now: Time, staleSeconds: nat)
    requires i in ob.rows && j in ob.rows
  {
    var a, b := DueAt(ob.rows[i], now, staleSeconds), DueAt(ob.rows[j], now, staleSeconds);
    a < b || (a == b && i < j)
  }

  /** The taken ids are the first `limit` rows that may be claimed, by due time and then id, all of them
      if there are no more. */
  ghost predicate TakesTheFirst(ob: Outbox, taken: seq<nat>, now: Time, limit: nat, staleSeconds: nat) {
    && |taken| <= limit
    && (forall a :: 0 <= a < |taken| ==> taken[a] in ob.rows && MayBeClaimed(ob.rows[taken[a]], now, staleSeconds))
    && (forall a, b :: 0 <= a < b < |taken| ==> ServedBefore(ob, taken[a], taken[b], now, staleSeconds))
    && (forall id :: id in ob.rows && MayBeClaimed(ob.rows[id], now, staleSeconds) && id !in taken ==>
          && |taken| == limit
          && forall a :: 0 <= a < |taken| ==> ServedBefore(ob, taken[a], id, now, staleSeconds))
  }

  /** A taken row is processing since now with one more attempt, an abandoned row not taken is pending and
      due now, and every other row is as before. */
  ghost predicate LeavesClaimed(ob: Outbox, after: Outbox, taken: seq<nat>, now: Time, staleSeconds: nat) {
    && after.nextId == ob.nextId && after.rows.Keys == ob.rows.Keys
    && (forall id :: id in ob.rows && id in taken ==>
          after.rows[id] == ob.rows[id].(status := Processing, attempts := ob.rows[id].attempts + 1, updatedAt := now,
                                         nextAttemptAt := DueAt(ob.rows[id], now, staleSeconds)))
    && (forall id :: id in ob.rows && id !in taken ==>
          after.rows[id] == if Abandoned(ob.rows[id], now, staleSeconds)
                            then ob.rows[id].(status := Pending, nextAttemptAt := now, updatedAt := now)
                            else ob.rows[id])
  }

  lemma RecoveredRowByRow(ob: Outbox, now: Time, staleSeconds: nat, id: nat)
    requires id in ob.rows
    ensures var recovered := RecoverStale(ob, now, staleSeconds);
            && recovered.rows[id].nextAttemptAt == DueAt(ob.rows[id], now, staleSeconds)
            && (IsDue(recovered, id, now) <==> MayBeClaimed(ob.rows[id], now, staleSeconds))
  {
  }

  lemma CandidatesAreTheFirst(ob: Outbox, now: Time, limit: nat, staleSeconds: nat)
    ensures TakesTheFirst(ob, Candidates(RecoverStale(ob, now, staleSeconds), now, limit), now, limit, staleSeconds)
  {
    var recovered := RecoverStale(ob, now, staleSeconds);
    var taken := Candidates(recovered, now, limit);
    forall a | 0 <= a < |taken| ensures taken[a] in ob.rows && MayBeClaimed(ob.rows[taken[a]], now, staleSeconds) {
      assert taken[a] in Due(recovered, now);
      RecoveredRowByRow(ob, now, staleSeconds, taken[a]);
    }
    forall a, b | 0 <= a < b < |taken| ensures ServedBefore(ob, taken[a], taken[b], now, staleSeconds) {
      RecoveredRowByRow(ob, now, staleSeconds, taken[a]);
      RecoveredRowByRow(ob, now, staleSeconds, taken[b]);
      assert Precedes(recovered.rows, taken[a], taken[b]);
    }
    forall id | id in ob.rows && MayBeClaimed(ob.rows[id], now, staleSeconds) && id !in taken
      ensures |taken| == limit && forall a :: 0 <= a < |taken| ==> ServedBefore(ob, taken[a], id, now, staleSeconds)
    {
      RecoveredRowByRow(ob, now, staleSeconds, id);
      assert id in Due(recovered, now);
      forall a | 0 <= a < |taken| ensures ServedBefore(ob, taken[a], id, now, staleSeconds) {
        RecoveredRowByRow(ob, now, staleSeconds, taken[a]);
        assert Precedes(recovered.rows, taken[a], id);
      }
    }
  }

  lemma LeftOver(ob: Outbox, recovered: Outbox, after: Outbox, taken: seq<nat>, now: Time, staleSeconds: nat)
    requires recovered == RecoverStale(ob, now, staleSeconds)
    requires after.nextId == ob.nextId && after.rows.Keys == ob.rows.Keys
    requires forall id :: id in taken ==> id in ob.rows && after.rows[id] == ClaimedRow(recovered.rows[id], now)
    requires forall id :: id in ob.rows && id !in taken ==> after.rows[id] == recovered.rows[id]
    ensures LeavesClaimed(ob, after, taken, now, staleSeconds)
  {
  }

  lemma ClaimRowByRow(ob: Outbox, now: Time, limit: nat, staleSeconds: nat)
    ensures var (after, taken) := ClaimBatch(ob, now, limit, staleSeconds);
            && TakesTheFirst(ob, taken, now, limit, staleSeconds)
            && LeavesClaimed(ob, after, taken, now, staleSeconds)
  {
    var recovered := RecoverStale(ob, now, staleSeconds);
    ClaimBatchTakesFirstDue(ob, now, limit, staleSeconds);
    CandidatesAreTheFirst(ob, now, limit, staleSeconds);
    LeftOver(ob, recovered, ClaimBatch(ob, now, limit, staleSeconds).0, Candidates(recovered, now, limit), now, staleSeconds);
  }

  // --- mark -------------------------------------------------------------------------------------

  lemma MarkSentRowByRow(ob: Outbox, id: nat, now: Time)
    ensures MarkSent(ob, id, now) ==
            if id in ob.rows
            then ob.(rows := ob.rows[id := ob.rows[id].(status := Sent, lastError := None, updatedAt := now)])
            else ob
  {
  }

  /** Seconds until the next attempt: 2, 4, 8, 16, 32, 64, 128, 256, then 300 for good. */
  function Penalty(attempts: nat): nat {
    if attempts <= 1 then 2
    else if attempts == 2 then 4
    else if attempts == 3 then 8
    else if attempts == 4 then 16
    else if attempts == 5 then 32
    else if attempts == 6 then 64
    else if attempts == 7 then 128
    else if attempts == 8 then 256
    else 300
  }

  lemma {:induction false} PowersPastTheCap(n: nat)
    requires n >= 9
    ensures Pow2(n) >= 512
    decreases n
  {
    if n == 9 {
      assert Pow2(4) == 16;
    } else {
      PowersPastTheCap(n - 1);
    }
  }

  lemma DelaysInSeconds(attempts: nat)
    ensures Delay(attempts) == Penalty(attempts)
  {
    if attempts >= 9 {
      PowersPastTheCap(attempts);
    } else {
      assert Pow2(1) == 2 && Pow2(2) == 4;
      assert Pow2(4) == 16;
    }
  }

  /** A failure kills the row once its attempts reach the maximum. Below, it is due again after the
      penalty, unless more than 1023 attempts make the power overflow. The error is kept up to 2000
      characters, the empty one not at all. */
  lemma MarkFailedRowByRow(ob: Outbox, id: nat, now: Time, error: string, maxAttempts: nat)
    requires id in ob.rows
    ensures var (after, outcome) := MarkFailed(ob, id, now, error, maxAttempts);
            var row := ob.rows[id];
            var kept := if error == "" then None else if |error| <= 2000 then Some(error) else Some(error[..2000]);
            if row.attempts >= maxAttempts then
              outcome == MarkedDead
              && after == ob.(rows := ob.rows[id := row.(status := Dead, lastError := kept, updatedAt := now)])
            else if row.attempts > 1023 then outcome == Overflowed && after == ob
            else
              outcome == MarkedFailed
              && after == ob.(rows := ob.rows[id := row.(status := Failed, lastError := kept, updatedAt := now,
                                                         nextAttemptAt := now + Penalty(row.attempts) as real)])
  {
    DelaysInSeconds(ob.rows[id].attempts);
  }

  // --- redrive and delete -----------------------------------------------------------------------

  /** Listed and dead or failed; or, without a list, of the given status. */
  predicate IsRedriven(row: OutboxRow, id: nat, selection: Selection) {
    match selection
    case ByIds(ids) => id in ids && (row.status == Dead || row.status == Failed)
    case AllMatching(status) => row.status == status
  }

  /** The chosen rows are pending, due now, with no attempts and no error; every other row is as before. */
  ghost predicate LeavesRedriven(ob: Outbox, after: Outbox, selection: Selection, now: Time) {
    && after.nextId == ob.nextId && after.rows.Keys == ob.rows.Keys
    && forall id :: id in ob.rows ==>
         after.rows[id] == if IsRedriven(ob.rows[id], id, selection)
                           then ob.rows[id].(status := Pending, attempts := 0, nextAttemptAt := now,
                                             lastError := None, updatedAt := now)
                           else ob.rows[id]
  }

  lemma RedriveRowByRow(ob: Outbox, selection: Selection, now: Time)
    ensures LeavesRedriven(ob, Redrive(ob, selection, now), selection, now)
    ensures RedriveIds(ob, selection) == set id | id in ob.rows && IsRedriven(ob.rows[id], id, selection)
  {
  }

  /** Listed, whatever its status; or, without a list, of the given status. */
  predicate IsDeleted(row: OutboxRow, id: nat, selection: Selection) {
    match selection
    case ByIds(ids) => id in ids
    case AllMatching(status) => row.status == status
  }

  /** A deletion removes the chosen rows, and nothing else; their ids are not handed out again. */
  lemma DeleteRowByRow(ob: Outbox, selection: Selection)
    ensures var after := Delete(ob, selection);
            && after.nextId == ob.nextId
            && (forall id :: id in after.rows <==> id in ob.rows && !IsDeleted(ob.rows[id], id, selection))
            && (forall id :: id in after.rows ==> after.rows[id] == ob.rows[id])
    ensures DeleteIds(ob, selection) == set id | id in ob.rows && IsDeleted(ob.rows[id], id, selection)
  {
  }
}
