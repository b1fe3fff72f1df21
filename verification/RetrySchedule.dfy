/** The life of one outbox row whose every attempt fails: how many claims it takes to die and how
    long it waits between them. Recording a failure raises once the backoff power overflows; the row
    then stays processing until stale recovery hands it out again. */
module RetrySchedule {
  import opened Prelude
  import opened OutboxTable

  /** One claim of the row, the failure that answers it and, should recording it raise, the stale
      recovery that follows. */
  datatype Round = Round(claimAt: Time, failAt: Time, error: string, recoverAt: Time)

  /** Recording this failure raises. */
  predicate Raises(row: OutboxRow, round: Round, maxAttempts: nat) {
    FailedRow(ClaimedRow(row, round.claimAt), round.failAt, round.error, maxAttempts).None?
  }

  /** The row after one round. */
  function AfterRound(row: OutboxRow, round: Round, maxAttempts: nat): OutboxRow {
    var claimed := ClaimedRow(row, round.claimAt);
    match FailedRow(claimed, round.failAt, round.error, maxAttempts)
    case Some(failed) => failed
    case None => RecoveredRow(claimed, round.recoverAt)
  }

  /** Each round claims the row when it is claimable and due; if recording the failure raises, the
      recovery finds the row stale. */
  predicate FailingRun(row: OutboxRow, rounds: seq<Round>, maxAttempts: nat, staleSeconds: nat)
    decreases |rounds|
  {
    || rounds == []
    || (&& row.status.Claimable()
        && row.nextAttemptAt <= rounds[0].claimAt <= rounds[0].failAt
        && (Raises(row, rounds[0], maxAttempts) ==>
              && rounds[0].failAt <= rounds[0].recoverAt
              && IsStale(ClaimedRow(row, rounds[0].claimAt), rounds[0].recoverAt, staleSeconds))
        && FailingRun(AfterRound(row, rounds[0], maxAttempts), rounds[1..], maxAttempts, staleSeconds))
  }

  function AfterRun(row: OutboxRow, rounds: seq<Round>, maxAttempts: nat): OutboxRow
    decreases |rounds|
  {
    if rounds == [] then row else AfterRun(AfterRound(row, rounds[0], maxAttempts), rounds[1..], maxAttempts)
  }

  /** What separates a claim from the next one: the backoff, or the stale time where it overflows. */
  function Wait(attempts: nat, staleSeconds: nat): nat {
    match Backoff(attempts)
    case Some(delay) => delay
    case None => staleSeconds
  }

  /** Waits after attempts `done + 1` to `done + n`. */
  function TotalWait(done: nat, n: nat, staleSeconds: nat): nat
    decreases n
  {
    if n == 0 then 0 else Wait(done + 1, staleSeconds) + TotalWait(done + 1, n - 1, staleSeconds)
  }

  /** Marking a failed attempt raises exactly on the rows whose attempts are past the largest finite
      power and below the maximum, and then it changes nothing. */
  lemma MarkingRaisesExactly(ob: Outbox, id: nat, now: Time, error: string, maxAttempts: nat)
    ensures MarkFailed(ob, id, now, error, maxAttempts).1.Overflowed?
       <==> id in ob.rows && MAX_FLOAT_EXPONENT < ob.rows[id].attempts < maxAttempts
    ensures MarkFailed(ob, id, now, error, maxAttempts).1.Overflowed? ==>
              MarkFailed(ob, id, now, error, maxAttempts).0 == ob
  {
  }

  /** From a claimable row with attempts left: each round counts one attempt, only the last attempt
      kills, in between the row is failed or, past the largest power, recovered; and no claim comes
      before the waits so far. */
  lemma {:induction false} RunFromAttempts(row: OutboxRow, rounds: seq<Round>, maxAttempts: nat, staleSeconds: nat)
    requires row.status.Claimable() && row.attempts < maxAttempts
    requires FailingRun(row, rounds, maxAttempts, staleSeconds)
    ensures var after := AfterRun(row, rounds, maxAttempts);
            && after.attempts == row.attempts + |rounds| <= maxAttempts
            && (after.status.Dead? <==> after.attempts == maxAttempts)
            && (rounds != [] && after.attempts < maxAttempts ==>
                  if after.attempts <= MAX_FLOAT_EXPONENT then after.status.Failed? else after.status.Pending?)
    ensures rounds != [] ==>
              rounds[|rounds| - 1].claimAt
              >= row.nextAttemptAt + TotalWait(row.attempts, |rounds| - 1, staleSeconds) as real
    decreases |rounds|
  {
    if rounds != [] {
      var next := AfterRound(row, rounds[0], maxAttempts);
      if next.status.Dead? {
        assert rounds[1..] == [];
      } else {
        RunFromAttempts(next, rounds[1..], maxAttempts, staleSeconds);
        if |rounds| > 1 {
          assert rounds[|rounds| - 1] == rounds[1..][|rounds| - 2];
        }
      }
    }
  }

  /** Rounds after which recording the failure raises, out of `n` that start after `done` attempts. */
  function Overflows(done: nat, n: nat): nat
    decreases n
  {
    if n == 0 then 0 else (if Backoff(done + 1).None? then 1 else 0) + Overflows(done + 1, n - 1)
  }

  function Scaled(k: nat, slack: real): real {
    if k == 0 then 0.0 else Scaled(k - 1, slack) + slack
  }

  function QuickRound(row: OutboxRow, staleSeconds: nat, slack: real): Round {
    Round(row.nextAttemptAt, row.nextAttemptAt, "", row.nextAttemptAt + staleSeconds as real + slack)
  }

  lemma QuickRoundWaits(row: OutboxRow, maxAttempts: nat, staleSeconds: nat, slack: real)
    requires row.status.Claimable() && row.attempts + 1 < maxAttempts && slack > 0.0
    ensures var next := AfterRound(row, QuickRound(row, staleSeconds, slack), maxAttempts);
            && next.status.Claimable() && next.attempts == row.attempts + 1
            && next.nextAttemptAt
               == row.nextAttemptAt + Wait(row.attempts + 1, staleSeconds) as real
                  + if Backoff(row.attempts + 1).None? then slack else 0.0
  {
  }

  /** The quickest failing run from a row: every claim at its due time, every failure at once, every
      recovery `slack` after the row turned stale. */
  lemma {:induction false} QuickestRun(row: OutboxRow, maxAttempts: nat, staleSeconds: nat, slack: real)
    returns (rounds: seq<Round>)
    requires row.status.Claimable() && row.attempts < maxAttempts && slack > 0.0
    ensures FailingRun(row, rounds, maxAttempts, staleSeconds)
    ensures |rounds| == maxAttempts - row.attempts
    ensures rounds[|rounds| - 1].claimAt
         == row.nextAttemptAt + TotalWait(row.attempts, |rounds| - 1, staleSeconds) as real
            + Scaled(Overflows(row.attempts, |rounds| - 1), slack)
    decreases maxAttempts - row.attempts
  {
    var round := QuickRound(row, staleSeconds, slack);
    var next := AfterRound(row, round, maxAttempts);
    if row.attempts + 1 == maxAttempts {
      rounds := [round];
      assert rounds[1..] == [];
    } else {
      QuickRoundWaits(row, maxAttempts, staleSeconds, slack);
      var rest := QuickestRun(next, maxAttempts, staleSeconds, slack);
      rounds := [round] + rest;
      assert rounds[1..] == rest;
      assert rounds[|rounds| - 1] == rest[|rest| - 1];
    }
  }

  /** Whatever the maximum, a fresh row that always fails is dead exactly after its `maxAttempts`-th
      claim, and it can get there. Before, it is failed, or pending again after a raise. */
  lemma DeadAfterExactlyMaxAttempts(row: OutboxRow, rounds: seq<Round>, maxAttempts: nat, staleSeconds: nat)
    requires row.status.Pending? && row.attempts == 0 && maxAttempts >= 1
    requires FailingRun(row, rounds, maxAttempts, staleSeconds)
    ensures var after := AfterRun(row, rounds, maxAttempts);
            && |rounds| <= maxAttempts
            && (after.status.Dead? <==> |rounds| == maxAttempts)
            && after.attempts == |rounds|
            && (0 < |rounds| < maxAttempts ==>
                  if |rounds| <= MAX_FLOAT_EXPONENT then after.status.Failed? else after.status.Pending?)
  {
    RunFromAttempts(row, rounds, maxAttempts, staleSeconds);
  }

  /** For every maximum some run takes a fresh row to its death, raises and recoveries included. */
  lemma DeathIsAlwaysReached(row: OutboxRow, maxAttempts: nat, staleSeconds: nat) returns (rounds: seq<Round>)
    requires row.status.Pending? && row.attempts == 0 && maxAttempts >= 1
    ensures FailingRun(row, rounds, maxAttempts, staleSeconds)
    ensures AfterRun(row, rounds, maxAttempts).status.Dead?
  {
    rounds := QuickestRun(row, maxAttempts, staleSeconds, 1.0);
    RunFromAttempts(row, rounds, maxAttempts, staleSeconds);
  }

  // --- the waits in seconds ---------------------------------------------------------------------

  lemma SmallWait(attempts: nat, staleSeconds: nat)
    requires 1 <= attempts <= 8
    ensures Wait(attempts, staleSeconds) == Pow2(attempts)
  {
    PowersGrow(attempts, 8);
  }

  lemma {:induction false} PowersBelowTheCap(done: nat, n: nat, staleSeconds: nat)
    requires done + n <= 8
    ensures TotalWait(done, n, staleSeconds) == Pow2(done + n + 1) - Pow2(done + 1)
    decreases n
  {
    if n > 0 {
      SmallWait(done + 1, staleSeconds);
      PowersBelowTheCap(done + 1, n - 1, staleSeconds);
    }
  }

  lemma {:induction false} PowersGrow(a: nat, b: nat)
    requires a <= b
    ensures Pow2(a) <= Pow2(b)
    ensures Pow2(8) == 256
    decreases b
  {
    assert Pow2(4) == 16;
    assert Pow2(6) == 64;
    if a < b {
      PowersGrow(a, b - 1);
    }
  }

  lemma {:induction false} CappedWaits(done: nat, n: nat, staleSeconds: nat)
    requires 8 <= done && done + n <= MAX_FLOAT_EXPONENT
    ensures TotalWait(done, n, staleSeconds) == BACKOFF_CAP_SECONDS * n
    decreases n
  {
    if n > 0 {
      PowersGrow(9, done + 1);
      CappedWaits(done + 1, n - 1, staleSeconds);
    }
  }

  lemma {:induction false} WaitsSplit(done: nat, a: nat, b: nat, staleSeconds: nat)
    ensures TotalWait(done, a + b, staleSeconds)
         == TotalWait(done, a, staleSeconds) + TotalWait(done + a, b, staleSeconds)
    decreases a
  {
    if a > 0 {
      WaitsSplit(done + 1, a - 1, b, staleSeconds);
    }
  }

  lemma {:induction false} StaleWaits(done: nat, n: nat, staleSeconds: nat)
    requires done >= MAX_FLOAT_EXPONENT
    ensures TotalWait(done, n, staleSeconds) == staleSeconds * n
    ensures Overflows(done, n) == n
    decreases n
  {
    if n > 0 {
      StaleWaits(done + 1, n - 1, staleSeconds);
      assert staleSeconds * n == staleSeconds * (n - 1) + staleSeconds;
    }
  }

  lemma {:induction false} NoOverflows(done: nat, n: nat)
    requires done + n <= MAX_FLOAT_EXPONENT
    ensures Overflows(done, n) == 0
    decreases n
  {
    if n > 0 {
      NoOverflows(done + 1, n - 1);
    }
  }

  /** The last of the `maxAttempts` claims comes no sooner than the summed waits after the first due
      time, and some run comes as close to that as one likes, or reaches it if nothing overflows:
      2^m - 2 seconds up to nine attempts, then 300 seconds more for each further one, and from the
      1024th attempt on the stale time instead. */
  lemma BackoffTotals(row: OutboxRow, rounds: seq<Round>, maxAttempts: nat, staleSeconds: nat, slack: real)
    returns (quickest: seq<Round>)
    requires row.status.Pending? && row.attempts == 0 && maxAttempts >= 1 && slack > 0.0
    requires FailingRun(row, rounds, maxAttempts, staleSeconds) && |rounds| == maxAttempts
    ensures var total := TotalWait(0, maxAttempts - 1, staleSeconds);
            && rounds[maxAttempts - 1].claimAt >= row.nextAttemptAt + total as real
            && FailingRun(row, quickest, maxAttempts, staleSeconds) && |quickest| == maxAttempts
            && quickest[maxAttempts - 1].claimAt
               == row.nextAttemptAt + total as real
                  + Scaled(if maxAttempts <= 1024 then 0 else maxAttempts - 1024, slack)
            && (maxAttempts <= 9 ==> total == Pow2(maxAttempts) - 2)
            && (9 <= maxAttempts <= 1024 ==> total == 510 + 300 * (maxAttempts - 9))
            && (1024 <= maxAttempts ==> total == 305_010 + staleSeconds * (maxAttempts - 1024))
  {
    RunFromAttempts(row, rounds, maxAttempts, staleSeconds);
    quickest := QuickestRun(row, maxAttempts, staleSeconds, slack);
    TotalsInSeconds(maxAttempts, staleSeconds);
  }

  lemma TotalsInSeconds(maxAttempts: nat, staleSeconds: nat)
    requires maxAttempts >= 1
    ensures var total := TotalWait(0, maxAttempts - 1, staleSeconds);
            && (maxAttempts <= 9 ==> total == Pow2(maxAttempts) - 2)
            && (9 <= maxAttempts <= 1024 ==> total == 510 + 300 * (maxAttempts - 9))
            && (1024 <= maxAttempts ==> total == 305_010 + staleSeconds * (maxAttempts - 1024))
    ensures Overflows(0, maxAttempts - 1) == if maxAttempts <= 1024 then 0 else maxAttempts - 1024
  {
    if maxAttempts <= 9 {
      assert Pow2(1) == 2;
      PowersBelowTheCap(0, maxAttempts - 1, staleSeconds);
    }
    if 9 <= maxAttempts <= 1024 {
      TotalUpTo(maxAttempts, staleSeconds);
    }
    if maxAttempts <= 1024 {
      NoOverflows(0, maxAttempts - 1);
    } else {
      TotalUpTo(1024, staleSeconds);
      WaitsSplit(0, 1023, maxAttempts - 1024, staleSeconds);
      StaleWaits(1023, maxAttempts - 1024, staleSeconds);
      OverflowsSplit(0, 1023, maxAttempts - 1024);
      NoOverflows(0, 1023);
    }
  }

  lemma TotalUpTo(maxAttempts: nat, staleSeconds: nat)
    requires 9 <= maxAttempts <= 1024
    ensures TotalWait(0, maxAttempts - 1, staleSeconds) == 510 + 300 * (maxAttempts - 9)
  {
    assert Pow2(1) == 2;
    PowersBelowTheCap(0, 8, staleSeconds);
    PowersGrow(8, 8);
    WaitsSplit(0, 8, maxAttempts - 9, staleSeconds);
    CappedWaits(8, maxAttempts - 9, staleSeconds);
  }

  lemma {:induction false} OverflowsSplit(done: nat, a: nat, b: nat)
    ensures Overflows(done, a + b) == Overflows(done, a) + Overflows(done + a, b)
    decreases a
  {
    if a > 0 {
      OverflowsSplit(done + 1, a - 1, b);
    }
  }
}
