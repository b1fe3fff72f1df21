/** What the history of a run says about one outbox row: who may claim it again, what its
    attempt counter counts, and which counters failed rows can have. */
module ClaimHistory {
  import opened Prelude
  import opened OutboxTable
  import opened DispatchProtocol

  /** This step is a compare-and-swap that wins row `r`. */
  predicate Wins(s: System, step: Step, r: nat) {
    && step.CompareAndSwap?
    && |Apply(s, step).claims| == |s.claims| + 1
    && Apply(s, step).claims[|s.claims|].row == r
  }

  predicate IsProcessing(ob: Outbox, r: nat) {
    r in ob.rows && ob.rows[r].status.Processing?
  }

  /** This step is a mark by a claim of `r`, a stale recovery of `r`, or a redrive of `r`. */
  predicate Frees(s: System, step: Step, r: nat) {
    match step
    case Work(t, action) =>
      && (action.Mark? || action.RejectPayload?)
      && t < |s.claims| && s.claims[t].row == r && ApplyWork(s, t, action).claims[t].phase.Done?
    case Take(Recover(now, staleSeconds)) => r in s.outbox.rows && IsStale(s.outbox.rows[r], now, staleSeconds)
    case Take(RedriveRows(selection, _)) => RedriveSelects(s.outbox, selection, r)
    case _ => false
  }

  predicate Redrives(s: System, step: Step, r: nat) {
    step.Take? && step.how.RedriveRows? && RedriveSelects(s.outbox, step.how.selection, r)
  }

  predicate Gone(ob: Outbox, r: nat) {
    r < ob.nextId && r !in ob.rows
  }

  lemma ProcessingEndsByFreeing(s: System, step: Step, r: nat)
    requires WellFormed(s) && IsProcessing(s.outbox, r)
    ensures IsProcessing(Apply(s, step).outbox, r) || Gone(Apply(s, step).outbox, r) || Frees(s, step, r)
  {
  }

  lemma GoneStaysGone(s: System, step: Step, r: nat)
    requires WellFormed(s) && Gone(s.outbox, r)
    ensures Gone(Apply(s, step).outbox, r)
  {
    OutboxEvolves(s, step);
  }

  lemma {:induction false} RunIsWellFormed(steps: seq<Step>)
    ensures WellFormed(Run(INITIAL, steps))
  {
    if steps == [] {
    } else {
      RunIsWellFormed(steps[..|steps| - 1]);
      StepKeepsWellFormed(Run(INITIAL, steps[..|steps| - 1]), steps[|steps| - 1]);
    }
  }

  /** The system before step `i`. */
  function At(steps: seq<Step>, i: nat): System
    requires i <= |steps|
  {
    Run(INITIAL, steps[..i])
  }

  lemma AtNext(steps: seq<Step>, i: nat)
    requires i < |steps|
    ensures At(steps, i + 1) == Apply(At(steps, i), steps[i])
    ensures WellFormed(At(steps, i))
  {
    assert steps[..i + 1][..i] == steps[..i];
    RunIsWellFormed(steps[..i]);
  }

  ghost predicate FreedBetween(steps: seq<Step>, i: nat, n: nat, r: nat)
    requires n <= |steps|
  {
    exists m :: i < m < n && Frees(At(steps, m), steps[m], r)
  }

  lemma WinningMakesProcessing(s: System, step: Step, r: nat)
    requires Wins(s, step, r)
    ensures r in s.outbox.rows && !s.outbox.rows[r].status.Processing?
    ensures IsProcessing(Apply(s, step).outbox, r)
  {
  }

  ghost predicate HeldGoneOrFreed(steps: seq<Step>, i: nat, n: nat, r: nat)
    requires n <= |steps|
  {
    IsProcessing(At(steps, n).outbox, r) || Gone(At(steps, n).outbox, r) || FreedBetween(steps, i, n, r)
  }

  lemma FreedStaysFreed(steps: seq<Step>, i: nat, n: nat, r: nat)
    requires i < n < |steps|
    requires FreedBetween(steps, i, n, r) || Frees(At(steps, n), steps[n], r)
    ensures FreedBetween(steps, i, n + 1, r)
  {
    if !Frees(At(steps, n), steps[n], r) {
      var m :| i < m < n && Frees(At(steps, m), steps[m], r);
      assert i < m < n + 1;
    }
  }

  lemma HeldOneMoreStep(steps: seq<Step>, i: nat, n: nat, r: nat)
    requires i < n < |steps| && HeldGoneOrFreed(steps, i, n, r)
    ensures HeldGoneOrFreed(steps, i, n + 1, r)
  {
    AtNext(steps, n);
    if FreedBetween(steps, i, n, r) || Frees(At(steps, n), steps[n], r) {
      FreedStaysFreed(steps, i, n, r);
    } else if IsProcessing(At(steps, n).outbox, r) {
      ProcessingEndsByFreeing(At(steps, n), steps[n], r);
    } else {
      GoneStaysGone(At(steps, n), steps[n], r);
    }
  }

  lemma {:induction false} ClaimedUntilFreed(steps: seq<Step>, i: nat, n: nat, r: nat)
    requires i < n <= |steps|
    requires Wins(At(steps, i), steps[i], r)
    ensures HeldGoneOrFreed(steps, i, n, r)
    decreases n
  {
    if n == i + 1 {
      AtNext(steps, i);
      WinningMakesProcessing(At(steps, i), steps[i], r);
    } else {
      ClaimedUntilFreed(steps, i, n - 1, r);
      HeldOneMoreStep(steps, i, n - 1, r);
    }
  }

  /** No double claim: between two claims of one row lies a mark, a stale recovery or a redrive of it. */
  lemma ClaimsAreSeparated(steps: seq<Step>, i: nat, j: nat, r: nat)
    requires i < j < |steps|
    requires Wins(At(steps, i), steps[i], r)
    requires Wins(At(steps, j), steps[j], r)
    ensures exists m :: i < m < j && Frees(At(steps, m), steps[m], r)
  {
    ClaimedUntilFreed(steps, i, j, r);
    WinningMakesProcessing(At(steps, j), steps[j], r);
    assert !Gone(At(steps, j).outbox, r);
  }

  // --- the attempt counter ------------------------------------------------------------

  /** Successful claims of `r` in this run since its insertion or its last redrive. */
  function ClaimsSinceReset(steps: seq<Step>, r: nat): nat {
    if steps == [] then 0
    else
      var front := steps[..|steps| - 1];
      var step := steps[|steps| - 1];
      var s := Run(INITIAL, front);
      if Wins(s, step, r) then ClaimsSinceReset(front, r) + 1
      else if Redrives(s, step, r) then 0
      else ClaimsSinceReset(front, r)
  }

  lemma WorkKeepsAttempts(s: System, t: nat, action: Action, r: nat)
    ensures ApplyWork(s, t, action).outbox.rows.Keys == s.outbox.rows.Keys
    ensures r in s.outbox.rows ==> ApplyWork(s, t, action).outbox.rows[r].attempts == s.outbox.rows[r].attempts
  {
  }

  lemma CasCountsAnAttempt(s: System, worker: nat, r: nat)
    ensures ApplyCas(s, worker).outbox.rows.Keys == s.outbox.rows.Keys
    ensures Wins(s, CompareAndSwap(worker), r) ==> r in s.outbox.rows
    ensures r in s.outbox.rows ==>
              ApplyCas(s, worker).outbox.rows[r].attempts ==
                s.outbox.rows[r].attempts + (if Wins(s, CompareAndSwap(worker), r) then 1 else 0)
  {
  }

  lemma StepCountsAttempts(s: System, step: Step, r: nat)
    requires WellFormed(s)
    ensures r in s.outbox.rows && r in Apply(s, step).outbox.rows ==>
              Apply(s, step).outbox.rows[r].attempts ==
                (if Wins(s, step, r) then s.outbox.rows[r].attempts + 1
                 else if Redrives(s, step, r) then 0
                 else s.outbox.rows[r].attempts)
    ensures Wins(s, step, r) ==> r in s.outbox.rows
    ensures r >= s.outbox.nextId && r in Apply(s, step).outbox.rows ==> Apply(s, step).outbox.rows[r].attempts == 0
    ensures r < s.outbox.nextId && r in Apply(s, step).outbox.rows ==> r in s.outbox.rows
    ensures s.outbox.nextId <= Apply(s, step).outbox.nextId
  {
    OutboxEvolves(s, step);
    match step
    case CompareAndSwap(worker) => CasCountsAnAttempt(s, worker, r);
    case Work(t, action) => WorkKeepsAttempts(s, t, action, r);
    case _ =>
  }

  lemma {:induction false} AttemptsCountClaims(steps: seq<Step>, r: nat)
    ensures r in Run(INITIAL, steps).outbox.rows ==>
              Run(INITIAL, steps).outbox.rows[r].attempts == ClaimsSinceReset(steps, r)
    ensures r >= Run(INITIAL, steps).outbox.nextId ==> ClaimsSinceReset(steps, r) == 0
  {
    if steps == [] {
    } else {
      var front := steps[..|steps| - 1];
      AttemptsCountClaims(front, r);
      RunIsWellFormed(front);
      StepCountsAttempts(Run(INITIAL, front), steps[|steps| - 1], r);
    }
  }

  // --- counters of failed rows ----------------------------------------------------------

  predicate UsesLimit(step: Step, maxAttempts: nat) {
    step.Work? && (step.action.Mark? || step.action.RejectPayload?) ==> step.action.maxAttempts == maxAttempts
  }

  ghost predicate FailedBelow(ob: Outbox, maxAttempts: nat) {
    forall id :: id in ob.rows && ob.rows[id].status.Failed? ==> ob.rows[id].attempts < maxAttempts
  }

  /** Every failed row still has attempts left, whatever else happens. */
  lemma {:induction false} FailedRowsHaveAttemptsLeft(steps: seq<Step>, maxAttempts: nat)
    requires forall i :: 0 <= i < |steps| ==> UsesLimit(steps[i], maxAttempts)
    ensures FailedBelow(Run(INITIAL, steps).outbox, maxAttempts)
  {
    if steps == [] {
    } else {
      var front := steps[..|steps| - 1];
      FailedRowsHaveAttemptsLeft(front, maxAttempts);
      assert UsesLimit(steps[|steps| - 1], maxAttempts);
      StepKeepsFailedBelow(Run(INITIAL, front), steps[|steps| - 1], maxAttempts);
    }
  }

  lemma StepKeepsFailedBelow(s: System, step: Step, maxAttempts: nat)
    requires FailedBelow(s.outbox, maxAttempts) && UsesLimit(step, maxAttempts)
    ensures FailedBelow(Apply(s, step).outbox, maxAttempts)
  {
  }

  predicate IsRedrive(step: Step) {
    step.Take? && step.how.RedriveRows?
  }

  /** The claim is past the audit check and its channel has not accepted the notification. */
  predicate PastCheck(c: Claim) {
    c.phase.Cleared? || c.phase == Returned(false) || c.phase == Logged(false)
  }

  /** A claim that may still end in a failed mark: it is past the audit check, or it is held and its
      payload does not parse or no success of its key is audited yet. */
  predicate MayFail(audited: set<string>, c: Claim) {
    PastCheck(c) || (c.phase.Held? && (!c.payloadOk || c.key !in audited))
  }

  /** No row the selection resets is held by a claim that may still fail. */
  predicate ResetsNoOpenClaim(s: System, selection: Selection) {
    forall t :: 0 <= t < |s.claims| && MayFail(s.audited, s.claims[t]) ==> !RedriveSelects(s.outbox, selection, s.claims[t].row)
  }

  predicate SafeStep(s: System, step: Step) {
    IsRedrive(step) ==> ResetsNoOpenClaim(s, step.how.selection)
  }

  ghost predicate FailedAttempted(ob: Outbox) {
    forall id :: id in ob.rows && ob.rows[id].status.Failed? ==> ob.rows[id].attempts >= 1
  }

  /** Failed rows, and the rows of claims that may still fail, have been attempted. */
  ghost predicate OpenClaimsCounted(s: System) {
    && (forall t :: 0 <= t < |s.claims| && MayFail(s.audited, s.claims[t]) && s.claims[t].row in s.outbox.rows ==>
          s.outbox.rows[s.claims[t].row].attempts >= 1)
    && FailedAttempted(s.outbox)
  }

  /** The same for every claim, however it ended. */
  ghost predicate AttemptedOnce(s: System) {
    && OpenClaimsCounted(s)
    && forall t :: 0 <= t < |s.claims| && s.claims[t].row in s.outbox.rows ==>
         s.outbox.rows[s.claims[t].row].attempts >= 1
  }

  lemma WorkOpensNoClaim(s: System, u: nat, action: Action, t: nat)
    requires t < |s.claims| && MayFail(ApplyWork(s, u, action).audited, ApplyWork(s, u, action).claims[t])
    ensures MayFail(s.audited, s.claims[t])
  {
  }

  lemma OpenClaimsWereOpen(s: System, step: Step, t: nat)
    requires t < |s.claims| && MayFail(Apply(s, step).audited, Apply(s, step).claims[t])
    ensures MayFail(s.audited, s.claims[t])
  {
    if step.Work? {
      WorkOpensNoClaim(s, step.claim, step.action, t);
    } else {
      assert Apply(s, step).claims[t] == s.claims[t] && Apply(s, step).audited == s.audited;
    }
  }

  lemma StepKeepsOpenClaims(s: System, step: Step, t: nat)
    requires WellFormed(s) && OpenClaimsCounted(s) && SafeStep(s, step)
    requires t < |Apply(s, step).claims| && Apply(s, step).claims[t].row in Apply(s, step).outbox.rows
    requires MayFail(Apply(s, step).audited, Apply(s, step).claims[t])
    ensures Apply(s, step).outbox.rows[Apply(s, step).claims[t].row].attempts >= 1
  {
    StepKeepsPhases(s, step, t);
    StepCountsAttempts(s, step, Apply(s, step).claims[t].row);
    if t < |s.claims| {
      assert RowOk(s.outbox, s.claims[t]);
      OpenClaimsWereOpen(s, step, t);
    }
  }

  lemma StepKeepsFailedAttempted(s: System, step: Step, id: nat)
    requires WellFormed(s) && OpenClaimsCounted(s) && SafeStep(s, step)
    requires id in Apply(s, step).outbox.rows && Apply(s, step).outbox.rows[id].status.Failed?
    ensures Apply(s, step).outbox.rows[id].attempts >= 1
  {
    StepCountsAttempts(s, step, id);
    FailedComesFromAClaim(s, step, id);
  }

  lemma StepKeepsCounted(s: System, step: Step)
    requires WellFormed(s) && OpenClaimsCounted(s) && SafeStep(s, step)
    ensures OpenClaimsCounted(Apply(s, step))
  {
    var s' := Apply(s, step);
    forall t | 0 <= t < |s'.claims| && MayFail(s'.audited, s'.claims[t]) && s'.claims[t].row in s'.outbox.rows
      ensures s'.outbox.rows[s'.claims[t].row].attempts >= 1
    {
      StepKeepsOpenClaims(s, step, t);
    }
    forall id | id in s'.outbox.rows && s'.outbox.rows[id].status.Failed? ensures s'.outbox.rows[id].attempts >= 1 {
      StepKeepsFailedAttempted(s, step, id);
    }
  }

  lemma StepKeepsClaimsAttempted(s: System, step: Step, t: nat)
    requires WellFormed(s) && AttemptedOnce(s) && !IsRedrive(step)
    requires t < |Apply(s, step).claims| && Apply(s, step).claims[t].row in Apply(s, step).outbox.rows
    ensures Apply(s, step).outbox.rows[Apply(s, step).claims[t].row].attempts >= 1
  {
    StepKeepsPhases(s, step, t);
    StepCountsAttempts(s, step, Apply(s, step).claims[t].row);
    assert t < |s.claims| ==> RowOk(s.outbox, s.claims[t]);
  }

  lemma StepKeepsAttemptedOnce(s: System, step: Step)
    requires WellFormed(s) && AttemptedOnce(s) && !IsRedrive(step)
    ensures AttemptedOnce(Apply(s, step))
  {
    var s' := Apply(s, step);
    StepKeepsCounted(s, step);
    forall t | 0 <= t < |s'.claims| && s'.claims[t].row in s'.outbox.rows
      ensures s'.outbox.rows[s'.claims[t].row].attempts >= 1
    {
      StepKeepsClaimsAttempted(s, step, t);
    }
  }

  /** A row that is failed after a step was failed before it or has just been marked by an open claim of it. */
  lemma FailedComesFromAClaim(s: System, step: Step, id: nat)
    requires WellFormed(s)
    requires id in Apply(s, step).outbox.rows && Apply(s, step).outbox.rows[id].status.Failed?
    ensures id in s.outbox.rows
    ensures || s.outbox.rows[id].status.Failed?
            || exists t :: 0 <= t < |s.claims| && s.claims[t].row == id && MayFail(s.audited, s.claims[t])
  {
  }

  /** Every redrive of the run resets no row under an open claim. */
  predicate SafeRedrives(s: System, steps: seq<Step>) {
    steps == [] ||
    (SafeRedrives(s, steps[..|steps| - 1]) && SafeStep(Run(s, steps[..|steps| - 1]), steps[|steps| - 1]))
  }

  lemma {:induction false} SafeRunKeepsCounted(s: System, steps: seq<Step>)
    requires WellFormed(s) && OpenClaimsCounted(s) && SafeRedrives(s, steps)
    ensures WellFormed(Run(s, steps)) && OpenClaimsCounted(Run(s, steps))
  {
    if steps != [] {
      var front := steps[..|steps| - 1];
      SafeRunKeepsCounted(s, front);
      StepKeepsWellFormed(Run(s, front), steps[|steps| - 1]);
      StepKeepsCounted(Run(s, front), steps[|steps| - 1]);
    }
  }

  /** In every run whose redrives reset no row under an open claim, a failed row has been attempted. */
  lemma FailedRowsWereAttempted(steps: seq<Step>)
    requires SafeRedrives(INITIAL, steps)
    ensures OpenClaimsCounted(Run(INITIAL, steps))
  {
    SafeRunKeepsCounted(INITIAL, steps);
  }

  /** Without redrives every claimed row counts at least one attempt, also after the claim ended. */
  lemma {:induction false} ClaimedRowsWereAttempted(steps: seq<Step>)
    requires forall i :: 0 <= i < |steps| ==> !IsRedrive(steps[i])
    ensures AttemptedOnce(Run(INITIAL, steps))
  {
    if steps != [] {
      var front := steps[..|steps| - 1];
      ClaimedRowsWereAttempted(front);
      RunIsWellFormed(front);
      StepKeepsAttemptedOnce(Run(INITIAL, front), steps[|steps| - 1]);
    }
  }

  // --- exactly which redrives are harmless ------------------------------------------------------

  /** An open claim can always be run to a failed mark by its own worker alone; with one attempt
      allowed that mark never raises. */
  lemma FailOpenClaim(s: System, t: nat) returns (steps: seq<Step>)
    requires t < |s.claims| && MayFail(s.audited, s.claims[t])
    ensures forall i :: 0 <= i < |steps| ==> steps[i].Work? && steps[i].claim == t
    ensures Run(s, steps).outbox == MarkFailed(s.outbox, s.claims[t].row, 0.0, "", 1).0
    decreases if s.claims[t].phase.Held? then 3 else if s.claims[t].phase.Cleared? then 2
              else if s.claims[t].phase.Returned? then 1 else 0
  {
    if s.claims[t].phase.Held? && !s.claims[t].payloadOk {
      steps := [Work(t, RejectPayload(0.0, "", 1))];
      assert steps[..0] == [];
    } else if s.claims[t].phase == Logged(false) {
      steps := [Work(t, Mark(0.0, "", 1))];
      assert steps[..0] == [];
    } else {
      var action := if s.claims[t].phase.Held? then CheckAudit else if s.claims[t].phase.Cleared? then Send(false) else Log;
      var rest := FailOpenClaim(Apply(s, Work(t, action)), t);
      steps := [Work(t, action)] + rest;
      RunCons(s, Work(t, action), rest);
    }
  }

  predicate NoRedrive(steps: seq<Step>) {
    forall i :: 0 <= i < |steps| ==> !IsRedrive(steps[i])
  }

  /** However the run goes on without further redrives, failed rows will have been attempted. */
  ghost predicate StaysAttempted(s: System) {
    forall steps :: NoRedrive(steps) ==> FailedAttempted(Run(s, steps).outbox)
  }

  lemma {:induction false} NoRedriveIsSafe(s: System, steps: seq<Step>)
    requires NoRedrive(steps)
    ensures SafeRedrives(s, steps)
  {
    if steps != [] {
      NoRedriveIsSafe(s, steps[..|steps| - 1]);
    }
  }

  /** A redrive is harmless to the attempt counters of failed rows, in every continuation without
      further redrives, exactly when it resets no row that an open claim still holds. */
  lemma RedriveIsHarmlessExactly(s: System, selection: Selection, now: Time)
    requires WellFormed(s) && OpenClaimsCounted(s)
    ensures StaysAttempted(Apply(s, Take(RedriveRows(selection, now)))) <==> ResetsNoOpenClaim(s, selection)
  {
    var step := Take(RedriveRows(selection, now));
    var s' := Apply(s, step);
    if ResetsNoOpenClaim(s, selection) {
      StepKeepsWellFormed(s, step);
      StepKeepsCounted(s, step);
      forall steps | NoRedrive(steps) ensures FailedAttempted(Run(s', steps).outbox) {
        NoRedriveIsSafe(s', steps);
        SafeRunKeepsCounted(s', steps);
      }
    } else {
      var t :| 0 <= t < |s.claims| && MayFail(s.audited, s.claims[t]) && RedriveSelects(s.outbox, selection, s.claims[t].row);
      var steps := FailOpenClaim(s', t);
      var r := s.claims[t].row;
      assert s'.outbox.rows[r].attempts == 0;
      assert Run(s', steps).outbox.rows[r].status.Failed?;
      assert NoRedrive(steps) && !FailedAttempted(Run(s', steps).outbox);
    }
  }

  /** With redrives it need not have been: redriving processing rows resets the counter of a row that
      a worker still holds, and that worker's late mark then fails a row with zero attempts. */
  lemma LateMarkFailsAnUnattemptedRow(s: System, t: nat, now: Time, error: string, maxAttempts: nat)
    requires InPhase(s, t, Logged(false)) && IsProcessing(s.outbox, s.claims[t].row) && maxAttempts >= 1
    ensures var redriven := Apply(s, Take(RedriveRows(AllMatching(OutboxStatus.Processing), now)));
            var marked := Apply(redriven, Work(t, Mark(now, error, maxAttempts)));
            && s.claims[t].row in marked.outbox.rows
            && marked.outbox.rows[s.claims[t].row].status.Failed?
            && marked.outbox.rows[s.claims[t].row].attempts == 0
  {
    var redriven := Apply(s, Take(RedriveRows(AllMatching(OutboxStatus.Processing), now)));
    assert redriven.outbox.rows[s.claims[t].row].attempts == 0;
    assert redriven.claims == s.claims;
  }
}
