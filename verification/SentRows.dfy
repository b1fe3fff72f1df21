/** Which steps take an outbox row out of sent, and which sent rows are final. Marking never checks
    that the caller still holds the row, so a late failure can undo somebody else's success. */
module SentRows {
  import opened Prelude
  import opened OutboxTable
  import opened DispatchProtocol
  import opened ClaimHistory

  predicate IsSent(ob: Outbox, r: nat) {
    r in ob.rows && ob.rows[r].status.Sent?
  }

  /** A claim of `r` records a failure, and recording it does not raise. */
  predicate FailsLate(s: System, step: Step, r: nat)
    requires r in s.outbox.rows
  {
    && step.Work? && step.claim < |s.claims| && s.claims[step.claim].row == r
    && ((step.action.Mark? && s.claims[step.claim].phase == Logged(false))
        || (step.action.RejectPayload? && s.claims[step.claim].phase.Held? && !s.claims[step.claim].payloadOk))
    && (s.outbox.rows[r].attempts >= step.action.maxAttempts || s.outbox.rows[r].attempts <= MAX_FLOAT_EXPONENT)
  }

  /** A redrive or deletion that selects the row, or a late failure. */
  predicate Unseats(s: System, step: Step, r: nat)
    requires r in s.outbox.rows
  {
    match step
    case Take(RedriveRows(selection, _)) => RedriveSelects(s.outbox, selection, r)
    case Take(DeleteRows(selection)) => DeleteSelects(s.outbox, selection, r)
    case _ => FailsLate(s, step, r)
  }

  /** A sent row stays sent through a step exactly when the step does not unseat it. */
  lemma SentSurvivesExactly(s: System, step: Step, r: nat)
    requires WellFormed(s) && IsSent(s.outbox, r)
    ensures IsSent(Apply(s, step).outbox, r) <==> !Unseats(s, step, r)
  {
  }

  /** Sent before the run and after each of its steps. */
  ghost predicate SentThroughout(s: System, steps: seq<Step>, r: nat) {
    forall k :: 0 <= k <= |steps| ==> IsSent(Run(s, steps[..k]).outbox, r)
  }

  ghost predicate NeverUnseated(s: System, steps: seq<Step>, r: nat) {
    forall k :: 0 <= k < |steps| && r in Run(s, steps[..k]).outbox.rows ==> !Unseats(Run(s, steps[..k]), steps[k], r)
  }

  lemma RunNext(s: System, steps: seq<Step>, k: nat)
    requires k < |steps|
    ensures Run(s, steps[..k + 1]) == Apply(Run(s, steps[..k]), steps[k])
  {
    assert steps[..k + 1][..k] == steps[..k];
  }

  lemma {:induction false} RunFromWellFormed(s: System, steps: seq<Step>)
    requires WellFormed(s)
    ensures WellFormed(Run(s, steps))
  {
    if steps != [] {
      RunFromWellFormed(s, steps[..|steps| - 1]);
      StepKeepsWellFormed(Run(s, steps[..|steps| - 1]), steps[|steps| - 1]);
    }
  }

  lemma {:induction false} SentUpTo(s: System, steps: seq<Step>, r: nat, k: nat)
    requires WellFormed(s) && IsSent(s.outbox, r) && NeverUnseated(s, steps, r) && k <= |steps|
    ensures WellFormed(Run(s, steps[..k])) && IsSent(Run(s, steps[..k]).outbox, r)
  {
    if k > 0 {
      SentUpTo(s, steps, r, k - 1);
      RunNext(s, steps, k - 1);
      StepKeepsWellFormed(Run(s, steps[..k - 1]), steps[k - 1]);
      SentSurvivesExactly(Run(s, steps[..k - 1]), steps[k - 1], r);
    }
  }

  /** Over whole runs: the row is sent throughout exactly when no step of the run unseats it. */
  lemma SentThroughoutExactly(s: System, steps: seq<Step>, r: nat)
    requires WellFormed(s) && IsSent(s.outbox, r)
    ensures SentThroughout(s, steps, r) <==> NeverUnseated(s, steps, r)
  {
    if NeverUnseated(s, steps, r) {
      forall k | 0 <= k <= |steps| ensures IsSent(Run(s, steps[..k]).outbox, r) {
        SentUpTo(s, steps, r, k);
      }
    } else {
      var k :| 0 <= k < |steps| && r in Run(s, steps[..k]).outbox.rows && Unseats(Run(s, steps[..k]), steps[k], r);
      RunNext(s, steps, k);
      RunFromWellFormed(s, steps[..k]);
      if IsSent(Run(s, steps[..k]).outbox, r) {
        SentSurvivesExactly(Run(s, steps[..k]), steps[k], r);
        assert !IsSent(Run(s, steps[..k + 1]).outbox, r);
      }
    }
  }

  // --- final rows -------------------------------------------------------------------------------

  predicate HasOpenClaim(s: System, r: nat) {
    exists t :: 0 <= t < |s.claims| && s.claims[t].row == r && MayFail(s.audited, s.claims[t])
  }

  /** Steps of workers, emits and stale recovery, not of the operator. */
  predicate NoOperator(steps: seq<Step>) {
    forall i :: 0 <= i < |steps| ==> !(steps[i].Take? && (steps[i].how.RedriveRows? || steps[i].how.DeleteRows?))
  }

  /** Whatever workers do from here on, the row stays sent. */
  ghost predicate SentForGood(s: System, r: nat) {
    forall steps :: NoOperator(steps) ==> IsSent(Run(s, steps).outbox, r)
  }

  lemma StepKeepsFinal(s: System, step: Step, r: nat)
    requires WellFormed(s) && IsSent(s.outbox, r) && !HasOpenClaim(s, r) && NoOperator([step])
    ensures IsSent(Apply(s, step).outbox, r) && !HasOpenClaim(Apply(s, step), r)
  {
    assert [step][0] == step;
    SentSurvivesExactly(s, step, r);
    var s' := Apply(s, step);
    forall t | 0 <= t < |s'.claims| && s'.claims[t].row == r ensures !MayFail(s'.audited, s'.claims[t]) {
      StepKeepsPhases(s, step, t);
      if t < |s.claims| && MayFail(s'.audited, s'.claims[t]) {
        OpenClaimsWereOpen(s, step, t);
      }
    }
  }

  lemma {:induction false} RunKeepsFinal(s: System, steps: seq<Step>, r: nat)
    requires WellFormed(s) && IsSent(s.outbox, r) && !HasOpenClaim(s, r) && NoOperator(steps)
    ensures WellFormed(Run(s, steps)) && IsSent(Run(s, steps).outbox, r) && !HasOpenClaim(Run(s, steps), r)
  {
    if steps != [] {
      var front, last := steps[..|steps| - 1], steps[|steps| - 1];
      RunKeepsFinal(s, front, r);
      StepKeepsWellFormed(Run(s, front), last);
      StepKeepsFinal(Run(s, front), last, r);
    }
  }

  lemma FinalWithoutOpenClaims(s: System, r: nat)
    requires WellFormed(s) && IsSent(s.outbox, r)
    ensures SentForGood(s, r) <==> !HasOpenClaim(s, r)
  {
    if HasOpenClaim(s, r) {
      var t :| 0 <= t < |s.claims| && s.claims[t].row == r && MayFail(s.audited, s.claims[t]);
      var steps := FailOpenClaim(s, t);
      assert NoOperator(steps) && !IsSent(Run(s, steps).outbox, r);
    } else {
      forall steps | NoOperator(steps) ensures IsSent(Run(s, steps).outbox, r) {
        RunKeepsFinal(s, steps, r);
      }
    }
  }

  // --- what being sent says about a reachable row -------------------------------------------------

  /** Only parsed payloads get past the check, and only after an audited success is a row marked sent. */
  ghost predicate CheckedOk(audited: set<string>, c: Claim) {
    && (c.phase.Cleared? || c.phase.Returned? || c.phase.Logged? || c.phase.Duplicate? ==> c.payloadOk)
    && (c.phase == Logged(true) || c.phase.Duplicate? ==> c.key in audited)
  }

  ghost predicate SentOk(s: System) {
    && (forall t :: 0 <= t < |s.claims| ==> CheckedOk(s.audited, s.claims[t]))
    && (forall id :: id in s.outbox.rows && s.outbox.rows[id].status.Sent? ==>
          s.outbox.rows[id].payloadOk && s.outbox.rows[id].idempotencyKey in s.audited)
  }

  lemma WorkKeepsChecked(s: System, u: nat, action: Action, t: nat)
    requires t < |s.claims| && CheckedOk(s.audited, s.claims[t]) && PhaseOk(s.audited, s.claims[t])
    ensures CheckedOk(ApplyWork(s, u, action).audited, ApplyWork(s, u, action).claims[t])
  {
  }

  lemma StepKeepsChecked(s: System, step: Step, t: nat)
    requires WellFormed(s) && SentOk(s) && t < |Apply(s, step).claims|
    ensures CheckedOk(Apply(s, step).audited, Apply(s, step).claims[t])
  {
    if step.Work? {
      WorkKeepsChecked(s, step.claim, step.action, t);
    } else if t < |s.claims| {
      assert CheckedOk(s.audited, s.claims[t]);
      assert Apply(s, step).claims[t] == s.claims[t] && Apply(s, step).audited == s.audited;
    } else {
      assert Apply(s, step).claims[t].phase.Held?;
    }
  }

  lemma WorkKeepsSentAudited(s: System, t: nat, action: Action, id: nat)
    requires id in ApplyWork(s, t, action).outbox.rows && ApplyWork(s, t, action).outbox.rows[id].status.Sent?
    requires t < |s.claims| ==> CheckedOk(s.audited, s.claims[t]) && RowOk(s.outbox, s.claims[t])
    requires id in s.outbox.rows && s.outbox.rows[id].status.Sent? ==>
               s.outbox.rows[id].payloadOk && s.outbox.rows[id].idempotencyKey in s.audited
    ensures ApplyWork(s, t, action).outbox.rows[id].payloadOk
    ensures ApplyWork(s, t, action).outbox.rows[id].idempotencyKey in ApplyWork(s, t, action).audited
  {
  }

  lemma StepKeepsSentAudited(s: System, step: Step, id: nat)
    requires WellFormed(s) && SentOk(s)
    requires id in Apply(s, step).outbox.rows && Apply(s, step).outbox.rows[id].status.Sent?
    ensures Apply(s, step).outbox.rows[id].payloadOk
    ensures Apply(s, step).outbox.rows[id].idempotencyKey in Apply(s, step).audited
  {
    if step.Work? {
      WorkKeepsSentAudited(s, step.claim, step.action, id);
    } else {
      assert id in s.outbox.rows && Apply(s, step).outbox.rows[id] == s.outbox.rows[id];
    }
  }

  lemma {:induction false} RunKeepsSentOk(steps: seq<Step>)
    ensures WellFormed(Run(INITIAL, steps)) && SentOk(Run(INITIAL, steps))
  {
    RunIsWellFormed(steps);
    if steps != [] {
      var s, last := Run(INITIAL, steps[..|steps| - 1]), steps[|steps| - 1];
      RunKeepsSentOk(steps[..|steps| - 1]);
      forall t | 0 <= t < |Apply(s, last).claims| ensures CheckedOk(Apply(s, last).audited, Apply(s, last).claims[t]) {
        StepKeepsChecked(s, last, t);
      }
      forall id | id in Apply(s, last).outbox.rows && Apply(s, last).outbox.rows[id].status.Sent?
        ensures Apply(s, last).outbox.rows[id].payloadOk
        ensures Apply(s, last).outbox.rows[id].idempotencyKey in Apply(s, last).audited
      {
        StepKeepsSentAudited(s, last, id);
      }
    }
  }

  predicate HasClaimPastCheck(s: System, r: nat) {
    exists t :: 0 <= t < |s.claims| && s.claims[t].row == r && PastCheck(s.claims[t])
  }

  /** A sent row that a run has reached is final, as far as workers go, exactly when no claim of it is past
      the audit check without an accepted notification. Held claims are harmless: the key is audited. */
  lemma SentIsFinalExactly(prefix: seq<Step>, r: nat)
    requires IsSent(Run(INITIAL, prefix).outbox, r)
    ensures SentForGood(Run(INITIAL, prefix), r) <==> !HasClaimPastCheck(Run(INITIAL, prefix), r)
  {
    var s := Run(INITIAL, prefix);
    RunKeepsSentOk(prefix);
    FinalWithoutOpenClaims(s, r);
    if t :| 0 <= t < |s.claims| && s.claims[t].row == r && MayFail(s.audited, s.claims[t]) {
      assert RowOk(s.outbox, s.claims[t]);
      assert PastCheck(s.claims[t]);
    }
  }

  // --- such a row can be reached -----------------------------------------------------------------

  /** One row, under claims `claims`, in this status since `at`. */
  ghost predicate OneRow(s: System, key: string, status: OutboxStatus, at: Time, claims: seq<Claim>) {
    && s.outbox.rows.Keys == {0}
    && s.outbox.rows[0].idempotencyKey == key && s.outbox.rows[0].payloadOk && s.outbox.rows[0].status == status
    && (status.Pending? ==> s.outbox.rows[0].nextAttemptAt == at)
    && (status.Processing? ==> s.outbox.rows[0].updatedAt == at)
    && s.claims == claims && s.audited == {}
  }

  /** Select, compare-and-swap, check: the row's next claim `t` is past the audit check. */
  lemma ClaimAndCheck(prefix: seq<Step>, key: string, at: Time, claims: seq<Claim>) returns (steps: seq<Step>)
    requires OneRow(Run(INITIAL, prefix), key, Pending, at, claims)
    ensures OneRow(Run(INITIAL, steps), key, Processing, at, claims + [Claim(0, key, true, Cleared, false)])
  {
    var s := Run(INITIAL, prefix);
    assert Due(s.outbox, at) == {0};
    var ids := Candidates(s.outbox, at, 1);
    assert |ids| == 1 && ids[0] in Due(s.outbox, at);
    RunSnoc(INITIAL, prefix, Select(0, at, 1));
    var selected := Apply(s, Select(0, at, 1));
    assert selected.selections[0] == Selected(ids, at) && ids == [0];
    steps := prefix + [Select(0, at, 1)];
    RunSnoc(INITIAL, steps, CompareAndSwap(0));
    assert TryClaim(s.outbox, 0, at).1;
    steps := steps + [CompareAndSwap(0)];
    var claimed := Run(INITIAL, steps);
    assert claimed.claims == claims + [Claim(0, key, true, Held, false)];
    RunSnoc(INITIAL, steps, Work(|claims|, CheckAudit));
    steps := steps + [Work(|claims|, CheckAudit)];
  }

  lemma DeliverAndMark(prefix: seq<Step>, key: string, at: Time, first: Claim) returns (steps: seq<Step>)
    requires OneRow(Run(INITIAL, prefix), key, Processing, at, [first, Claim(0, key, true, Cleared, false)])
    ensures IsSent(Run(INITIAL, steps).outbox, 0)
    ensures |Run(INITIAL, steps).claims| == 2 && Run(INITIAL, steps).claims[0] == first
  {
    var s := Run(INITIAL, prefix);
    steps := prefix + [Work(1, Send(true))];
    RunSnoc(INITIAL, prefix, Work(1, Send(true)));
    var sent := Run(INITIAL, steps);
    assert sent.claims == [first, Claim(0, key, true, Returned(true), true)] && sent.outbox == s.outbox;
    RunSnoc(INITIAL, steps, Work(1, Log));
    steps := steps + [Work(1, Log)];
    var logged := Run(INITIAL, steps);
    assert logged.claims == [first, Claim(0, key, true, Logged(true), true)] && logged.outbox == s.outbox;
    RunSnoc(INITIAL, steps, Work(1, Mark(at, "", 1)));
    steps := steps + [Work(1, Mark(at, "", 1))];
  }

  /** For every stale time some run reaches a sent row that is not final: its first claim passes the
      audit check, goes stale, and is still sending when the second claim succeeds. */
  lemma SentUnderAnOpenClaim(key: string, staleSeconds: nat) returns (steps: seq<Step>)
    ensures IsSent(Run(INITIAL, steps).outbox, 0) && !SentForGood(Run(INITIAL, steps), 0)
  {
    var enqueue := Enqueue(key, "", "", true, 0.0);
    RunSnoc(INITIAL, [], enqueue);
    assert [] + [enqueue] == [enqueue];
    var open := Claim(0, key, true, Cleared, false);
    var checked := ClaimAndCheck([enqueue], key, 0.0, []);
    assert [] + [open] == [open];
    var late := staleSeconds as real + 1.0;
    RunSnoc(INITIAL, checked, Take(Recover(late, staleSeconds)));
    var recovered := checked + [Take(Recover(late, staleSeconds))];
    assert IsStale(Run(INITIAL, checked).outbox.rows[0], late, staleSeconds);
    assert OneRow(Run(INITIAL, recovered), key, Pending, late, [open]);
    var again := ClaimAndCheck(recovered, key, late, [open]);
    assert [open] + [open] == [open, open];
    steps := DeliverAndMark(again, key, late, open);
    SentIsFinalExactly(steps, 0);
    assert PastCheck(Run(INITIAL, steps).claims[0]) && Run(INITIAL, steps).claims[0].row == 0;
  }
}
