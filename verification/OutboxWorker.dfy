/** The dispatch worker's batch loop over the repository, with everybody else at work in between: before
    each of its statements other workers, the emit path and the operator may take any steps of the
    protocol. Every batch, whatever the channels answer and even if marking raises midway, is part of
    one run of the protocol, so all bounds proved for such runs hold for interleavings of such workers.
 */
module OutboxWorker {
  import opened Prelude
  import opened OutboxTable
  import opened DispatchProtocol
  import opened Repository

  /** What the outside world does with one claimed row. */
  datatype Answer = Answer(channelAccepts: bool, error: string, at: Time)

  /** The protocol system describes this repository. */
  ghost predicate Describes(s: System, repo: AlertRepository)
    reads repo
  {
    s.outbox == repo.Table() && s.audited == AuditedKeys(repo.dispatchLog)
  }

  function HeldClaim(id: nat, row: OutboxRow): Claim {
    Claim(id, row.idempotencyKey, row.payloadOk, Held, false)
  }

  /** The claims of a batch that begins at `base` are held from the row `from` on. */
  ghost predicate HeldFrom(claims: seq<Claim>, base: nat, rows: seq<ClaimedOutboxRow>, from: nat) {
    && |claims| >= base + |rows|
    && forall u :: base + from <= u < base + |rows| ==> claims[u] == HeldClaim(rows[u - base].id, rows[u - base].row)
  }

  /** The claims of a batch that begins at `base` are claims of its rows, in order. */
  ghost predicate ClaimsOf(claims: seq<Claim>, base: nat, rows: seq<ClaimedOutboxRow>) {
    && |claims| >= base + |rows|
    && forall u :: base <= u < base + |rows| ==> claims[u].row == rows[u - base].id
  }

  ghost predicate HaveIds(rows: seq<ClaimedOutboxRow>, ids: seq<nat>) {
    |rows| == |ids| && forall i :: 0 <= i < |ids| ==> rows[i].id == ids[i]
  }

  /** The own claims are claims of these rows, in order. */
  ghost predicate TakesIds(claims: seq<Claim>, own: Own, ids: seq<nat>) {
    && own.to == own.from + |ids| <= |claims|
    && forall u :: own.from <= u < own.to ==> claims[u].row == ids[u - own.from]
  }

  lemma RowsTakeIds(claims: seq<Claim>, own: Own, rows: seq<ClaimedOutboxRow>, ids: seq<nat>)
    requires HaveIds(rows, ids) && ClaimsOf(claims, own.from, rows) && own.to == own.from + |rows|
    ensures TakesIds(claims, own, ids)
  {
  }

  ghost predicate DoneWithin(claims: seq<Claim>, from: nat, to: int) {
    forall u :: from <= u < to && u < |claims| ==> claims[u].phase.Done?
  }

  // --- everybody else -------------------------------------------------------------------------

  /** The claims `from` to `to` belong to one worker; nobody else works on them. */
  datatype Own = Own(from: nat, to: nat)

  predicate IsForeign(step: Step, own: Own) {
    step.Work? ==> !(own.from <= step.claim < own.to)
  }

  /** What others do to the system: any steps, apart from those on this worker's claims. */
  function Others(s: System, steps: seq<Step>, own: Own): System {
    if steps == [] then s
    else
      var before := Others(s, steps[..|steps| - 1], own);
      if IsForeign(steps[|steps| - 1], own) then Apply(before, steps[|steps| - 1]) else before
  }

  /** Own claims are unchanged, except claim `but`; claims are never removed, nor are audited keys. */
  ghost predicate KeepsOwn(before: System, after: System, own: Own, but: nat) {
    && |before.claims| <= |after.claims| && before.audited <= after.audited
    && forall u :: own.from <= u < own.to && u < |before.claims| && u != but ==> after.claims[u] == before.claims[u]
  }

  lemma ForeignStepKeepsOwn(s: System, step: Step, own: Own, but: nat)
    requires IsForeign(step, own)
    ensures KeepsOwn(s, Apply(s, step), own, but)
    ensures own.from <= but < own.to && but < |s.claims| ==> Apply(s, step).claims[but] == s.claims[but]
  {
  }

  lemma {:induction false} OthersKeepOwn(origin: System, s: System, steps: seq<Step>, own: Own, but: nat)
    requires Reaches(origin, s)
    ensures var after := Others(s, steps, own);
            && Reaches(origin, after) && KeepsOwn(s, after, own, but)
            && (own.from <= but < own.to && but < |s.claims| ==> after.claims[but] == s.claims[but])
  {
    if steps != [] {
      var front, last := steps[..|steps| - 1], steps[|steps| - 1];
      OthersKeepOwn(origin, s, front, own, but);
      if IsForeign(last, own) {
        ForeignStepKeepsOwn(Others(s, front, own), last, own, but);
        ReachesNext(origin, Others(s, front, own), last);
      }
    }
  }

  /** Plays the steps of others on the tables. */
  method OthersAct(repo: AlertRepository, s: System, steps: seq<Step>, own: Own) returns (after: System)
    requires Describes(s, repo)
    modifies repo`outbox, repo`nextOutboxId, repo`dispatchLog
    ensures after == Others(s, steps, own) && Describes(after, repo)
    ensures old(repo.dispatchLog) <= repo.dispatchLog
  {
    after := Others(s, steps, own);
    repo.outbox := after.outbox.rows;
    repo.nextOutboxId := after.outbox.nextId;
    ReachesItself(s);
    OthersKeepOwn(s, s, steps, own, own.to);
    var unlogged := after.audited - s.audited;
    while unlogged != {}
      invariant unlogged <= after.audited
      invariant AuditedKeys(repo.dispatchLog) == after.audited - unlogged
      invariant repo.Table() == after.outbox && old(repo.dispatchLog) <= repo.dispatchLog
      decreases |unlogged|
    {
      var key :| key in unlogged;
      repo.LogDispatch(DispatchLog("", "", true, key));
      unlogged := unlogged - {key};
    }
  }

  // --- the claim transaction as protocol steps ---------------------------------------------

  /** The compare-and-swaps of a worker's selection, `k` of them. */
  function CasTimes(s: System, worker: nat, k: nat): System {
    if k == 0 then s else ApplyCas(CasTimes(s, worker, k - 1), worker)
  }

  ghost predicate CasDone(s: System, after: System, worker: nat, ids: seq<nat>, k: nat, now: Time)
    requires k <= |ids|
  {
    && after.outbox == ClaimEach(s.outbox, ids[..k], now).0
    && after.audited == s.audited
    && |after.claims| == |s.claims| + k
    && (forall i | 0 <= i < k ::
          ids[i] in s.outbox.rows && after.claims[|s.claims| + i] == HeldClaim(ids[i], s.outbox.rows[ids[i]]))
    && worker in after.selections && after.selections[worker] == Selected(ids[k..], now)
  }

  lemma OneMoreCas(s: System, before: System, worker: nat, ids: seq<nat>, k: nat, now: Time)
    requires k < |ids| && Distinct(ids)
    requires forall a :: 0 <= a < |ids| ==> IsDue(s.outbox, ids[a], now)
    requires CasDone(s, before, worker, ids, k, now)
    ensures CasDone(s, ApplyCas(before, worker), worker, ids, k + 1, now)
  {
    ClaimEachStep(s.outbox, ids, k, now);
    assert ids[k..][0] == ids[k] && ids[k..][1..] == ids[k + 1..];
    var after := ApplyCas(before, worker);
    assert after.claims == before.claims + [HeldClaim(ids[k], s.outbox.rows[ids[k]])];
  }

  lemma {:induction false} SelectionIsClaimed(origin: System, s: System, worker: nat, ids: seq<nat>, k: nat, now: Time)
    requires Reaches(origin, s)
    requires k <= |ids| && Distinct(ids)
    requires forall a :: 0 <= a < |ids| ==> IsDue(s.outbox, ids[a], now)
    requires worker in s.selections && s.selections[worker] == Selected(ids, now)
    ensures Reaches(origin, CasTimes(s, worker, k))
    ensures CasDone(s, CasTimes(s, worker, k), worker, ids, k, now)
  {
    if k == 0 {
      assert ids[0..] == ids && ids[..0] == [];
    } else {
      SelectionIsClaimed(origin, s, worker, ids, k - 1, now);
      ReachesNext(origin, CasTimes(s, worker, k - 1), CompareAndSwap(worker));
      OneMoreCas(s, CasTimes(s, worker, k - 1), worker, ids, k - 1, now);
    }
  }

  /** Recover, select, and one compare-and-swap per candidate. */
  function ClaimRun(s: System, worker: nat, now: Time, limit: nat, staleSeconds: nat): System {
    var recovered := Apply(s, Take(Recover(now, staleSeconds)));
    var selected := Apply(recovered, Select(worker, now, limit));
    CasTimes(selected, worker, |Candidates(recovered.outbox, now, limit)|)
  }

  lemma RecoverSelectClaim(origin: System, s: System, worker: nat, now: Time, limit: nat, staleSeconds: nat)
    returns (selected: System)
    requires Reaches(origin, s)
    ensures selected.outbox == RecoverStale(s.outbox, now, staleSeconds)
    ensures selected.claims == s.claims && selected.audited == s.audited
    ensures var ids := Candidates(selected.outbox, now, limit);
            && Reaches(origin, ClaimRun(s, worker, now, limit, staleSeconds))
            && CasDone(selected, ClaimRun(s, worker, now, limit, staleSeconds), worker, ids, |ids|, now)
  {
    ReachesNext(origin, s, Take(Recover(now, staleSeconds)));
    var recovered := Apply(s, Take(Recover(now, staleSeconds)));
    ReachesNext(origin, recovered, Select(worker, now, limit));
    selected := Apply(recovered, Select(worker, now, limit));
    var ids := Candidates(recovered.outbox, now, limit);
    CandidatesAreDue(recovered.outbox, now, limit);
    SelectionIsClaimed(origin, selected, worker, ids, |ids|, now);
  }

  /** Together these amount to the claim transaction. */
  lemma ClaimIsARun(origin: System, s: System, worker: nat, now: Time, limit: nat, staleSeconds: nat,
                    rows: seq<ClaimedOutboxRow>)
    requires Reaches(origin, s)
    requires var (claimed, ids) := ClaimBatch(s.outbox, now, limit, staleSeconds);
             && |rows| == |ids|
             && forall i :: 0 <= i < |ids| ==>
                  ids[i] in claimed.rows && rows[i] == ClaimedOutboxRow(ids[i], claimed.rows[ids[i]])
    ensures var after := ClaimRun(s, worker, now, limit, staleSeconds);
            && Reaches(origin, after)
            && after.outbox == ClaimBatch(s.outbox, now, limit, staleSeconds).0 && after.audited == s.audited
            && |after.claims| == |s.claims| + |rows| && HeldFrom(after.claims, |s.claims|, rows, 0)
  {
    var selected := RecoverSelectClaim(origin, s, worker, now, limit, staleSeconds);
    CasDoneIsTheClaim(selected, ClaimRun(s, worker, now, limit, staleSeconds), worker, now, limit);
    ClaimBatchTakesFirstDue(s.outbox, now, limit, staleSeconds);
    RowsAreHeld(selected, ClaimRun(s, worker, now, limit, staleSeconds), worker, now, limit, rows,
                ClaimBatch(s.outbox, now, limit, staleSeconds).0);
  }

  lemma CasDoneIsTheClaim(selected: System, after: System, worker: nat, now: Time, limit: nat)
    requires var ids := Candidates(selected.outbox, now, limit); CasDone(selected, after, worker, ids, |ids|, now)
    ensures var ids := Candidates(selected.outbox, now, limit);
            after.outbox == ClaimEach(selected.outbox, ids, now).0 && |after.claims| == |selected.claims| + |ids|
  {
    var ids := Candidates(selected.outbox, now, limit);
    assert ids[..|ids|] == ids;
  }

  lemma RowsAreHeld(selected: System, after: System, worker: nat, now: Time, limit: nat, rows: seq<ClaimedOutboxRow>,
                    claimed: Outbox)
    requires var ids := Candidates(selected.outbox, now, limit);
             && CasDone(selected, after, worker, ids, |ids|, now)
             && |rows| == |ids|
             && (forall i :: 0 <= i < |ids| ==>
                   ids[i] in claimed.rows && rows[i] == ClaimedOutboxRow(ids[i], claimed.rows[ids[i]]))
             && (forall id :: id in ids ==>
                   id in selected.outbox.rows && id in claimed.rows
                   && claimed.rows[id].idempotencyKey == selected.outbox.rows[id].idempotencyKey
                   && claimed.rows[id].payloadOk == selected.outbox.rows[id].payloadOk)
    ensures HeldFrom(after.claims, |selected.claims|, rows, 0)
  {
    var base, ids := |selected.claims|, Candidates(selected.outbox, now, limit);
    forall u | base <= u < base + |rows| ensures after.claims[u] == HeldClaim(rows[u - base].id, rows[u - base].row) {
      var i := u - base;
      assert ids[i] in ids;
      assert after.claims[base + i] == HeldClaim(ids[i], selected.outbox.rows[ids[i]]);
    }
  }

  /** The first `handled` own claims are marked, the last of them lost if marking it raised, and the
      others are still held. */
  ghost predicate Handled(s: System, own: Own, rows: seq<ClaimedOutboxRow>, handled: nat, raised: bool) {
    && ClaimsOf(s.claims, own.from, rows) && HeldFrom(s.claims, own.from, rows, handled)
    && DoneWithin(s.claims, own.from, own.from + handled - if raised then 1 else 0)
    && (raised ==> 0 < handled <= |rows| && s.claims[own.from + handled - 1].phase.Lost?)
  }

  lemma RowHandled(before: System, after: System, own: Own, rows: seq<ClaimedOutboxRow>, handled: nat, raised: bool)
    requires own.to == own.from + |rows| <= |before.claims| && handled < |rows|
    requires Handled(before, own, rows, handled, false)
    requires KeepsOwn(before, after, own, own.from + handled)
    requires after.claims[own.from + handled].row == rows[handled].id
    requires after.claims[own.from + handled].phase == if raised then Lost else Done
    ensures Handled(after, own, rows, handled + 1, raised)
  {
  }

  // --- the worker ---------------------------------------------------------------------------

  /** What others do between the statements that handle one row. */
  datatype Gaps = Gaps(beforeCheck: seq<Step>, beforeSend: seq<Step>, beforeLog: seq<Step>, beforeMark: seq<Step>)

  /** The systems `before` and so on are the protocol's view of the tables; they are carried along so
      that others can act on both. */
  class Worker {
    const repo: AlertRepository

    constructor (repo: AlertRepository)
      ensures this.repo == repo
    {
      this.repo := repo;
    }

    /** Records a failure for a held or logged claim. */
    method FailRow(id: nat, at: Time, error: string, maxAttempts: nat, ghost origin: System, before: System, t: nat,
                   action: Action)
      returns (raised: bool, after: System)
      requires Reaches(origin, before) && Describes(before, repo)
      requires t < |before.claims| && before.claims[t].row == id
      requires || (action == RejectPayload(at, error, maxAttempts)
                   && before.claims[t].phase.Held? && !before.claims[t].payloadOk)
               || (action == Mark(at, error, maxAttempts) && before.claims[t].phase == Logged(false))
      modifies repo`outbox
      ensures Reaches(origin, after) && Describes(after, repo)
      ensures after.claims == before.claims[t := before.claims[t].(phase := if raised then Lost else Done)]
      ensures after.audited == before.audited
      ensures !raised && id in repo.outbox ==>
                && (repo.outbox[id].status == Failed || repo.outbox[id].status == Dead)
                && repo.outbox[id].lastError == StoredError(error)
    {
      var outcome := repo.MarkOutboxFailed(id, error, maxAttempts, at);
      after := Apply(before, Work(t, action));
      ReachesNext(origin, before, Work(t, action));
      raised := outcome.Overflowed?;
    }

    /** Marks a duplicate or an accepted notification sent. */
    method SucceedRow(id: nat, answer: Answer, maxAttempts: nat, ghost origin: System, before: System, t: nat)
      returns (after: System)
      requires Reaches(origin, before) && Describes(before, repo)
      requires t < |before.claims| && before.claims[t].row == id
      requires before.claims[t].phase.Duplicate? || before.claims[t].phase == Logged(true)
      modifies repo`outbox
      ensures Reaches(origin, after) && Describes(after, repo)
      ensures after.claims == before.claims[t := before.claims[t].(phase := Done)] && after.audited == before.audited
      ensures id in repo.outbox ==> repo.outbox[id].status == Sent && repo.outbox[id].lastError == None
    {
      repo.MarkOutboxSent(id, answer.at);
      after := Apply(before, Work(t, Mark(answer.at, answer.error, maxAttempts)));
      ReachesNext(origin, before, Work(t, Mark(answer.at, answer.error, maxAttempts)));
    }

    /** Send, then audit; others act before either. */
    method SendRow(claimed: ClaimedOutboxRow, ok: bool, gaps: Gaps, own: Own, ghost origin: System, before: System, t: nat)
      returns (after: System)
      requires Reaches(origin, before) && Describes(before, repo)
      requires own.from <= t < own.to && own.to <= |before.claims|
      requires before.claims[t] == Claim(claimed.id, claimed.row.idempotencyKey, true, Cleared, false)
      modifies repo`outbox, repo`nextOutboxId, repo`dispatchLog
      ensures Reaches(origin, after) && Describes(after, repo) && KeepsOwn(before, after, own, t)
      ensures after.claims[t] == Claim(claimed.id, claimed.row.idempotencyKey, true, Logged(ok), ok)
      ensures old(repo.dispatchLog) < repo.dispatchLog
      ensures repo.dispatchLog[|repo.dispatchLog| - 1] ==
                DispatchLog(claimed.row.alertId, claimed.row.channel, ok, claimed.row.idempotencyKey)
    {
      OthersKeepOwn(origin, before, gaps.beforeSend, own, t);
      var ready := OthersAct(repo, before, gaps.beforeSend, own);
      var sent := Apply(ready, Work(t, Send(ok)));
      ReachesNext(origin, ready, Work(t, Send(ok)));
      assert sent.claims == ready.claims[t := Claim(claimed.id, claimed.row.idempotencyKey, true, Returned(ok), ok)];
      OthersKeepOwn(origin, sent, gaps.beforeLog, own, t);
      var returned := OthersAct(repo, sent, gaps.beforeLog, own);
      repo.LogDispatch(DispatchLog(claimed.row.alertId, claimed.row.channel, ok, claimed.row.idempotencyKey));
      after := Apply(returned, Work(t, Log));
      ReachesNext(origin, returned, Work(t, Log));
    }

    /** One claimed row, from payload check to mark. `raised` tells whether marking raised. */
    method HandleRow(claimed: ClaimedOutboxRow, answer: Answer, maxAttempts: nat, gaps: Gaps, own: Own,
                     ghost origin: System, before: System, t: nat)
      returns (raised: bool, after: System)
      requires Reaches(origin, before) && Describes(before, repo)
      requires own.from <= t < own.to && own.to <= |before.claims|
      requires before.claims[t] == HeldClaim(claimed.id, claimed.row)
      modifies repo`outbox, repo`nextOutboxId, repo`dispatchLog
      ensures Reaches(origin, after) && Describes(after, repo) && KeepsOwn(before, after, own, t)
      ensures after.claims[t].row == claimed.id && after.claims[t].phase == if raised then Lost else Done
      ensures after.claims[t].delivered <==>
                && claimed.row.payloadOk && answer.channelAccepts
                && claimed.row.idempotencyKey !in Others(before, gaps.beforeCheck, own).audited
      ensures !raised && claimed.id in repo.outbox ==>
                var row := repo.outbox[claimed.id];
                if !claimed.row.payloadOk then
                  (row.status == Failed || row.status == Dead)
                  && row.lastError == StoredError("invalid payload: " + answer.error)
                else if answer.channelAccepts || claimed.row.idempotencyKey in Others(before, gaps.beforeCheck, own).audited
                then row.status == Sent && row.lastError == None
                else
                  (row.status == Failed || row.status == Dead)
                  && row.lastError == StoredError(if answer.error == "" then "dispatch failed" else answer.error)
      ensures claimed.row.payloadOk && claimed.row.idempotencyKey !in Others(before, gaps.beforeCheck, own).audited ==>
                exists k :: |old(repo.dispatchLog)| <= k < |repo.dispatchLog| && repo.dispatchLog[k] ==
                  DispatchLog(claimed.row.alertId, claimed.row.channel, answer.channelAccepts, claimed.row.idempotencyKey)
    {
      OthersKeepOwn(origin, before, gaps.beforeCheck, own, t);
      var ready := OthersAct(repo, before, gaps.beforeCheck, own);
      if !claimed.row.payloadOk {
        raised, after := FailRow(claimed.id, answer.at, "invalid payload: " + answer.error, maxAttempts, origin, ready, t,
                                 RejectPayload(answer.at, "invalid payload: " + answer.error, maxAttempts));
        return;
      }
      var duplicate := repo.DispatchIdempotencySucceeded(claimed.row.idempotencyKey);
      var checked := Apply(ready, Work(t, CheckAudit));
      ReachesNext(origin, ready, Work(t, CheckAudit));
      if duplicate {
        OthersKeepOwn(origin, checked, gaps.beforeMark, own, t);
        var due := OthersAct(repo, checked, gaps.beforeMark, own);
        after := SucceedRow(claimed.id, answer, maxAttempts, origin, due, t);
        return false, after;
      }
      var logged := SendRow(claimed, answer.channelAccepts, gaps, own, origin, checked, t);
      ghost var k := |repo.dispatchLog| - 1;
      ghost var entry := repo.dispatchLog[k];
      OthersKeepOwn(origin, logged, gaps.beforeMark, own, t);
      var due := OthersAct(repo, logged, gaps.beforeMark, own);
      assert repo.dispatchLog[k] == entry;
      if answer.channelAccepts {
        after := SucceedRow(claimed.id, answer, maxAttempts, origin, due, t);
        return false, after;
      }
      var error := if answer.error == "" then "dispatch failed" else answer.error;
      raised, after := FailRow(claimed.id, answer.at, error, maxAttempts, origin, due, t,
                               Mark(answer.at, error, maxAttempts));
    }

    /** Others act, then the batch is claimed. */
    method ClaimRows(worker: nat, batchSize: nat, staleSeconds: nat, now: Time, beforeClaim: seq<Step>, s: System)
      returns (rows: seq<ClaimedOutboxRow>, own: Own, after: System)
      requires Describes(s, repo)
      modifies repo`outbox, repo`nextOutboxId, repo`dispatchLog
      ensures Reaches(s, after) && Describes(after, repo)
      ensures var ready := Others(s, beforeClaim, Own(0, 0));
              && own.from == |ready.claims| && own.to == own.from + |rows| == |after.claims|
              && HaveIds(rows, ClaimBatch(ready.outbox, now, batchSize, staleSeconds).1)
      ensures HeldFrom(after.claims, own.from, rows, 0)
    {
      ReachesItself(s);
      OthersKeepOwn(s, s, beforeClaim, Own(0, 0), 0);
      var ready := OthersAct(repo, s, beforeClaim, Own(0, 0));
      rows := repo.ClaimOutboxBatch(batchSize, staleSeconds, now);
      ClaimIsARun(s, ready, worker, now, batchSize, staleSeconds, rows);
      after := ClaimRun(ready, worker, now, batchSize, staleSeconds);
      own := Own(|ready.claims|, |ready.claims| + |rows|);
    }

    /** Claims a batch and handles its rows in order; `answers` is what the channels do, `beforeClaim` and
        `gaps` what others do. If marking a row raises, the worker dies there and the remaining rows stay
        claimed. */
    method ProcessBatch(worker: nat, batchSize: nat, staleSeconds: nat, maxAttempts: nat, now: Time,
                        answers: nat -> Answer, beforeClaim: seq<Step>, gaps: nat -> Gaps, s: System)
      returns (handled: nat, raised: bool, own: Own, after: System)
      requires Describes(s, repo)
      modifies repo`outbox, repo`nextOutboxId, repo`dispatchLog
      ensures Reaches(s, after) && Describes(after, repo)
      ensures var ready := Others(s, beforeClaim, Own(0, 0));
              && own.from == |ready.claims|
              && TakesIds(after.claims, own, ClaimBatch(ready.outbox, now, batchSize, staleSeconds).1)
      ensures own.from + handled <= own.to
      ensures !raised ==> own.from + handled == own.to && DoneWithin(after.claims, own.from, own.to)
      ensures raised ==>
                && 0 < handled
                && DoneWithin(after.claims, own.from, own.from + handled - 1)
                && after.claims[own.from + handled - 1].phase.Lost?
                && (forall u :: own.from + handled <= u < own.to ==> after.claims[u].phase.Held?)
    {
      ghost var ids := ClaimBatch(Others(s, beforeClaim, Own(0, 0)).outbox, now, batchSize, staleSeconds).1;
      var rows;
      rows, own, after := ClaimRows(worker, batchSize, staleSeconds, now, beforeClaim, s);
      handled, raised, after := HandleRows(rows, answers, maxAttempts, gaps, own, s, after);
      RowsTakeIds(after.claims, own, rows, ids);
    }

    method HandleRows(rows: seq<ClaimedOutboxRow>, answers: nat -> Answer, maxAttempts: nat, gaps: nat -> Gaps,
                      own: Own, ghost origin: System, before: System)
      returns (handled: nat, raised: bool, after: System)
      requires Reaches(origin, before) && Describes(before, repo)
      requires own.to == own.from + |rows| <= |before.claims| && HeldFrom(before.claims, own.from, rows, 0)
      modifies repo`outbox, repo`nextOutboxId, repo`dispatchLog
      ensures Reaches(origin, after) && Describes(after, repo) && own.to <= |after.claims|
      ensures handled <= |rows| && (!raised ==> handled == |rows|) && (raised ==> handled > 0)
      ensures Handled(after, own, rows, handled, raised)
    {
      after := before;
      handled := 0;
      raised := false;
      while handled < |rows|
        invariant handled <= |rows| && own.to <= |after.claims|
        invariant Reaches(origin, after) && Describes(after, repo)
        invariant Handled(after, own, rows, handled, false)
      {
        var was := after;
        raised, after := HandleRow(rows[handled], answers(handled), maxAttempts, gaps(handled), own, origin, was,
                                   own.from + handled);
        RowHandled(was, after, own, rows, handled, raised);
        handled := handled + 1;
        if raised {
          return;
        }
      }
    }
  }
}
