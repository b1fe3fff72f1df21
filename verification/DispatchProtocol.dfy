/** Every interleaving of dispatch workers, the emit path and the operator over one outbox.

    `Apply` is total: a step whose guard is false leaves the system alone, so a run is any
    sequence of steps at all. A worker's selection and each of its compare-and-swaps are
    separate steps and take no row locks, which admits more interleavings than the database does.
 */
module DispatchProtocol {
  import opened Prelude
  import opened OutboxTable

  /** Where one claimed row stands in the worker loop.
      Held: claimed. Cleared: the audit check found no success, the send comes next.
      Returned: the channel answered. Logged: the answer is in the audit log.
      Duplicate: the audit check found a success. Done: marked. Lost: its worker died. */
  datatype Phase = Held | Cleared | Returned(ok: bool) | Logged(ok: bool) | Duplicate | Done | Lost

  /** `payloadOk` is the row's; `delivered` records that the channel accepted the notification for
      this claim. */
  datatype Claim = Claim(row: nat, key: string, payloadOk: bool, phase: Phase, delivered: bool)

  datatype Selected = Selected(ids: seq<nat>, at: Time)

  /** `audited`: keys with a successful dispatch_log row. `claims`: every successful
      compare-and-swap so far. `released`: how often a processing row of a key was taken from
      its holder, by stale recovery, by a redrive of processing rows, or by deletion. */
  datatype System = System(
    outbox: Outbox,
    audited: set<string>,
    selections: map<nat, Selected>,
    claims: seq<Claim>,
    released: multiset<string>)

  const INITIAL := System(EMPTY_OUTBOX, {}, map[], [], multiset{})

  /** What the worker loop does next with one claimed row, or its death. */
  datatype Action =
    | RejectPayload(now: Time, error: string, maxAttempts: nat)
    | CheckAudit
    | Send(ok: bool)
    | Log
    | Mark(now: Time, error: string, maxAttempts: nat)
    | Crash

  /** Statements that take rows away from whoever holds them. */
  datatype TakeBack =
    | Recover(now: Time, staleSeconds: nat)
    | RedriveRows(selection: Selection, now: Time)
    | DeleteRows(selection: Selection)

  datatype Step =
    | Enqueue(key: string, alertId: string, channel: string, payloadOk: bool, now: Time)
    | Take(how: TakeBack)
    | Select(worker: nat, now: Time, limit: nat)
    | CompareAndSwap(worker: nat)
    | Work(claim: nat, action: Action)

  // --- transitions ----------------------------------------------------------------

  /** Keys of processing rows that are no longer processing in `after`. */
  function TakenAway(before: Outbox, after: Outbox): set<string> {
    set id | id in before.rows && before.rows[id].status.Processing?
             && !(id in after.rows && after.rows[id].status.Processing?)
      :: before.rows[id].idempotencyKey
  }

  function Replace(s: System, ob: Outbox): System {
    s.(outbox := ob, released := s.released + multiset(TakenAway(s.outbox, ob)))
  }

  predicate InPhase(s: System, t: nat, phase: Phase) {
    t < |s.claims| && s.claims[t].phase == phase
  }

  function Move(s: System, t: nat, phase: Phase): System
    requires t < |s.claims|
  {
    s.(claims := s.claims[t := s.claims[t].(phase := phase)])
  }

  function ApplyCas(s: System, worker: nat): System {
    if worker !in s.selections || s.selections[worker].ids == [] then s
    else
      var sel := s.selections[worker];
      var id := sel.ids[0];
      var (ob, won) := TryClaim(s.outbox, id, sel.at);
      s.(outbox := ob,
         selections := s.selections[worker := sel.(ids := sel.ids[1..])],
         claims := if won
                   then s.claims + [Claim(id, ob.rows[id].idempotencyKey, ob.rows[id].payloadOk, Held, false)]
                   else s.claims)
  }

  /** `mark_outbox_result(success=False)`; if it raises, the worker process dies with the claim. */
  function FinishFailed(s: System, t: nat, now: Time, error: string, maxAttempts: nat): System
    requires t < |s.claims|
  {
    var (ob, outcome) := MarkFailed(s.outbox, s.claims[t].row, now, error, maxAttempts);
    Move(s, t, if outcome.Overflowed? then Lost else Done).(outbox := ob)
  }

  function FinishSent(s: System, t: nat, now: Time): System
    requires t < |s.claims|
  {
    Move(s, t, Done).(outbox := MarkSent(s.outbox, s.claims[t].row, now))
  }

  function ApplyWork(s: System, t: nat, action: Action): System {
    match action
    case RejectPayload(now, error, maxAttempts) =>
      if InPhase(s, t, Held) && !s.claims[t].payloadOk then FinishFailed(s, t, now, error, maxAttempts) else s
    case CheckAudit =>
      if InPhase(s, t, Held) && s.claims[t].payloadOk
      then Move(s, t, if s.claims[t].key in s.audited then Duplicate else Cleared)
      else s
    case Send(ok) =>
      if InPhase(s, t, Cleared)
      then s.(claims := s.claims[t := s.claims[t].(phase := Returned(ok), delivered := ok)])
      else s
    case Log =>
      if InPhase(s, t, Returned(true)) then Move(s, t, Logged(true)).(audited := s.audited + {s.claims[t].key})
      else if InPhase(s, t, Returned(false)) then Move(s, t, Logged(false))
      else s
    case Mark(now, error, maxAttempts) =>
      if InPhase(s, t, Logged(true)) || InPhase(s, t, Duplicate) then FinishSent(s, t, now)
      else if InPhase(s, t, Logged(false)) then FinishFailed(s, t, now, error, maxAttempts)
      else s
    case Crash =>
      if t < |s.claims| && !s.claims[t].phase.Done? then Move(s, t, Lost) else s
  }

  function AfterTaking(ob: Outbox, how: TakeBack): Outbox {
    match how
    case Recover(now, staleSeconds) => RecoverStale(ob, now, staleSeconds)
    case RedriveRows(selection, now) => Redrive(ob, selection, now)
    case DeleteRows(selection) => Delete(ob, selection)
  }

  function Apply(s: System, step: Step): System {
    match step
    case Enqueue(key, alertId, channel, payloadOk, now) =>
      s.(outbox := InsertRow(s.outbox, PendingRow(key, alertId, channel, now).(payloadOk := payloadOk)))
    case Take(how) => Replace(s, AfterTaking(s.outbox, how))
    case Select(worker, now, limit) =>
      s.(selections := s.selections[worker := Selected(Candidates(s.outbox, now, limit), now)])
    case CompareAndSwap(worker) => ApplyCas(s, worker)
    case Work(t, action) => ApplyWork(s, t, action)
  }

  function Run(s: System, steps: seq<Step>): System {
    if steps == [] then s else Apply(Run(s, steps[..|steps| - 1]), steps[|steps| - 1])
  }

  ghost predicate Reaches(s: System, after: System) {
    exists steps :: Run(s, steps) == after
  }

  // --- what is counted --------------------------------------------------------------

  /** Claims of a key whose notification the channel accepted. */
  function Deliveries(s: System, key: string): set<nat> {
    set t: nat | t < |s.claims| && s.claims[t].key == key && s.claims[t].delivered
  }

  /** Claims that have delivered or are past the audit check and about to. */
  function Exposed(s: System, key: string): set<nat> {
    set t: nat | t < |s.claims| && s.claims[t].key == key && (s.claims[t].delivered || s.claims[t].phase.Cleared?)
  }

  /** Claims not yet marked, dead ones included. */
  function Unfinished(s: System, key: string): set<nat> {
    set t: nat | t < |s.claims| && s.claims[t].key == key && !s.claims[t].phase.Done?
  }

  predicate InFlight(ob: Outbox, key: string) {
    exists id :: id in ob.rows && ob.rows[id].idempotencyKey == key && ob.rows[id].status.Processing?
  }

  // --- invariants --------------------------------------------------------------------

  ghost predicate RowOk(ob: Outbox, c: Claim) {
    && c.row < ob.nextId
    && (c.row in ob.rows ==> ob.rows[c.row].idempotencyKey == c.key && ob.rows[c.row].payloadOk == c.payloadOk)
  }

  /** What the phase of a claim says about its delivery and the audit log. */
  ghost predicate PhaseOk(audited: set<string>, c: Claim) {
    && (c.phase.Held? || c.phase.Cleared? || c.phase.Duplicate? ==> !c.delivered)
    && (c.phase.Returned? || c.phase.Logged? ==> c.delivered == c.phase.ok)
    && (c.delivered && (c.phase.Logged? || c.phase.Done?) ==> c.key in audited)
  }

  ghost predicate WellFormed(s: System) {
    && Valid(s.outbox)
    && (forall t :: 0 <= t < |s.claims| ==> RowOk(s.outbox, s.claims[t]) && PhaseOk(s.audited, s.claims[t]))
  }

  /** The counting invariant of one key. */
  ghost predicate Bounded(s: System, key: string) {
    && |Unfinished(s, key)| <= (if InFlight(s.outbox, key) then 1 else 0) + s.released[key]
    && |Exposed(s, key)| <= 1 + s.released[key]
  }

  /** Rows keep their key, ids only grow, and an id that disappeared stays unused. */
  ghost predicate Evolves(before: Outbox, after: Outbox) {
    && Valid(after)
    && before.nextId <= after.nextId
    && (forall id :: id in after.rows && id < before.nextId ==>
          && id in before.rows && after.rows[id].idempotencyKey == before.rows[id].idempotencyKey
          && after.rows[id].payloadOk == before.rows[id].payloadOk)
  }

  lemma RowChangeEvolves(ob: Outbox, id: nat, row: OutboxRow)
    requires Valid(ob) && id in ob.rows
    requires row.idempotencyKey == ob.rows[id].idempotencyKey && row.payloadOk == ob.rows[id].payloadOk
    ensures Evolves(ob, ob.(rows := ob.rows[id := row]))
  {
  }

  lemma ClaimEvolves(ob: Outbox, id: nat, now: Time)
    requires Valid(ob)
    ensures Evolves(ob, TryClaim(ob, id, now).0)
  {
    if id in ob.rows {
      RowChangeEvolves(ob, id, ClaimedRow(ob.rows[id], now));
    }
  }

  lemma MarkEvolves(ob: Outbox, id: nat, now: Time, error: string, maxAttempts: nat)
    requires Valid(ob)
    ensures Evolves(ob, MarkSent(ob, id, now))
    ensures Evolves(ob, MarkFailed(ob, id, now, error, maxAttempts).0)
  {
    if id in ob.rows {
      RowChangeEvolves(ob, id, MarkSent(ob, id, now).rows[id]);
      RowChangeEvolves(ob, id, MarkFailed(ob, id, now, error, maxAttempts).0.rows[id]);
    }
  }

  lemma TakingEvolves(ob: Outbox, how: TakeBack)
    requires Valid(ob)
    ensures Evolves(ob, AfterTaking(ob, how))
  {
  }

  lemma InsertEvolves(ob: Outbox, row: OutboxRow)
    requires Valid(ob)
    ensures Evolves(ob, InsertRow(ob, row))
  {
  }

  lemma WorkEvolves(s: System, t: nat, action: Action)
    requires WellFormed(s)
    ensures Evolves(s.outbox, ApplyWork(s, t, action).outbox)
  {
    if t < |s.claims| {
      match action
      case RejectPayload(now, error, maxAttempts) => MarkEvolves(s.outbox, s.claims[t].row, now, error, maxAttempts);
      case Mark(now, error, maxAttempts) => MarkEvolves(s.outbox, s.claims[t].row, now, error, maxAttempts);
      case _ =>
    }
  }

  lemma OutboxEvolves(s: System, step: Step)
    requires WellFormed(s)
    ensures Evolves(s.outbox, Apply(s, step).outbox)
  {
    match step
    case Enqueue(key, alertId, channel, payloadOk, now) =>
      InsertEvolves(s.outbox, PendingRow(key, alertId, channel, now).(payloadOk := payloadOk));
    case Take(how) => TakingEvolves(s.outbox, how);
    case Select(_, _, _) =>
    case CompareAndSwap(worker) =>
      if worker in s.selections && s.selections[worker].ids != [] {
        ClaimEvolves(s.outbox, s.selections[worker].ids[0], s.selections[worker].at);
      }
    case Work(t, action) => WorkEvolves(s, t, action);
  }

  /** A worker step changes at most its own claim, never that claim's row id or key. */
  lemma WorkChangesOneClaim(s: System, t: nat, action: Action)
    requires WellFormed(s)
    ensures var s' := ApplyWork(s, t, action);
            && |s'.claims| == |s.claims|
            && s.audited <= s'.audited
            && (s'.claims != s.claims ==>
                 && t < |s.claims|
                 && s'.claims == s.claims[t := s'.claims[t]]
                 && s'.claims[t].row == s.claims[t].row
                 && s'.claims[t].key == s.claims[t].key
                 && s'.claims[t].payloadOk == s.claims[t].payloadOk
                 && PhaseOk(s'.audited, s'.claims[t]))
  {
    assert t < |s.claims| ==> PhaseOk(s.audited, s.claims[t]);
  }

  lemma StepKeepsPhases(s: System, step: Step, t: nat)
    requires WellFormed(s)
    requires t < |Apply(s, step).claims|
    ensures PhaseOk(Apply(s, step).audited, Apply(s, step).claims[t])
    ensures t < |s.claims| ==>
              && Apply(s, step).claims[t].row == s.claims[t].row && Apply(s, step).claims[t].key == s.claims[t].key
              && Apply(s, step).claims[t].payloadOk == s.claims[t].payloadOk
    ensures |s.claims| <= |Apply(s, step).claims|
  {
    assert t < |s.claims| ==> PhaseOk(s.audited, s.claims[t]);
    if step.Work? {
      WorkChangesOneClaim(s, step.claim, step.action);
    }
  }

  lemma StepKeepsRowOk(s: System, step: Step, t: nat)
    requires WellFormed(s) && t < |Apply(s, step).claims|
    ensures RowOk(Apply(s, step).outbox, Apply(s, step).claims[t])
  {
    OutboxEvolves(s, step);
    StepKeepsPhases(s, step, t);
    if t < |s.claims| {
      assert RowOk(s.outbox, s.claims[t]);
    }
  }

  lemma StepKeepsWellFormed(s: System, step: Step)
    requires WellFormed(s)
    ensures WellFormed(Apply(s, step))
  {
    var s' := Apply(s, step);
    OutboxEvolves(s, step);
    forall t | 0 <= t < |s'.claims|
      ensures PhaseOk(s'.audited, s'.claims[t]) && RowOk(s'.outbox, s'.claims[t])
    {
      StepKeepsPhases(s, step, t);
      StepKeepsRowOk(s, step, t);
    }
  }

  // --- the counting argument -----------------------------------------------------------

  ghost function Slots(s: System, key: string): nat {
    (if InFlight(s.outbox, key) then 1 else 0) + s.released[key]
  }

  /** Taking rows away from their holders frees a slot for every one it costs. */
  lemma ReplaceKeepsSlots(s: System, ob: Outbox, key: string)
    requires InFlight(ob, key) ==> InFlight(s.outbox, key)
    requires forall id :: id in ob.rows && id in s.outbox.rows ==>
               ob.rows[id].idempotencyKey == s.outbox.rows[id].idempotencyKey
    ensures Slots(s, key) <= Slots(Replace(s, ob), key)
  {
    if InFlight(s.outbox, key) && !InFlight(ob, key) {
      var id :| id in s.outbox.rows && s.outbox.rows[id].idempotencyKey == key && s.outbox.rows[id].status.Processing?;
      assert key in TakenAway(s.outbox, ob);
    }
  }

  /** A winning compare-and-swap finds no row of its key in flight and leaves one. */
  lemma CasTakesASlot(s: System, worker: nat, key: string)
    requires WellFormed(s)
    requires |Unfinished(s, key)| <= Slots(s, key)
    ensures |Unfinished(ApplyCas(s, worker), key)| <= Slots(ApplyCas(s, worker), key)
  {
    var s' := ApplyCas(s, worker);
    if |s'.claims| == |s.claims| {
      assert Unfinished(s', key) == Unfinished(s, key);
    } else {
      var id := s.selections[worker].ids[0];
      assert s'.claims[|s.claims|].key == s.outbox.rows[id].idempotencyKey;
      if s.outbox.rows[id].idempotencyKey == key {
        assert !InFlight(s.outbox, key);
        assert s'.outbox.rows[id].status.Processing?;
        assert Unfinished(s', key) == Unfinished(s, key) + {|s.claims|};
      } else {
        assert Unfinished(s', key) == Unfinished(s, key);
        FlightElsewhere(s.outbox, s'.outbox, id, key);
      }
    }
  }

  lemma FlightElsewhere(before: Outbox, after: Outbox, id: nat, key: string)
    requires id in before.rows && before.rows[id].idempotencyKey != key
    requires id in after.rows && after == before.(rows := before.rows[id := after.rows[id]])
    requires after.rows[id].idempotencyKey != key
    ensures InFlight(after, key) <==> InFlight(before, key)
  {
    if InFlight(before, key) {
      var j :| j in before.rows && before.rows[j].idempotencyKey == key && before.rows[j].status.Processing?;
      assert after.rows[j] == before.rows[j];
    }
  }

  /** The claim is marked and at most its own row changed, which keeps its key. */
  ghost predicate Finished(s: System, s': System, t: nat) {
    && t < |s.claims| && !s.claims[t].phase.Done?
    && s'.claims == s.claims[t := s.claims[t].(phase := Done)] && s'.released == s.released
    && if s.claims[t].row in s.outbox.rows
       then && s.claims[t].row in s'.outbox.rows
            && s'.outbox == s.outbox.(rows := s.outbox.rows[s.claims[t].row := s'.outbox.rows[s.claims[t].row]])
            && s'.outbox.rows[s.claims[t].row].idempotencyKey == s.claims[t].key
       else s'.outbox == s.outbox
  }

  /** Marking gives back the slot the claim used, even when the row has moved on without it. */
  lemma FinishReturnsASlot(s: System, s': System, t: nat, key: string)
    requires WellFormed(s) && Finished(s, s', t)
    requires |Unfinished(s, key)| <= Slots(s, key)
    ensures |Unfinished(s', key)| <= Slots(s', key)
  {
    var c := s.claims[t];
    if c.key == key {
      assert Unfinished(s', key) == Unfinished(s, key) - {t};
      assert t in Unfinished(s, key);
    } else {
      assert Unfinished(s', key) == Unfinished(s, key);
      if c.row in s.outbox.rows {
        FlightElsewhere(s.outbox, s'.outbox, c.row, key);
      }
    }
  }

  /** A claim that moves between unfinished phases keeps every count. */
  lemma MoveKeepsUnfinished(s: System, s': System, t: nat, key: string)
    requires t < |s.claims| && !s.claims[t].phase.Done?
    requires |s'.claims| == |s.claims| && s'.claims == s.claims[t := s'.claims[t]]
    requires s'.claims[t].key == s.claims[t].key && !s'.claims[t].phase.Done?
    ensures Unfinished(s', key) == Unfinished(s, key)
  {
  }

  lemma WorkFinishesOrKeepsTheOutbox(s: System, t: nat, action: Action)
    requires WellFormed(s) && ApplyWork(s, t, action).claims != s.claims
    ensures t < |s.claims| && !s.claims[t].phase.Done?
    ensures var s' := ApplyWork(s, t, action);
            || Finished(s, s', t)
            || (s'.outbox == s.outbox && s'.released == s.released && !s'.claims[t].phase.Done?)
  {
    assert t < |s.claims| ==> RowOk(s.outbox, s.claims[t]);
  }

  lemma WorkKeepsUnfinishedBound(s: System, t: nat, action: Action, key: string)
    requires WellFormed(s)
    requires |Unfinished(s, key)| <= Slots(s, key)
    ensures |Unfinished(ApplyWork(s, t, action), key)| <= Slots(ApplyWork(s, t, action), key)
  {
    var s' := ApplyWork(s, t, action);
    if s'.claims == s.claims {
      assert Unfinished(s', key) == Unfinished(s, key);
    } else {
      WorkChangesOneClaim(s, t, action);
      WorkFinishesOrKeepsTheOutbox(s, t, action);
      if Finished(s, s', t) {
        FinishReturnsASlot(s, s', t, key);
      } else {
        MoveKeepsUnfinished(s, s', t, key);
      }
    }
  }

  lemma EnqueueKeepsSlots(s: System, row: OutboxRow, key: string)
    requires WellFormed(s)
    ensures InFlight(s.outbox, key) ==> InFlight(InsertRow(s.outbox, row), key)
  {
    if InFlight(s.outbox, key) {
      var j :| j in s.outbox.rows && s.outbox.rows[j].idempotencyKey == key && s.outbox.rows[j].status.Processing?;
      assert j in InsertRow(s.outbox, row).rows;
    }
  }

  lemma StepKeepsUnfinishedBound(s: System, step: Step, key: string)
    requires WellFormed(s)
    requires |Unfinished(s, key)| <= Slots(s, key)
    ensures |Unfinished(Apply(s, step), key)| <= Slots(Apply(s, step), key)
  {
    match step
    case Enqueue(newKey, alertId, channel, payloadOk, now) =>
      assert Unfinished(Apply(s, step), key) == Unfinished(s, key);
      EnqueueKeepsSlots(s, PendingRow(newKey, alertId, channel, now).(payloadOk := payloadOk), key);
    case Take(how) =>
      assert Unfinished(Apply(s, step), key) == Unfinished(s, key);
      ReplaceKeepsSlots(s, AfterTaking(s.outbox, how), key);
    case Select(worker, now, limit) =>
      assert Unfinished(Apply(s, step), key) == Unfinished(s, key);
    case CompareAndSwap(worker) =>
      CasTakesASlot(s, worker, key);
    case Work(t, action) =>
      WorkKeepsUnfinishedBound(s, t, action, key);
  }

  lemma WorkOnAuditedKey(s: System, t: nat, action: Action, key: string)
    requires WellFormed(s) && key in s.audited && t < |s.claims| && s.claims[t].key == key
    ensures var c := ApplyWork(s, t, action).claims[t];
            c.delivered || c.phase.Cleared? ==> s.claims[t].delivered || s.claims[t].phase.Cleared?
  {
  }

  /** Once a success of the key is audited, no further claim passes the audit check. */
  lemma AuditStopsExposure(s: System, step: Step, key: string)
    requires WellFormed(s) && key in s.audited
    ensures key in Apply(s, step).audited
    ensures Exposed(Apply(s, step), key) <= Exposed(s, key)
  {
    if step.Work? {
      WorkChangesOneClaim(s, step.claim, step.action);
      if step.claim < |s.claims| && s.claims[step.claim].key == key {
        WorkOnAuditedKey(s, step.claim, step.action, key);
      }
    }
  }

  lemma UnauditedExposureIsUnfinished(s: System, key: string)
    requires WellFormed(s) && key !in s.audited
    ensures |Exposed(s, key)| <= |Unfinished(s, key)|
  {
    assert Exposed(s, key) <= Unfinished(s, key);
    SubsetCardinality(Exposed(s, key), Unfinished(s, key));
  }

  /** The step that audits the first success changes no claim's exposure. */
  lemma AuditingChangesNoExposure(s: System, step: Step, key: string)
    requires WellFormed(s) && key !in s.audited && key in Apply(s, step).audited
    ensures Exposed(Apply(s, step), key) == Exposed(s, key)
    ensures Apply(s, step).released == s.released
  {
    assert step.Work? && step.action.Log?;
  }

  lemma StepKeepsBounded(s: System, step: Step, key: string)
    requires WellFormed(s) && Bounded(s, key)
    ensures Bounded(Apply(s, step), key)
  {
    var s' := Apply(s, step);
    StepKeepsWellFormed(s, step);
    StepKeepsUnfinishedBound(s, step, key);
    ReleasedNeverDrops(s, step, key);
    if key in s.audited {
      AuditStopsExposure(s, step, key);
      SubsetCardinality(Exposed(s', key), Exposed(s, key));
    } else if key in s'.audited {
      AuditingChangesNoExposure(s, step, key);
    } else {
      UnauditedExposureIsUnfinished(s', key);
    }
  }

  lemma ReleasedNeverDrops(s: System, step: Step, key: string)
    ensures s.released[key] <= Apply(s, step).released[key]
  {
  }

  lemma {:induction false} RunKeepsBounded(s: System, steps: seq<Step>, key: string)
    requires WellFormed(s) && Bounded(s, key)
    ensures WellFormed(Run(s, steps)) && Bounded(Run(s, steps), key)
  {
    if steps == [] {
    } else {
      var front := steps[..|steps| - 1];
      RunKeepsBounded(s, front, key);
      StepKeepsWellFormed(Run(s, front), steps[|steps| - 1]);
      StepKeepsBounded(Run(s, front), steps[|steps| - 1], key);
    }
  }

  /** In every interleaving, with crashes anywhere: a channel accepts a notification at most once
      more often than a row of that key was taken away from its holder. */
  lemma DeliveriesAreBounded(steps: seq<Step>, key: string)
    ensures |Deliveries(Run(INITIAL, steps), key)| <= 1 + Run(INITIAL, steps).released[key]
  {
    assert Unfinished(INITIAL, key) == {} && Exposed(INITIAL, key) == {};
    RunKeepsBounded(INITIAL, steps, key);
    var s := Run(INITIAL, steps);
    SubsetCardinality(Deliveries(s, key), Exposed(s, key));
  }

  /** `released` counts exactly the times a recovery, a redrive or a deletion takes away a
      processing row of the key; no step of a worker or of the emit path changes it. */
  lemma ReleasedCountsTakings(s: System, step: Step, key: string)
    requires WellFormed(s)
    ensures Apply(s, step).released[key] == s.released[key] +
              (if step.Take? && InFlight(s.outbox, key) && !InFlight(AfterTaking(s.outbox, step.how), key) then 1 else 0)
  {
    if step.Take? {
      var ob := AfterTaking(s.outbox, step.how);
      TakingEvolves(s.outbox, step.how);
      if key in TakenAway(s.outbox, ob) {
        var id :| id in s.outbox.rows && s.outbox.rows[id].idempotencyKey == key && s.outbox.rows[id].status.Processing?
                  && !(id in ob.rows && ob.rows[id].status.Processing?);
        assert InFlight(s.outbox, key) && !InFlight(ob, key);
      } else if InFlight(s.outbox, key) {
        var id :| id in s.outbox.rows && s.outbox.rows[id].idempotencyKey == key && s.outbox.rows[id].status.Processing?;
        assert id in ob.rows && ob.rows[id].status.Processing?;
      }
    }
  }

  /** A key with an audited success and no claim already past the check is never sent again. */
  lemma {:induction false} AuditedKeyIsNeverResent(s: System, steps: seq<Step>, key: string)
    requires WellFormed(s) && key in s.audited
    requires forall t :: 0 <= t < |s.claims| && s.claims[t].key == key ==> !s.claims[t].phase.Cleared?
    ensures WellFormed(Run(s, steps)) && key in Run(s, steps).audited
    ensures Exposed(Run(s, steps), key) <= Deliveries(s, key)
    ensures Deliveries(Run(s, steps), key) <= Deliveries(s, key)
  {
    if steps == [] {
    } else {
      var front := steps[..|steps| - 1];
      AuditedKeyIsNeverResent(s, front, key);
      StepKeepsWellFormed(Run(s, front), steps[|steps| - 1]);
      AuditStopsExposure(Run(s, front), steps[|steps| - 1], key);
    }
  }

  // --- the bound is reached ---------------------------------------------------------------

  lemma RunSnoc(s: System, steps: seq<Step>, step: Step)
    ensures Run(s, steps + [step]) == Apply(Run(s, steps), step)
  {
    assert (steps + [step])[..|steps|] == steps;
  }

  lemma ReachesItself(s: System)
    ensures Reaches(s, s)
  {
    assert Run(s, []) == s;
  }

  lemma {:induction false} RunConcat(s: System, first: seq<Step>, rest: seq<Step>)
    ensures Run(s, first + rest) == Run(Run(s, first), rest)
  {
    if rest == [] {
      assert first + rest == first;
    } else {
      RunConcat(s, first, rest[..|rest| - 1]);
      assert (first + rest)[..|first + rest| - 1] == first + rest[..|rest| - 1];
    }
  }

  lemma RunCons(s: System, step: Step, rest: seq<Step>)
    ensures Run(s, [step] + rest) == Run(Apply(s, step), rest)
  {
    RunConcat(s, [step], rest);
    assert [step][..0] == [];
  }

  lemma ReachesNext(s: System, before: System, step: Step)
    requires Reaches(s, before)
    ensures Reaches(s, Apply(before, step))
  {
    var steps :| Run(s, steps) == before;
    RunSnoc(s, steps, step);
  }

  /** When the claim of round `n` comes, if each round goes stale just before the next. */
  function RoundAt(n: nat, staleSeconds: nat): Time {
    if n == 0 then 0.0 else RoundAt(n - 1, staleSeconds) + staleSeconds as real + 1.0
  }

  /** After `n` crashes between send and audit, each followed by a stale recovery except the last. */
  ghost predicate CrashedRounds(s: System, key: string, n: nat, at: Time) {
    && s.outbox.nextId == 1
    && s.outbox.rows.Keys == {0}
    && s.outbox.rows[0].idempotencyKey == key && s.outbox.rows[0].payloadOk
    && s.outbox.rows[0].status.Processing?
    && s.outbox.rows[0].updatedAt == at
    && s.audited == {}
    && |s.claims| == n + 1
    && (forall t :: 0 <= t <= n ==> s.claims[t].key == key && s.claims[t].delivered)
    && s.released[key] == n
  }

  /** As above, with the row due again and its next claim still to come. */
  ghost predicate ReadyForRound(s: System, key: string, n: nat, at: Time) {
    && s.outbox.nextId == 1
    && s.outbox.rows.Keys == {0}
    && s.outbox.rows[0].idempotencyKey == key && s.outbox.rows[0].payloadOk
    && s.outbox.rows[0].status.Pending?
    && s.outbox.rows[0].nextAttemptAt == at
    && s.audited == {}
    && |s.claims| == n
    && (forall t :: 0 <= t < n ==> s.claims[t].key == key && s.claims[t].delivered)
    && s.released[key] == n
  }

  lemma ClaimForRound(s: System, key: string, n: nat, at: Time) returns (s': System)
    requires ReadyForRound(s, key, n, at)
    ensures s' == Apply(Apply(s, Select(0, at, 1)), CompareAndSwap(0))
    ensures s'.outbox == TryClaim(s.outbox, 0, at).0
    ensures s'.claims == s.claims + [Claim(0, key, true, Held, false)]
    ensures s'.audited == s.audited && s'.released == s.released
  {
    assert Due(s.outbox, at) == {0};
    var ids := Candidates(s.outbox, at, 1);
    assert |ids| == 1 && ids[0] in Due(s.outbox, at);
    var selected := Apply(s, Select(0, at, 1));
    assert selected.selections[0] == Selected(ids, at) && ids == [0];
    s' := Apply(selected, CompareAndSwap(0));
    assert TryClaim(s.outbox, 0, at).1;
  }

  /** Claim the row, pass the check, deliver, crash before the audit. */
  lemma CrashAfterDelivery(prefix: seq<Step>, key: string, n: nat, at: Time) returns (steps: seq<Step>)
    requires ReadyForRound(Run(INITIAL, prefix), key, n, at)
    ensures CrashedRounds(Run(INITIAL, steps), key, n, at)
    ensures prefix <= steps && forall i :: |prefix| <= i < |steps| ==> !steps[i].Take?
  {
    var s := Run(INITIAL, prefix);
    var claimed := ClaimForRound(s, key, n, at);
    RunSnoc(INITIAL, prefix, Select(0, at, 1));
    steps := prefix + [Select(0, at, 1)];
    RunSnoc(INITIAL, steps, CompareAndSwap(0));
    steps := steps + [CompareAndSwap(0)];
    assert Run(INITIAL, steps) == claimed;
    RunSnoc(INITIAL, steps, Work(n, CheckAudit));
    steps := steps + [Work(n, CheckAudit)];
    var cleared := Apply(claimed, Work(n, CheckAudit));
    assert cleared.claims == s.claims + [Claim(0, key, true, Cleared, false)];
    RunSnoc(INITIAL, steps, Work(n, Send(true)));
    steps := steps + [Work(n, Send(true))];
    var sent := Apply(cleared, Work(n, Send(true)));
    assert sent.claims == s.claims + [Claim(0, key, true, Returned(true), true)];
    RunSnoc(INITIAL, steps, Work(n, Crash));
    steps := steps + [Work(n, Crash)];
    var crashed := Apply(sent, Work(n, Crash));
    assert crashed.claims == s.claims + [Claim(0, key, true, Lost, true)];
    assert Run(INITIAL, steps) == crashed;
  }

  /** Stale recoveries of the run use this stale time. */
  predicate RecoversAfter(steps: seq<Step>, staleSeconds: nat) {
    forall i :: 0 <= i < |steps| && steps[i].Take? && steps[i].how.Recover? ==> steps[i].how.staleSeconds == staleSeconds
  }

  /** The bound of `DeliveriesAreBounded` is exact: for every stale time and every number of releases
      some run reaches it. */
  lemma {:induction false} BoundIsReached(key: string, n: nat, staleSeconds: nat) returns (steps: seq<Step>)
    ensures Run(INITIAL, steps).released[key] == n
    ensures |Deliveries(Run(INITIAL, steps), key)| == n + 1
    ensures CrashedRounds(Run(INITIAL, steps), key, n, RoundAt(n, staleSeconds))
    ensures RecoversAfter(steps, staleSeconds)
  {
    var at := RoundAt(n, staleSeconds);
    if n == 0 {
      RunSnoc(INITIAL, [], Enqueue(key, "", "", true, 0.0));
      steps := CrashAfterDelivery([] + [Enqueue(key, "", "", true, 0.0)], key, 0, at);
    } else {
      var prefix := BoundIsReached(key, n - 1, staleSeconds);
      RecoveryReadiesTheRow(Run(INITIAL, prefix), key, n, RoundAt(n - 1, staleSeconds), at, staleSeconds);
      RunSnoc(INITIAL, prefix, Take(Recover(at, staleSeconds)));
      steps := CrashAfterDelivery(prefix + [Take(Recover(at, staleSeconds))], key, n, at);
    }
    assert Deliveries(Run(INITIAL, steps), key) == Below(n + 1);
  }

  lemma RecoveryReadiesTheRow(s: System, key: string, n: nat, before: Time, at: Time, staleSeconds: nat)
    requires n > 0 && CrashedRounds(s, key, n - 1, before) && at == before + staleSeconds as real + 1.0
    ensures ReadyForRound(Apply(s, Take(Recover(at, staleSeconds))), key, n, at)
  {
    var ob := RecoverStale(s.outbox, at, staleSeconds);
    assert IsStale(s.outbox.rows[0], at, staleSeconds);
    assert 0 in ob.rows && ob.rows[0].status.Pending?;
    assert TakenAway(s.outbox, ob) == {key};
  }

  ghost function Below(n: nat): (below: set<nat>)
    ensures |below| == n
    ensures forall t: nat :: t in below <==> t < n
  {
    if n == 0 then {} else Below(n - 1) + {n - 1}
  }
}
