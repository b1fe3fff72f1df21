/** Dedup state and database together. Every delivered event runs through keyed dedup; its emit is
    persisted before the next event of the same fingerprint, while emits of other fingerprints and
    operators act between any two of its statements.
 */
module Pipeline {
  import opened Prelude
  import opened Incidents
  import opened DedupAdapters
  import DedupParity
  import opened EmitProtocol
  import opened EmitOutcomes

  /** `delivered` counts, per fingerprint, the events handed to dedup. */
  datatype State = State(quix: Store, world: World, delivered: multiset<string>)

  /** Persist: a process continues its emit by a flush or a retry. Operate: anything that is no emit. */
  datatype Step =
    | Event(item: Item, policy: EmitPolicy, process: nat, freshId: string)
    | Persist(action: EmitProtocol.Step)
    | Operate(action: EmitProtocol.Step)

  const INITIAL := State(map[], EmitProtocol.INITIAL, multiset{})

  /** Some process is between the statements of an emit of this fingerprint. */
  ghost predicate Busy(w: World, fingerprint: string) {
    exists p :: p in w.inFlight && w.inFlight[p].alert.fingerprint == fingerprint
  }

  /** Events of one fingerprint go to one process in turn: the next waits until the emit is over. */
  ghost predicate Accepts(s: State, item: Item, process: nat) {
    && !BelowMinLevel(item) && DedupParity.ValidSettings(item.settings)
    && process !in s.world.inFlight && !Busy(s.world, item.fingerprint)
  }

  ghost function Apply(s: State, step: Step): State {
    match step
    case Event(item, policy, process, freshId) =>
      if !Accepts(s, item, process) then s
      else
        var (quix, emitted) := DedupParity.QuixStore(s.quix, item);
        State(quix,
              if emitted.Some? then EmitProtocol.Apply(s.world, Begin(process, emitted.value, policy, freshId)) else s.world,
              s.delivered + multiset{item.fingerprint})
    case Persist(action) =>
      if action.Flush? || action.Retry? then s.(world := EmitProtocol.Apply(s.world, action)) else s
    case Operate(action) =>
      if IsEmitStep(action) then s else s.(world := EmitProtocol.Apply(s.world, action))
  }

  ghost function Run(s: State, steps: seq<Step>): State {
    if steps == [] then s else Apply(Run(s, steps[..|steps| - 1]), steps[|steps| - 1])
  }

  /** The emit step of the database protocol that a pipeline step amounts to, if it is one. */
  ghost function EmitStepOf(s: State, step: Step): Option<EmitProtocol.Step> {
    match step
    case Event(item, policy, process, freshId) =>
      var emitted := DedupParity.QuixStore(s.quix, item).1;
      if Accepts(s, item, process) && emitted.Some? then Some(Begin(process, emitted.value, policy, freshId)) else None
    case Persist(action) => if action.Flush? || action.Retry? then Some(action) else None
    case Operate(_) => None
  }

  // --- what an emit step does to rows and emits under way -----------------------------------------

  predicate Pertains(w: World, step: EmitProtocol.Step) {
    step.Begin? || ((step.Flush? || step.Retry?) && step.process in w.inFlight)
  }

  /** The alert an emit step is about. */
  function AlertOf(w: World, step: EmitProtocol.Step): PipelineAlert
    requires Pertains(w, step)
  {
    if step.Begin? then step.alert else w.inFlight[step.process].alert
  }

  /** A commit writes one row of its fingerprint, counting on an existing one or with the alert's count. */
  lemma CommitWritesOneRow(w: World, step: EmitProtocol.Step)
    requires WorldOk(w) && CommitOf(w, step).Some?
    ensures Pertains(w, step)
    ensures var record, alert := CommitOf(w, step).value.committed.record, AlertOf(w, step);
            && record.fingerprint == alert.fingerprint
            && EmitProtocol.Apply(w, step).db.alerts == w.db.alerts[record.id := record]
            && EmitProtocol.Apply(w, step).inFlight == w.inFlight - {step.process}
            && (step.Flush? ==> record.id !in w.db.alerts)
            && if record.id in w.db.alerts
               then w.db.alerts[record.id].fingerprint == alert.fingerprint
                    && record.occurrenceCount == MergedCount(w.db.alerts[record.id], alert)
               else record.occurrenceCount == alert.occurrenceCount
  {
  }

  /** An emit step that commits nothing keeps every row, and its emit ends or stays about the same alert. */
  lemma NoCommitKeepsRows(w: World, step: EmitProtocol.Step)
    requires IsEmitStep(step) && CommitOf(w, step).None?
    ensures var after := EmitProtocol.Apply(w, step);
            && after.db.alerts == w.db.alerts
            && (|| after.inFlight == w.inFlight
                || after.inFlight == w.inFlight - {step.process}
                || (&& Pertains(w, step) && step.process in after.inFlight
                    && after.inFlight == w.inFlight[step.process := after.inFlight[step.process]]
                    && after.inFlight[step.process].alert.fingerprint == AlertOf(w, step).fingerprint
                    && after.inFlight[step.process].alert.occurrenceCount == AlertOf(w, step).occurrenceCount
                    && (after.inFlight[step.process].Retrying? ==> !after.inFlight[step.process].alert.isNew)))
  {
  }

  // --- the invariant ------------------------------------------------------------------------------

  ghost predicate QuixOk(quix: Store, delivered: multiset<string>) {
    forall fp :: fp in quix ==>
      && quix[fp].fingerprint == fp && quix[fp].windowSeconds >= 1
      && 1 <= quix[fp].occurrenceCount <= delivered[fp]
  }

  /** While an emit is under way, the event behind it is not in any row yet. */
  ghost predicate CountsOk(w: World, delivered: multiset<string>) {
    forall id :: id in w.db.alerts ==>
      && w.db.alerts[id].occurrenceCount <= delivered[w.db.alerts[id].fingerprint]
      && (Busy(w, w.db.alerts[id].fingerprint) ==>
            w.db.alerts[id].occurrenceCount < delivered[w.db.alerts[id].fingerprint])
  }

  /** One emit per fingerprint is under way, with the count of its dedup state. */
  ghost predicate InFlightOk(w: World, quix: Store) {
    && (forall p :: p in w.inFlight ==>
          CarriesCount(quix, w.inFlight[p].alert) && (w.inFlight[p].Retrying? ==> !w.inFlight[p].alert.isNew))
    && (forall p, q | p in w.inFlight && q in w.inFlight ::
          w.inFlight[p].alert.fingerprint == w.inFlight[q].alert.fingerprint ==> p == q)
  }

  ghost predicate CarriesCount(quix: Store, alert: PipelineAlert) {
    alert.fingerprint in quix && alert.occurrenceCount == quix[alert.fingerprint].occurrenceCount
  }

  ghost predicate StateOk(s: State) {
    && WorldOk(s.world) && QuixOk(s.quix, s.delivered)
    && InFlightOk(s.world, s.quix) && CountsOk(s.world, s.delivered)
  }

  lemma DedupCountsDeliveries(quix: Store, delivered: multiset<string>, item: Item)
    requires QuixOk(quix, delivered) && !BelowMinLevel(item) && DedupParity.ValidSettings(item.settings)
    ensures var (after, emitted) := DedupParity.QuixStore(quix, item);
            && QuixOk(after, delivered + multiset{item.fingerprint})
            && after.Keys == quix.Keys + {item.fingerprint}
            && (forall fp :: fp in quix && fp != item.fingerprint ==> after[fp] == quix[fp])
            && (emitted.Some? ==>
                  && emitted.value.fingerprint == item.fingerprint && CarriesCount(after, emitted.value)
                  && (emitted.value.isNew ==> emitted.value.occurrenceCount == 1))
  {
  }

  /** Where an emit may refresh a row, being new means the first event of an incident. */
  predicate NewCountsOne(w: World, step: EmitProtocol.Step)
    requires Pertains(w, step)
  {
    step.Flush? || (step.Retry? && w.inFlight[step.process].Inserting?)
    || (AlertOf(w, step).isNew ==> AlertOf(w, step).occurrenceCount == 1)
  }

  /** Room for one more event of the fingerprint in each of its rows. */
  ghost predicate HasRoom(w: World, delivered: multiset<string>, fingerprint: string) {
    forall id :: id in w.db.alerts && w.db.alerts[id].fingerprint == fingerprint ==>
      w.db.alerts[id].occurrenceCount < delivered[fingerprint]
  }

  /** The landed row counts at least what dedup counts and at most what was delivered. */
  lemma LandedCountIsBetween(w: World, step: EmitProtocol.Step, quix: Store, delivered: multiset<string>)
    requires WorldOk(w) && CommitOf(w, step).Some? && QuixOk(quix, delivered)
    requires Pertains(w, step) && CarriesCount(quix, AlertOf(w, step)) && NewCountsOne(w, step)
    requires HasRoom(w, delivered, AlertOf(w, step).fingerprint)
    ensures var record := CommitOf(w, step).value.committed.record;
            record.fingerprint in quix
            && quix[record.fingerprint].occurrenceCount <= record.occurrenceCount <= delivered[record.fingerprint]
  {
    CommitWritesOneRow(w, step);
  }

  lemma CommitKeepsCounts(w: World, step: EmitProtocol.Step, quix: Store, delivered: multiset<string>)
    requires WorldOk(w) && CommitOf(w, step).Some? && QuixOk(quix, delivered) && CountsOk(w, delivered)
    requires Pertains(w, step) && CarriesCount(quix, AlertOf(w, step)) && NewCountsOne(w, step)
    requires HasRoom(w, delivered, AlertOf(w, step).fingerprint)
    ensures forall id :: id in EmitProtocol.Apply(w, step).db.alerts ==>
              var row := EmitProtocol.Apply(w, step).db.alerts[id];
              && row.occurrenceCount <= delivered[row.fingerprint]
              && (row.fingerprint == AlertOf(w, step).fingerprint || (id in w.db.alerts && row == w.db.alerts[id]))
  {
    CommitWritesOneRow(w, step);
    LandedCountIsBetween(w, step, quix, delivered);
  }

  /** Nobody else has an emit of the step's fingerprint under way. */
  ghost predicate AloneWith(w: World, step: EmitProtocol.Step)
    requires Pertains(w, step)
  {
    forall p :: p in w.inFlight && w.inFlight[p].alert.fingerprint == AlertOf(w, step).fingerprint ==> p == step.process
  }

  lemma EmitStepKeepsInFlight(w: World, step: EmitProtocol.Step, quix: Store)
    requires WorldOk(w) && IsEmitStep(step) && InFlightOk(w, quix)
    requires Pertains(w, step) && CarriesCount(quix, AlertOf(w, step)) && AloneWith(w, step)
    ensures InFlightOk(EmitProtocol.Apply(w, step), quix)
    ensures forall p :: p in EmitProtocol.Apply(w, step).inFlight && p != step.process ==>
              p in w.inFlight && EmitProtocol.Apply(w, step).inFlight[p] == w.inFlight[p]
  {
    if CommitOf(w, step).Some? {
      CommitWritesOneRow(w, step);
    } else {
      NoCommitKeepsRows(w, step);
    }
  }

  /** An emit step on an alert with room keeps counts and emits under way. */
  lemma EmitStepKeepsState(w: World, step: EmitProtocol.Step, quix: Store, delivered: multiset<string>)
    requires WorldOk(w) && IsEmitStep(step) && QuixOk(quix, delivered)
    requires InFlightOk(w, quix) && CountsOk(w, delivered)
    requires Pertains(w, step) && CarriesCount(quix, AlertOf(w, step)) && NewCountsOne(w, step) && AloneWith(w, step)
    requires HasRoom(w, delivered, AlertOf(w, step).fingerprint)
    ensures InFlightOk(EmitProtocol.Apply(w, step), quix) && CountsOk(EmitProtocol.Apply(w, step), delivered)
  {
    var after := EmitProtocol.Apply(w, step);
    EmitStepKeepsInFlight(w, step, quix);
    if CommitOf(w, step).Some? {
      CommitWritesOneRow(w, step);
      CommitKeepsCounts(w, step, quix, delivered);
    } else {
      NoCommitKeepsRows(w, step);
    }
    forall id | id in after.db.alerts && Busy(after, after.db.alerts[id].fingerprint)
      ensures after.db.alerts[id].occurrenceCount < delivered[after.db.alerts[id].fingerprint]
    {
      var p :| p in after.inFlight && after.inFlight[p].alert.fingerprint == after.db.alerts[id].fingerprint;
      if p != step.process {
        assert Busy(w, after.db.alerts[id].fingerprint);
      }
    }
  }

  lemma EventKeepsState(s: State, item: Item, policy: EmitPolicy, process: nat, freshId: string)
    requires StateOk(s) && Accepts(s, item, process)
    ensures StateOk(Apply(s, Event(item, policy, process, freshId)))
  {
    var (quix, emitted) := DedupParity.QuixStore(s.quix, item);
    var delivered := s.delivered + multiset{item.fingerprint};
    DedupCountsDeliveries(s.quix, s.delivered, item);
    assert InFlightOk(s.world, quix) && CountsOk(s.world, delivered);
    if emitted.Some? {
      var begin := Begin(process, emitted.value, policy, freshId);
      StepKeepsWorld(s.world, begin);
      assert HasRoom(s.world, delivered, item.fingerprint);
      EmitStepKeepsState(s.world, begin, quix, delivered);
    }
  }

  lemma PersistKeepsState(s: State, action: EmitProtocol.Step)
    requires StateOk(s) && (action.Flush? || action.Retry?)
    ensures StateOk(Apply(s, Persist(action)))
  {
    StepKeepsWorld(s.world, action);
    if action.process in s.world.inFlight {
      assert Busy(s.world, AlertOf(s.world, action).fingerprint);
      EmitStepKeepsState(s.world, action, s.quix, s.delivered);
    } else {
      assert EmitProtocol.Apply(s.world, action) == s.world;
    }
  }

  lemma OperatorsKeepCounts(w: World, action: EmitProtocol.Step)
    requires WorldOk(w) && !IsEmitStep(action)
    ensures forall id :: id in w.db.alerts ==>
              && id in EmitProtocol.Apply(w, action).db.alerts
              && EmitProtocol.Apply(w, action).db.alerts[id].occurrenceCount == w.db.alerts[id].occurrenceCount
  {
  }

  lemma OperateKeepsState(s: State, action: EmitProtocol.Step)
    requires StateOk(s) && !IsEmitStep(action)
    ensures StateOk(Apply(s, Operate(action)))
  {
    StepKeepsWorld(s.world, action);
    OthersAddNoRow(s.world, action);
    OperatorsKeepCounts(s.world, action);
    var after := EmitProtocol.Apply(s.world, action);
    assert forall fp :: Busy(after, fp) <==> Busy(s.world, fp);
  }

  lemma StepKeepsState(s: State, step: Step)
    requires StateOk(s)
    ensures StateOk(Apply(s, step))
  {
    match step
    case Event(item, policy, process, freshId) =>
      if Accepts(s, item, process) { EventKeepsState(s, item, policy, process, freshId); }
    case Persist(action) =>
      if action.Flush? || action.Retry? { PersistKeepsState(s, action); }
    case Operate(action) =>
      if !IsEmitStep(action) { OperateKeepsState(s, action); }
  }

  lemma {:induction false} RunKeepsState(steps: seq<Step>)
    ensures StateOk(Run(INITIAL, steps))
  {
    if steps == [] {
    } else {
      RunKeepsState(steps[..|steps| - 1]);
      StepKeepsState(Run(INITIAL, steps[..|steps| - 1]), steps[|steps| - 1]);
    }
  }

  lemma StepCommitsBetween(s: State, step: Step)
    requires StateOk(s) && EmitStepOf(s, step).Some? && CommitOf(s.world, EmitStepOf(s, step).value).Some?
    ensures var record := CommitOf(s.world, EmitStepOf(s, step).value).value.committed.record;
            var after := Apply(s, step);
            && record.id in after.world.db.alerts && after.world.db.alerts[record.id] == record
            && record.fingerprint in after.quix
            && after.quix[record.fingerprint].occurrenceCount <= record.occurrenceCount
            && record.occurrenceCount <= after.delivered[record.fingerprint]
  {
    var action := EmitStepOf(s, step).value;
    CommitWritesOneRow(s.world, action);
    var after := Apply(s, step);
    if step.Event? {
      DedupCountsDeliveries(s.quix, s.delivered, step.item);
      assert HasRoom(s.world, after.delivered, step.item.fingerprint);
    } else {
      assert Busy(s.world, AlertOf(s.world, action).fingerprint);
    }
    StepKeepsState(s, step);
    LandedCountIsBetween(s.world, action, after.quix, after.delivered);
  }

  /** Over whole runs: whenever an emit commits, the row it writes counts at least what dedup state counts
      and at most the number of events delivered for the fingerprint, whether the window expired while the
      row was open or the old alert id came back after a resolve. */
  lemma DatabaseCountIsBetween(steps: seq<Step>, step: Step)
    requires EmitStepOf(Run(INITIAL, steps), step).Some?
    requires CommitOf(Run(INITIAL, steps).world, EmitStepOf(Run(INITIAL, steps), step).value).Some?
    ensures var s := Run(INITIAL, steps);
            var record := CommitOf(s.world, EmitStepOf(s, step).value).value.committed.record;
            var after := Apply(s, step);
            && record.id in after.world.db.alerts && after.world.db.alerts[record.id] == record
            && record.fingerprint in after.quix
            && after.quix[record.fingerprint].occurrenceCount <= record.occurrenceCount
            && record.occurrenceCount <= after.delivered[record.fingerprint]
  {
    RunKeepsState(steps);
    StepCommitsBetween(Run(INITIAL, steps), step);
  }

  /** At no time does any row of a fingerprint count more than its delivered events, and while an emit of
      the fingerprint is under way every row counts fewer. */
  lemma CountsNeverExceedDeliveries(steps: seq<Step>, id: string)
    requires id in Run(INITIAL, steps).world.db.alerts
    ensures var s := Run(INITIAL, steps);
            var row := s.world.db.alerts[id];
            && row.occurrenceCount <= s.delivered[row.fingerprint]
            && (Busy(s.world, row.fingerprint) ==> row.occurrenceCount < s.delivered[row.fingerprint])
  {
    RunKeepsState(steps);
  }
}
