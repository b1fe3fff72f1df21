/** The two dedup adapters make the same decisions: always on streams with nondecreasing clocks,
    and on any stream at all exactly when no event comes too late for the global sweep. */
module DedupParity {
  import opened Prelude
  import opened Schemas
  import opened DedupTransition
  import opened DedupAdapters

  /** Settings as the configuration loader accepts them. */
  predicate ValidSettings(s: RefireSettings) {
    s.windowSeconds >= 1 && s.refireSeconds >= 1
  }

  // --- running both adapters side by side -------------------------------------------------

  function QuixStore(quix: Store, item: Item): (Store, Option<AlertEvent>) {
    var (next, emitted) := QuixStep(Lookup(quix, item.fingerprint), item);
    (if next.Some? then quix[item.fingerprint := next.value] else quix, emitted)
  }

  /** Alerts compared up to the level aliases that only the wire normalizes. */
  function Normalized(emitted: Option<AlertEvent>): Option<AlertEvent> {
    match emitted
    case None => None
    case Some(alert) => Some(alert.(severity := alert.severity.Normalize()))
  }

  /** Both adapters emit, suppress or open alike on every event of the stream. */
  predicate Agree(memory: Store, quix: Store, items: seq<Item>)
    decreases |items|
  {
    || items == []
    || (var (memory', m) := MemoryStep(memory, items[0]);
        var (quix', q) := QuixStore(quix, items[0]);
        Normalized(m) == q && Agree(memory', quix', items[1..]))
  }

  // --- when they agree ----------------------------------------------------------------------

  function Later(a: Time, b: Time): Time {
    if a < b then b else a
  }

  /** For each key, the latest clock the global sweep has used since the key's state was written. */
  type Sweeps = map<string, Time>

  function NextSweeps(sweeps: Sweeps, item: Item): Sweeps {
    if BelowMinLevel(item) then sweeps
    else
      (map fp | fp in sweeps :: Later(sweeps[fp], item.event.clock))[item.fingerprint := item.event.stamp]
  }

  predicate Outlived(st: IncidentState, now: Time) {
    now - st.lastSeen > st.windowSeconds as real
  }

  /** The event does not come late: if some sweep has outlived its key's window, so has its own clock. */
  predicate Timely(quix: Store, sweeps: Sweeps, item: Item) {
    var fp := item.fingerprint;
    BelowMinLevel(item) || fp !in quix || fp !in sweeps
    || (Outlived(quix[fp], Later(sweeps[fp], item.event.clock)) ==> Outlived(quix[fp], item.event.clock))
  }

  predicate AllTimely(quix: Store, sweeps: Sweeps, items: seq<Item>)
    decreases |items|
  {
    || items == []
    || (Timely(quix, sweeps, items[0])
        && AllTimely(QuixStore(quix, items[0]).0, NextSweeps(sweeps, items[0]), items[1..]))
  }

  // --- the simulation relation ----------------------------------------------------------------

  /** The same state up to level aliases and the empty service or host that only memory fills in. */
  function Canonical(st: IncidentState): IncidentState {
    st.(severity := st.severity.Normalize(), service := OrUnknown(st.service), host := OrUnknown(st.host))
  }

  ghost predicate StateOk(st: IncidentState, fingerprint: string) {
    st.windowSeconds >= 1 && st.occurrenceCount >= 1 && st.fingerprint == fingerprint
  }

  ghost predicate WireState(st: IncidentState, fingerprint: string) {
    StateOk(st, fingerprint) && st.severity.Normalize() == st.severity
  }

  /** A key is in memory exactly when no sweep has outlived its keyed state, and then both agree. */
  ghost predicate Related(memory: Store, quix: Store, sweeps: Sweeps) {
    && sweeps.Keys == quix.Keys
    && memory.Keys <= quix.Keys
    && (forall fp :: fp in quix ==> WireState(quix[fp], fp))
    && (forall fp :: fp in quix ==> (fp in memory <==> !Outlived(quix[fp], sweeps[fp])))
    && (forall fp :: fp in memory ==> Canonical(memory[fp]) == Canonical(quix[fp]))
  }

  lemma SweepKeepsRelation(memory: Store, quix: Store, sweeps: Sweeps, now: Time)
    requires Related(memory, quix, sweeps)
    ensures Related(Swept(memory, now), quix, map fp | fp in sweeps :: Later(sweeps[fp], now))
  {
    forall fp | fp in memory ensures IsStale(memory[fp], now) <==> Outlived(quix[fp], now) {
      assert Canonical(memory[fp]) == Canonical(quix[fp]);
    }
  }

  function QuixTransition(existing: Option<IncidentState>, item: Item): TransitionResult {
    Transition(existing, FromWire(item.event), item.fingerprint,
               AtLeast(1, OrDefault(item.settings.windowSeconds, 300)),
               AtLeast(0, OrDefault(item.settings.refireSeconds, 60)), item.title, item.freshId)
  }

  /** On canonically equal states the transition decides alike and leaves canonically equal states. */
  lemma TransitionsAgree(memory: Option<IncidentState>, quix: Option<IncidentState>, item: Item)
    requires ValidSettings(item.settings)
    requires memory.Some? <==> quix.Some?
    requires memory.Some? ==>
               Canonical(memory.value) == Canonical(quix.value) && WireState(quix.value, item.fingerprint)
    ensures Decide(memory, item).action == QuixTransition(quix, item).action
    ensures Canonical(Decide(memory, item).state) == Canonical(QuixTransition(quix, item).state)
    ensures WireState(QuixTransition(quix, item).state, item.fingerprint)
    ensures QuixTransition(quix, item).state.lastSeen == item.event.stamp
    ensures QuixTransition(quix, item).state.windowSeconds == item.settings.windowSeconds
  {
    if memory.Some? {
      CanonicalFields(memory.value, quix.value);
    }
  }

  /** Once equal states are stored, everything the two adapters emit is equal too. */
  lemma EmissionsAgree(m: TransitionResult, q: TransitionResult, item: Item)
    requires m.action == q.action && Canonical(m.state) == Canonical(q.state)
    requires WireState(q.state, item.fingerprint)
    ensures Normalized(Emission(m, m.action.New?, item)) == Emission(q, q.action.New?, item)
    ensures Canonical(StoredFields(m.state).(windowSeconds := q.state.windowSeconds)) == Canonical(q.state)
  {
    CanonicalFields(m.state, q.state);
  }

  lemma CanonicalFields(a: IncidentState, b: IncidentState)
    requires Canonical(a) == Canonical(b)
    ensures a.windowSeconds == b.windowSeconds && a.lastSeen == b.lastSeen && a.occurrenceCount == b.occurrenceCount
    ensures a.lastEmittedAt == b.lastEmittedAt && a.severity.Rank() == b.severity.Rank() && a.fingerprint == b.fingerprint
    ensures OrUnknown(a.service) == OrUnknown(b.service) && OrUnknown(a.host) == OrUnknown(b.host)
  {
    var c := Canonical(a);
    assert c.windowSeconds == a.windowSeconds && c.lastSeen == a.lastSeen && c.occurrenceCount == a.occurrenceCount;
    assert c.lastEmittedAt == a.lastEmittedAt && c.fingerprint == a.fingerprint;
    assert a.severity.Normalize().Rank() == b.severity.Normalize().Rank();
  }

  /** What the keyed adapter continues from: nothing once its own clock has outlived the window. */
  function Alive(quix: Store, item: Item): Option<IncidentState> {
    if item.fingerprint in quix && !Outlived(quix[item.fingerprint], item.event.clock)
    then Some(quix[item.fingerprint])
    else None
  }

  lemma QuixStoreIsTransition(quix: Store, item: Item)
    requires !BelowMinLevel(item)
    requires item.fingerprint in quix ==> WireState(quix[item.fingerprint], item.fingerprint)
    ensures var q := QuixTransition(Alive(quix, item), item);
            QuixStore(quix, item) == (quix[item.fingerprint := q.state], Emission(q, q.action.New?, item))
  {
  }

  /** In a single-threaded engine `try_create` never loses: a key that survives the sweep is not new. */
  lemma MemoryStepIsTransition(memory: Store, item: Item)
    requires !BelowMinLevel(item) && ValidSettings(item.settings)
    requires forall fp :: fp in memory ==> StateOk(memory[fp], fp)
    ensures var existing := Lookup(Swept(memory, item.event.clock), item.fingerprint);
            var m := Decide(existing, item);
            && (m.action.New? <==> existing.None?)
            && MemoryStep(memory, item) ==
                 (Put(Swept(memory, item.event.clock), StoredFields(m.state), item.settings.windowSeconds),
                  Emission(m, m.action.New?, item))
  {
  }

  lemma WriteKeepsRelation(memory: Store, quix: Store, sweeps: Sweeps, fp: string, m: IncidentState, q: IncidentState)
    requires Related(memory, quix, sweeps)
    requires WireState(q, fp) && Canonical(m) == Canonical(q)
    ensures Related(memory[fp := m], quix[fp := q], sweeps[fp := q.lastSeen])
  {
  }

  lemma SurvivorsAreAlive(memory: Store, quix: Store, sweeps: Sweeps, item: Item)
    requires Related(memory, quix, sweeps) && Timely(quix, sweeps, item) && !BelowMinLevel(item)
    ensures var existing := Lookup(Swept(memory, item.event.clock), item.fingerprint);
            var alive := Alive(quix, item);
            && (existing.Some? <==> alive.Some?)
            && (alive.Some? ==>
                  Canonical(existing.value) == Canonical(alive.value) && WireState(alive.value, item.fingerprint))
  {
    SweepKeepsRelation(memory, quix, sweeps, item.event.clock);
  }

  lemma TimelyStepAgrees(memory: Store, quix: Store, sweeps: Sweeps, item: Item)
    requires Related(memory, quix, sweeps) && ValidSettings(item.settings) && Timely(quix, sweeps, item)
    ensures Normalized(MemoryStep(memory, item).1) == QuixStore(quix, item).1
    ensures Related(MemoryStep(memory, item).0, QuixStore(quix, item).0, NextSweeps(sweeps, item))
  {
    if !BelowMinLevel(item) {
      var fp := item.fingerprint;
      var swept := Swept(memory, item.event.clock);
      SurvivorsAreAlive(memory, quix, sweeps, item);
      MemoryStatesOk(memory, quix, sweeps);
      MemoryStepIsTransition(memory, item);
      QuixStoreIsTransition(quix, item);
      var m := Decide(Lookup(swept, fp), item);
      var q := QuixTransition(Alive(quix, item), item);
      TransitionsAgree(Lookup(swept, fp), Alive(quix, item), item);
      EmissionsAgree(m, q, item);
      SweepKeepsRelation(memory, quix, sweeps, item.event.clock);
      CanonicalFields(m.state, q.state);
      var written := StoredFields(m.state).(windowSeconds := item.settings.windowSeconds);
      WriteKeepsRelation(swept, quix, map k | k in sweeps :: Later(sweeps[k], item.event.clock), fp, written, q.state);
      assert MemoryStep(memory, item).0 == swept[fp := written];
    }
  }

  lemma MemoryStatesOk(memory: Store, quix: Store, sweeps: Sweeps)
    requires Related(memory, quix, sweeps)
    ensures forall fp :: fp in memory ==> StateOk(memory[fp], fp)
  {
    forall fp | fp in memory ensures StateOk(memory[fp], fp) {
      CanonicalFields(memory[fp], quix[fp]);
      assert WireState(quix[fp], fp);
    }
  }

  /** A late event is new to the engine but not to the keyed adapter. */
  lemma LateStepDisagrees(memory: Store, quix: Store, sweeps: Sweeps, item: Item)
    requires Related(memory, quix, sweeps) && ValidSettings(item.settings) && !Timely(quix, sweeps, item)
    ensures Normalized(MemoryStep(memory, item).1) != QuixStore(quix, item).1
  {
    SweepKeepsRelation(memory, quix, sweeps, item.event.clock);
    MemoryStatesOk(memory, quix, sweeps);
    MemoryStepIsTransition(memory, item);
    QuixStoreIsTransition(quix, item);
    assert !QuixTransition(Alive(quix, item), item).action.New?;
  }

  /** The adapters agree on a stream exactly when every event of it is timely. */
  lemma {:induction false} AgreementIsTimeliness(memory: Store, quix: Store, sweeps: Sweeps, items: seq<Item>)
    requires Related(memory, quix, sweeps)
    requires forall i :: 0 <= i < |items| ==> ValidSettings(items[i].settings)
    ensures Agree(memory, quix, items) <==> AllTimely(quix, sweeps, items)
    decreases |items|
  {
    if items == [] {
    } else if Timely(quix, sweeps, items[0]) {
      TimelyStepAgrees(memory, quix, sweeps, items[0]);
      AgreementIsTimeliness(MemoryStep(memory, items[0]).0, QuixStore(quix, items[0]).0,
                            NextSweeps(sweeps, items[0]), items[1..]);
    } else {
      LateStepDisagrees(memory, quix, sweeps, items[0]);
    }
  }

  // --- nondecreasing clocks ----------------------------------------------------------------------

  predicate NondecreasingClocks(items: seq<Item>) {
    forall i, j :: 0 <= i <= j < |items| ==> items[i].event.clock <= items[j].event.clock
  }

  /** No sweep so far lies after `clock`, other than the write of a stamp ahead of its own clock. */
  ghost predicate SweepsBefore(quix: Store, sweeps: Sweeps, clock: Time) {
    && sweeps.Keys == quix.Keys
    && (forall fp :: fp in quix ==>
          quix[fp].windowSeconds >= 1 && (sweeps[fp] <= clock || sweeps[fp] == quix[fp].lastSeen))
  }

  lemma NondecreasingStepIsTimely(quix: Store, sweeps: Sweeps, item: Item, clock: Time)
    requires SweepsBefore(quix, sweeps, clock) && clock <= item.event.clock && ValidSettings(item.settings)
    ensures Timely(quix, sweeps, item)
    ensures SweepsBefore(QuixStore(quix, item).0, NextSweeps(sweeps, item), item.event.clock)
  {
  }

  lemma {:induction false} NondecreasingIsTimely(quix: Store, sweeps: Sweeps, items: seq<Item>, clock: Time)
    requires SweepsBefore(quix, sweeps, clock)
    requires forall i :: 0 <= i < |items| ==> ValidSettings(items[i].settings) && clock <= items[i].event.clock
    requires NondecreasingClocks(items)
    ensures AllTimely(quix, sweeps, items)
    decreases |items|
  {
    if items == [] {
    } else {
      NondecreasingStepIsTimely(quix, sweeps, items[0], clock);
      NondecreasingIsTimely(QuixStore(quix, items[0]).0, NextSweeps(sweeps, items[0]), items[1..], items[0].event.clock);
    }
  }

  /** From empty stores, every multi-key stream with nondecreasing clocks is decided alike. */
  lemma ParityOnNondecreasingClocks(items: seq<Item>)
    requires forall i :: 0 <= i < |items| ==> ValidSettings(items[i].settings)
    requires NondecreasingClocks(items)
    ensures Agree(map[], map[], items)
  {
    if items != [] {
      NondecreasingIsTimely(map[], map[], items, items[0].event.clock);
    }
    AgreementIsTimeliness(map[], map[], map[], items);
  }

  /** A late event tells the adapters apart: key "a" at 0, key "b" at 400 sweeps it out of memory, and
      key "a" again at 10 is a new incident there but an update in keyed state. */
  lemma LateEventSplitsTheAdapters(level: LogLevel)
    ensures var settings := RefireSettings(DEBUG, 300, 5);
            var event := (at: Time) => LogEvent(at, at, level, "svc", "host", "boom", None, None, map[]);
            var stream := [Item(event(0.0), "a", "t", settings, "id0"), Item(event(400.0), "b", "t", settings, "id1"),
                           Item(event(10.0), "a", "t", settings, "id2")];
            !Agree(map[], map[], stream)
  {
    var settings := RefireSettings(DEBUG, 300, 5);
    var event := (at: Time) => LogEvent(at, at, level, "svc", "host", "boom", None, None, map[]);
    var first := Item(event(0.0), "a", "t", settings, "id0");
    var second := Item(event(400.0), "b", "t", settings, "id1");
    var late := Item(event(10.0), "a", "t", settings, "id2");
    var stream := [first, second, late];
    AgreementIsTimeliness(map[], map[], map[], stream);
    SweptBeforeItsTime(first, second, late);
    assert stream[1..][1..] == [late] && stream[1..][0] == second;
    var quix1, sweeps1 := QuixStore(map[], first).0, NextSweeps(map[], first);
    assert !AllTimely(quix1, sweeps1, stream[1..]);
  }

  lemma SweptBeforeItsTime(first: Item, second: Item, late: Item)
    requires !BelowMinLevel(first) && !BelowMinLevel(second) && !BelowMinLevel(late)
    requires first.fingerprint == late.fingerprint == "a" && second.fingerprint == "b"
    requires first.event.stamp == 0.0 && second.event.clock == 400.0 && late.event.clock == 10.0
    requires first.settings.windowSeconds == 300
    ensures var quix1, sweeps1 := QuixStore(map[], first).0, NextSweeps(map[], first);
            var quix2, sweeps2 := QuixStore(quix1, second).0, NextSweeps(sweeps1, second);
            !AllTimely(quix2, sweeps2, [late])
  {
    var quix1, sweeps1 := QuixStore(map[], first).0, NextSweeps(map[], first);
    var quix2, sweeps2 := QuixStore(quix1, second).0, NextSweeps(sweeps1, second);
    assert "a" != "b" by { assert "a"[0] != "b"[0]; }
    assert quix2["a"].lastSeen == 0.0 && quix2["a"].windowSeconds == 300 && sweeps2["a"] == 400.0;
    assert !Timely(quix2, sweeps2, late);
  }

  // --- level aliases -----------------------------------------------------------------------------

  predicate AgreeExactly(memory: Store, quix: Store, items: seq<Item>)
    decreases |items|
  {
    || items == []
    || (var (memory', m) := MemoryStep(memory, items[0]);
        var (quix', q) := QuixStore(quix, items[0]);
        m == q && AgreeExactly(memory', quix', items[1..]))
  }

  ghost predicate NoAliases(memory: Store) {
    forall fp :: fp in memory ==> NoAlias(memory[fp])
  }

  predicate NoAlias(st: IncidentState) {
    st.severity.Normalize() == st.severity
  }

  lemma DecisionHasNoAlias(existing: Option<IncidentState>, item: Item)
    requires existing.Some? ==> NoAlias(existing.value)
    requires item.event.level.Normalize() == item.event.level
    ensures NoAlias(Decide(existing, item).state)
  {
  }

  lemma RecordKeepsNoAliases(store: Store, result: TransitionResult, item: Item)
    requires NoAliases(store) && NoAlias(result.state) && item.event.level.Normalize() == item.event.level
    ensures NoAliases(Record(store, result, item).0)
    ensures Normalized(Record(store, result, item).1) == Record(store, result, item).1
  {
    DecisionHasNoAlias(Lookup(store, item.fingerprint), item);
  }

  lemma StepKeepsNoAliases(memory: Store, item: Item)
    requires NoAliases(memory) && item.event.level.Normalize() == item.event.level
    ensures NoAliases(MemoryStep(memory, item).0)
    ensures Normalized(MemoryStep(memory, item).1) == MemoryStep(memory, item).1
  {
    if !BelowMinLevel(item) {
      var swept := Swept(memory, item.event.clock);
      DecisionHasNoAlias(Lookup(swept, item.fingerprint), item);
      RecordKeepsNoAliases(swept, Decide(Lookup(swept, item.fingerprint), item), item);
    }
  }

  /** Events parsed from the log topic carry normalized levels; on those the adapters agree to the letter. */
  lemma {:induction false} NormalizedLevelsAgreeExactly(memory: Store, quix: Store, items: seq<Item>)
    requires NoAliases(memory)
    requires forall i :: 0 <= i < |items| ==> items[i].event.level.Normalize() == items[i].event.level
    ensures Agree(memory, quix, items) <==> AgreeExactly(memory, quix, items)
    decreases |items|
  {
    if items == [] {
    } else {
      StepKeepsNoAliases(memory, items[0]);
      NormalizedLevelsAgreeExactly(MemoryStep(memory, items[0]).0, QuixStore(quix, items[0]).0, items[1..]);
    }
  }

  /** No alert the engine emits on the stream carries a level alias. */
  predicate NoAliasEmitted(memory: Store, items: seq<Item>)
    decreases |items|
  {
    || items == []
    || (var (memory', m) := MemoryStep(memory, items[0]);
        Normalized(m) == m && NoAliasEmitted(memory', items[1..]))
  }

  lemma QuixStepKeepsNoAliases(quix: Store, item: Item)
    requires NoAliases(quix)
    ensures NoAliases(QuixStore(quix, item).0)
    ensures Normalized(QuixStore(quix, item).1) == QuixStore(quix, item).1
  {
  }

  /** On any stream, adapters that agree up to aliases agree to the letter exactly when the engine
      emits no alert whose severity is an alias. */
  lemma {:induction false} ExactAgreementNeedsNoAliases(memory: Store, quix: Store, items: seq<Item>)
    requires NoAliases(quix)
    ensures AgreeExactly(memory, quix, items) <==> Agree(memory, quix, items) && NoAliasEmitted(memory, items)
    decreases |items|
  {
    if items != [] {
      QuixStepKeepsNoAliases(quix, items[0]);
      ExactAgreementNeedsNoAliases(MemoryStep(memory, items[0]).0, QuixStore(quix, items[0]).0, items[1..]);
    }
  }

  /** The first event of a key: the adapters' alerts are equal exactly when its level is not an alias. */
  lemma AliasSplitsTheAdapters(item: Item)
    requires !BelowMinLevel(item) && ValidSettings(item.settings)
    ensures AgreeExactly(map[], map[], [item]) <==> item.event.level.Normalize() == item.event.level
    ensures Agree(map[], map[], [item])
  {
    ExactAgreementNeedsNoAliases(map[], map[], [item]);
    MemoryStepIsTransition(map[], item);
    ParityOnNondecreasingClocks([item]);
    assert [item][1..] == [];
    assert MemoryStep(map[], item).1.value.severity == item.event.level;
  }

  // --- two threads creating one key ----------------------------------------------------------------

  /** Two threads that both found no entry. Within the first event's window the loser of `try_create`
      counts on the winner's entry; past it, its decision replaces the entry by a new incident. Either
      way it does not report a new incident. */
  lemma CreateRaceCountsBoth(store: Store, first: Item, second: Item)
    requires first.fingerprint == second.fingerprint && first.fingerprint !in store
    requires ValidSettings(first.settings) && ValidSettings(second.settings)
    ensures var (created, a) := Record(store, Decide(None, first), first);
            var (merged, b) := Record(created, Decide(None, second), second);
            var entry := merged[first.fingerprint];
            var within := second.event.clock - first.event.stamp <= first.settings.windowSeconds as real;
            && merged.Keys == store.Keys + {first.fingerprint}
            && a.Some? && a.value.isNew
            && entry.occurrenceCount == (if within then 2 else 1)
            && entry.alertId == (if within then first.freshId else second.freshId)
            && (b.Some? <==>
                  within ==> second.event.clock - first.event.clock >= second.settings.refireSeconds as real)
            && (b.Some? ==> !b.value.isNew && b.value.id == entry.alertId)
  {
  }
}
