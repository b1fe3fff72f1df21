/** When the alerts of the two dedup adapters are equal to the letter, as a condition on the event
    stream alone: nothing comes late, and no notification carries a level alias, where the level is
    that of the first highest-ranked event since the incident opened. */
module AliasExactness {
  import opened Prelude
  import opened Schemas
  import opened DedupTransition
  import opened DedupAdapters
  import opened DedupParity
  import opened Sessions

  function InputOf(item: Item): Input {
    Input(item.event, item.settings.windowSeconds, item.settings.refireSeconds, item.freshId)
  }

  /** The events of one key that get past the level filter, with their settings. */
  function KeyEvents(items: seq<Item>, fingerprint: string): seq<Input> {
    if items == [] then []
    else
      var last := items[|items| - 1];
      KeyEvents(items[..|items| - 1], fingerprint)
      + if last.fingerprint == fingerprint && !BelowMinLevel(last) then [InputOf(last)] else []
  }

  predicate IsAlias(level: LogLevel) {
    level.WARNING? || level.FATAL?
  }

  /** The last event of the stream notifies, and the first highest-ranked event since its incident
      opened has a level alias. */
  predicate NotifiesWithAlias(items: seq<Item>)
    requires items != []
  {
    var last := items[|items| - 1];
    !BelowMinLevel(last) &&
    var xs := KeyEvents(items, last.fingerprint);
    var n := |xs| - 1;
    Emits(xs, n) && IsAlias(xs[Peak(xs, Start(xs, n), n)].event.level)
  }

  /** Event `i` does not notify, or notifies without an alias. */
  predicate NotifiesPlainly(items: seq<Item>, i: nat)
    requires i < |items|
  {
    !NotifiesWithAlias(items[..i + 1])
  }

  // --- both adapters follow the batch description -------------------------------------------------

  /** What the rules read of a state. */
  predicate SameCourse(a: IncidentState, b: IncidentState) {
    a.lastSeen == b.lastSeen && a.windowSeconds == b.windowSeconds && a.lastEmittedAt == b.lastEmittedAt
    && a.severity == b.severity
  }

  function Latest(xs: seq<Input>): (st: IncidentState)
    requires xs != []
  {
    Online(xs, "", "", |xs| - 1).state
  }

  lemma {:induction false} OnlineOfPrefix(xs: seq<Input>, x: Input, i: nat)
    requires i < |xs|
    ensures Online(xs + [x], "", "", i) == Online(xs, "", "", i)
  {
    if i > 0 {
      OnlineOfPrefix(xs, x, i - 1);
    }
  }

  lemma OnlineNext(xs: seq<Input>, x: Input)
    ensures Online(xs + [x], "", "", |xs|)
         == Transition(if xs == [] then None else Some(Latest(xs)), x.event, "", x.windowSeconds, x.refireSeconds, "", x.newId)
  {
    if xs != [] {
      OnlineOfPrefix(xs, x, |xs| - 1);
    }
  }

  /** Keyed state remembers when the key was last seen; an entry in memory has followed the same course
      as the fold over the key's events. */
  ghost predicate KeyOnCourse(xs: seq<Input>, memory: Store, quix: Store, fp: string) {
    && (fp in quix <==> xs != [])
    && (fp in quix && xs != [] ==>
          quix[fp].lastSeen == Latest(xs).lastSeen && quix[fp].windowSeconds == Latest(xs).windowSeconds)
    && (fp in memory && xs != [] ==> SameCourse(memory[fp], Latest(xs)))
  }

  ghost predicate OnCourse(done: seq<Item>, memory: Store, quix: Store) {
    forall fp :: KeyOnCourse(KeyEvents(done, fp), memory, quix, fp)
  }

  /** States on the same course lead to the same decision, and so do no state and an outlived one. */
  lemma DecisionsFollow(existing: Option<IncidentState>, latest: Option<IncidentState>, item: Item)
    requires ValidSettings(item.settings)
    requires existing.Some? ==> latest.Some? && SameCourse(existing.value, latest.value)
    requires existing.None? && latest.Some? ==> latest.value.windowSeconds >= 1 && Outlived(latest.value, item.event.clock)
    ensures var a := Decide(existing, item);
            var b := Transition(latest, item.event, "", item.settings.windowSeconds, item.settings.refireSeconds, "",
                                item.freshId);
            a.action == b.action && SameCourse(a.state, b.state)
  {
  }

  lemma KeyEventsNext(done: seq<Item>, item: Item, fp: string)
    ensures KeyEvents(done + [item], fp)
         == KeyEvents(done, fp) + if item.fingerprint == fp && !BelowMinLevel(item) then [InputOf(item)] else []
  {
    assert (done + [item])[..|done|] == done;
  }

  lemma LatestWindow(xs: seq<Input>)
    requires xs != []
    ensures Latest(xs).windowSeconds >= 1 && Latest(xs).lastSeen == xs[|xs| - 1].event.stamp
    ensures Latest(xs).windowSeconds == xs[|xs| - 1].Window()
  {
    OnlineEqualsBatch(xs, "", "", |xs| - 1);
  }

  /** The engine's decision about a timely event is that of the fold over its key's events. */
  lemma EngineFollows(done: seq<Item>, memory: Store, quix: Store, sweeps: Sweeps, item: Item)
    requires Related(memory, quix, sweeps) && OnCourse(done, memory, quix)
    requires ValidSettings(item.settings) && Timely(quix, sweeps, item) && !BelowMinLevel(item)
    ensures var m := Decide(Lookup(Swept(memory, item.event.clock), item.fingerprint), item);
            var xs := KeyEvents(done + [item], item.fingerprint);
            && xs != [] && m.action == Online(xs, "", "", |xs| - 1).action && SameCourse(m.state, Latest(xs))
  {
    var fp := item.fingerprint;
    var xs := KeyEvents(done, fp);
    assert KeyOnCourse(xs, memory, quix, fp);
    KeyEventsNext(done, item, fp);
    OnlineNext(xs, InputOf(item));
    SurvivorsAreAlive(memory, quix, sweeps, item);
    if xs != [] {
      LatestWindow(xs);
    }
    DecisionsFollow(Lookup(Swept(memory, item.event.clock), fp), if xs == [] then None else Some(Latest(xs)), item);
  }

  lemma OtherKeyStaysOnCourse(xs: seq<Input>, memory: Store, quix: Store, item: Item, fp: string)
    requires KeyOnCourse(xs, memory, quix, fp) && (fp != item.fingerprint || BelowMinLevel(item))
    requires forall other :: other in memory ==> DedupParity.StateOk(memory[other], other)
    requires ValidSettings(item.settings)
    requires item.fingerprint in quix ==> WireState(quix[item.fingerprint], item.fingerprint)
    ensures KeyOnCourse(xs, MemoryStep(memory, item).0, QuixStore(quix, item).0, fp)
  {
    if !BelowMinLevel(item) {
      MemoryStepIsTransition(memory, item);
      QuixStoreIsTransition(quix, item);
    }
  }

  lemma OwnKeyStaysOnCourse(done: seq<Item>, memory: Store, quix: Store, sweeps: Sweeps, item: Item)
    requires Related(memory, quix, sweeps) && OnCourse(done, memory, quix)
    requires ValidSettings(item.settings) && Timely(quix, sweeps, item) && !BelowMinLevel(item)
    ensures KeyOnCourse(KeyEvents(done + [item], item.fingerprint), MemoryStep(memory, item).0, QuixStore(quix, item).0,
                        item.fingerprint)
  {
    var existing, alive := Lookup(Swept(memory, item.event.clock), item.fingerprint), Alive(quix, item);
    EngineFollows(done, memory, quix, sweeps, item);
    MemoryStatesOk(memory, quix, sweeps);
    MemoryStepIsTransition(memory, item);
    SurvivorsAreAlive(memory, quix, sweeps, item);
    QuixStoreIsTransition(quix, item);
    TransitionsAgree(existing, alive, item);
    KeyEventsNext(done, item, item.fingerprint);
    LatestWindow(KeyEvents(done + [item], item.fingerprint));
    PutStaysOnCourse(memory, Decide(existing, item), KeyEvents(done + [item], item.fingerprint), item);
  }

  lemma PutStaysOnCourse(memory: Store, m: TransitionResult, xs: seq<Input>, item: Item)
    requires xs != [] && SameCourse(m.state, Latest(xs)) && Latest(xs).windowSeconds == item.settings.windowSeconds
    requires m.state.fingerprint == item.fingerprint
    ensures var after := Put(Swept(memory, item.event.clock), StoredFields(m.state), item.settings.windowSeconds);
            item.fingerprint in after && SameCourse(after[item.fingerprint], Latest(xs))
  {
  }

  lemma StepStaysOnCourse(done: seq<Item>, memory: Store, quix: Store, sweeps: Sweeps, item: Item)
    requires Related(memory, quix, sweeps) && OnCourse(done, memory, quix)
    requires ValidSettings(item.settings) && Timely(quix, sweeps, item)
    ensures OnCourse(done + [item], MemoryStep(memory, item).0, QuixStore(quix, item).0)
  {
    MemoryStatesOk(memory, quix, sweeps);
    forall fp ensures KeyOnCourse(KeyEvents(done + [item], fp), MemoryStep(memory, item).0, QuixStore(quix, item).0, fp) {
      KeyEventsNext(done, item, fp);
      assert KeyOnCourse(KeyEvents(done, fp), memory, quix, fp);
      if fp == item.fingerprint && !BelowMinLevel(item) {
        OwnKeyStaysOnCourse(done, memory, quix, sweeps, item);
      } else {
        assert KeyEvents(done + [item], fp) == KeyEvents(done, fp);
        OtherKeyStaysOnCourse(KeyEvents(done, fp), memory, quix, item, fp);
      }
    }
  }

  lemma EmissionIsExact(m: TransitionResult, item: Item)
    ensures Normalized(Emission(m, m.action.New?, item)) == Emission(m, m.action.New?, item)
       <==> m.action.Suppress? || !IsAlias(m.state.severity)
  {
  }

  lemma NotificationOfTheFold(items: seq<Item>)
    requires items != [] && !BelowMinLevel(items[|items| - 1])
    ensures var xs := KeyEvents(items, items[|items| - 1].fingerprint);
            && xs != []
            && (NotifiesWithAlias(items) <==>
                  !Online(xs, "", "", |xs| - 1).action.Suppress? && IsAlias(Latest(xs).severity))
  {
    var xs := KeyEvents(items, items[|items| - 1].fingerprint);
    OnlineEqualsBatch(xs, "", "", |xs| - 1);
  }

  lemma EngineEmission(memory: Store, quix: Store, sweeps: Sweeps, item: Item)
    requires Related(memory, quix, sweeps) && ValidSettings(item.settings) && !BelowMinLevel(item)
    ensures var m := Decide(Lookup(Swept(memory, item.event.clock), item.fingerprint), item);
            MemoryStep(memory, item).1 == Emission(m, m.action.New?, item)
  {
    MemoryStatesOk(memory, quix, sweeps);
    MemoryStepIsTransition(memory, item);
  }

  lemma EngineEmitsAlias(done: seq<Item>, memory: Store, quix: Store, sweeps: Sweeps, item: Item)
    requires Related(memory, quix, sweeps) && OnCourse(done, memory, quix)
    requires ValidSettings(item.settings) && Timely(quix, sweeps, item) && !BelowMinLevel(item)
    ensures Normalized(MemoryStep(memory, item).1) == MemoryStep(memory, item).1 <==> !NotifiesWithAlias(done + [item])
  {
    var m := Decide(Lookup(Swept(memory, item.event.clock), item.fingerprint), item);
    EngineFollows(done, memory, quix, sweeps, item);
    EngineEmission(memory, quix, sweeps, item);
    EmissionIsExact(m, item);
    NotificationOfTheFold(done + [item]);
  }

  /** One timely event: the alerts are equal exactly when it does not notify with an alias. */
  lemma StepIsExact(done: seq<Item>, memory: Store, quix: Store, sweeps: Sweeps, item: Item)
    requires Related(memory, quix, sweeps) && OnCourse(done, memory, quix)
    requires ValidSettings(item.settings) && Timely(quix, sweeps, item)
    ensures MemoryStep(memory, item).1 == QuixStore(quix, item).1 <==> !NotifiesWithAlias(done + [item])
  {
    TimelyStepAgrees(memory, quix, sweeps, item);
    if BelowMinLevel(item) {
      assert MemoryStep(memory, item).1 == None;
    } else {
      EngineEmitsAlias(done, memory, quix, sweeps, item);
    }
  }

  /** From event `k` on no event notifies with an alias. */
  predicate PlainFrom(items: seq<Item>, k: nat) {
    forall i :: k <= i < |items| ==> NotifiesPlainly(items, i)
  }

  lemma PlainFromNext(items: seq<Item>, k: nat)
    requires k < |items|
    ensures PlainFrom(items, k) <==> NotifiesPlainly(items, k) && PlainFrom(items, k + 1)
  {
  }

  lemma ExactStep(done: seq<Item>, memory: Store, quix: Store, sweeps: Sweeps, item: Item)
    requires Related(memory, quix, sweeps) && OnCourse(done, memory, quix)
    requires ValidSettings(item.settings) && Timely(quix, sweeps, item)
    ensures MemoryStep(memory, item).1 == QuixStore(quix, item).1 <==> !NotifiesWithAlias(done + [item])
    ensures Related(MemoryStep(memory, item).0, QuixStore(quix, item).0, NextSweeps(sweeps, item))
    ensures OnCourse(done + [item], MemoryStep(memory, item).0, QuixStore(quix, item).0)
  {
    StepIsExact(done, memory, quix, sweeps, item);
    StepStaysOnCourse(done, memory, quix, sweeps, item);
    TimelyStepAgrees(memory, quix, sweeps, item);
  }

  lemma MoveOne<T>(done: seq<T>, rest: seq<T>)
    requires rest != []
    ensures done + [rest[0]] + rest[1..] == done + rest
    ensures (done + rest)[..|done| + 1] == done + [rest[0]]
  {
  }

  lemma {:induction false} ExactFrom(done: seq<Item>, memory: Store, quix: Store, sweeps: Sweeps, rest: seq<Item>)
    requires Related(memory, quix, sweeps) && OnCourse(done, memory, quix) && AllTimely(quix, sweeps, rest)
    requires forall i :: 0 <= i < |rest| ==> ValidSettings(rest[i].settings)
    ensures AgreeExactly(memory, quix, rest) <==> PlainFrom(done + rest, |done|)
    decreases |rest|
  {
    if rest != [] {
      var item, tail := rest[0], rest[1..];
      var memory', quix', sweeps' := MemoryStep(memory, item).0, QuixStore(quix, item).0, NextSweeps(sweeps, item);
      StreamUnfolds(memory, quix, sweeps, rest);
      ExactStep(done, memory, quix, sweeps, item);
      ExactFrom(done + [item], memory', quix', sweeps', tail);
      MoveOne(done, rest);
      PlainFromNext(done + rest, |done|);
    }
  }

  lemma StreamUnfolds(memory: Store, quix: Store, sweeps: Sweeps, rest: seq<Item>)
    requires rest != [] && AllTimely(quix, sweeps, rest)
    ensures var (memory', m) := MemoryStep(memory, rest[0]);
            var (quix', q) := QuixStore(quix, rest[0]);
            && Timely(quix, sweeps, rest[0]) && AllTimely(quix', NextSweeps(sweeps, rest[0]), rest[1..])
            && (AgreeExactly(memory, quix, rest) <==> m == q && AgreeExactly(memory', quix', rest[1..]))
  {
  }

  /** From empty stores, on every stream: the two adapters emit equal alerts exactly when no event comes
      late and no event notifies with a level alias. */
  lemma AlertsAreEqualExactly(items: seq<Item>)
    requires forall i :: 0 <= i < |items| ==> ValidSettings(items[i].settings)
    ensures AgreeExactly(map[], map[], items)
       <==> && AllTimely(map[], map[], items)
            && forall i :: 0 <= i < |items| ==> NotifiesPlainly(items, i)
  {
    AgreementIsTimeliness(map[], map[], map[], items);
    ExactAgreementNeedsNoAliases(map[], map[], items);
    if AllTimely(map[], map[], items) {
      ExactFrom([], map[], map[], map[], items);
      assert [] + items == items;
    }
  }
}
