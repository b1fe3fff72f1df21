/** The two adapters around the dedup transition: the in-process engine over one memory store,
    which sweeps every key on every event, and the keyed-state adapter, which looks only at its own key.
 */
module DedupAdapters {
  import opened Prelude
  import opened Schemas
  import opened DedupTransition

  datatype RefireSettings = RefireSettings(minLevel: LogLevel, windowSeconds: int, refireSeconds: int)

  /** One event on its way through dedup: its fingerprint and title (opaque functions of the event),
      the settings resolved for it, and the id an incident opened by it would get. */
  datatype Item = Item(event: LogEvent, fingerprint: string, title: string, settings: RefireSettings, freshId: string)

  predicate BelowMinLevel(item: Item) {
    item.event.level.Rank() < item.settings.minLevel.Rank()
  }

  lemma LevelFilterByName(item: Item)
    ensures BelowMinLevel(item) <==> TooLow(item.event.level, item.settings.minLevel)
  {
  }

  type Store = map<string, IncidentState>

  // --- the memory adapter, as functions on the store ------------------------------------

  function StoredFields(st: IncidentState): IncidentState {
    st.(occurrenceCount := if st.occurrenceCount == 0 then 1 else st.occurrenceCount,
        service := OrUnknown(st.service),
        host := OrUnknown(st.host),
        windowSeconds := if st.windowSeconds == 0 then 300 else st.windowSeconds)
  }

  predicate IsStale(st: IncidentState, now: Time) {
    now - st.lastSeen > st.windowSeconds as real
  }

  function Swept(store: Store, now: Time): Store {
    map fp | fp in store && !IsStale(store[fp], now) :: store[fp]
  }

  function Put(store: Store, st: IncidentState, ttlSeconds: int): Store {
    store[st.fingerprint := st.(windowSeconds := ttlSeconds)]
  }

  function Lookup(store: Store, fingerprint: string): Option<IncidentState> {
    if fingerprint in store then Some(store[fingerprint]) else None
  }

  function Decide(existing: Option<IncidentState>, item: Item): TransitionResult {
    Transition(existing, item.event, item.fingerprint, item.settings.windowSeconds, item.settings.refireSeconds,
               item.title, item.freshId)
  }

  function Emission(result: TransitionResult, isNew: bool, item: Item): Option<AlertEvent> {
    if result.action.Suppress? then None else Some(AlertFromState(result.state, isNew, item.event.message))
  }

  /** The write half of `process`: create on `new`, falling back to the winner's state if somebody
      else created the key first; put otherwise. */
  function Record(store: Store, result: TransitionResult, item: Item): (Store, Option<AlertEvent>) {
    var ttl := item.settings.windowSeconds;
    var incident := StoredFields(result.state);
    if result.action.New? && incident.fingerprint in store then
      var again := Decide(Lookup(store, item.fingerprint), item);
      (Put(store, StoredFields(again.state), ttl), Emission(again, false, item))
    else (Put(store, incident, ttl), Emission(result, result.action.New?, item))
  }

  function MemoryStep(store: Store, item: Item): (Store, Option<AlertEvent>) {
    if BelowMinLevel(item) then (store, None)
    else
      var swept := Swept(store, item.event.clock);
      Record(swept, Decide(Lookup(swept, item.fingerprint), item), item)
  }

  // --- the keyed-state adapter --------------------------------------------------------------

  /** What the wire does to an event: level aliases are normalized on the way back in. */
  function FromWire(event: LogEvent): LogEvent {
    event.(level := event.level.Normalize())
  }

  function OrDefault(value: int, fallback: int): int {
    if value == 0 then fallback else value
  }

  function QuixStep(state: Option<IncidentState>, item: Item): (Option<IncidentState>, Option<AlertEvent>) {
    if BelowMinLevel(item) then (state, None)
    else
      var event := FromWire(item.event);
      var window := AtLeast(1, OrDefault(item.settings.windowSeconds, 300));
      var refire := AtLeast(0, OrDefault(item.settings.refireSeconds, 60));
      var existing := if state.Some? && WindowExpired(state.value, event.clock, window) then None else state;
      var result := Transition(existing, event, item.fingerprint, window, refire, item.title, item.freshId);
      (Some(result.state), Emission(result, result.action.New?, item))
  }

  // --- severity, by the names of levels -------------------------------------------------------------

  ghost predicate WellKeyed(store: Store) {
    forall fp :: fp in store ==> store[fp].fingerprint == fp && store[fp].windowSeconds >= 1
  }

  /** The entry is no more than its window behind the clock. */
  predicate StillOpen(st: IncidentState, clock: Time) {
    clock <= st.lastSeen + st.windowSeconds as real
  }

  /** The severity an incident has after one more event. */
  function SeverityAfter(existing: Option<IncidentState>, clock: Time, level: LogLevel): LogLevel {
    if existing.Some? && StillOpen(existing.value, clock) then Graver(existing.value.severity, level) else level
  }

  lemma MemorySeverity(store: Store, item: Item)
    requires WellKeyed(store) && item.settings.windowSeconds >= 1 && !BelowMinLevel(item)
    ensures item.fingerprint in MemoryStep(store, item).0
    ensures MemoryStep(store, item).0[item.fingerprint].severity
         == SeverityAfter(Lookup(store, item.fingerprint), item.event.clock, item.event.level)
  {
    if item.fingerprint in store {
      GraverByRank(store[item.fingerprint].severity, item.event.level);
    }
  }

  /** An entry the engine writes names its service and host, if only as unknown, carries its event's timestamp
      and lives for the event's window; entries of other keys are swept or kept as they are. */
  lemma MemoryEntryIsNamed(store: Store, item: Item)
    requires WellKeyed(store) && item.settings.windowSeconds >= 1 && !BelowMinLevel(item)
    ensures var after := MemoryStep(store, item).0;
            && WellKeyed(after) && item.fingerprint in after
            && after[item.fingerprint].service != "" && after[item.fingerprint].host != ""
            && after[item.fingerprint].lastSeen == item.event.stamp
            && after[item.fingerprint].windowSeconds == item.settings.windowSeconds
            && forall fp :: fp in store && fp != item.fingerprint ==>
                 if StillOpen(store[fp], item.event.clock) then fp in after && after[fp] == store[fp] else fp !in after
  {
  }

  lemma QuixSeverity(state: Option<IncidentState>, item: Item)
    requires (state.Some? ==> state.value.windowSeconds >= 1) && !BelowMinLevel(item)
    ensures QuixStep(state, item).0.Some?
    ensures QuixStep(state, item).0.value.severity
         == SeverityAfter(state, item.event.clock, FromWire(item.event).level)
  {
    if state.Some? {
      GraverByRank(state.value.severity, FromWire(item.event).level);
    }
  }

  /** The alert shows the state it was emitted from, and whether that state has just been opened. */
  predicate Shows(alert: AlertEvent, st: IncidentState, message: string) {
    && alert.id == st.alertId && alert.fingerprint == st.fingerprint && alert.title == st.title
    && alert.severity == st.severity && alert.occurrenceCount == st.occurrenceCount
    && alert.firstSeen == st.firstSeen && alert.lastSeen == st.lastSeen
    && alert.service == (if st.service == "" then "unknown" else st.service)
    && alert.host == (if st.host == "" then "unknown" else st.host)
    && alert.errorCode == st.errorCode && alert.traceId == st.traceId && alert.labels == st.labels
    && alert.description == message && alert.sampleMessage == st.sampleMessage
    && alert.status == (if alert.isNew then Open else Updated)
    && (alert.isNew <==> st.occurrenceCount == 1)
  }

  lemma MemoryEmissionShows(store: Store, item: Item)
    requires WellKeyed(store) && item.settings.windowSeconds >= 1
    ensures var (after, emitted) := MemoryStep(store, item);
            emitted.Some? ==>
              item.fingerprint in after && Shows(emitted.value, after[item.fingerprint], item.event.message)
  {
  }

  lemma QuixEmissionShows(state: Option<IncidentState>, item: Item)
    ensures var (after, emitted) := QuixStep(state, item);
            emitted.Some? ==> after.Some? && Shows(emitted.value, after.value, item.event.message)
  {
  }

  /** Settings of zero, which the adapter takes for missing, mean a window of 300 and a refire of 60 seconds. */
  lemma ZeroSettingsMeanDefaults(state: Option<IncidentState>, item: Item)
    ensures item.settings.windowSeconds == 0 ==>
              QuixStep(state, item) == QuixStep(state, item.(settings := item.settings.(windowSeconds := 300)))
    ensures item.settings.refireSeconds == 0 ==>
              QuixStep(state, item) == QuixStep(state, item.(settings := item.settings.(refireSeconds := 60)))
  {
  }

  // --- the mutable forms -----------------------------------------------------------------------

  class MemoryDedupStore {
    var state: Store

    constructor ()
      ensures state == map[]
    {
      state := map[];
    }

    method Get(fingerprint: string) returns (found: Option<IncidentState>)
      ensures found == Lookup(state, fingerprint)
    {
      if fingerprint in state {
        found := Some(state[fingerprint]);
      } else {
        found := None;
      }
    }

    method PutState(incident: IncidentState, ttlSeconds: int)
      modifies this
      ensures state == Put(old(state), incident, ttlSeconds)
    {
      state := state[incident.fingerprint := incident.(windowSeconds := ttlSeconds)];
    }

    method TryCreate(incident: IncidentState, ttlSeconds: int) returns (created: bool)
      modifies this
      ensures created <==> incident.fingerprint !in old(state)
      ensures state == if created
                       then old(state)[incident.fingerprint := incident.(windowSeconds := ttlSeconds)]
                       else old(state)
    {
      if incident.fingerprint in state {
        return false;
      }
      state := state[incident.fingerprint := incident.(windowSeconds := ttlSeconds)];
      return true;
    }

    method Delete(fingerprint: string)
      modifies this
      ensures state == old(state) - {fingerprint}
    {
      state := state - {fingerprint};
    }

    /** Collects the stale keys, then deletes them one by one. */
    method ExpireStale(now: Time)
      modifies this
      ensures state == Swept(old(state), now)
      ensures forall fp :: fp in state <==> fp in old(state) && StillOpen(old(state)[fp], now)
      ensures forall fp :: fp in state ==> state[fp] == old(state)[fp]
    {
      var expired := set fp | fp in state && IsStale(state[fp], now);
      while expired != {}
        invariant forall fp :: fp in expired <==> fp in state && IsStale(state[fp], now)
        invariant state.Keys <= old(state).Keys
        invariant forall fp :: fp in state ==> state[fp] == old(state)[fp]
        invariant forall fp :: fp in old(state) && !IsStale(old(state)[fp], now) ==> fp in state
        decreases |expired|
      {
        var fp :| fp in expired;
        expired := expired - {fp};
        state := state - {fp};
      }
      assert state == Swept(old(state), now);
    }
  }

  class DedupEngine {
    const store: MemoryDedupStore

    constructor (store: MemoryDedupStore)
      ensures this.store == store
    {
      this.store := store;
    }

    method Process(item: Item) returns (emitted: Option<AlertEvent>)
      modifies store
      ensures (store.state, emitted) == MemoryStep(old(store.state), item)
      ensures TooLow(item.event.level, item.settings.minLevel) ==> emitted == None && store.state == old(store.state)
      ensures !TooLow(item.event.level, item.settings.minLevel) && WellKeyed(old(store.state))
              && item.settings.windowSeconds >= 1 ==>
                && item.fingerprint in store.state
                && store.state[item.fingerprint].severity
                   == SeverityAfter(Lookup(old(store.state), item.fingerprint), item.event.clock, item.event.level)
      ensures emitted.Some? && WellKeyed(old(store.state)) && item.settings.windowSeconds >= 1 ==>
                Shows(emitted.value, store.state[item.fingerprint], item.event.message)
    {
      ghost var before := store.state;
      LevelFilterByName(item);
      if WellKeyed(before) && item.settings.windowSeconds >= 1 {
        MemoryEmissionShows(before, item);
      }
      if !BelowMinLevel(item) && WellKeyed(before) && item.settings.windowSeconds >= 1 {
        MemorySeverity(before, item);
      }
      if item.event.level.Rank() < item.settings.minLevel.Rank() {
        return None;
      }
      store.ExpireStale(item.event.clock);
      var existing := store.Get(item.fingerprint);
      var result := Decide(existing, item);
      var incident := StoredFields(result.state);
      var ttl := item.settings.windowSeconds;
      if result.action.New? {
        var created := store.TryCreate(incident, ttl);
        if !created {
          var winner := store.Get(item.fingerprint);
          result := Decide(winner, item);
          incident := StoredFields(result.state);
          store.PutState(incident, ttl);
          if result.action.Suppress? {
            return None;
          }
          return Some(AlertFromState(result.state, false, item.event.message));
        }
        return Some(AlertFromState(result.state, true, item.event.message));
      }
      store.PutState(incident, ttl);
      if result.action.Suppress? {
        return None;
      }
      return Some(AlertFromState(result.state, false, item.event.message));
    }
  }

  /** The state bag of one key; group_by routes every event of a fingerprint to the same bag. */
  class KeyState {
    var incident: Option<IncidentState>

    constructor ()
      ensures incident == None
    {
      incident := None;
    }

    method ProcessEnriched(item: Item) returns (emitted: Option<AlertEvent>)
      requires !BelowMinLevel(item)
      modifies this
      ensures (incident, emitted) == QuixStep(old(incident), item)
      ensures (old(incident).Some? ==> old(incident).value.windowSeconds >= 1) ==>
                && incident.Some?
                && incident.value.severity
                   == SeverityAfter(old(incident), item.event.clock,
                                    if item.event.level == WARNING then WARN
                                    else if item.event.level == FATAL then CRITICAL else item.event.level)
      ensures emitted.Some? ==> Shows(emitted.value, incident.value, item.event.message)
    {
      QuixEmissionShows(incident, item);
      if incident.Some? ==> incident.value.windowSeconds >= 1 {
        QuixSeverity(incident, item);
      }
      var event := FromWire(item.event);
      var window := AtLeast(1, OrDefault(item.settings.windowSeconds, 300));
      var refire := AtLeast(0, OrDefault(item.settings.refireSeconds, 60));
      if incident.Some? && WindowExpired(incident.value, event.clock, window) {
        incident := None;
      }
      var result := Transition(incident, event, item.fingerprint, window, refire, item.title, item.freshId);
      incident := Some(result.state);
      if result.action.Suppress? {
        return None;
      }
      return Some(AlertFromState(result.state, result.action.New?, item.event.message));
    }
  }
}
