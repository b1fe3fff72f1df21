/** The operator UI's shared read cache: instances refresh one Redis snapshot under a lock with a
    time to live, while the pipeline may delete snapshot and lock at any moment.

    Each instance is single-threaded and holds its own token (its number here). `Apply` is total,
    so a run is any sequence of steps. Probabilistic early expiry is the free boolean `early`.
 */
module CacheLock {
  import opened Prelude

  datatype Settings = Settings(ttlSeconds: Time, lockTtlSeconds: nat)

  predicate ValidSettings(c: Settings) {
    c.ttlSeconds >= 1.0 && c.lockTtlSeconds >= 1
  }

  datatype Snapshot = Snapshot(loadedAt: Time, expiresAt: Time)

  /** A key with its Redis expiry. */
  datatype Stored = Stored(snapshot: Snapshot, goneAt: Time)

  datatype Lock = Lock(token: nat, goneAt: Time)

  /** Wanting: about to try the lock. Locked: holds it, the double check comes next. MustLoad: about
      to query the database. Loaded: about to store the snapshot. Releasing, Watching: giving the
      lock back. Waiting: somebody else rebuilds. Dead: the process is gone. */
  datatype Phase =
    | Idle
    | Wanting(force: bool)
    | Locked(force: bool)
    | MustLoad(force: bool, early: bool)
    | Loaded(snapshot: Snapshot)
    | Releasing
    | Watching(version: nat, mine: bool)
    | Waiting
    | Dead

  /** `version` counts the writes and deletions of the lock key, which is what WATCH notices.
      `lost`: instances in their critical section whose lock expired or was deleted.
      `lastLoad`: load time of the last stored snapshot that nobody has invalidated since. */
  datatype System = System(
    now: Time,
    lock: Option<Lock>,
    version: nat,
    stored: Option<Stored>,
    phases: map<nat, Phase>,
    lost: set<nat>,
    lastLoad: Option<Time>)

  const INITIAL := System(0.0, None, 0, None, map[], {}, None)

  function PhaseOf(s: System, i: nat): Phase {
    if i in s.phases then s.phases[i] else Idle
  }

  function Go(s: System, i: nat, phase: Phase): System {
    s.(phases := s.phases[i := phase], lost := if InCriticalPhase(phase) then s.lost else s.lost - {i})
  }

  predicate InCriticalPhase(phase: Phase) {
    phase.Locked? || phase.MustLoad? || phase.Loaded?
  }

  predicate Fresh(s: System, early: bool) {
    s.stored.Some? && s.now < s.stored.value.snapshot.expiresAt && !early
  }

  /** `int(ttl) + int(lock_ttl) + 2` seconds. */
  function HardTtl(c: Settings): Time {
    c.ttlSeconds.Floor as real + c.lockTtlSeconds as real + 2.0
  }

  datatype Step =
    | Tick(now: Time)
    | Read(i: nat, early: bool)
    | ForceRefresh(i: nat)
    | Recheck(i: nat, early: bool)
    | Acquire(i: nat)
    | DoubleCheck(i: nat, early: bool)
    | Load(i: nat)
    | Store(i: nat)
    | Abort(i: nat)
    | Watch(i: nat)
    | Exec(i: nat)
    | Poll(i: nat)
    | GiveUp(i: nat)
    | Crash(i: nat)
    | InvalidateSnapshot
    | InvalidateFromPipeline

  /** The owner of a lock that disappears loses it if it is still working under it. */
  function LoseLock(s: System): System {
    if s.lock.Some? && InCriticalPhase(PhaseOf(s, s.lock.value.token))
    then s.(lost := s.lost + {s.lock.value.token}, lock := None)
    else s.(lock := None)
  }

  function Advance(s: System, now: Time): System {
    var later := s.(now := now, stored := if s.stored.Some? && s.stored.value.goneAt <= now then None else s.stored);
    if later.lock.Some? && later.lock.value.goneAt <= now then LoseLock(later) else later
  }

  function Apply(c: Settings, s: System, step: Step): System {
    match step
    case Tick(now) => if s.now <= now then Advance(s, now) else s
    case Read(i, early) =>
      if !PhaseOf(s, i).Idle? || Fresh(s, early) then s else Go(s, i, Wanting(s.stored.None?))
    case ForceRefresh(i) => if PhaseOf(s, i).Idle? then Go(s, i, Wanting(true)) else s
    case Recheck(i, early) => if PhaseOf(s, i) == Wanting(false) && Fresh(s, early) then Go(s, i, Idle) else s
    case Acquire(i) =>
      if !PhaseOf(s, i).Wanting? then s
      else if s.lock.None? then
        Go(s, i, Locked(PhaseOf(s, i).force)).(
          lock := Some(Lock(i, s.now + c.lockTtlSeconds as real)), version := s.version + 1)
      else Go(s, i, Waiting)
    case DoubleCheck(i, early) =>
      if !PhaseOf(s, i).Locked? then s
      else if !PhaseOf(s, i).force && Fresh(s, early) then Go(s, i, Releasing)
      else Go(s, i, MustLoad(PhaseOf(s, i).force, early))
    case Load(i) =>
      if PhaseOf(s, i).MustLoad? then Go(s, i, Loaded(Snapshot(s.now, s.now + c.ttlSeconds))) else s
    case Store(i) =>
      if PhaseOf(s, i).Loaded? then
        var snapshot := PhaseOf(s, i).snapshot;
        Go(s, i, Releasing).(stored := Some(Stored(snapshot, s.now + HardTtl(c))), lastLoad := Some(snapshot.loadedAt))
      else s
    case Abort(i) => if InCriticalPhase(PhaseOf(s, i)) then Go(s, i, Releasing) else s
    case Watch(i) =>
      if PhaseOf(s, i).Releasing?
      then Go(s, i, Watching(s.version, s.lock.Some? && s.lock.value.token == i))
      else s
    case Exec(i) =>
      if !PhaseOf(s, i).Watching? then s
      else if !PhaseOf(s, i).mine then Go(s, i, Idle)
      else if PhaseOf(s, i).version != s.version then Go(s, i, Releasing)
      else if s.lock.None? then Go(s, i, Idle)
      else Go(s, i, Idle).(lock := None, version := s.version + 1)
    case Poll(i) => if PhaseOf(s, i).Waiting? && s.stored.Some? then Go(s, i, Idle) else s
    case GiveUp(i) => if PhaseOf(s, i).Waiting? then Go(s, i, Idle) else s
    case Crash(i) => Go(s, i, Dead)
    case InvalidateSnapshot => s.(stored := None, lastLoad := None)
    case InvalidateFromPipeline =>
      LoseLock(s).(stored := None, lastLoad := None, version := if s.lock.Some? then s.version + 1 else s.version)
  }

  function Run(c: Settings, s: System, steps: seq<Step>): System {
    if steps == [] then s else Apply(c, Run(c, s, steps[..|steps| - 1]), steps[|steps| - 1])
  }

  // --- invariants -----------------------------------------------------------------------------

  predicate Critical(s: System, i: nat) {
    i in s.phases && InCriticalPhase(s.phases[i])
  }

  function CriticalSet(s: System): set<nat> {
    set i | i in s.phases && Critical(s, i)
  }

  /** Whoever works under the lock owns it or has lost it. */
  ghost predicate OwnsOrLost(s: System) {
    && (forall i :: Critical(s, i) ==> i in s.lost || (s.lock.Some? && s.lock.value.token == i))
    && (forall i :: i in s.lost ==> Critical(s, i))
  }

  /** A release that watched its own token still faces its own lock, or none, as long as the key is unchanged. */
  ghost predicate WatchOk(s: System) {
    forall i :: i in s.phases && s.phases[i].Watching? ==>
      && s.phases[i].version <= s.version
      && (s.phases[i].mine && s.phases[i].version == s.version && s.lock.Some? ==> s.lock.value.token == i)
  }

  ghost predicate SnapshotOk(c: Settings, s: System, snapshot: Snapshot) {
    snapshot.expiresAt == snapshot.loadedAt + c.ttlSeconds && snapshot.loadedAt <= s.now
  }

  ghost predicate SnapshotsOk(c: Settings, s: System) {
    && (s.stored.Some? ==> SnapshotOk(c, s, s.stored.value.snapshot))
    && (forall i :: i in s.phases && s.phases[i].Loaded? ==> SnapshotOk(c, s, s.phases[i].snapshot))
  }

  /** The stored snapshot is the last load, until it is past its logical expiry. */
  ghost predicate LastLoadOk(c: Settings, s: System) {
    match s.lastLoad
    case None => s.stored.None?
    case Some(at) =>
      && (s.stored.Some? ==> s.stored.value.snapshot.loadedAt == at && s.stored.value.goneAt >= at + c.ttlSeconds)
      && (s.stored.None? ==> at + c.ttlSeconds <= s.now)
  }

  ghost predicate SystemOk(c: Settings, s: System) {
    OwnsOrLost(s) && WatchOk(s) && SnapshotsOk(c, s) && LastLoadOk(c, s)
  }

  lemma StepKeepsOwnership(c: Settings, s: System, step: Step)
    requires OwnsOrLost(s) && WatchOk(s)
    ensures OwnsOrLost(Apply(c, s, step))
  {
  }

  lemma StepKeepsWatch(c: Settings, s: System, step: Step)
    requires WatchOk(s)
    ensures WatchOk(Apply(c, s, step))
  {
  }

  lemma StepKeepsSnapshots(c: Settings, s: System, step: Step)
    requires ValidSettings(c) && SnapshotsOk(c, s) && LastLoadOk(c, s)
    ensures SnapshotsOk(c, Apply(c, s, step)) && LastLoadOk(c, Apply(c, s, step))
  {
  }

  lemma {:induction false} RunKeepsSystem(c: Settings, steps: seq<Step>)
    requires ValidSettings(c)
    ensures SystemOk(c, Run(c, INITIAL, steps))
  {
    if steps == [] {
    } else {
      var s := Run(c, INITIAL, steps[..|steps| - 1]);
      RunKeepsSystem(c, steps[..|steps| - 1]);
      StepKeepsOwnership(c, s, steps[|steps| - 1]);
      StepKeepsWatch(c, s, steps[|steps| - 1]);
      StepKeepsSnapshots(c, s, steps[|steps| - 1]);
    }
  }

  // --- what the lock guarantees ---------------------------------------------------------------

  /** A release only ever takes away the releasing instance's own lock, even when its time to live
      ran out in between and somebody else holds the key by now. */
  lemma ReleaseNeverTakesAnothersLock(c: Settings, steps: seq<Step>, i: nat)
    requires ValidSettings(c)
    ensures var s := Run(c, INITIAL, steps);
            s.lock.Some? && s.lock.value.token != i ==> Apply(c, s, Exec(i)).lock == s.lock
  {
    RunKeepsSystem(c, steps);
  }

  /** Before the lock a refresh ends early exactly when it is not forced and a snapshot is fresh after all; it
      gets the lock exactly when nobody has it and waits else; and a waiting instance is done exactly when a
      snapshot is stored. */
  lemma RefreshEndsEarlyExactly(c: Settings, steps: seq<Step>, i: nat, early: bool)
    requires ValidSettings(c)
    ensures var s := Run(c, INITIAL, steps);
            && (PhaseOf(s, i).Wanting? ==>
                  PhaseOf(Apply(c, s, Recheck(i, early)), i) ==
                    if !PhaseOf(s, i).force && s.stored.Some? && !early
                       && s.now < s.stored.value.snapshot.loadedAt + c.ttlSeconds
                    then Idle else PhaseOf(s, i))
            && (PhaseOf(s, i).Wanting? ==>
                  PhaseOf(Apply(c, s, Acquire(i)), i) == if s.lock == None then Locked(PhaseOf(s, i).force) else Waiting)
            && (PhaseOf(s, i).Waiting? ==>
                  PhaseOf(Apply(c, s, Poll(i)), i) == if s.stored.Some? then Idle else Waiting)
  {
    RunKeepsSystem(c, steps);
  }

  /** After either invalidation every read refreshes by force; the pipeline's also takes the lock away, the
      operator UI's own does not. */
  lemma InvalidationForcesReads(c: Settings, s: System, i: nat, early: bool)
    requires PhaseOf(s, i).Idle?
    ensures PhaseOf(Apply(c, Apply(c, s, InvalidateSnapshot), Read(i, early)), i) == Wanting(true)
    ensures PhaseOf(Apply(c, Apply(c, s, InvalidateFromPipeline), Read(i, early)), i) == Wanting(true)
    ensures Apply(c, s, InvalidateSnapshot).lock == s.lock && Apply(c, s, InvalidateFromPipeline).lock == None
  {
  }

  /** Work under the lock always ends in a release, whether it stored, failed or found the snapshot fresh. */
  lemma CriticalEndsInRelease(c: Settings, s: System, step: Step, i: nat)
    requires Critical(s, i) && step != Crash(i)
    ensures Critical(Apply(c, s, step), i) || PhaseOf(Apply(c, s, step), i) == Releasing
  {
  }

  /** An instance that saw somebody else's lock, or none, does not own one while it gives up. */
  ghost predicate StrangersStay(s: System) {
    forall i :: i in s.phases && s.phases[i].Watching? && !s.phases[i].mine ==>
      (s.lock.Some? ==> s.lock.value.token != i)
  }

  lemma StepKeepsStrangers(c: Settings, s: System, step: Step)
    requires StrangersStay(s)
    ensures StrangersStay(Apply(c, s, step))
  {
  }

  lemma {:induction false} RunKeepsStrangers(c: Settings, steps: seq<Step>)
    ensures StrangersStay(Run(c, INITIAL, steps))
  {
    if steps != [] {
      RunKeepsStrangers(c, steps[..|steps| - 1]);
      StepKeepsStrangers(c, Run(c, INITIAL, steps[..|steps| - 1]), steps[|steps| - 1]);
    }
  }

  lemma ReleaseStepIsComplete(c: Settings, s: System, step: Step, i: nat)
    requires StrangersStay(s) && step != Crash(i)
    requires i in s.phases && (s.phases[i].Releasing? || s.phases[i].Watching?)
    ensures var after := Apply(c, s, step);
            || PhaseOf(after, i).Releasing? || PhaseOf(after, i).Watching?
            || (PhaseOf(after, i).Idle? && (after.lock.Some? ==> after.lock.value.token != i))
  {
    if step != Exec(i) && step != Watch(i) {
      assert PhaseOf(Apply(c, s, step), i) == s.phases[i];
    }
  }

  /** A release goes on until the lock is not the instance's own. */
  lemma ReleaseIsComplete(c: Settings, steps: seq<Step>, step: Step, i: nat)
    requires step != Crash(i)
    requires PhaseOf(Run(c, INITIAL, steps), i).Releasing? || PhaseOf(Run(c, INITIAL, steps), i).Watching?
    ensures var after := Apply(c, Run(c, INITIAL, steps), step);
            || PhaseOf(after, i).Releasing? || PhaseOf(after, i).Watching?
            || (PhaseOf(after, i).Idle? && (after.lock.Some? ==> after.lock.value.token != i))
  {
    RunKeepsStrangers(c, steps);
    ReleaseStepIsComplete(c, Run(c, INITIAL, steps), step, i);
  }

  /** A release gives back the lock if it is still the instance's own, and ends the refresh either way. */
  lemma ReleaseFreesItsLock(c: Settings, steps: seq<Step>, i: nat)
    requires ValidSettings(c) && PhaseOf(Run(c, INITIAL, steps), i).Releasing?
    ensures var s := Run(c, INITIAL, steps);
            var after := Apply(c, Apply(c, s, Watch(i)), Exec(i));
            && PhaseOf(after, i).Idle?
            && after.lock == if s.lock.Some? && s.lock.value.token == i then None else s.lock
  {
  }

  // --- how long a lock lives --------------------------------------------------------------------

  /** Instance `i` gets the lock now. */
  predicate Gets(s: System, step: Step, i: nat) {
    step == Acquire(i) && PhaseOf(s, i).Wanting? && s.lock == None
  }

  /** The only steps that may end a lock of `i` which lives until `end`: its own release, an invalidation by
      the pipeline, and time reaching `end`. */
  predicate MayEnd(step: Step, i: nat, end: Time) {
    match step
    case Exec(j) => j == i
    case InvalidateFromPipeline => true
    case Tick(now) => now >= end
    case _ => false
  }

  lemma StepKeepsLock(c: Settings, s: System, step: Step, i: nat, end: Time)
    requires WatchOk(s) && s.lock == Some(Lock(i, end)) && s.now < end && !MayEnd(step, i, end)
    ensures Apply(c, s, step).lock == Some(Lock(i, end)) && Apply(c, s, step).now < end
    ensures Apply(c, s, step).lost <= s.lost
  {
  }

  lemma {:induction false} RunKeepsLock(c: Settings, s: System, steps: seq<Step>, i: nat, end: Time)
    requires WatchOk(s) && s.lock == Some(Lock(i, end)) && s.now < end
    requires forall k :: 0 <= k < |steps| ==> !MayEnd(steps[k], i, end)
    ensures Run(c, s, steps).lock == Some(Lock(i, end)) && Run(c, s, steps).now < end
    ensures WatchOk(Run(c, s, steps)) && Run(c, s, steps).lost <= s.lost
  {
    if steps != [] {
      var before := steps[..|steps| - 1];
      RunKeepsLock(c, s, before, i, end);
      StepKeepsLock(c, Run(c, s, before), steps[|steps| - 1], i, end);
      StepKeepsWatch(c, Run(c, s, before), steps[|steps| - 1]);
    }
  }

  /** A lock taken at time t belongs to its instance until t + lockTtlSeconds and not longer: in every run
      nothing takes it away earlier but the instance's own release and an invalidation by the pipeline, so
      nobody else gets it and no lock is lost; and once the clock is there, it is gone. */
  lemma LockLivesForItsTtl(c: Settings, steps: seq<Step>, i: nat, more: seq<Step>, now: Time)
    requires ValidSettings(c) && Gets(Run(c, INITIAL, steps), Acquire(i), i)
    requires var end := Run(c, INITIAL, steps).now + c.lockTtlSeconds as real;
             forall k :: 0 <= k < |more| ==> !MayEnd(more[k], i, end)
    ensures var s := Run(c, INITIAL, steps);
            var later := Run(c, Apply(c, s, Acquire(i)), more);
            && later.lock.Some? && later.lock.value.token == i && later.now < s.now + c.lockTtlSeconds as real
            && later.lost <= s.lost
            && (forall j :: !Gets(later, Acquire(j), j))
            && (now >= later.now ==>
                  (Apply(c, later, Tick(now)).lock == None <==> now >= s.now + c.lockTtlSeconds as real))
  {
    RunKeepsSystem(c, steps);
    var s := Run(c, INITIAL, steps);
    StepKeepsWatch(c, s, Acquire(i));
    RunKeepsLock(c, Apply(c, s, Acquire(i)), more, i, s.now + c.lockTtlSeconds as real);
  }

  // --- how long a snapshot can be read ----------------------------------------------------------

  predicate MayReplace(step: Step, end: Time) {
    match step
    case Store(_) => true
    case InvalidateSnapshot => true
    case InvalidateFromPipeline => true
    case Tick(now) => now >= end
    case _ => false
  }

  lemma {:induction false} RunKeepsSnapshot(c: Settings, s: System, steps: seq<Step>, end: Time)
    requires s.stored.Some? && s.stored.value.goneAt == end && s.now < end
    requires forall k :: 0 <= k < |steps| ==> !MayReplace(steps[k], end)
    ensures Run(c, s, steps).stored == s.stored && Run(c, s, steps).now < end
  {
    if steps != [] {
      RunKeepsSnapshot(c, s, steps[..|steps| - 1], end);
      assert !MayReplace(steps[|steps| - 1], end);
    }
  }

  /** A stored snapshot can be read for `int(ttl) + int(lock_ttl) + 2` seconds, unless it is replaced or
      invalidated, and not longer. */
  lemma SnapshotLivesForItsHardTtl(c: Settings, s: System, i: nat, more: seq<Step>, now: Time)
    requires ValidSettings(c) && PhaseOf(s, i).Loaded?
    requires var end := s.now + c.ttlSeconds.Floor as real + c.lockTtlSeconds as real + 2.0;
             forall k :: 0 <= k < |more| ==> !MayReplace(more[k], end)
    ensures var later := Run(c, Apply(c, s, Store(i)), more);
            var end := s.now + c.ttlSeconds.Floor as real + c.lockTtlSeconds as real + 2.0;
            && later.stored.Some? && later.stored.value.snapshot == PhaseOf(s, i).snapshot && later.now < end
            && (now >= later.now ==> (Apply(c, later, Tick(now)).stored == None <==> now >= end))
  {
    RunKeepsSnapshot(c, Apply(c, s, Store(i)), more,
                     s.now + c.ttlSeconds.Floor as real + c.lockTtlSeconds as real + 2.0);
  }

  /** In every run an idle instance's read is served exactly when a snapshot is stored that was loaded less
      than `ttlSeconds` ago and no early expiry strikes; else it refreshes, by force exactly when none is stored. */
  lemma ReadIsServedExactly(c: Settings, steps: seq<Step>, i: nat, early: bool)
    requires ValidSettings(c) && PhaseOf(Run(c, INITIAL, steps), i).Idle?
    ensures var s := Run(c, INITIAL, steps);
            var after := Apply(c, s, Read(i, early));
            if s.stored.Some? && s.now < s.stored.value.snapshot.loadedAt + c.ttlSeconds && !early then after == s
            else PhaseOf(after, i) == Wanting(s.stored == None)
  {
    RunKeepsSystem(c, steps);
  }

  /** At most one instance works under the lock, not counting those whose lock lapsed meanwhile. */
  lemma AtMostOneLockedLoad(c: Settings, steps: seq<Step>)
    requires ValidSettings(c)
    ensures var s := Run(c, INITIAL, steps);
            && s.lost <= CriticalSet(s)
            && |CriticalSet(s) - s.lost| <= 1
            && |CriticalSet(s)| <= 1 + |s.lost|
  {
    RunKeepsSystem(c, steps);
    var s := Run(c, INITIAL, steps);
    var owners := CriticalSet(s) - s.lost;
    if s.lock.Some? {
      assert owners <= {s.lock.value.token};
      SubsetCardinality(owners, {s.lock.value.token});
    } else {
      assert owners == {};
    }
    assert CriticalSet(s) == owners + s.lost;
  }

  /** A read that is answered without a refresh gets a snapshot loaded less than `ttlSeconds` ago. */
  lemma ServedReadsAreRecent(c: Settings, steps: seq<Step>, i: nat, early: bool)
    requires ValidSettings(c)
    requires var s := Run(c, INITIAL, steps);
             PhaseOf(s, i).Idle? && Apply(c, s, Read(i, early)) == s
    ensures var s := Run(c, INITIAL, steps);
            s.stored.Some? && 0.0 <= s.now - s.stored.value.snapshot.loadedAt < c.ttlSeconds
  {
    RunKeepsSystem(c, steps);
    var s := Run(c, INITIAL, steps);
    assert Go(s, i, Wanting(s.stored.None?)).phases[i].Wanting?;
  }

  /** The last load that nobody invalidated is at least one time to live ago. */
  predicate LastLoadIsOld(c: Settings, s: System) {
    s.lastLoad.Some? ==> s.lastLoad.value + c.ttlSeconds <= s.now
  }

  /** In every run, the instance that got the lock goes on to load exactly when its refresh is forced,
      the early expiry strikes, or the last load that nobody invalidated is one time to live ago. */
  lemma DoubleCheckLoadsExactly(c: Settings, steps: seq<Step>, i: nat, early: bool)
    requires ValidSettings(c) && PhaseOf(Run(c, INITIAL, steps), i).Locked?
    ensures var s := Run(c, INITIAL, steps);
            PhaseOf(Apply(c, s, DoubleCheck(i, early)), i).MustLoad?
            <==> PhaseOf(s, i).force || early || LastLoadIsOld(c, s)
  {
    RunKeepsSystem(c, steps);
  }

  /** No instance ever lost its lock while working under it. */
  ghost predicate NeverLost(c: Settings, steps: seq<Step>) {
    forall k :: 0 <= k <= |steps| ==> Run(c, INITIAL, steps[..k]).lost == {}
  }

  ghost predicate DoubleChecked(c: Settings, s: System) {
    forall i :: i in s.phases && s.phases[i] == MustLoad(false, false) ==> LastLoadIsOld(c, s)
  }

  lemma StepKeepsDoubleChecked(c: Settings, s: System, step: Step)
    requires SystemOk(c, s) && DoubleChecked(c, s) && s.lost == {}
    requires Apply(c, s, step).lost == {}
    ensures DoubleChecked(c, Apply(c, s, step))
  {
    var t := Apply(c, s, step);
    forall i | i in t.phases && t.phases[i] == MustLoad(false, false) ensures LastLoadIsOld(c, t) {
      if step.Store? && t != s {
        assert Critical(s, i) && Critical(s, step.i);
      }
    }
  }

  lemma {:induction false} RunKeepsDoubleChecked(c: Settings, steps: seq<Step>)
    requires ValidSettings(c) && NeverLost(c, steps)
    ensures DoubleChecked(c, Run(c, INITIAL, steps))
  {
    if steps != [] {
      var before := steps[..|steps| - 1];
      assert forall k :: 0 <= k <= |before| ==> before[..k] == steps[..k];
      RunKeepsDoubleChecked(c, before);
      RunKeepsSystem(c, before);
      assert steps[..|steps|] == steps;
      StepKeepsDoubleChecked(c, Run(c, INITIAL, before), steps[|steps| - 1]);
    }
  }

  /** While locks outlive the work done under them, the only locked loads that come sooner than one
      time to live after the last stored load are forced ones and probabilistic early ones. */
  lemma SoonLoadsAreForcedOrEarly(c: Settings, steps: seq<Step>, i: nat)
    requires ValidSettings(c) && NeverLost(c, steps)
    requires var s := Run(c, INITIAL, steps);
             PhaseOf(s, i).MustLoad? && !LastLoadIsOld(c, s)
    ensures var phase := PhaseOf(Run(c, INITIAL, steps), i);
            phase.force || phase.early
  {
    RunKeepsDoubleChecked(c, steps);
  }

  lemma RunPlusTwo(c: Settings, steps: seq<Step>, first: Step, second: Step)
    ensures Run(c, INITIAL, steps + [first, second])
         == Apply(c, Apply(c, Run(c, INITIAL, steps), first), second)
  {
    var all := steps + [first, second];
    assert all[..|all| - 1] == steps + [first];
    assert (steps + [first])[..|steps|] == steps;
  }

  const BOTH_READ := [Read(1, false), Read(2, false)]
  const ONE_LOADED := BOTH_READ + [Acquire(1), DoubleCheck(1, false)] + [Load(1), Store(1)]
  const TWO_GO_AHEAD := ONE_LOADED + [Watch(1), Exec(1)] + [Acquire(2), DoubleCheck(2, false)]

  lemma OneLocks(c: Settings)
    ensures Run(c, INITIAL, BOTH_READ + [Acquire(1), DoubleCheck(1, false)])
         == INITIAL.(phases := map[1 := MustLoad(true, false), 2 := Wanting(true)], version := 1,
                     lock := Some(Lock(1, c.lockTtlSeconds as real)))
  {
    RunPlusTwo(c, [], Read(1, false), Read(2, false));
    assert [] + BOTH_READ == BOTH_READ;
    assert Run(c, INITIAL, []) == INITIAL;
    assert Run(c, INITIAL, BOTH_READ) == INITIAL.(phases := map[1 := Wanting(true), 2 := Wanting(true)]);
    RunPlusTwo(c, BOTH_READ, Acquire(1), DoubleCheck(1, false));
  }

  lemma OneLoads(c: Settings)
    ensures var s := Run(c, INITIAL, ONE_LOADED);
            && s.phases == map[1 := Releasing, 2 := Wanting(true)]
            && s.lock == Some(Lock(1, c.lockTtlSeconds as real)) && s.lost == {} && s.now == 0.0
            && s.stored.Some? && s.stored.value.snapshot == Snapshot(0.0, c.ttlSeconds)
            && s.lastLoad == Some(0.0)
  {
    OneLocks(c);
    RunPlusTwo(c, BOTH_READ + [Acquire(1), DoubleCheck(1, false)], Load(1), Store(1));
  }

  /** The double check does not stop a stampede on a missing snapshot: both reads force their
      refresh, so the second instance loads again right after the first one stored. */
  lemma MissingSnapshotLoadsTwice(c: Settings)
    requires ValidSettings(c)
    ensures var s := Run(c, INITIAL, TWO_GO_AHEAD);
            s.lost == {} && s.lastLoad == Some(s.now) && Fresh(s, false) && PhaseOf(s, 2) == MustLoad(true, false)
  {
    OneLoads(c);
    RunPlusTwo(c, ONE_LOADED, Watch(1), Exec(1));
    var s := Run(c, INITIAL, ONE_LOADED + [Watch(1), Exec(1)]);
    assert s.phases == map[1 := Idle, 2 := Wanting(true)];
    RunPlusTwo(c, ONE_LOADED + [Watch(1), Exec(1)], Acquire(2), DoubleCheck(2, false));
  }
}
