/** Folding the transition over the events of one key is sessionization: an online pass computes
    what a batch description of the whole event list says, in or out of order. */
module Sessions {
  import opened Prelude
  import opened Schemas
  import opened DedupTransition

  /** One event of the key with the settings that applied when it arrived. */
  datatype Input = Input(event: LogEvent, windowSeconds: int, refireSeconds: int, newId: string) {
    function Window(): int { if windowSeconds < 1 then 1 else windowSeconds }
    function Refire(): int { if refireSeconds < 0 then 0 else refireSeconds }
  }

  // --- online ---------------------------------------------------------------------

  /** The result of the transition for event `i`, folded from the empty state. */
  function Online(xs: seq<Input>, fingerprint: string, title: string, i: nat): TransitionResult
    requires i < |xs|
  {
    var existing := if i == 0 then None else Some(Online(xs, fingerprint, title, i - 1).state);
    Transition(existing, xs[i].event, fingerprint, xs[i].windowSeconds, xs[i].refireSeconds, title, xs[i].newId)
  }

  // --- batch ----------------------------------------------------------------------

  /** Event `i` opens an incident: it is the first, or its clock lies beyond the previous event's
      timestamp by more than the previous event's window. */
  predicate Opens(xs: seq<Input>, i: nat)
    requires i < |xs|
  {
    i == 0 || xs[i].event.clock - xs[i - 1].event.stamp > xs[i - 1].Window() as real
  }

  /** The event that opened the incident of event `i`. */
  function Start(xs: seq<Input>, i: nat): (s: nat)
    requires i < |xs|
    ensures s <= i && Opens(xs, s)
    ensures forall j :: s < j <= i ==> !Opens(xs, j)
  {
    if Opens(xs, i) then i else Start(xs, i - 1)
  }

  /** Event `i` notifies: it opens an incident, or the last notification is at least a refire interval old. */
  predicate Emits(xs: seq<Input>, i: nat)
    requires i < |xs|
    decreases i, 0
  {
    Opens(xs, i) || xs[i].event.clock - xs[LastEmit(xs, i - 1)].event.clock >= xs[i].Refire() as real
  }

  /** The last event up to `i` that notified. */
  function LastEmit(xs: seq<Input>, i: nat): (e: nat)
    requires i < |xs|
    ensures e <= i && Emits(xs, e)
    ensures forall j :: e < j <= i ==> !Emits(xs, j)
    decreases i, 1
  {
    if Emits(xs, i) then i else LastEmit(xs, i - 1)
  }

  /** The first of the highest-ranked events from `a` to `b`. */
  function Peak(xs: seq<Input>, a: nat, b: nat): (p: nat)
    requires a <= b < |xs|
    ensures a <= p <= b
    ensures forall j :: a <= j <= b ==> xs[j].event.level.Rank() <= xs[p].event.level.Rank()
    ensures forall j :: a <= j < p ==> xs[j].event.level.Rank() < xs[p].event.level.Rank()
    decreases b
  {
    if a == b then a
    else
      var p := Peak(xs, a, b - 1);
      if xs[b].event.level.Rank() > xs[p].event.level.Rank() then b else p
  }

  /** What the batch description says about the state after event `i`. */
  ghost predicate MatchesBatch(xs: seq<Input>, i: nat, r: TransitionResult)
    requires i < |xs|
  {
    var s := Start(xs, i);
    && (r.action.New? <==> Opens(xs, i))
    && (r.action.Update? <==> Emits(xs, i) && !Opens(xs, i))
    && r.state.occurrenceCount == i - s + 1
    && r.state.alertId == xs[s].newId
    && r.state.firstSeen == xs[s].event.stamp
    && r.state.lastSeen == xs[i].event.stamp
    && r.state.windowSeconds == xs[i].Window()
    && r.state.lastEmittedAt == xs[LastEmit(xs, i)].event.clock
    && r.state.severity == xs[Peak(xs, s, i)].event.level
  }

  /** Online equals batch: decision, count, identity, time span, last notification and severity. */
  lemma {:induction false} OnlineEqualsBatch(xs: seq<Input>, fingerprint: string, title: string, i: nat)
    requires i < |xs|
    ensures MatchesBatch(xs, i, Online(xs, fingerprint, title, i))
  {
    if i > 0 {
      OnlineEqualsBatch(xs, fingerprint, title, i - 1);
      MatchesOneMore(xs, fingerprint, title, i, Online(xs, fingerprint, title, i - 1).state);
    }
  }

  lemma MatchesOneMore(xs: seq<Input>, fingerprint: string, title: string, i: nat, existing: IncidentState)
    requires 0 < i < |xs|
    requires exists action :: MatchesBatch(xs, i - 1, TransitionResult(action, existing))
    ensures MatchesBatch(xs, i, Transition(Some(existing), xs[i].event, fingerprint, xs[i].windowSeconds,
                                           xs[i].refireSeconds, title, xs[i].newId))
  {
    var action :| MatchesBatch(xs, i - 1, TransitionResult(action, existing));
    assert WindowExpired(existing, xs[i].event.clock, xs[i].Window()) <==> Opens(xs, i);
    if !Opens(xs, i) {
      assert Start(xs, i) == Start(xs, i - 1);
    }
  }

  predicate Holds(xs: seq<Input>, a: nat, b: nat, levels: set<LogLevel>)
    requires a <= b < |xs|
  {
    exists j :: a <= j <= b && xs[j].event.level in levels
  }

  /** The severity of an incident is its gravest event's: critical or fatal if it holds such an event, else
      error if it holds one, and so on down to debug. */
  lemma SeverityIsTheMaximum(xs: seq<Input>, fingerprint: string, title: string, i: nat)
    requires i < |xs|
    ensures var s, severity := Start(xs, i), Online(xs, fingerprint, title, i).state.severity;
            && (exists j :: s <= j <= i && xs[j].event.level == severity)
            && (if Holds(xs, s, i, {CRITICAL, FATAL}) then severity == CRITICAL || severity == FATAL
                else if Holds(xs, s, i, {ERROR}) then severity == ERROR
                else if Holds(xs, s, i, {WARN, WARNING}) then severity == WARN || severity == WARNING
                else if Holds(xs, s, i, {INFO}) then severity == INFO
                else severity == DEBUG)
  {
    OnlineEqualsBatch(xs, fingerprint, title, i);
    var p := Peak(xs, Start(xs, i), i);
    assert xs[p].event.level == Online(xs, fingerprint, title, i).state.severity;
    assert forall j :: Start(xs, i) <= j <= i ==> xs[j].event.level.Rank() <= xs[p].event.level.Rank();
    LevelsInOrder();
  }

  // --- what the other fields show ---------------------------------------------------------------

  /** The last trace id given since the incident opened; the opening event's stays if none follows. */
  function Trace(xs: seq<Input>, a: nat, b: nat): Option<string>
    requires a <= b < |xs|
    decreases b
  {
    if a == b || (xs[b].event.traceId.Some? && xs[b].event.traceId.value != "") then xs[b].event.traceId
    else Trace(xs, a, b - 1)
  }

  /** Descriptive fields come from the opening event, message and trace from the latest ones. */
  ghost predicate DescribesIncident(xs: seq<Input>, fingerprint: string, title: string, i: nat, st: IncidentState)
    requires i < |xs|
  {
    var first := xs[Start(xs, i)].event;
    && st.fingerprint == fingerprint && st.title == title
    && st.service == first.service && st.host == first.host
    && st.errorCode == first.errorCode && st.labels == first.labels
    && st.sampleMessage == xs[i].event.message
    && st.traceId == Trace(xs, Start(xs, i), i)
  }

  lemma OpeningDescribes(xs: seq<Input>, fingerprint: string, title: string, i: nat)
    requires i < |xs| && Opens(xs, i)
    ensures DescribesIncident(xs, fingerprint, title, i,
                              Opened(xs[i].event, fingerprint, xs[i].Window(), title, xs[i].newId))
  {
  }

  lemma CountingDescribes(xs: seq<Input>, fingerprint: string, title: string, i: nat, existing: IncidentState, emitAt: Time)
    requires 0 < i < |xs| && !Opens(xs, i) && DescribesIncident(xs, fingerprint, title, i - 1, existing)
    ensures DescribesIncident(xs, fingerprint, title, i,
                              Counted(existing, xs[i].event, xs[i].Window()).(lastEmittedAt := emitAt))
  {
    assert Start(xs, i) == Start(xs, i - 1);
  }

  lemma ExpiryIsOpening(xs: seq<Input>, fingerprint: string, title: string, i: nat)
    requires 0 < i < |xs|
    ensures WindowExpired(Online(xs, fingerprint, title, i - 1).state, xs[i].event.clock, xs[i].Window()) <==> Opens(xs, i)
  {
    OnlineEqualsBatch(xs, fingerprint, title, i - 1);
  }

  lemma {:induction false} OnlineDescribesIncident(xs: seq<Input>, fingerprint: string, title: string, i: nat)
    requires i < |xs|
    ensures DescribesIncident(xs, fingerprint, title, i, Online(xs, fingerprint, title, i).state)
  {
    if i > 0 {
      ExpiryIsOpening(xs, fingerprint, title, i);
    }
    if Opens(xs, i) {
      OpeningDescribes(xs, fingerprint, title, i);
    } else {
      OnlineDescribesIncident(xs, fingerprint, title, i - 1);
      var existing := Online(xs, fingerprint, title, i - 1).state;
      CountingDescribes(xs, fingerprint, title, i, existing, existing.lastEmittedAt);
      CountingDescribes(xs, fingerprint, title, i, existing, xs[i].event.clock);
    }
  }

  /** The alert an event gives rise to shows the incident: when it was first and last seen, how often,
      how grave, and in whose words. Only the opening event's alert is open and new. */
  lemma AlertShowsIncident(xs: seq<Input>, fingerprint: string, title: string, i: nat)
    requires i < |xs|
    ensures var s, opening := Start(xs, i), xs[Start(xs, i)].event;
            var alert := AlertFromState(Online(xs, fingerprint, title, i).state, Opens(xs, i), xs[i].event.message);
            && alert.id == xs[s].newId && alert.fingerprint == fingerprint && alert.title == title
            && alert.firstSeen == opening.stamp && alert.lastSeen == xs[i].event.stamp
            && alert.occurrenceCount == i - s + 1
            && alert.severity == xs[Peak(xs, s, i)].event.level
            && alert.service == (if opening.service == "" then "unknown" else opening.service)
            && alert.host == (if opening.host == "" then "unknown" else opening.host)
            && alert.status == (if i == s then Open else Updated) && (alert.isNew <==> i == s)
            && alert.description == xs[i].event.message && alert.sampleMessage == xs[i].event.message
            && alert.errorCode == opening.errorCode && alert.labels == opening.labels
            && alert.traceId == Trace(xs, s, i)
  {
    OnlineEqualsBatch(xs, fingerprint, title, i);
    OnlineDescribesIncident(xs, fingerprint, title, i);
    assert Opens(xs, i) <==> i == Start(xs, i);
  }

  /** Final counts of the incidents among the first `n` events, summed. */
  function FinalCounts(xs: seq<Input>, fingerprint: string, title: string, n: nat): nat
    requires n <= |xs|
  {
    if n == 0 then 0
    else FinalCounts(xs, fingerprint, title, Start(xs, n - 1)) + Online(xs, fingerprint, title, n - 1).state.occurrenceCount
  }

  /** No event is lost or counted twice: the incidents' final counts add up to the number of events. */
  lemma {:induction false} CountsAddUp(xs: seq<Input>, fingerprint: string, title: string, n: nat)
    requires n <= |xs|
    ensures FinalCounts(xs, fingerprint, title, n) == n
    decreases n
  {
    if n > 0 {
      OnlineEqualsBatch(xs, fingerprint, title, n - 1);
      CountsAddUp(xs, fingerprint, title, Start(xs, n - 1));
    }
  }

  // --- the notification rate -----------------------------------------------------------

  /** Nondecreasing timestamps, no clamping, constant settings. */
  predicate Steady(xs: seq<Input>, windowSeconds: int, refireSeconds: int) {
    && (forall i :: 0 <= i < |xs| ==>
          && xs[i].event.clock == xs[i].event.stamp
          && xs[i].windowSeconds == windowSeconds && xs[i].refireSeconds == refireSeconds)
    && (forall i, j :: 0 <= i <= j < |xs| ==> xs[i].event.clock <= xs[j].event.clock)
  }

  /** The least distance between two notifications. */
  function Gap(windowSeconds: int, refireSeconds: int): int {
    var window := if windowSeconds < 1 then 1 else windowSeconds;
    var refire := if refireSeconds < 0 then 0 else refireSeconds;
    if refire < window then refire else window
  }

  lemma ConsecutiveEmitsAreApart(xs: seq<Input>, windowSeconds: int, refireSeconds: int, j: nat)
    requires Steady(xs, windowSeconds, refireSeconds) && 0 < j < |xs|
    ensures Emits(xs, j) ==>
              LastEmit(xs, j) == j
              && xs[j].event.clock - xs[LastEmit(xs, j - 1)].event.clock >= Gap(windowSeconds, refireSeconds) as real
    ensures !Emits(xs, j) ==> LastEmit(xs, j) == LastEmit(xs, j - 1)
  {
    var e := LastEmit(xs, j - 1);
    assert xs[e].event.clock <= xs[j - 1].event.clock;
  }

  /** How many of the first `n` events notify at a clock within [t0, t1]. */
  function EmitsWithin(xs: seq<Input>, n: nat, t0: Time, t1: Time): nat
    requires n <= |xs|
  {
    if n == 0 then 0
    else EmitsWithin(xs, n - 1, t0, t1)
         + (if Emits(xs, n - 1) && t0 <= xs[n - 1].event.clock <= t1 then 1 else 0)
  }

  function Times(k: nat, gap: real): real {
    if k == 0 then 0.0 else Times(k - 1, gap) + gap
  }

  lemma {:induction false} EmitsSpread(xs: seq<Input>, windowSeconds: int, refireSeconds: int, n: nat, t0: Time, t1: Time)
    requires Steady(xs, windowSeconds, refireSeconds) && 0 < n <= |xs|
    requires EmitsWithin(xs, n, t0, t1) >= 1
    ensures var spread := Times(EmitsWithin(xs, n, t0, t1) - 1, Gap(windowSeconds, refireSeconds) as real);
            spread <= xs[LastEmit(xs, n - 1)].event.clock - t0 && spread <= t1 - t0
  {
    var earlier := EmitsWithin(xs, n - 1, t0, t1);
    if earlier == 0 {
      assert LastEmit(xs, n - 1) == n - 1;
    } else {
      EmitsSpread(xs, windowSeconds, refireSeconds, n - 1, t0, t1);
      ConsecutiveEmitsAreApart(xs, windowSeconds, refireSeconds, n - 1);
      assert Gap(windowSeconds, refireSeconds) >= 0;
    }
  }

  /** At most 1 + (t1 - t0) / min(refire, window) notifications fall into [t0, t1]. */
  lemma NotificationRateIsBounded(xs: seq<Input>, windowSeconds: int, refireSeconds: int, t0: Time, t1: Time)
    requires Steady(xs, windowSeconds, refireSeconds) && t0 <= t1
    requires refireSeconds >= 1
    ensures EmitsWithin(xs, |xs|, t0, t1) as real <= 1.0 + (t1 - t0) / Gap(windowSeconds, refireSeconds) as real
  {
    var gap := Gap(windowSeconds, refireSeconds);
    var count := EmitsWithin(xs, |xs|, t0, t1);
    if count == 0 {
      QuotientBound(0, gap as real, t1 - t0);
    } else {
      EmitsSpread(xs, windowSeconds, refireSeconds, |xs|, t0, t1);
      QuotientBound(count - 1, gap as real, t1 - t0);
    }
  }

  lemma {:induction false} TimesIsProduct(k: nat, gap: real)
    ensures Times(k, gap) == k as real * gap
  {
    if k > 0 {
      TimesIsProduct(k - 1, gap);
    }
  }

  lemma QuotientBound(k: nat, gap: real, d: real)
    requires gap > 0.0 && Times(k, gap) <= d
    ensures k as real <= d / gap
  {
    TimesIsProduct(k, gap);
    CancelFactor(k as real, d / gap, gap, d);
  }

  lemma CancelFactor(a: real, b: real, gap: real, d: real)
    requires gap > 0.0 && a * gap <= d && b == d / gap
    ensures a <= b
  {
    var difference := b - a;
    assert b * gap == d;
    assert difference * gap == b * gap - a * gap;
    SignOfFactor(difference, gap);
  }

  lemma SignOfFactor(x: real, gap: real)
    requires gap > 0.0 && x * gap >= 0.0
    ensures x >= 0.0
  {
  }
}
