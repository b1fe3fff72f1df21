/** Polling Grafana Loki: a cursor over overlapping query windows and a bounded set of keys already
    taken, of which half is thrown out, in no particular order, whenever it overflows.
 */
module LokiSource {
  import opened Prelude

  type Key = string

  const SEEN_MAX: nat := 50_000
  const HALF: nat := SEEN_MAX / 2

  /** One queried window that answered. */
  datatype Window = Window(start: Time, end: Time)

  /** `taken`: keys remembered so far, in order. `emitted`: those whose emit succeeded.
      `evictions`: how often the set overflowed. `lost`: the keys thrown out then. */
  datatype Poller = Poller(
    cursor: Option<Time>,
    seen: set<Key>,
    windows: seq<Window>,
    taken: seq<Key>,
    emitted: seq<Key>,
    evictions: nat,
    lost: multiset<Key>)

  const FRESH := Poller(None, {}, [], [], [], 0, multiset{})

  /** One event of an answer: its key, whether its emit succeeds, and what is thrown out if
      remembering it overflows the set. */
  datatype Event = Event(key: Key, emits: bool, dropped: set<Key>)

  predicate Overflows(seen: set<Key>, key: Key) {
    |seen + {key}| > SEEN_MAX
  }

  /** `_remember`: the dropped keys are half of the maximum, taken from the set. */
  predicate CanRemember(seen: set<Key>, event: Event) {
    if Overflows(seen, event.key) then event.dropped <= seen + {event.key} && |event.dropped| == HALF
    else event.dropped == {}
  }

  function Take(p: Poller, event: Event): Poller {
    if event.key in p.seen then p
    else
      p.(seen := p.seen + {event.key} - event.dropped,
         taken := p.taken + [event.key],
         emitted := if event.emits then p.emitted + [event.key] else p.emitted,
         evictions := if Overflows(p.seen, event.key) then p.evictions + 1 else p.evictions,
         lost := p.lost + multiset(event.dropped))
  }

  function TakeAll(p: Poller, events: seq<Event>): Poller {
    if events == [] then p else Take(TakeAll(p, events[..|events| - 1]), events[|events| - 1])
  }

  /** Whatever the events throw out, `_remember` could. */
  predicate CanTakeAll(p: Poller, events: seq<Event>) {
    events == [] ||
    var before, last := events[..|events| - 1], events[|events| - 1];
    CanTakeAll(p, before) && (last.key !in TakeAll(p, before).seen ==> CanRemember(TakeAll(p, before).seen, last))
  }

  function WindowAt(p: Poller, lookback: nat, now: Time): Window {
    Window(if p.cursor.None? then now - lookback as real else p.cursor.value - 1.0, now)
  }

  /** `poll_once`; a failed query (None) changes nothing. */
  function Poll(p: Poller, lookback: nat, now: Time, answer: Option<seq<Event>>): Poller {
    match answer
    case None => p
    case Some(events) =>
      TakeAll(p, events).(cursor := Some(now), windows := p.windows + [WindowAt(p, lookback, now)])
  }

  datatype Call = Call(now: Time, answer: Option<seq<Event>>)

  function Run(calls: seq<Call>, lookback: nat): Poller {
    if calls == [] then FRESH
    else
      var last := calls[|calls| - 1];
      Poll(Run(calls[..|calls| - 1], lookback), lookback, last.now, last.answer)
  }

  /** The evictions of a run throw out what `_remember` could. */
  predicate Possible(calls: seq<Call>, lookback: nat) {
    calls == [] ||
    var before, last := calls[..|calls| - 1], calls[|calls| - 1];
    && Possible(before, lookback)
    && (last.answer.Some? ==> CanTakeAll(Run(before, lookback), last.answer.value))
  }

  ghost predicate ClockNondecreasing(calls: seq<Call>) {
    forall i, j :: 0 <= i < j < |calls| ==> calls[i].now <= calls[j].now
  }

  // --- no gap between windows -----------------------------------------------------------------

  predicate Covered(windows: seq<Window>, t: Time) {
    exists w <- windows :: w.start <= t <= w.end
  }

  ghost predicate NoGap(p: Poller) {
    && (p.windows == [] <==> p.cursor.None?)
    && (p.windows != [] ==>
          && p.cursor.Some? && p.cursor.value == p.windows[|p.windows| - 1].end
          && forall t :: p.windows[0].start <= t <= p.cursor.value ==> Covered(p.windows, t))
  }

  /** The answered windows leave nothing out between the start of the first one and the cursor,
      whichever queries fail in between. */
  lemma {:induction false} WindowsLeaveNoGap(calls: seq<Call>, lookback: nat)
    requires ClockNondecreasing(calls)
    ensures NoGap(Run(calls, lookback))
    ensures Run(calls, lookback).cursor.Some? ==>
              calls != [] && Run(calls, lookback).cursor.value <= calls[|calls| - 1].now
  {
    if calls != [] {
      var before, last := calls[..|calls| - 1], calls[|calls| - 1];
      WindowsLeaveNoGap(before, lookback);
      if last.answer.Some? {
        PollLeavesNoGap(Run(before, lookback), lookback, last.now, last.answer.value);
      }
    }
  }

  /** The first window looks back as configured, and each later one begins one second before the end of
      the one before it. */
  ghost predicate Overlapping(windows: seq<Window>, lookback: nat) {
    && (windows != [] ==> windows[0].start == windows[0].end - lookback as real)
    && forall k :: 0 < k < |windows| ==> windows[k].start == windows[k - 1].end - 1.0
  }

  lemma {:induction false} WindowsOverlapByOneSecond(calls: seq<Call>, lookback: nat)
    requires ClockNondecreasing(calls)
    ensures Overlapping(Run(calls, lookback).windows, lookback)
  {
    WindowsLeaveNoGap(calls, lookback);
    if calls != [] {
      var before := calls[..|calls| - 1];
      WindowsLeaveNoGap(before, lookback);
      WindowsOverlapByOneSecond(before, lookback);
    }
  }

  lemma PollLeavesNoGap(p: Poller, lookback: nat, now: Time, events: seq<Event>)
    requires NoGap(p) && (p.cursor.Some? ==> p.cursor.value <= now)
    ensures NoGap(Poll(p, lookback, now, Some(events)))
  {
    var q := Poll(p, lookback, now, Some(events));
    var w := WindowAt(p, lookback, now);
    assert w in q.windows;
    forall t | q.windows[0].start <= t <= now ensures Covered(q.windows, t) {
      if p.cursor.Some? && t <= p.cursor.value {
        assert Covered(p.windows, t);
        var old' :| old' in p.windows && old'.start <= t <= old'.end;
        assert old' in q.windows;
      } else {
        assert w.start <= t <= w.end;
      }
    }
  }

  // --- what the bounded set guarantees --------------------------------------------------------

  function Keys(s: seq<Key>): set<Key> {
    set k | k in s
  }

  predicate Distinct(s: seq<Key>) {
    forall i, j :: 0 <= i < j < |s| ==> s[i] != s[j]
  }

  /** Every key taken is in the set or was thrown out of it. */
  ghost predicate Balanced(p: Poller) {
    && |p.seen| <= SEEN_MAX
    && p.seen <= Keys(p.taken)
    && |p.taken| == |p.seen| + 25_000 * p.evictions
    && (p.evictions > 0 ==> |p.seen| > 25_000)
  }

  /** Key by key: a key was taken once for every time it was thrown out, and once more if it is in
      the set. Nothing is thrown out without an overflow. */
  ghost predicate Conserved(p: Poller) {
    && multiset(p.taken) == multiset(p.seen) + p.lost
    && (p.evictions == 0 ==> p.lost == multiset{})
  }

  /** Until the set overflows for the first time it remembers everything. */
  ghost predicate RemembersAll(p: Poller) {
    && (p.evictions == 0 ==> p.seen == Keys(p.taken) && Distinct(p.emitted) && Keys(p.emitted) <= p.seen)
    && (p.evictions > 0 ==> |Keys(p.taken)| > SEEN_MAX)
  }

  lemma RememberCounts(seen: set<Key>, event: Event)
    requires event.key !in seen && |seen| <= SEEN_MAX && CanRemember(seen, event)
    ensures var after := seen + {event.key} - event.dropped;
            && |after| <= SEEN_MAX
            && |seen| + 1 == |after| + if Overflows(seen, event.key) then HALF else 0
  {
    var all := seen + {event.key};
    assert |all| == |seen| + 1;
    if Overflows(seen, event.key) {
      assert all == (all - event.dropped) + event.dropped;
    } else {
      assert all - event.dropped == all;
    }
  }

  lemma KeysSnoc(s: seq<Key>, key: Key)
    ensures Keys(s + [key]) == Keys(s) + {key}
  {
  }

  lemma TakeKeepsBalance(p: Poller, event: Event)
    requires Balanced(p) && (event.key !in p.seen ==> CanRemember(p.seen, event))
    ensures Balanced(Take(p, event))
  {
    if event.key !in p.seen {
      var q := Take(p, event);
      RememberCounts(p.seen, event);
      KeysSnoc(p.taken, event.key);
      assert |q.taken| == |p.taken| + 1;
    }
  }

  lemma TakeRemembersAll(p: Poller, event: Event)
    requires Balanced(p) && RemembersAll(p) && (event.key !in p.seen ==> CanRemember(p.seen, event))
    ensures RemembersAll(Take(p, event))
  {
    if event.key !in p.seen {
      KeysSnoc(p.taken, event.key);
      KeysSnoc(p.emitted, event.key);
      SubsetCardinality(p.seen + {event.key}, Keys(p.taken + [event.key]));
      SubsetCardinality(Keys(p.taken), Keys(p.taken + [event.key]));
    }
  }

  lemma TakeConserves(p: Poller, event: Event)
    requires Conserved(p) && (event.key !in p.seen ==> CanRemember(p.seen, event))
    ensures Conserved(Take(p, event))
  {
    if event.key !in p.seen {
      var all := p.seen + {event.key};
      assert multiset(p.taken + [event.key]) == multiset(p.taken) + multiset{event.key};
      assert multiset(all) == multiset(p.seen) + multiset{event.key};
      assert multiset(all) == multiset(all - event.dropped) + multiset(event.dropped);
    }
  }

  lemma {:induction false} TakeAllKeepsBalance(p: Poller, events: seq<Event>)
    requires Balanced(p) && RemembersAll(p) && Conserved(p) && CanTakeAll(p, events)
    ensures Balanced(TakeAll(p, events)) && RemembersAll(TakeAll(p, events)) && Conserved(TakeAll(p, events))
  {
    if events != [] {
      var before := events[..|events| - 1];
      TakeAllKeepsBalance(p, before);
      TakeKeepsBalance(TakeAll(p, before), events[|events| - 1]);
      TakeRemembersAll(TakeAll(p, before), events[|events| - 1]);
      TakeConserves(TakeAll(p, before), events[|events| - 1]);
    }
  }

  lemma {:induction false} RunKeepsBalance(calls: seq<Call>, lookback: nat)
    requires Possible(calls, lookback)
    ensures Balanced(Run(calls, lookback)) && RemembersAll(Run(calls, lookback)) && Conserved(Run(calls, lookback))
  {
    if calls != [] {
      var before := calls[..|calls| - 1];
      RunKeepsBalance(before, lookback);
      if calls[|calls| - 1].answer.Some? {
        TakeAllKeepsBalance(Run(before, lookback), calls[|calls| - 1].answer.value);
      }
    }
  }

  /** The set never holds more than 50 000 keys, keys taken again because they had been thrown out
      number at most 25 000 for every overflow, and overflows are at least 25 000 keys apart. */
  lemma RepeatsArePaidByOverflows(calls: seq<Call>, lookback: nat)
    requires Possible(calls, lookback)
    ensures var p := Run(calls, lookback);
            && |p.seen| <= 50_000
            && |p.taken| - |Keys(p.taken)| <= 25_000 * p.evictions
            && (p.evictions > 0 ==> 25_000 * p.evictions < |p.taken| - 25_000)
  {
    RunKeepsBalance(calls, lookback);
    var p := Run(calls, lookback);
    SubsetCardinality(p.seen, Keys(p.taken));
  }

  /** While no more than 50 000 different keys were taken, no key is emitted twice. */
  lemma FewKeysAreEmittedOnce(calls: seq<Call>, lookback: nat)
    requires Possible(calls, lookback)
    requires |Keys(Run(calls, lookback).taken)| <= 50_000
    ensures Distinct(Run(calls, lookback).emitted)
  {
    RunKeepsBalance(calls, lookback);
  }

  /** Conservation over whole runs, key by key. */
  lemma TakenKeysAreConserved(calls: seq<Call>, lookback: nat, key: Key)
    requires Possible(calls, lookback)
    ensures var p := Run(calls, lookback);
            multiset(p.taken)[key] == p.lost[key] + if key in p.seen then 1 else 0
  {
    RunKeepsBalance(calls, lookback);
  }

  /** A remembered key is taken again only after it was thrown out, and at most as often. */
  lemma RetakenOnlyAfterLoss(calls: seq<Call>, lookback: nat, n: nat, key: Key)
    requires Possible(calls, lookback) && n <= |calls| && key in Run(calls[..n], lookback).seen
    ensures var p, q := Run(calls[..n], lookback), Run(calls, lookback);
            multiset(q.taken)[key] + p.lost[key] <= multiset(p.taken)[key] + q.lost[key]
  {
    PrefixIsPossible(calls, lookback, n);
    TakenKeysAreConserved(calls[..n], lookback, key);
    TakenKeysAreConserved(calls, lookback, key);
  }

  lemma {:induction false} PrefixIsPossible(calls: seq<Call>, lookback: nat, n: nat)
    requires Possible(calls, lookback) && n <= |calls|
    ensures Possible(calls[..n], lookback)
    decreases |calls|
  {
    if n < |calls| {
      PrefixIsPossible(calls[..|calls| - 1], lookback, n);
      assert calls[..|calls| - 1][..n] == calls[..n];
    } else {
      assert calls[..n] == calls;
    }
  }

  // --- what is delivered ------------------------------------------------------------------------

  /** All events of answered queries, in order. */
  function Arrived(calls: seq<Call>): seq<Event> {
    if calls == [] then []
    else
      var last := calls[|calls| - 1];
      Arrived(calls[..|calls| - 1]) + if last.answer.Some? then last.answer.value else []
  }

  function FirstOf(events: seq<Event>, key: Key): Option<Event> {
    if events == [] then None
    else
      var earlier := FirstOf(events[..|events| - 1], key);
      var last := events[|events| - 1];
      if earlier.Some? then earlier else if last.key == key then Some(last) else None
  }

  /** Whether the first event of the key arrived, and with an emit that succeeds. */
  predicate FirstSucceeds(events: seq<Event>, key: Key) {
    FirstOf(events, key).Some? && FirstOf(events, key).value.emits
  }

  /** As long as a key was never thrown out, its first event has decided about it. */
  ghost predicate DecidedByFirst(p: Poller, arrived: seq<Event>, key: Key) {
    p.lost[key] == 0 ==>
      && (key in p.seen <==> FirstOf(arrived, key).Some?)
      && (key in p.emitted <==> FirstSucceeds(arrived, key))
  }

  lemma TakeIsDecided(p: Poller, arrived: seq<Event>, event: Event, key: Key)
    requires DecidedByFirst(p, arrived, key)
    ensures DecidedByFirst(Take(p, event), arrived + [event], key)
  {
    assert (arrived + [event])[..|arrived|] == arrived;
    var q := Take(p, event);
    if event.key !in p.seen {
      assert q.lost[key] == p.lost[key] + multiset(event.dropped)[key];
    }
  }

  lemma {:induction false} TakeAllIsDecided(p: Poller, arrived: seq<Event>, events: seq<Event>, key: Key)
    requires DecidedByFirst(p, arrived, key)
    ensures DecidedByFirst(TakeAll(p, events), arrived + events, key)
  {
    if events == [] {
      assert arrived + events == arrived;
    } else {
      var before, last := events[..|events| - 1], events[|events| - 1];
      TakeAllIsDecided(p, arrived, before, key);
      TakeIsDecided(TakeAll(p, before), arrived + before, last, key);
      assert arrived + before + [last] == arrived + events;
    }
  }

  /** In every run: a key that was never thrown out of the set is delivered if and only if the emit of
      its first event succeeded. Later events of the key, failed first emit or not, change nothing. */
  lemma {:induction false} FirstEmitDecides(calls: seq<Call>, lookback: nat, key: Key)
    ensures var p := Run(calls, lookback);
            p.lost[key] == 0 ==> (key in p.emitted <==> FirstSucceeds(Arrived(calls), key))
    ensures DecidedByFirst(Run(calls, lookback), Arrived(calls), key)
  {
    if calls != [] {
      var before, last := calls[..|calls| - 1], calls[|calls| - 1];
      FirstEmitDecides(before, lookback, key);
      if last.answer.Some? {
        TakeAllIsDecided(Run(before, lookback), Arrived(before), last.answer.value, key);
      } else {
        assert Arrived(calls) == Arrived(before);
      }
    }
  }

  function KeysOf(events: seq<Event>): set<Key> {
    set e | e in events :: e.key
  }

  lemma {:induction false} TakenKeysArrived(p: Poller, events: seq<Event>)
    ensures Keys(TakeAll(p, events).taken) <= Keys(p.taken) + KeysOf(events)
  {
    if events != [] {
      var before, last := events[..|events| - 1], events[|events| - 1];
      TakenKeysArrived(p, before);
      assert events == before + [last];
      KeysSnoc(TakeAll(p, before).taken, last.key);
    }
  }

  lemma {:induction false} RunTakesArrivedKeys(calls: seq<Call>, lookback: nat)
    ensures Keys(Run(calls, lookback).taken) <= KeysOf(Arrived(calls))
  {
    if calls != [] {
      var before, last := calls[..|calls| - 1], calls[|calls| - 1];
      RunTakesArrivedKeys(before, lookback);
      if last.answer.Some? {
        TakenKeysArrived(Run(before, lookback), last.answer.value);
      }
    }
  }

  lemma {:induction false} ArrivedMeansFirst(events: seq<Event>, key: Key)
    ensures FirstOf(events, key).Some? <==> key in KeysOf(events)
  {
    if events != [] {
      var before, last := events[..|events| - 1], events[|events| - 1];
      ArrivedMeansFirst(before, key);
      assert events == before + [last];
      assert KeysOf(events) == KeysOf(before) + {last.key};
    }
  }

  /** The set overflows at some time exactly when more than 50 000 different keys arrive. */
  lemma OverflowsExactlyForManyKeys(calls: seq<Call>, lookback: nat)
    requires Possible(calls, lookback)
    ensures Run(calls, lookback).evictions > 0 <==> |KeysOf(Arrived(calls))| > 50_000
  {
    var p, arrived := Run(calls, lookback), KeysOf(Arrived(calls));
    RunKeepsBalance(calls, lookback);
    RunTakesArrivedKeys(calls, lookback);
    SubsetCardinality(Keys(p.taken), arrived);
    if p.evictions == 0 {
      forall key | key in arrived ensures key in p.seen {
        FirstEmitDecides(calls, lookback, key);
        ArrivedMeansFirst(Arrived(calls), key);
      }
      SubsetCardinality(arrived, p.seen);
    }
  }

  /** While at most 50 000 different keys arrive, this holds of every key. */
  lemma FirstEmitDecidesForFewKeys(calls: seq<Call>, lookback: nat, key: Key)
    requires Possible(calls, lookback) && |KeysOf(Arrived(calls))| <= 50_000
    ensures key in Run(calls, lookback).emitted <==> FirstSucceeds(Arrived(calls), key)
  {
    OverflowsExactlyForManyKeys(calls, lookback);
    RunKeepsBalance(calls, lookback);
    FirstEmitDecides(calls, lookback, key);
  }

  /** The events that find their key not remembered. */
  function TakenOf(p: Poller, events: seq<Event>): seq<Event> {
    if events == [] then []
    else
      var before, last := events[..|events| - 1], events[|events| - 1];
      TakenOf(p, before) + if last.key in TakeAll(p, before).seen then [] else [last]
  }

  function TakenEvents(calls: seq<Call>, lookback: nat): seq<Event> {
    if calls == [] then []
    else
      var before, last := calls[..|calls| - 1], calls[|calls| - 1];
      TakenEvents(before, lookback)
      + if last.answer.Some? then TakenOf(Run(before, lookback), last.answer.value) else []
  }

  predicate SomeSucceeds(events: seq<Event>, key: Key) {
    exists e <- events :: e.key == key && e.emits
  }

  function KeySeq(events: seq<Event>): seq<Key> {
    seq(|events|, i requires 0 <= i < |events| => events[i].key)
  }

  lemma {:induction false} AnswerEmitsWhatItTakes(p: Poller, events: seq<Event>, key: Key)
    ensures TakeAll(p, events).taken == p.taken + KeySeq(TakenOf(p, events))
    ensures key in TakeAll(p, events).emitted <==> key in p.emitted || SomeSucceeds(TakenOf(p, events), key)
  {
    if events != [] {
      var before, last := events[..|events| - 1], events[|events| - 1];
      AnswerEmitsWhatItTakes(p, before, key);
      if last.key !in TakeAll(p, before).seen {
        assert TakenOf(p, events) == TakenOf(p, before) + [last];
        assert KeySeq(TakenOf(p, before) + [last]) == KeySeq(TakenOf(p, before)) + [last.key];
        assert forall e :: e in TakenOf(p, events) <==> e in TakenOf(p, before) || e == last;
      }
    }
  }

  /** In every run, overflows or not: a key is emitted exactly when the emit of one of its taken events
      succeeded. Its first event is taken, and another one only after the key was thrown out. */
  lemma {:induction false} TakenEventsDecide(calls: seq<Call>, lookback: nat, key: Key)
    ensures Run(calls, lookback).taken == KeySeq(TakenEvents(calls, lookback))
    ensures key in Run(calls, lookback).emitted <==> SomeSucceeds(TakenEvents(calls, lookback), key)
  {
    if calls != [] {
      var before, last := calls[..|calls| - 1], calls[|calls| - 1];
      TakenEventsDecide(before, lookback, key);
      if last.answer.Some? {
        var more := TakenOf(Run(before, lookback), last.answer.value);
        AnswerEmitsWhatItTakes(Run(before, lookback), last.answer.value, key);
        KeySeqAppends(TakenEvents(before, lookback), more);
      }
    }
  }

  lemma KeySeqAppends(a: seq<Event>, b: seq<Event>)
    ensures KeySeq(a + b) == KeySeq(a) + KeySeq(b)
  {
  }

  /** Delivery is not at least once: a key is remembered before its emit, so an event whose emit
      failed is passed over when the overlapping next window returns it. */
  lemma FailedEmitIsNotRetried(key: Key)
    ensures var calls := [Call(100.0, Some([Event(key, false, {})])), Call(100.5, Some([Event(key, true, {})]))];
            && Possible(calls, 60)
            && Run(calls, 60).emitted == []
            && Run(calls, 60).windows == [Window(40.0, 100.0), Window(99.0, 100.5)]
  {
    var first, second := [Event(key, false, {})], [Event(key, true, {})];
    var calls := [Call(100.0, Some(first)), Call(100.5, Some(second))];
    assert calls[..0] == [] && calls[..1] == [calls[0]] && [calls[0]][..0] == [];
    assert first[..0] == [] && second[..0] == [];
    assert Run(calls[..1], 60) == Poll(FRESH, 60, 100.0, Some(first));
    assert TakeAll(FRESH, first) == Take(FRESH, first[0]);
    var p := Run(calls[..1], 60);
    assert p.seen == {key};
    assert TakeAll(p, second) == Take(p, second[0]) == p;
    assert CanRemember({}, first[0]);
    assert CanTakeAll(FRESH, first) && CanTakeAll(p, second);
    assert Possible(calls[..1], 60);
  }

  // --- the polling object ---------------------------------------------------------------------

  class Source {
    const lookback: nat
    var cursor: Option<Time>
    var seen: set<Key>
    /** The model of this object, with the history its fields do not keep. */
    ghost var poller: Poller

    ghost predicate Valid()
      reads this
    {
      cursor == poller.cursor && seen == poller.seen && Balanced(poller)
    }

    constructor (lookback: nat)
      ensures Valid() && poller == FRESH && this.lookback == lookback
    {
      this.lookback := lookback;
      cursor, seen, poller := None, {}, FRESH;
    }

    /** Which keys an overflow throws out is up to the enumeration of the set. */
    method Remember(key: Key) returns (ghost dropped: set<Key>)
      requires key !in seen && |seen| <= SEEN_MAX
      modifies this`seen
      ensures forall emits :: CanRemember(old(seen), Event(key, emits, dropped))
      ensures seen == old(seen) + {key} - dropped
    {
      seen := seen + {key};
      dropped := {};
      if |seen| > SEEN_MAX {
        ghost var all := seen;
        var n := 0;
        while n < HALF
          invariant n <= HALF && |dropped| == n
          invariant dropped <= all && seen == all - dropped && |seen| == |all| - n
        {
          var drop :| drop in seen;
          seen := seen - {drop};
          dropped := dropped + {drop};
          n := n + 1;
        }
      }
    }

    /** One event of an answer: passed over if its key is remembered, else remembered and emitted. */
    method TakeEvent(key: Key, emits: bool, ghost p: Poller) returns (published: seq<Key>, ghost event: Event)
      requires Balanced(p) && seen == p.seen
      modifies this`seen
      ensures event.key == key && event.emits == emits && (key !in p.seen ==> CanRemember(p.seen, event))
      ensures seen == Take(p, event).seen && Take(p, event).emitted == p.emitted + published
    {
      published, event := [], Event(key, emits, {});
      if key in seen {
        return;
      }
      ghost var dropped := Remember(key);
      event := Event(key, emits, dropped);
      if emits {
        published := [key];
      }
    }

    /** The loop over the events of an answer. */
    method TakeEvents(keys: seq<Key>, emits: seq<bool>, ghost was: Poller)
      returns (published: seq<Key>, ghost events: seq<Event>)
      requires |emits| == |keys| && Balanced(was) && seen == was.seen
      modifies this`seen
      ensures Answers(events, keys, emits) && CanTakeAll(was, events)
      ensures Balanced(TakeAll(was, events)) && seen == TakeAll(was, events).seen
      ensures TakeAll(was, events).emitted == was.emitted + published
    {
      published, events := [], [];
      ghost var p := was;
      for i := 0 to |keys|
        invariant TookSome(was, keys, emits, i, events, published, p)
        invariant seen == p.seen
      {
        var one, event := TakeEvent(keys[i], emits[i], p);
        OneMore(was, keys, emits, i, events, published, p, event, one);
        published, events, p := published + one, events + [event], Take(p, event);
      }
    }

    /** One poll: `answer` is what the query returned, `emits` says which emits succeed. */
    method PollOnce(now: Time, answer: Option<seq<Key>>, emits: seq<bool>)
      returns (published: seq<Key>, ghost events: seq<Event>)
      requires Valid() && (answer.Some? ==> |emits| == |answer.value|)
      modifies this
      ensures Valid()
      ensures answer.Some? ==> Answers(events, answer.value, emits) && CanTakeAll(old(poller), events)
      ensures poller == Poll(old(poller), lookback, now, if answer.Some? then Some(events) else None)
      ensures poller.emitted == old(poller).emitted + published
    {
      if answer.None? {
        return [], [];
      }
      published, events := TakeEvents(answer.value, emits, poller);
      cursor := Some(now);
      poller := Poll(poller, lookback, now, Some(events));
    }
  }

  /** The events carry these keys and these emit results. */
  ghost predicate Answers(events: seq<Event>, keys: seq<Key>, emits: seq<bool>) {
    && |events| == |keys| == |emits|
    && forall k :: 0 <= k < |events| ==> events[k].key == keys[k] && events[k].emits == emits[k]
  }

  /** Taking the first `i` keys of an answer as `events` leads from `was` to `p` and emits `published`. */
  ghost predicate TookSome(was: Poller, keys: seq<Key>, emits: seq<bool>, i: nat,
                           events: seq<Event>, published: seq<Key>, p: Poller)
  {
    && i <= |keys| == |emits| && Answers(events, keys[..i], emits[..i])
    && CanTakeAll(was, events) && p == TakeAll(was, events) && Balanced(p)
    && p.emitted == was.emitted + published
  }

  lemma OneMore(was: Poller, keys: seq<Key>, emits: seq<bool>, i: nat, events: seq<Event>, published: seq<Key>,
                p: Poller, event: Event, one: seq<Key>)
    requires TookSome(was, keys, emits, i, events, published, p) && i < |keys|
    requires event.key == keys[i] && event.emits == emits[i]
    requires event.key !in p.seen ==> CanRemember(p.seen, event)
    requires Take(p, event).emitted == p.emitted + one
    ensures TookSome(was, keys, emits, i + 1, events + [event], published + one, Take(p, event))
  {
    OneMoreAnswer(events, keys, emits, i, event);
    OneMoreTaken(was, events, p, event);
    TakeKeepsBalance(p, event);
    assert was.emitted + (published + one) == was.emitted + published + one;
  }

  lemma OneMoreAnswer(events: seq<Event>, keys: seq<Key>, emits: seq<bool>, i: nat, event: Event)
    requires i < |keys| == |emits| && Answers(events, keys[..i], emits[..i])
    requires event.key == keys[i] && event.emits == emits[i]
    ensures Answers(events + [event], keys[..i + 1], emits[..i + 1])
  {
  }

  lemma OneMoreTaken(was: Poller, events: seq<Event>, p: Poller, event: Event)
    requires CanTakeAll(was, events) && p == TakeAll(was, events)
    requires event.key !in p.seen ==> CanRemember(p.seen, event)
    ensures CanTakeAll(was, events + [event]) && Take(p, event) == TakeAll(was, events + [event])
  {
    assert (events + [event])[..|events|] == events;
  }
}
