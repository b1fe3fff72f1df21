/** The operator UI's sliding-window request limiter: a pruned list of admission times against the
    full history of admissions.
 */
module RateLimiter {
  import opened Prelude

  const WINDOW: Time := 60.0

  predicate Nondecreasing(times: seq<Time>) {
    forall i, j :: 0 <= i < j < |times| ==> times[i] <= times[j]
  }

  /** How many of the times lie in the closed interval. */
  function CountIn(times: seq<Time>, lo: Time, hi: Time): nat {
    if times == [] then 0
    else CountIn(times[..|times| - 1], lo, hi) + if Within(times[|times| - 1], lo, hi) then 1 else 0
  }

  /** The specification: admitted while fewer than `limit` were admitted in the last minute. */
  predicate Admits(history: seq<Time>, now: Time, limit: int) {
    CountIn(history, now - WINDOW, now) < limit
  }

  /** All admissions out of a sequence of requests. */
  function Admissions(requests: seq<Time>, limit: int): seq<Time> {
    if requests == [] then []
    else
      var history := Admissions(requests[..|requests| - 1], limit);
      var now := requests[|requests| - 1];
      if Admits(history, now, limit) then history + [now] else history
  }

  predicate Within(t: Time, lo: Time, hi: Time) {
    lo <= t <= hi
  }

  /** How many of the times lie in the closed minute that starts at `from`. */
  function InMinute(times: seq<Time>, from: Time): nat {
    CountIn(times, from, from + WINDOW)
  }

  function IndicesIn(times: seq<Time>, lo: Time, hi: Time): set<nat> {
    set i: nat | i < |times| && lo <= times[i] <= hi
  }

  /** The count is the number of positions whose time lies in the closed interval. */
  lemma {:induction false} CountIsCardinality(times: seq<Time>, lo: Time, hi: Time)
    ensures CountIn(times, lo, hi) == |IndicesIn(times, lo, hi)|
  {
    if times == [] {
      assert IndicesIn(times, lo, hi) == {};
    } else {
      var last := |times| - 1;
      var before := IndicesIn(times[..last], lo, hi);
      CountIsCardinality(times[..last], lo, hi);
      assert IndicesIn(times, lo, hi) == before + if lo <= times[last] <= hi then {last} else {};
    }
  }

  lemma {:induction false} CountWithin(times: seq<Time>, lo: Time, hi: Time, lo': Time, hi': Time)
    requires forall i :: 0 <= i < |times| && Within(times[i], lo, hi) ==> Within(times[i], lo', hi')
    ensures CountIn(times, lo, hi) <= CountIn(times, lo', hi')
  {
    if times != [] {
      var last := |times| - 1;
      var init := times[..last];
      assert forall i :: 0 <= i < last ==> init[i] == times[i];
      CountWithin(init, lo, hi, lo', hi');
      assert Within(times[last], lo, hi) ==> Within(times[last], lo', hi');
    }
  }

  lemma {:induction false} CountSuffix(times: seq<Time>, dropped: nat, lo: Time, hi: Time)
    requires dropped <= |times|
    requires forall i :: 0 <= i < dropped ==> times[i] < lo
    requires forall i :: dropped <= i < |times| ==> lo <= times[i] <= hi
    ensures CountIn(times, lo, hi) == |times| - dropped
  {
    if times != [] {
      CountSuffix(times[..|times| - 1], if dropped < |times| then dropped else dropped - 1, lo, hi);
    }
  }

  /** Admissions come in order and none is later than `now`. */
  predicate Until(history: seq<Time>, now: Time) {
    Nondecreasing(history) && forall i :: 0 <= i < |history| ==> history[i] <= now
  }

  lemma UntilSnoc(history: seq<Time>, before: Time, now: Time)
    requires Until(history, before) && before <= now
    ensures Until(history, now) && Until(history + [now], now)
  {
  }

  lemma {:induction false} AdmissionsAreOrdered(requests: seq<Time>, limit: int, now: Time)
    requires Until(requests, now)
    ensures Until(Admissions(requests, limit), now)
  {
    if requests != [] {
      var before, last := requests[..|requests| - 1], requests[|requests| - 1];
      assert Until(before, last);
      AdmissionsAreOrdered(before, limit, last);
      UntilSnoc(Admissions(before, limit), last, last);
    }
  }

  lemma Snoc(history: seq<Time>, now: Time, lo: Time, hi: Time)
    ensures CountIn(history + [now], lo, hi) == CountIn(history, lo, hi) + if Within(now, lo, hi) then 1 else 0
  {
    assert (history + [now])[..|history|] == history;
  }

  /** Every closed interval of one minute holds at most `limit` admissions. */
  lemma {:induction false} EveryMinuteHoldsAtMostLimit(requests: seq<Time>, limit: nat, from: Time)
    requires Nondecreasing(requests)
    ensures InMinute(Admissions(requests, limit), from) <= limit
    ensures |IndicesIn(Admissions(requests, limit), from, from + 60.0)| <= limit
  {
    CountIsCardinality(Admissions(requests, limit), from, from + WINDOW);
    if requests != [] {
      var before, now := requests[..|requests| - 1], requests[|requests| - 1];
      var history := Admissions(before, limit);
      EveryMinuteHoldsAtMostLimit(before, limit, from);
      Snoc(history, now, from, from + WINDOW);
      if Admits(history, now, limit) && Within(now, from, from + WINDOW) {
        AdmissionsAreOrdered(before, limit, now);
        CountWithin(history, from, from + WINDOW, now - WINDOW, now);
      }
    }
  }

  /** A request is refused only when the last minute holds exactly `limit` admissions. */
  lemma RefusedExactlyWhenFull(requests: seq<Time>, limit: nat, now: Time)
    requires Nondecreasing(requests + [now])
    ensures !Admits(Admissions(requests, limit), now, limit)
       <==> |IndicesIn(Admissions(requests, limit), now - 60.0, now)| == limit
  {
    CountIsCardinality(Admissions(requests, limit), now - WINDOW, now);
    assert Nondecreasing(requests) by {
      assert forall i :: 0 <= i < |requests| ==> requests[i] == (requests + [now])[i];
    }
    EveryMinuteHoldsAtMostLimit(requests, limit, now - WINDOW);
  }

  // --- no limiter that keeps the bound admits more --------------------------------------------

  /** Any `limit` + 1 consecutive times span more than a minute. */
  ghost predicate KeepsBound(times: seq<Time>, limit: nat) {
    forall i, j :: 0 <= i && j == i + limit && j < |times| ==> times[j] > times[i] + WINDOW
  }

  /** The requests another limiter admits. */
  function Chosen(requests: seq<Time>, admits: seq<bool>): seq<Time>
    requires |admits| == |requests|
  {
    if requests == [] then []
    else
      var last := |requests| - 1;
      Chosen(requests[..last], admits[..last]) + if admits[last] then [requests[last]] else []
  }

  lemma {:induction false} CountSkips(times: seq<Time>, skipped: nat, lo: Time, hi: Time)
    requires skipped <= |times|
    requires forall i :: 0 <= i < skipped ==> times[i] < lo
    ensures CountIn(times, lo, hi) <= |times| - skipped
  {
    if times != [] {
      CountSkips(times[..|times| - 1], if skipped < |times| then skipped else skipped - 1, lo, hi);
    }
  }

  /** Admission for admission, `earlier` is never behind `later`. */
  ghost predicate KeepsUp(earlier: seq<Time>, later: seq<Time>) {
    |later| <= |earlier| && forall k :: 0 <= k < |later| ==> earlier[k] <= later[k]
  }

  lemma AdmitsWhenBehind(history: seq<Time>, chosen: seq<Time>, now: Time, limit: nat)
    requires Until(history, now) && KeepsUp(history, chosen) && |history| == |chosen|
    requires KeepsBound(chosen + [now], limit)
    ensures Admits(history, now, limit)
  {
    if limit <= |chosen| {
      var early := |chosen| - limit;
      assert (chosen + [now])[early + limit] > (chosen + [now])[early] + WINDOW;
      assert limit > 0;
      assert history[early] < now - WINDOW;
      CountSkips(history, early + 1, now - WINDOW, now);
    } else {
      CountSkips(history, 0, now - WINDOW, now);
    }
  }

  lemma {:induction false} AdmitsEarliest(requests: seq<Time>, admits: seq<bool>, limit: nat, now: Time)
    requires |admits| == |requests| && Until(requests, now) && KeepsBound(Chosen(requests, admits), limit)
    ensures KeepsUp(Admissions(requests, limit), Chosen(requests, admits))
    ensures Until(Chosen(requests, admits), now)
  {
    if requests != [] {
      var last := |requests| - 1;
      var before := requests[..last];
      var chosen, history := Chosen(before, admits[..last]), Admissions(before, limit);
      assert Until(before, requests[last]);
      BoundOfInit(chosen, requests[last], limit);
      assert chosen + [] == chosen;
      AdmitsEarliest(before, admits[..last], limit, requests[last]);
      AdmissionsAreOrdered(before, limit, requests[last]);
      UntilSnoc(chosen, requests[last], now);
      UntilSnoc(chosen, requests[last], requests[last]);
      if admits[last] && |history| == |chosen| {
        AdmitsWhenBehind(history, chosen, requests[last], limit);
      }
    }
  }

  lemma BoundOfInit(chosen: seq<Time>, now: Time, limit: nat)
    ensures KeepsBound(chosen + [now], limit) ==> KeepsBound(chosen, limit)
  {
    assert forall i :: 0 <= i < |chosen| ==> (chosen + [now])[i] == chosen[i];
  }

  lemma {:induction false} CountHolds(times: seq<Time>, i: nat, j: nat, lo: Time, hi: Time)
    requires i <= j <= |times|
    requires forall k :: i <= k < j ==> Within(times[k], lo, hi)
    ensures CountIn(times, lo, hi) >= j - i
  {
    if times != [] && i < j {
      var last := |times| - 1;
      CountHolds(times[..last], i, if j <= last then j else last, lo, hi);
    }
  }

  /** Every closed interval of one minute holds at most `limit` of the times. */
  ghost predicate MinutesHold(times: seq<Time>, limit: nat) {
    forall from: Time :: InMinute(times, from) <= limit
  }

  lemma MinutesHoldKeepsBound(times: seq<Time>, limit: nat)
    requires Nondecreasing(times) && MinutesHold(times, limit)
    ensures KeepsBound(times, limit)
  {
    forall i, j | 0 <= i && j == i + limit && j < |times| ensures times[j] > times[i] + WINDOW {
      assert InMinute(times, times[i]) <= limit;
      if times[j] <= times[i] + WINDOW {
        CountHolds(times, i, j + 1, times[i], times[i] + WINDOW);
      }
    }
  }

  lemma {:induction false} ChosenAreOrdered(requests: seq<Time>, admits: seq<bool>, now: Time)
    requires |admits| == |requests| && Until(requests, now)
    ensures Until(Chosen(requests, admits), now)
  {
    if requests != [] {
      var last := |requests| - 1;
      assert Until(requests[..last], requests[last]);
      ChosenAreOrdered(requests[..last], admits[..last], requests[last]);
      UntilSnoc(Chosen(requests[..last], admits[..last]), requests[last], now);
    }
  }

  /** Among all ways to admit requests with at most `limit` in any minute, this one admits the most. */
  lemma AdmitsTheMost(requests: seq<Time>, admits: seq<bool>, limit: nat)
    requires |admits| == |requests| && Nondecreasing(requests)
    requires MinutesHold(Chosen(requests, admits), limit)
    ensures |Chosen(requests, admits)| <= |Admissions(requests, limit)|
  {
    if requests != [] {
      var now := requests[|requests| - 1];
      ChosenAreOrdered(requests, admits, now);
      MinutesHoldKeepsBound(Chosen(requests, admits), limit);
      AdmitsEarliest(requests, admits, limit, now);
    }
  }

  /** `stamps` is the history without some admissions older than a minute before `now`. */
  ghost predicate Pruned(stamps: seq<Time>, history: seq<Time>, now: Time) {
    && |stamps| <= |history|
    && stamps == history[|history| - |stamps|..]
    && forall i :: 0 <= i < |history| - |stamps| ==> history[i] < now - WINDOW
  }

  lemma PruneOne(stamps: seq<Time>, history: seq<Time>, now: Time)
    requires Pruned(stamps, history, now) && stamps != [] && stamps[0] < now - WINDOW
    ensures Pruned(stamps[1..], history, now)
  {
    assert stamps[0] == history[|history| - |stamps|];
  }

  lemma PrunedLater(stamps: seq<Time>, history: seq<Time>, clock: Time, now: Time)
    requires Pruned(stamps, history, clock) && clock <= now
    ensures Pruned(stamps, history, now)
  {
  }

  lemma PrunedCounts(stamps: seq<Time>, history: seq<Time>, now: Time)
    requires Pruned(stamps, history, now) && Until(history, now)
    requires stamps != [] ==> stamps[0] >= now - WINDOW
    ensures |stamps| == CountIn(history, now - WINDOW, now)
  {
    var dropped := |history| - |stamps|;
    forall i | dropped <= i < |history| ensures now - WINDOW <= history[i] {
      assert stamps[0] == history[dropped];
    }
    CountSuffix(history, dropped, now - WINDOW, now);
  }

  class Bucket {
    var stamps: seq<Time>
    /** Every admission so far, and the time of the last call. */
    ghost var history: seq<Time>
    ghost var clock: Time

    ghost predicate Valid()
      reads this
    {
      Until(history, clock) && Pruned(stamps, history, clock)
    }

    constructor ()
      ensures Valid() && history == []
    {
      stamps := [];
      history, clock := [], 0.0;
    }

    /** The pruned list decides exactly as the full history would. */
    method RateLimitOk(now: Time, limit: int) returns (ok: bool)
      requires Valid() && clock <= now
      modifies this
      ensures Valid() && clock == now
      ensures ok == Admits(old(history), now, limit)
      ensures ok <==> |IndicesIn(old(history), now - 60.0, now)| < limit
      ensures history == if ok then old(history) + [now] else old(history)
    {
      CountIsCardinality(history, now - WINDOW, now);
      UntilSnoc(history, clock, now);
      PrunedLater(stamps, history, clock, now);
      clock := now;
      while stamps != [] && stamps[0] < now - WINDOW
        invariant Valid() && history == old(history) && clock == now
        decreases |stamps|
      {
        PruneOne(stamps, history, now);
        stamps := stamps[1..];
      }
      PrunedCounts(stamps, history, now);
      if |stamps| >= limit {
        return false;
      }
      PrunedSnoc(stamps, history, now);
      stamps := stamps + [now];
      history := history + [now];
      return true;
    }
  }

  lemma PrunedSnoc(stamps: seq<Time>, history: seq<Time>, now: Time)
    requires Pruned(stamps, history, now)
    ensures Pruned(stamps + [now], history + [now], now)
  {
  }
}
