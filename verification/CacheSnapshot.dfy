/** What the shared read cache serves: dispatch logs bucketed per alert on load, and alert lists
    filtered and cut into pages from the snapshot.

    Case folding is foreign to this model and enters as the functions of a `Folding`.
 */
module CacheSnapshot {
  import opened Prelude

  // --- sequences ------------------------------------------------------------------------------

  function Take<T>(s: seq<T>, n: nat): seq<T> {
    if n < |s| then s[..n] else s
  }

  lemma TakeSnoc<T>(s: seq<T>, x: T, n: nat)
    ensures Take(s + [x], n) == if |Take(s, n)| >= n then Take(s, n) else Take(s, n) + [x]
  {
  }

  function Keep<T>(s: seq<T>, p: T -> bool): seq<T> {
    if s == [] then []
    else Keep(s[..|s| - 1], p) + (if p(s[|s| - 1]) then [s[|s| - 1]] else [])
  }

  function Nothing<T>(): T -> bool {
    x => false
  }

  function Both<T>(p: T -> bool, q: T -> bool): T -> bool {
    x => p(x) && q(x)
  }

  lemma {:induction false} KeepAppends<T>(s: seq<T>, t: seq<T>, p: T -> bool)
    ensures Keep(s + t, p) == Keep(s, p) + Keep(t, p)
  {
    if t == [] {
      assert s + t == s;
    } else {
      KeepAppends(s, t[..|t| - 1], p);
      assert (s + t)[..|s + t| - 1] == s + t[..|t| - 1];
    }
  }

  lemma {:induction false} KeepTwice<T>(s: seq<T>, p: T -> bool, q: T -> bool)
    ensures Keep(Keep(s, p), q) == Keep(s, Both(p, q))
  {
    if s != [] {
      var last := s[|s| - 1];
      KeepTwice(s[..|s| - 1], p, q);
      KeepAppends(Keep(s[..|s| - 1], p), if p(last) then [last] else [], q);
      assert Keep([last], q) == Keep([], q) + (if q(last) then [last] else []);
    }
  }

  lemma {:induction false} KeepAgrees<T>(s: seq<T>, p: T -> bool, q: T -> bool)
    requires forall x <- s :: p(x) == q(x)
    ensures Keep(s, p) == Keep(s, q)
  {
    if s != [] {
      KeepAgrees(s[..|s| - 1], p, q);
    }
  }

  lemma {:induction false} KeepMembers<T>(s: seq<T>, p: T -> bool)
    ensures forall x :: x in Keep(s, p) <==> x in s && p(x)
  {
    if s != [] {
      KeepMembers(s[..|s| - 1], p);
      assert s == s[..|s| - 1] + [s[|s| - 1]];
    }
  }

  // --- the dispatch buckets -------------------------------------------------------------------

  datatype Log = Log(id: nat, alertId: string, createdAt: Time)

  function About(alertId: string): Log -> bool {
    (log: Log) => log.alertId == alertId
  }

  function AboutAny(ids: set<string>): Log -> bool {
    (log: Log) => log.alertId in ids
  }

  function LogsOf(logs: seq<Log>, alertId: string): seq<Log> {
    Keep(logs, About(alertId))
  }

  /** Logs of the cached alerts, in the order the query returns them, before its limit. */
  function Relevant(logs: seq<Log>, ids: set<string>): seq<Log> {
    Keep(logs, AboutAny(ids))
  }

  function BucketOf(buckets: map<string, seq<Log>>, alertId: string): seq<Log> {
    if alertId in buckets then buckets[alertId] else []
  }

  lemma LogsOfSnoc(logs: seq<Log>, i: nat, alertId: string)
    requires i < |logs|
    ensures LogsOf(logs[..i + 1], alertId)
         == LogsOf(logs[..i], alertId) + if logs[i].alertId == alertId then [logs[i]] else []
  {
    assert logs[..i + 1][..i] == logs[..i];
  }

  /** Each bucket holds the first `maxPerAlert` of its alert's rows. */
  ghost predicate AreFilled(buckets: map<string, seq<Log>>, rows: seq<Log>, maxPerAlert: nat) {
    forall alertId :: BucketOf(buckets, alertId) == Take(LogsOf(rows, alertId), maxPerAlert)
  }

  /** There is a bucket exactly for the alerts that have rows. */
  ghost predicate AreNamed(buckets: map<string, seq<Log>>, rows: seq<Log>) {
    forall alertId :: alertId in buckets <==> exists row <- rows :: row.alertId == alertId
  }

  function Grown(bucket: seq<Log>, row: Log, maxPerAlert: nat): seq<Log> {
    if |bucket| >= maxPerAlert then bucket else bucket + [row]
  }

  lemma FilledGrow(buckets: map<string, seq<Log>>, rows: seq<Log>, i: nat, maxPerAlert: nat)
    requires i < |rows| && AreFilled(buckets, rows[..i], maxPerAlert)
    ensures var alertId := rows[i].alertId;
            AreFilled(buckets[alertId := Grown(BucketOf(buckets, alertId), rows[i], maxPerAlert)],
                      rows[..i + 1], maxPerAlert)
  {
    var row := rows[i];
    var after := buckets[row.alertId := Grown(BucketOf(buckets, row.alertId), row, maxPerAlert)];
    forall alertId ensures BucketOf(after, alertId) == Take(LogsOf(rows[..i + 1], alertId), maxPerAlert) {
      LogsOfSnoc(rows, i, alertId);
      if alertId == row.alertId {
        TakeSnoc(LogsOf(rows[..i], alertId), row, maxPerAlert);
      } else {
        assert LogsOf(rows[..i], alertId) + [] == LogsOf(rows[..i], alertId);
        assert BucketOf(after, alertId) == BucketOf(buckets, alertId);
      }
    }
  }

  /** The bucketing loop over the rows the query returned. */
  method FillBuckets(rows: seq<Log>, maxPerAlert: nat) returns (buckets: map<string, seq<Log>>)
    ensures AreFilled(buckets, rows, maxPerAlert) && AreNamed(buckets, rows)
  {
    buckets := map[];
    for i := 0 to |rows|
      invariant AreFilled(buckets, rows[..i], maxPerAlert) && AreNamed(buckets, rows[..i])
    {
      var row := rows[i];
      ghost var before := buckets;
      if row.alertId !in buckets {
        buckets := buckets[row.alertId := []];
      }
      var bucket := buckets[row.alertId];
      FilledGrow(before, rows, i, maxPerAlert);
      assert rows[..i + 1] == rows[..i] + [row];
      if |bucket| >= maxPerAlert {
        assert buckets == before[row.alertId := bucket];
        continue;
      }
      buckets := buckets[row.alertId := bucket + [row]];
      assert buckets == before[row.alertId := bucket + [row]];
    }
    assert rows[..|rows|] == rows;
  }

  /** What `_load_from_db` leaves in the snapshot for one alert. */
  function Loaded(logs: seq<Log>, ids: set<string>, maxAlerts: nat, maxPerAlert: nat, alertId: string): seq<Log> {
    Take(LogsOf(Take(Relevant(logs, ids), maxAlerts * maxPerAlert), alertId), maxPerAlert)
  }

  method LoadBuckets(logs: seq<Log>, ids: set<string>, maxAlerts: nat, maxPerAlert: nat)
    returns (buckets: map<string, seq<Log>>)
    ensures forall alertId :: BucketOf(buckets, alertId) == Loaded(logs, ids, maxAlerts, maxPerAlert, alertId)
  {
    if ids == {} {
      buckets := map[];
      KeepAgrees(logs, AboutAny(ids), Nothing());
      KeepNone(logs);
    } else {
      buckets := FillBuckets(Take(Relevant(logs, ids), maxAlerts * maxPerAlert), maxPerAlert);
    }
  }

  lemma {:induction false} KeepNone<T>(s: seq<T>)
    ensures Keep(s, Nothing()) == []
  {
    if s != [] {
      KeepNone(s[..|s| - 1]);
    }
  }

  lemma RelevantKeepsItsLogs(logs: seq<Log>, ids: set<string>, alertId: string)
    requires alertId in ids
    ensures LogsOf(Relevant(logs, ids), alertId) == LogsOf(logs, alertId)
  {
    KeepTwice(logs, AboutAny(ids), About(alertId));
    KeepAgrees(logs, Both(AboutAny(ids), About(alertId)), About(alertId));
  }

  lemma LogsOfSplit(rows: seq<Log>, n: nat, alertId: string)
    requires n <= |rows|
    ensures LogsOf(rows, alertId) == LogsOf(rows[..n], alertId) + LogsOf(rows[n..], alertId)
  {
    assert rows == rows[..n] + rows[n..];
    KeepAppends(rows[..n], rows[n..], About(alertId));
  }

  /** A bucket is always the newest part of the alert's log, never more than the maximum. */
  lemma BucketIsTheNewestPart(logs: seq<Log>, ids: set<string>, maxAlerts: nat, maxPerAlert: nat, alertId: string)
    requires alertId in ids
    ensures var bucket := Loaded(logs, ids, maxAlerts, maxPerAlert, alertId);
            bucket <= LogsOf(logs, alertId) && |bucket| <= maxPerAlert
  {
    RelevantKeepsItsLogs(logs, ids, alertId);
    var rows := Relevant(logs, ids);
    if maxAlerts * maxPerAlert <= |rows| {
      LogsOfSplit(rows, maxAlerts * maxPerAlert, alertId);
    }
  }

  /** Every log of the alert that the limit cuts off has a full bucket of newer logs before it. */
  predicate CutIsHarmless(rows: seq<Log>, limit: nat, maxPerAlert: nat, alertId: string) {
    forall k :: limit <= k < |rows| && rows[k].alertId == alertId ==> |LogsOf(rows[..k], alertId)| >= maxPerAlert
  }

  /** The bucket is complete up to the maximum exactly when the global limit cuts off none of the
      logs that belong in it. */
  lemma CompleteExactlyWhenCutIsHarmless(
    logs: seq<Log>, ids: set<string>, maxAlerts: nat, maxPerAlert: nat, alertId: string)
    requires alertId in ids
    ensures Loaded(logs, ids, maxAlerts, maxPerAlert, alertId) == Take(LogsOf(logs, alertId), maxPerAlert)
       <==> CutIsHarmless(Relevant(logs, ids), maxAlerts * maxPerAlert, maxPerAlert, alertId)
  {
    RelevantKeepsItsLogs(logs, ids, alertId);
    var rows, limit := Relevant(logs, ids), maxAlerts * maxPerAlert;
    if limit < |rows| {
      CutKeepsTheBucket(rows, limit, maxPerAlert, alertId);
    }
  }

  lemma CutKeepsTheBucket(rows: seq<Log>, limit: nat, maxPerAlert: nat, alertId: string)
    requires limit < |rows|
    ensures Take(LogsOf(rows[..limit], alertId), maxPerAlert) == Take(LogsOf(rows, alertId), maxPerAlert)
       <==> CutIsHarmless(rows, limit, maxPerAlert, alertId)
  {
    LogsOfSplit(rows, limit, alertId);
    var kept := LogsOf(rows[..limit], alertId);
    if |kept| < maxPerAlert {
      if k :| limit <= k < |rows| && rows[k].alertId == alertId {
        var first := FirstLogFrom(rows, limit, k, alertId);
        LogsOfSplit(rows, first + 1, alertId);
        LogsOfSnoc(rows, first, alertId);
      } else {
        assert forall row <- rows[limit..] :: row.alertId != alertId;
        KeepAgrees(rows[limit..], About(alertId), Nothing());
        KeepNone(rows[limit..]);
      }
    } else {
      forall k | limit <= k < |rows| ensures |LogsOf(rows[..k], alertId)| >= maxPerAlert {
        LogsOfSplit(rows[..k], limit, alertId);
        assert rows[..k][..limit] == rows[..limit];
      }
    }
  }

  lemma FirstLogFrom(rows: seq<Log>, limit: nat, k: nat, alertId: string) returns (first: nat)
    requires limit <= k < |rows| && rows[k].alertId == alertId
    ensures limit <= first <= k && rows[first].alertId == alertId
    ensures LogsOf(rows[..first], alertId) == LogsOf(rows[..limit], alertId)
  {
    first := limit;
    while rows[first].alertId != alertId
      invariant limit <= first <= k
      invariant LogsOf(rows[..first], alertId) == LogsOf(rows[..limit], alertId)
      decreases k - first
    {
      LogsOfSnoc(rows, first, alertId);
      first := first + 1;
    }
  }

  /** No cached alert with more logs than a bucket holds: then the global limit is never hit. */
  lemma {:induction false} QuietAlertsFitTheLimit(logs: seq<Log>, ids: set<string>, maxPerAlert: nat)
    requires forall alertId <- ids :: |LogsOf(logs, alertId)| <= maxPerAlert
    ensures |Relevant(logs, ids)| <= |ids| * maxPerAlert
  {
    if ids == {} {
      KeepAgrees(logs, AboutAny(ids), Nothing());
      KeepNone(logs);
    } else {
      var alertId :| alertId in ids;
      QuietAlertsFitTheLimit(logs, ids - {alertId}, maxPerAlert);
      RelevantCounts(logs, ids, alertId);
      assert |ids| == |ids - {alertId}| + 1;
      assert |ids| * maxPerAlert == |ids - {alertId}| * maxPerAlert + maxPerAlert;
    }
  }

  lemma {:induction false} RelevantCounts(logs: seq<Log>, ids: set<string>, alertId: string)
    requires alertId in ids
    ensures |Relevant(logs, ids)| == |Relevant(logs, ids - {alertId})| + |LogsOf(logs, alertId)|
  {
    if logs != [] {
      RelevantCounts(logs[..|logs| - 1], ids, alertId);
    }
  }

  /** While no cached alert has more logs than a bucket holds, every bucket is that alert's whole log. */
  lemma QuietAlertsAreComplete(logs: seq<Log>, ids: set<string>, maxAlerts: nat, maxPerAlert: nat, alertId: string)
    requires |ids| <= maxAlerts && alertId in ids
    requires forall other <- ids :: |LogsOf(logs, other)| <= maxPerAlert
    ensures Loaded(logs, ids, maxAlerts, maxPerAlert, alertId) == LogsOf(logs, alertId)
  {
    QuietAlertsFitTheLimit(logs, ids, maxPerAlert);
    RelevantKeepsItsLogs(logs, ids, alertId);
    assert |ids| * maxPerAlert <= maxAlerts * maxPerAlert by { ProductGrows(|ids|, maxAlerts, maxPerAlert); }
  }

  lemma ProductGrows(a: nat, b: nat, c: nat)
    requires a <= b
    ensures a * c <= b * c
  {
  }

  /** `n` logs of one alert, newest first. */
  function Chatter(n: nat, newest: Time): seq<Log> {
    if n == 0 then [] else Chatter(n - 1, newest) + [Log(n, "chatty", newest - n as real)]
  }

  lemma {:induction false} ChatterIsChatty(n: nat, newest: Time)
    ensures |Chatter(n, newest)| == n && LogsOf(Chatter(n, newest), "quiet") == []
    ensures Relevant(Chatter(n, newest), {"chatty", "quiet"}) == Chatter(n, newest)
  {
    if n > 0 {
      ChatterIsChatty(n - 1, newest);
      assert "chatty"[0] != "quiet"[0];
    }
  }

  /** The limit is global, so under any limits one alert that logs a lot empties the bucket of a quiet one. */
  lemma ChattyAlertHidesAQuietOne(maxAlerts: nat, maxPerAlert: nat, newest: Time)
    ensures var n := maxAlerts * maxPerAlert;
            var quiet := Log(0, "quiet", newest - n as real - 1.0);
            var logs := Chatter(n, newest) + [quiet];
            && Loaded(logs, {"chatty", "quiet"}, maxAlerts, maxPerAlert, "quiet") == []
            && LogsOf(logs, "quiet") == [quiet]
  {
    var n := maxAlerts * maxPerAlert;
    var quiet := Log(0, "quiet", newest - n as real - 1.0);
    var logs := Chatter(n, newest) + [quiet];
    ChatterIsChatty(n, newest);
    assert logs[..|logs| - 1] == Chatter(n, newest);
    assert Relevant(logs, {"chatty", "quiet"}) == logs;
  }

  // --- filtering ------------------------------------------------------------------------------

  datatype Folding = Folding(lower: string -> string, upper: string -> string)

  datatype Alert = Alert(
    id: string,
    status: string,
    severity: string,
    service: string,
    labels: seq<(string, string)>,
    blob: string,
    firstSeen: Time,
    lastSeen: Option<Time>)

  /** A parsed query; an empty set, list or string leaves its filter out. `labels` holds folded
      (key, value) pairs, and an empty value asks for the key alone. */
  datatype Query = Query(
    statuses: set<string>,
    severities: set<string>,
    service: string,
    labels: seq<(string, string)>,
    q: string)

  function FoldedLabels(f: Folding, labels: seq<(string, string)>): map<string, string> {
    if labels == [] then map[]
    else
      var (key, value) := labels[|labels| - 1];
      FoldedLabels(f, labels[..|labels| - 1])[f.lower(key) := f.lower(value)]
  }

  predicate LabelMatches(f: Folding, a: Alert, wanted: (string, string)) {
    var labels := FoldedLabels(f, a.labels);
    wanted.0 in labels && (wanted.1 == "" || labels[wanted.0] == wanted.1)
  }

  predicate AllLabelsMatch(f: Folding, a: Alert, wanted: seq<(string, string)>) {
    forall w <- wanted :: LabelMatches(f, a, w)
  }

  function Labelled(f: Folding, wanted: seq<(string, string)>): Alert -> bool {
    (a: Alert) => AllLabelsMatch(f, a, wanted)
  }

  predicate StartsAt(text: string, needle: string, i: nat)
    requires i + |needle| <= |text|
  {
    text[i..i + |needle|] == needle
  }

  predicate Contains(text: string, needle: string) {
    exists i | 0 <= i <= |text| - |needle| :: StartsAt(text, needle, i)
  }

  /** The conjunction of all filters in force. */
  predicate Matches(f: Folding, query: Query, a: Alert) {
    && (query.statuses != {} ==> a.status in query.statuses)
    && (query.severities != {} ==> f.upper(a.severity) in query.severities)
    && (query.service != "" ==> a.service == query.service)
    && AllLabelsMatch(f, a, query.labels)
    && (query.q != "" ==> Contains(f.lower(a.blob), f.lower(query.q)))
  }

  // --- the order of a listing -------------------------------------------------------------------

  /** `last_seen or first_seen`. */
  function ActivityAt(a: Alert): Time {
    if a.lastSeen.Some? then a.lastSeen.value else a.firstSeen
  }

  predicate NewestFirst(items: seq<Alert>) {
    forall i, j :: 0 <= i < j < |items| ==> ActivityAt(items[i]) >= ActivityAt(items[j])
  }

  /** `a` goes behind everything that is at least as new. */
  function Placed(sorted: seq<Alert>, a: Alert): seq<Alert> {
    if sorted == [] then [a]
    else
      var last := sorted[|sorted| - 1];
      if ActivityAt(last) >= ActivityAt(a) then sorted + [a] else Placed(sorted[..|sorted| - 1], a) + [last]
  }

  /** Sorted by latest activity, newest first. */
  function NewestFirstOf(alerts: seq<Alert>): seq<Alert> {
    if alerts == [] then [] else Placed(NewestFirstOf(alerts[..|alerts| - 1]), alerts[|alerts| - 1])
  }

  function ActiveAt(at: Time): Alert -> bool {
    (a: Alert) => ActivityAt(a) == at
  }

  lemma {:induction false} PlacedIsPermutation(sorted: seq<Alert>, a: Alert)
    ensures multiset(Placed(sorted, a)) == multiset(sorted) + multiset{a}
  {
    if sorted != [] {
      var init, last := sorted[..|sorted| - 1], sorted[|sorted| - 1];
      assert sorted == init + [last];
      if ActivityAt(last) < ActivityAt(a) {
        PlacedIsPermutation(init, a);
      }
    }
  }

  lemma {:induction false} PlacedIsSorted(sorted: seq<Alert>, a: Alert)
    requires NewestFirst(sorted)
    ensures NewestFirst(Placed(sorted, a))
  {
    if sorted != [] {
      var init, last := sorted[..|sorted| - 1], sorted[|sorted| - 1];
      if ActivityAt(last) < ActivityAt(a) {
        PlacedIsSorted(init, a);
        PlacedIsPermutation(init, a);
        var front := Placed(init, a);
        forall i | 0 <= i < |front| ensures ActivityAt(front[i]) >= ActivityAt(last) {
          assert front[i] in multiset(front);
          assert front[i] in init || front[i] == a;
        }
      }
    }
  }

  lemma {:induction false} PlacedIsStable(sorted: seq<Alert>, a: Alert, at: Time)
    ensures Keep(Placed(sorted, a), ActiveAt(at)) == Keep(sorted, ActiveAt(at)) + Keep([a], ActiveAt(at))
  {
    if sorted != [] {
      var init, last := sorted[..|sorted| - 1], sorted[|sorted| - 1];
      assert sorted == init + [last];
      if ActivityAt(last) >= ActivityAt(a) {
        KeepAppends(sorted, [a], ActiveAt(at));
      } else {
        PlacedIsStable(init, a, at);
        KeepAppends(Placed(init, a), [last], ActiveAt(at));
        KeepAppends(init, [last], ActiveAt(at));
        KeepOne(a, ActiveAt(at));
        KeepOne(last, ActiveAt(at));
      }
    } else {
      assert [] + [a] == [a];
    }
  }

  lemma KeepOne<T>(x: T, p: T -> bool)
    ensures Keep([x], p) == if p(x) then [x] else []
  {
    assert [x][..0] == [];
  }

  /** The sort is a permutation, newest first, and leaves alerts of equal activity in their order. */
  lemma {:induction false} SortIsStable(alerts: seq<Alert>, at: Time)
    ensures NewestFirst(NewestFirstOf(alerts))
    ensures multiset(NewestFirstOf(alerts)) == multiset(alerts)
    ensures Keep(NewestFirstOf(alerts), ActiveAt(at)) == Keep(alerts, ActiveAt(at))
  {
    if alerts != [] {
      var init, last := alerts[..|alerts| - 1], alerts[|alerts| - 1];
      assert alerts == init + [last];
      SortIsStable(init, at);
      PlacedIsSorted(NewestFirstOf(init), last);
      PlacedIsPermutation(NewestFirstOf(init), last);
      PlacedIsStable(NewestFirstOf(init), last, at);
      KeepAppends(init, [last], ActiveAt(at));
    }
  }

  lemma {:induction false} FilteringKeepsOrder(items: seq<Alert>, p: Alert -> bool)
    requires NewestFirst(items)
    ensures NewestFirst(Keep(items, p))
  {
    if items != [] {
      var init := items[..|items| - 1];
      FilteringKeepsOrder(init, p);
      KeepMembers(init, p);
      assert forall i :: 0 <= i < |Keep(init, p)| ==> Keep(init, p)[i] in Keep(init, p);
    }
  }

  function Matching(f: Folding, query: Query): Alert -> bool {
    (a: Alert) => Matches(f, query, a)
  }

  /** What a query lists: the alerts that match it, newest activity first. */
  function Listed(f: Folding, alerts: seq<Alert>, query: Query): seq<Alert> {
    Keep(NewestFirstOf(alerts), Matching(f, query))
  }

  lemma {:induction false} KeepCounts<T>(s: seq<T>, p: T -> bool, x: T)
    ensures multiset(Keep(s, p))[x] == if p(x) then multiset(s)[x] else 0
  {
    if s != [] {
      KeepCounts(s[..|s| - 1], p, x);
      assert s == s[..|s| - 1] + [s[|s| - 1]];
    }
  }

  /** A listing is newest first and holds every matching alert exactly as often as the snapshot does. */
  lemma ListingIsSortedAndComplete(f: Folding, alerts: seq<Alert>, query: Query, a: Alert)
    ensures NewestFirst(Listed(f, alerts, query))
    ensures multiset(Listed(f, alerts, query))[a] == if Matches(f, query, a) then multiset(alerts)[a] else 0
  {
    SortIsStable(alerts, ActivityAt(a));
    FilteringKeepsOrder(NewestFirstOf(alerts), Matching(f, query));
    KeepCounts(NewestFirstOf(alerts), Matching(f, query), a);
  }

  method LabelsMatch(f: Folding, a: Alert, wanted: seq<(string, string)>) returns (all: bool)
    ensures all == AllLabelsMatch(f, a, wanted)
  {
    var labels := FoldedLabels(f, a.labels);
    for i := 0 to |wanted|
      invariant AllLabelsMatch(f, a, wanted[..i])
    {
      var (key, value) := wanted[i];
      assert wanted[i] in wanted;
      if key !in labels {
        return false;
      }
      if value != "" && labels[key] != value {
        return false;
      }
      assert wanted[..i + 1] == wanted[..i] + [wanted[i]];
    }
    assert wanted[..|wanted|] == wanted;
    return true;
  }

  method KeepLabelled(f: Folding, items: seq<Alert>, wanted: seq<(string, string)>) returns (kept: seq<Alert>)
    ensures kept == Keep(items, Labelled(f, wanted))
  {
    kept := [];
    for i := 0 to |items|
      invariant kept == Keep(items[..i], Labelled(f, wanted))
    {
      var all := LabelsMatch(f, items[i], wanted);
      if all {
        kept := kept + [items[i]];
      }
      assert items[..i + 1][..i] == items[..i];
    }
    assert items[..|items|] == items;
  }

  /** One filter after the other narrows the list to exactly the alerts that match the whole query. */
  method FilteredAlerts(f: Folding, alerts: seq<Alert>, query: Query) returns (items: seq<Alert>)
    ensures items == Listed(f, alerts, query)
  {
    var sorted := NewestFirstOf(alerts);
    items := sorted;
    ghost var p1 := (a: Alert) => query.statuses != {} ==> a.status in query.statuses;
    ghost var p2 := (a: Alert) => query.severities != {} ==> f.upper(a.severity) in query.severities;
    ghost var p3 := (a: Alert) => query.service != "" ==> a.service == query.service;
    ghost var p4 := Labelled(f, query.labels);
    ghost var p5 := (a: Alert) => query.q != "" ==> Contains(f.lower(a.blob), f.lower(query.q));
    if query.statuses != {} {
      items := Keep(items, (a: Alert) => a.status in query.statuses);
    }
    Narrowed(sorted, items, query.statuses != {}, (a: Alert) => a.status in query.statuses, p1);
    ghost var was := items;
    if query.severities != {} {
      items := Keep(items, (a: Alert) => f.upper(a.severity) in query.severities);
    }
    Narrowed(was, items, query.severities != {}, (a: Alert) => f.upper(a.severity) in query.severities, p2);
    was := items;
    if query.service != "" {
      items := Keep(items, (a: Alert) => a.service == query.service);
    }
    Narrowed(was, items, query.service != "", (a: Alert) => a.service == query.service, p3);
    was := items;
    if query.labels != [] {
      items := KeepLabelled(f, items, query.labels);
    }
    Narrowed(was, items, query.labels != [], Labelled(f, query.labels), p4);
    was := items;
    if query.q != "" {
      items := Keep(items, (a: Alert) => Contains(f.lower(a.blob), f.lower(query.q)));
    }
    Narrowed(was, items, query.q != "", (a: Alert) => Contains(f.lower(a.blob), f.lower(query.q)), p5);
    FiveFilters(sorted, p1, p2, p3, p4, p5, Matching(f, query));
  }

  lemma Narrowed<T>(before: seq<T>, after: seq<T>, inForce: bool, p: T -> bool, whole: T -> bool)
    requires after == if inForce then Keep(before, p) else before
    requires forall x :: whole(x) == (inForce ==> p(x))
    ensures after == Keep(before, whole)
  {
    if inForce {
      KeepAgrees(before, p, whole);
    } else {
      KeepAll(before, whole);
    }
  }

  lemma {:induction false} KeepAll<T>(s: seq<T>, p: T -> bool)
    requires forall x :: p(x)
    ensures Keep(s, p) == s
  {
    if s != [] {
      KeepAll(s[..|s| - 1], p);
    }
  }

  lemma FiveFilters<T>(s: seq<T>, p1: T -> bool, p2: T -> bool, p3: T -> bool, p4: T -> bool, p5: T -> bool,
                       all: T -> bool)
    requires forall x :: all(x) == (p1(x) && p2(x) && p3(x) && p4(x) && p5(x))
    ensures Keep(Keep(Keep(Keep(Keep(s, p1), p2), p3), p4), p5) == Keep(s, all)
  {
    KeepTwice(s, p1, p2);
    KeepTwice(s, Both(p1, p2), p3);
    KeepTwice(s, Both(Both(p1, p2), p3), p4);
    KeepTwice(s, Both(Both(Both(p1, p2), p3), p4), p5);
    KeepAgrees(s, Both(Both(Both(Both(p1, p2), p3), p4), p5), all);
  }

  function WithLabels(f: Folding, items: seq<Alert>, wanted: seq<(string, string)>): seq<Alert> {
    Keep(items, Labelled(f, wanted))
  }

  /** Filtering by several labels is filtering by one after the other, in any order. */
  lemma LabelsFilterOneByOne(f: Folding, items: seq<Alert>, first: seq<(string, string)>, rest: seq<(string, string)>)
    ensures WithLabels(f, items, first + rest) == WithLabels(f, WithLabels(f, items, first), rest)
    ensures WithLabels(f, items, first + rest) == WithLabels(f, WithLabels(f, items, rest), first)
  {
    var p, q := Labelled(f, first), Labelled(f, rest);
    KeepTwice(items, p, q);
    KeepTwice(items, q, p);
    forall a ensures Labelled(f, first + rest)(a) == (p(a) && q(a)) {
      assert forall w :: w in first + rest <==> w in first || w in rest;
    }
    KeepAgrees(items, Labelled(f, first + rest), Both(p, q));
    KeepAgrees(items, Labelled(f, first + rest), Both(q, p));
  }

  /** An alert is listed under several labels exactly when it is listed under each of them. */
  lemma LabelsIntersect(f: Folding, items: seq<Alert>, wanted: seq<(string, string)>, a: Alert)
    requires wanted != []
    ensures a in WithLabels(f, items, wanted) <==> forall w <- wanted :: a in WithLabels(f, items, [w])
  {
    KeepMembers(items, Labelled(f, wanted));
    forall w <- wanted ensures a in WithLabels(f, items, [w]) <==> a in items && LabelMatches(f, a, w) {
      KeepMembers(items, Labelled(f, [w]));
    }
    assert wanted[0] in wanted;
  }

  // --- what is listed, field by field -----------------------------------------------------------

  /** The last label of the alert whose folded key is the wanted one has the wanted value, if any is wanted. */
  ghost predicate HasLabel(f: Folding, a: Alert, wanted: (string, string)) {
    exists i :: 0 <= i < |a.labels| && IsLastOf(f, a.labels, i, wanted.0)
                && (wanted.1 == "" || f.lower(a.labels[i].1) == wanted.1)
  }

  ghost predicate IsLastOf(f: Folding, labels: seq<(string, string)>, i: int, key: string) {
    0 <= i < |labels| && f.lower(labels[i].0) == key && forall j :: i < j < |labels| ==> f.lower(labels[j].0) != key
  }

  lemma {:induction false} FoldedIsLast(f: Folding, labels: seq<(string, string)>, key: string)
    ensures key in FoldedLabels(f, labels) <==> exists i :: IsLastOf(f, labels, i, key)
    ensures forall i :: IsLastOf(f, labels, i, key) ==>
              key in FoldedLabels(f, labels) && FoldedLabels(f, labels)[key] == f.lower(labels[i].1)
  {
    if labels != [] {
      var last := |labels| - 1;
      var init := labels[..last];
      FoldedIsLast(f, init, key);
      if f.lower(labels[last].0) == key {
        assert IsLastOf(f, labels, last, key);
        assert forall i :: IsLastOf(f, labels, i, key) ==> i == last;
      } else {
        assert forall i :: IsLastOf(f, labels, i, key) <==> IsLastOf(f, init, i, key);
      }
    }
  }

  lemma LabelByPosition(f: Folding, a: Alert, wanted: (string, string))
    ensures LabelMatches(f, a, wanted) <==> HasLabel(f, a, wanted)
  {
    FoldedIsLast(f, a.labels, wanted.0);
  }

  /** The folded text of the alert has the folded query somewhere in it. */
  ghost predicate Mentions(f: Folding, a: Alert, q: string) {
    exists before: string, after: string :: f.lower(a.blob) == before + f.lower(q) + after
  }

  lemma ContainsMeansParts(text: string, needle: string)
    ensures Contains(text, needle) <==> exists before: string, after: string :: text == before + needle + after
  {
    if Contains(text, needle) {
      var i :| 0 <= i <= |text| - |needle| && StartsAt(text, needle, i);
      assert text == text[..i] + needle + text[i + |needle|..];
    }
    if before: string, after: string :| text == before + needle + after {
      assert StartsAt(text, needle, |before|);
    }
  }

  /** A query lists exactly the alerts with one of its statuses and one of its severities, of its service,
      with all its labels and its text; a filter left empty does not restrict. */
  lemma ListedByField(f: Folding, alerts: seq<Alert>, query: Query, a: Alert)
    ensures a in Listed(f, alerts, query) <==>
              && a in alerts
              && (query.statuses == {} || a.status in query.statuses)
              && (query.severities == {} || f.upper(a.severity) in query.severities)
              && (query.service == "" || a.service == query.service)
              && (forall w <- query.labels :: HasLabel(f, a, w))
              && (query.q == "" || Mentions(f, a, query.q))
  {
    KeepMembers(NewestFirstOf(alerts), Matching(f, query));
    SortIsStable(alerts, ActivityAt(a));
    assert a in NewestFirstOf(alerts) <==> multiset(NewestFirstOf(alerts))[a] > 0;
    forall w <- query.labels ensures LabelMatches(f, a, w) <==> HasLabel(f, a, w) {
      LabelByPosition(f, a, w);
    }
    ContainsMeansParts(f.lower(a.blob), f.lower(query.q));
  }

  /** Listed alerts come in order of last_seen, or first_seen where that is missing, latest first. */
  lemma ListedByTime(f: Folding, alerts: seq<Alert>, query: Query, i: nat, j: nat)
    requires i < j < |Listed(f, alerts, query)|
    ensures var x, y := Listed(f, alerts, query)[i], Listed(f, alerts, query)[j];
            (if x.lastSeen == None then x.firstSeen else x.lastSeen.value)
            >= (if y.lastSeen == None then y.firstSeen else y.lastSeen.value)
  {
    ListingIsSortedAndComplete(f, alerts, query, Listed(f, alerts, query)[i]);
  }

  // --- paging ---------------------------------------------------------------------------------

  datatype Page<T> = Page(items: seq<T>, total: nat, page: int, pageSize: int) {
    function Pages(): nat {
      if pageSize <= 0 then 0
      else if total == 0 then 0
      else Max(1, (total + pageSize - 1) / pageSize)
    }

    predicate HasNext() {
      page * pageSize < total
    }
  }

  function Max(a: int, b: int): int {
    if a >= b then a else b
  }

  function Min(a: int, b: int): int {
    if a <= b then a else b
  }

  function Slice<T>(s: seq<T>, lo: nat, hi: nat): seq<T>
    requires lo <= hi
  {
    s[Min(lo, |s|)..Min(hi, |s|)]
  }

  function PageSize(asked: int): int {
    Min(200, Max(1, asked))
  }

  function ListPage<T>(items: seq<T>, page: int, pageSize: int): Page<T> {
    var p, size := Max(1, page), PageSize(pageSize);
    var start := (p - 1) * size;
    Page(Slice(items, start, start + size), |items|, p, size)
  }

  /** A page whose number is at least 1 is the slice between two multiples of the page size. */
  lemma PageIsASlice<T>(items: seq<T>, page: nat, pageSize: int)
    requires page >= 1
    ensures var p := ListPage(items, page, pageSize);
            && p.page == page && 1 <= p.pageSize == PageSize(pageSize) <= 200
            && p.items == Slice(items, (page - 1) * p.pageSize, page * p.pageSize)
  {
    var size := PageSize(pageSize);
    assert (page - 1) * size + size == page * size;
  }

  /** Page numbers below 1 mean 1, and page sizes are held between 1 and 200. */
  lemma PageNumbers<T>(items: seq<T>, asked: int, askedSize: int)
    ensures var p := ListPage(items, asked, askedSize);
            && p.page == (if asked < 1 then 1 else asked)
            && p.pageSize == (if askedSize < 1 then 1 else if askedSize > 200 then 200 else askedSize)
            && p.total == |items|
  {
  }

  /** Page p begins with item (p - 1) * size of the list and is full as long as the list lasts. */
  lemma PageByPosition<T>(items: seq<T>, asked: int, askedSize: int, start: nat)
    requires var p := ListPage(items, asked, askedSize); start == (p.page - 1) * p.pageSize
    ensures var p := ListPage(items, asked, askedSize);
            && |p.items| == (if start >= |items| then 0
                             else if start + p.pageSize > |items| then |items| - start else p.pageSize)
            && forall k :: 0 <= k < |p.items| ==> start + k < |items| && p.items[k] == items[start + k]
  {
    var p := ListPage(items, asked, askedSize);
    SliceByPosition(items, start, start + p.pageSize, p.pageSize);
  }

  lemma SliceByPosition<T>(items: seq<T>, start: nat, end: int, size: nat)
    requires end == start + size && size >= 1
    ensures var slice := Slice(items, start, end);
            && |slice| == (if start >= |items| then 0 else if start + size > |items| then |items| - start else size)
            && forall k :: 0 <= k < |slice| ==> start + k < |items| && slice[k] == items[start + k]
  {
  }

  lemma PagesBound(total: nat, size: nat, page: nat)
    requires size >= 1
    ensures page * size < total <==> page < (total + size - 1) / size
  {
    var pages := (total + size - 1) / size;
    assert pages * size <= total + size - 1 < pages * size + size;
    if page < pages {
      ProductGrows(page + 1, pages, size);
      assert (page + 1) * size == page * size + size;
    } else {
      ProductGrows(pages, page, size);
    }
  }

  lemma PagesAreEnough(total: nat, size: nat)
    requires size >= 1
    ensures total == 0 <==> (total + size - 1) / size == 0
  {
    PagesBound(total, size, 0);
  }

  /** There is a next page exactly when the page number is below the number of pages, and a page
      is empty exactly when its number is past the last one. */
  lemma NextExactlyBeforeTheLast<T>(items: seq<T>, asked: int, pageSize: int)
    ensures var p := ListPage(items, asked, pageSize);
            && (p.HasNext() <==> p.page < p.Pages())
            && (p.items == [] <==> p.page > p.Pages())
  {
    var p := ListPage(items, asked, pageSize);
    PageIsASlice(items, p.page, pageSize);
    NextOnThePage(p, p.pageSize);
    SliceIsEmpty(items, (p.page - 1) * p.pageSize, p.page * p.pageSize, p.pageSize);
  }

  lemma NextOnThePage<T>(p: Page<T>, size: nat)
    requires p.pageSize == size >= 1 && p.page >= 1
    ensures p.HasNext() <==> p.page < p.Pages()
    ensures (p.page - 1) * size >= p.total <==> p.page > p.Pages()
    ensures 0 <= (p.page - 1) * size && p.page * size == (p.page - 1) * size + size
  {
    PagesBound(p.total, size, p.page);
    PagesBound(p.total, size, p.page - 1);
    PagesAreEnough(p.total, size);
  }

  lemma SliceIsEmpty<T>(items: seq<T>, lo: nat, hi: nat, size: nat)
    requires hi == lo + size && size >= 1
    ensures Slice(items, lo, hi) == [] <==> lo >= |items|
  {
  }

  /** The items seen by asking for `page` and following `has_next`. */
  function Browse<T>(items: seq<T>, page: nat, pageSize: int): seq<T>
    requires page >= 1
    decreases |items| - page * PageSize(pageSize)
  {
    var p := ListPage(items, page, pageSize);
    PageIsASlice(items, page, pageSize);
    assert (page + 1) * p.pageSize == page * p.pageSize + p.pageSize;
    if p.HasNext() then p.items + Browse(items, page + 1, pageSize) else p.items
  }

  lemma SlicesJoin<T>(items: seq<T>, lo: nat, mid: nat)
    requires lo <= mid
    ensures Slice(items, lo, mid) + items[Min(mid, |items|)..] == items[Min(lo, |items|)..]
    ensures items[..Min(lo, |items|)] + Slice(items, lo, mid) == items[..Min(mid, |items|)]
  {
  }

  lemma {:induction false} BrowseFrom<T>(items: seq<T>, page: nat, pageSize: int, lo: nat, size: nat)
    requires page >= 1 && size == PageSize(pageSize) && lo == (page - 1) * size
    ensures Browse(items, page, pageSize) == items[Min(lo, |items|)..]
    decreases |items| - lo
  {
    var p := ListPage(items, page, pageSize);
    PageIsASlice(items, page, pageSize);
    assert page * size == lo + size;
    SlicesJoin(items, lo, lo + size);
    if p.HasNext() {
      BrowseFrom(items, page + 1, pageSize, lo + size, size);
    }
  }

  /** Following `has_next` from the first page shows every item once and in order. */
  lemma BrowsingShowsEverything<T>(items: seq<T>, pageSize: int)
    ensures Browse(items, 1, pageSize) == items
  {
    BrowseFrom(items, 1, pageSize, 0, PageSize(pageSize));
  }

  /** Pages 1 to `pages`, concatenated. */
  function FirstPages<T>(items: seq<T>, pages: nat, pageSize: int): seq<T> {
    if pages == 0 then [] else FirstPages(items, pages - 1, pageSize) + ListPage(items, pages, pageSize).items
  }

  lemma {:induction false} FirstPagesPrefix<T>(items: seq<T>, pages: nat, pageSize: int, size: nat, end: nat)
    requires size == PageSize(pageSize) && end == pages * size
    ensures FirstPages(items, pages, pageSize) == items[..Min(end, |items|)]
  {
    if pages > 0 {
      assert (pages - 1) * size == end - size;
      FirstPagesPrefix(items, pages - 1, pageSize, size, end - size);
      PageIsASlice(items, pages, pageSize);
      SlicesJoin(items, end - size, end);
    }
  }

  /** The advertised number of pages is just enough to hold the list. */
  lemma PagesPartitionTheList<T>(items: seq<T>, page: int, pageSize: int)
    ensures var pages := ListPage(items, page, pageSize).Pages();
            && FirstPages(items, pages, pageSize) == items
            && (pages > 0 ==> |FirstPages(items, pages - 1, pageSize)| < |items|)
  {
    var p := ListPage(items, page, pageSize);
    EnoughPages(p, p.pageSize);
    FirstPagesPrefix(items, p.Pages(), pageSize, p.pageSize, p.Pages() * p.pageSize);
    if p.Pages() > 0 {
      FirstPagesPrefix(items, p.Pages() - 1, pageSize, p.pageSize, (p.Pages() - 1) * p.pageSize);
    }
  }

  lemma EnoughPages<T>(p: Page<T>, size: nat)
    requires p.pageSize == size >= 1
    ensures p.Pages() * size >= p.total
    ensures p.Pages() > 0 ==> 0 <= (p.Pages() - 1) * size < p.total
  {
    PagesAreEnough(p.total, size);
    PagesBound(p.total, size, p.Pages());
    if p.Pages() > 0 {
      PagesBound(p.total, size, p.Pages() - 1);
    }
  }
}
