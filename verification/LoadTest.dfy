/**
 The load driver: the round-robin over requests and actors, and the latency summary with its
 nearest-rank percentiles, over exact rationals.
 */
module LoadTest {
  import opened Common
  import opened Numbers
  import opened Rounds
  import opened Sorting
  import opened Sums

  // --- Percentiles ---------------------------------------------------------------------------------

  function Ceil(x: real): int {
    -(-x).Floor
  }

  /** How many samples `p` percent of `n` are, a rational. */
  function Share(n: nat, p: real): real {
    p / 100.0 * n as real
  }

  function Percentile(sortedSamples: seq<real>, p: real): real {
    if sortedSamples == [] then 0.0
    else
      var n := |sortedSamples|;
      var ceil := Ceil(Share(n, p)) - 1;
      var rank := if n - 1 < ceil then n - 1 else ceil;
      sortedSamples[if rank < 0 then 0 else rank]
  }

  predicate NoMore(a: real, b: real) {
    a <= b
  }

  lemma NoMoreIsTotalOrder()
    ensures TotalOrder(NoMore)
  {
  }

  function UpTo(v: real): real -> bool {
    x => x <= v
  }

  function Below(v: real): real -> bool {
    x => x < v
  }

  lemma ShareBounds(n: nat, p: real)
    requires n > 0 && 0.0 < p <= 100.0
    ensures 0.0 < Share(n, p) <= n as real
  {
    var f, m := p / 100.0, n as real;
    assert 0.0 < f <= 1.0 && m > 0.0;
    assert (1.0 - f) * m >= 0.0;
  }

  /** The rank is where the share of the samples is reached. */
  lemma RankReachesShare(n: nat, p: real) returns (k: nat)
    requires n > 0 && 0.0 < p <= 100.0
    ensures k < n && k as real < Share(n, p) <= (k + 1) as real
    ensures forall s: seq<real> :: |s| == n ==> Percentile(s, p) == s[k]
  {
    ShareBounds(n, p);
    k := Ceil(Share(n, p)) - 1;
  }

  /** What makes a value the `p`-th percentile of the samples, by nearest rank. */
  predicate IsPercentile(samples: seq<real>, p: real, v: real) {
    && Count(UpTo(v), samples) as real >= Share(|samples|, p)
    && Count(Below(v), samples) as real < Share(|samples|, p)
  }

  /**
   At least `p` percent of the samples are at most the result, fewer than `p` percent are strictly
   below it, and no other value has both properties.
   */
  lemma NearestRank(samples: seq<real>, p: real)
    requires samples != [] && 0.0 < p <= 100.0
    ensures var v := Percentile(Sort(NoMore, samples), p);
      && v in samples && IsPercentile(samples, p, v)
      && forall w :: IsPercentile(samples, p, w) ==> w == v
  {
    NoMoreIsTotalOrder();
    SortSorts(NoMore, samples);
    var sorted := Sort(NoMore, samples);
    var k := RankReachesShare(|samples|, p);
    var v := sorted[k];
    SortMembers(NoMore, samples, v);
    assert v in sorted;
    forall i | 0 <= i < |sorted|
      ensures i <= k ==> sorted[i] <= v
      ensures k <= i ==> v <= sorted[i]
    {
      assert i < k ==> NoMore(sorted[i], sorted[k]);
      assert k < i ==> NoMore(sorted[k], sorted[i]);
    }
    CountAtLeastPrefix(UpTo(v), sorted, k + 1);
    CountAtMostPrefix(Below(v), sorted, k);
    CountPermutation(UpTo(v), samples, sorted);
    CountPermutation(Below(v), samples, sorted);
    forall w | IsPercentile(samples, p, w)
      ensures w == v
    {
      PercentileUnique(samples, p, v, w);
    }
  }

  lemma PercentileUnique(samples: seq<real>, p: real, v: real, w: real)
    requires IsPercentile(samples, p, v) && IsPercentile(samples, p, w)
    ensures v == w
  {
    if v < w {
      CountMonotone(UpTo(v), Below(w), samples);
    } else if w < v {
      CountMonotone(UpTo(w), Below(v), samples);
    }
  }

  lemma ShareGrows(n: nat, p: real, q: real)
    requires p <= q
    ensures Share(n, p) <= Share(n, q)
  {
    var m := n as real;
    assert (q / 100.0 - p / 100.0) * m >= 0.0;
    assert (q / 100.0 - p / 100.0) * m == q / 100.0 * m - p / 100.0 * m;
  }

  lemma PercentilesGrow(sorted: seq<real>, p: real, q: real)
    requires Sorted(NoMore, sorted) && sorted != [] && 0.0 < p <= q <= 100.0
    ensures Percentile(sorted, p) <= Percentile(sorted, q) <= sorted[|sorted| - 1]
  {
    var j := RankReachesShare(|sorted|, p);
    var k := RankReachesShare(|sorted|, q);
    ShareGrows(|sorted|, p, q);
    assert j <= k;
    assert j < k ==> NoMore(sorted[j], sorted[k]);
    assert k < |sorted| - 1 ==> NoMore(sorted[k], sorted[|sorted| - 1]);
  }

  // --- The summary ---------------------------------------------------------------------------------

  datatype Outcome = Outcome(name: string, status: int, elapsedMs: real)

  datatype Row = Row(name: string, count: nat, p50: real, p95: real, p99: real, max: real,
                     errors: nat, errorRate: real, rateLimited: nat)

  predicate IsError(o: Outcome) {
    o.status == 0 || o.status >= 500
  }

  predicate IsRateLimited(o: Outcome) {
    o.status == 429
  }

  function Elapsed(o: Outcome): real {
    o.elapsedMs
  }

  function RowOf(name: string, entries: seq<Outcome>): Row {
    var latencies := Sort(NoMore, Map(Elapsed, entries));
    var errors := Count(IsError, entries);
    Row(name, |entries|, Percentile(latencies, 50.0), Percentile(latencies, 95.0), Percentile(latencies, 99.0),
        if latencies == [] then 0.0 else latencies[|latencies| - 1],
        errors, if |entries| > 0 then errors as real / |entries| as real else 0.0,
        Count(IsRateLimited, entries))
  }

  /** The results called `name`, in order. */
  function Bucket(results: seq<Outcome>, name: string): seq<Outcome> {
    if results == [] then []
    else Bucket(results[..|results| - 1], name) +
         (if results[|results| - 1].name == name then [results[|results| - 1]] else [])
  }

  /** The names in order of their first result. */
  function Names(results: seq<Outcome>): seq<string> {
    if results == [] then []
    else
      var front, last := Names(results[..|results| - 1]), results[|results| - 1].name;
      if last in front then front else front + [last]
  }

  lemma BucketAppend(results: seq<Outcome>, result: Outcome, name: string)
    ensures Bucket(results + [result], name)
         == Bucket(results, name) + (if result.name == name then [result] else [])
  {
    assert (results + [result])[..|results|] == results;
  }

  lemma NamesAppend(results: seq<Outcome>, result: Outcome)
    ensures Names(results + [result])
         == if result.name in Names(results) then Names(results) else Names(results) + [result.name]
  {
    assert (results + [result])[..|results|] == results;
  }

  type Buckets = map<string, seq<Outcome>>

  /** The names in insertion order, as a `Map` keeps its keys, and what is kept under each. */
  datatype Grouping = Grouping(names: seq<string>, byName: Buckets)

  function Add(g: Grouping, result: Outcome): Grouping {
    if result.name in g.byName
    then Grouping(g.names, g.byName[result.name := g.byName[result.name] + [result]])
    else Grouping(g.names + [result.name], g.byName[result.name := [result]])
  }

  function Group(results: seq<Outcome>): Grouping {
    if results == [] then Grouping([], map[]) else Add(Group(results[..|results| - 1]), results[|results| - 1])
  }

  ghost predicate Groups(g: Grouping, results: seq<Outcome>) {
    && g.names == Names(results)
    && (forall name :: name in g.byName <==> name in g.names)
    && (forall name :: Bucket(results, name) == if name in g.byName then g.byName[name] else [])
  }

  lemma BucketsAppend(results: seq<Outcome>, result: Outcome)
    ensures forall name :: Bucket(results + [result], name)
                        == Bucket(results, name) + (if result.name == name then [result] else [])
  {
    forall name
      ensures Bucket(results + [result], name)
           == Bucket(results, name) + (if result.name == name then [result] else [])
    {
      BucketAppend(results, result, name);
    }
  }

  lemma AddGroups(results: seq<Outcome>, result: Outcome, g: Grouping)
    requires Groups(g, results)
    ensures Groups(Add(g, result), results + [result])
  {
    NamesAppend(results, result);
    BucketsAppend(results, result);
  }

  lemma GroupAppend(results: seq<Outcome>, result: Outcome)
    ensures Group(results + [result]) == Add(Group(results), result)
  {
    assert (results + [result])[..|results|] == results;
  }

  lemma GroupsAppend(results: seq<Outcome>, result: Outcome)
    requires Groups(Group(results), results)
    ensures Groups(Group(results + [result]), results + [result])
  {
    GroupAppend(results, result);
    AddGroups(results, result, Group(results));
  }

  lemma GroupsEmpty()
    ensures Groups(Group([]), [])
  {
  }

  /** Grouping loses nothing: the buckets are the results by name. */
  lemma {:induction false} GroupGroups(results: seq<Outcome>)
    ensures Groups(Group(results), results)
  {
    if results == [] {
      GroupsEmpty();
    } else {
      var front, last := results[..|results| - 1], results[|results| - 1];
      assert front + [last] == results;
      GroupGroups(front);
      GroupsAppend(front, last);
    }
  }

  /** The first loop of the summary. */
  method FillBuckets(results: seq<Outcome>) returns (names: seq<string>, byName: Buckets)
    ensures Grouping(names, byName) == Group(results)
  {
    names, byName := [], map[];
    var i := 0;
    while i < |results|
      invariant 0 <= i <= |results|
      invariant Grouping(names, byName) == Group(results[..i])
    {
      var result := results[i];
      assert results[..i + 1][..i] == results[..i];
      if result.name in byName {
        byName := byName[result.name := byName[result.name] + [result]];
      } else {
        names := names + [result.name];
        byName := byName[result.name := [result]];
      }
      i := i + 1;
    }
    assert results[..i] == results;
  }

  /** The row of a name over all its results. */
  function Summary(results: seq<Outcome>): string -> Row {
    name => RowOf(name, Bucket(results, name))
  }

  lemma MapNext<T, U>(f: T -> U, s: seq<T>, n: nat)
    requires n < |s|
    ensures Map(f, s[..n + 1]) == Map(f, s[..n]) + [f(s[n])]
  {
  }

  /** One row for each name, over all results of that name, in order of first appearance. */
  method Summarise(results: seq<Outcome>) returns (rows: seq<Row>)
    ensures rows == Map(Summary(results), Names(results))
  {
    var names, byName := FillBuckets(results);
    GroupGroups(results);
    rows := [];
    var n := 0;
    while n < |names|
      invariant 0 <= n <= |names|
      invariant rows == Map(Summary(results), names[..n])
    {
      assert names[n] in names;
      rows := rows + [RowOf(names[n], byName[names[n]])];
      MapNext(Summary(results), names, n);
      n := n + 1;
    }
    assert names[..n] == names;
  }

  function Size(results: seq<Outcome>): string -> int {
    name => |Bucket(results, name)|
  }

  lemma {:induction false} SizesWithout(results: seq<Outcome>, result: Outcome, names: seq<string>)
    requires forall i, j :: 0 <= i < j < |names| ==> names[i] != names[j]
    ensures Sum(Size(results + [result]), names)
         == Sum(Size(results), names) + (if result.name in names then 1 else 0)
  {
    if names == [] {
    } else {
      var front, last := names[..|names| - 1], names[|names| - 1];
      SizesWithout(results, result, front);
      assert (results + [result])[..|results|] == results;
      assert names == front + [last];
    }
  }

  /** Every name with a result is listed, once. */
  lemma {:induction false} NamesListed(results: seq<Outcome>, name: string)
    ensures name in Names(results) <==> Bucket(results, name) != []
    ensures forall i, j :: 0 <= i < j < |Names(results)| ==> Names(results)[i] != Names(results)[j]
  {
    if results == [] {
    } else {
      NamesListed(results[..|results| - 1], name);
    }
  }

  lemma SizesListed(results: seq<Outcome>, result: Outcome, names: seq<string>)
    requires forall i, j :: 0 <= i < j < |names| ==> names[i] != names[j]
    requires Sum(Size(results), names) == |results| && result.name in names
    ensures Sum(Size(results + [result]), names) == |results| + 1
  {
    SizesWithout(results, result, names);
  }

  lemma SizesUnlisted(results: seq<Outcome>, result: Outcome, names: seq<string>)
    requires forall i, j :: 0 <= i < j < |names| ==> names[i] != names[j]
    requires Sum(Size(results), names) == |results| && result.name !in names
    requires Bucket(results, result.name) == []
    ensures Sum(Size(results + [result]), names + [result.name]) == |results| + 1
  {
    SizesWithout(results, result, names);
    BucketAppend(results, result, result.name);
    SumAppend(Size(results + [result]), names, result.name);
  }

  lemma SizesAppend(results: seq<Outcome>, result: Outcome)
    requires Sum(Size(results), Names(results)) == |results|
    ensures Sum(Size(results + [result]), Names(results + [result])) == |results| + 1
  {
    var names := Names(results);
    NamesListed(results, result.name);
    NamesAppend(results, result);
    if result.name in names {
      SizesListed(results, result, names);
    } else {
      SizesUnlisted(results, result, names);
    }
  }

  lemma {:induction false} SizesPartition(results: seq<Outcome>)
    ensures Sum(Size(results), Names(results)) == |results|
  {
    if results == [] {
    } else {
      SizesPartition(results[..|results| - 1]);
      SizesAppend(results[..|results| - 1], results[|results| - 1]);
      assert results == results[..|results| - 1] + [results[|results| - 1]];
    }
  }

  function CountOf(row: Row): int {
    row.count
  }

  lemma {:induction false} CountsAreSizes(results: seq<Outcome>, names: seq<string>)
    ensures Sum(CountOf, Map(Summary(results), names)) == Sum(Size(results), names)
  {
    if names == [] {
    } else {
      var n := |names| - 1;
      CountsAreSizes(results, names[..n]);
      assert Map(Summary(results), names)[..n] == Map(Summary(results), names[..n]);
    }
  }

  /**
   The rows partition the results: there is one for each name that has results, and the counts add
   up to the number of results.
   */
  lemma RowsPartition(results: seq<Outcome>, name: string)
    ensures var rows := Map(Summary(results), Names(results));
      && Sum(CountOf, rows) == |results|
      && (forall i, j :: 0 <= i < j < |rows| ==> rows[i].name != rows[j].name)
      && ((exists i :: 0 <= i < |rows| && rows[i].name == name) <==> Bucket(results, name) != [])
  {
    var names := Names(results);
    CountsAreSizes(results, names);
    SizesPartition(results);
    NamesListed(results, name);
    assert forall i :: 0 <= i < |names| ==> Map(Summary(results), names)[i].name == names[i];
  }

  /** The places of the results with no answer or a server's error, and of those that were limited. */
  function ErrorPlaces(entries: seq<Outcome>): set<nat> {
    set i: nat | i < |entries| && (entries[i].status == 0 || entries[i].status >= 500)
  }

  function LimitedPlaces(entries: seq<Outcome>): set<nat> {
    set i: nat | i < |entries| && entries[i].status == 429
  }

  lemma CountsAreExact(entries: seq<Outcome>)
    ensures Count(IsError, entries) == |ErrorPlaces(entries)|
    ensures Count(IsRateLimited, entries) == |LimitedPlaces(entries)|
  {
    CountIsSize(IsError, entries);
    CountIsSize(IsRateLimited, entries);
    assert ErrorPlaces(entries) == Places(IsError, entries);
    assert LimitedPlaces(entries) == Places(IsRateLimited, entries);
  }

  lemma RowFields(name: string, entries: seq<Outcome>)
    requires entries != []
    ensures var r := RowOf(name, entries);
      && r.name == name && r.count == |entries|
      && r.errors == Count(IsError, entries) && r.rateLimited == Count(IsRateLimited, entries)
      && r.errorRate == r.errors as real / r.count as real
  {
  }

  lemma RowCounts(name: string, entries: seq<Outcome>)
    requires entries != []
    ensures var r := RowOf(name, entries);
      && r.name == name && r.count == |entries|
      && r.errors == |ErrorPlaces(entries)| && r.rateLimited == |LimitedPlaces(entries)|
      && r.errors + r.rateLimited <= r.count
      && r.errorRate == r.errors as real / r.count as real && 0.0 <= r.errorRate <= 1.0
  {
    RowFields(name, entries);
    CountsAreExact(entries);
    ErrorsAreNotRateLimits(entries);
    ErrorRateBounds(Count(IsError, entries), |entries|);
  }

  predicate IsMax(samples: seq<real>, v: real) {
    v in samples && forall i :: 0 <= i < |samples| ==> samples[i] <= v
  }

  lemma LastIsMax(samples: seq<real>)
    requires samples != []
    ensures var sorted := Sort(NoMore, samples);
      |sorted| == |samples| && IsMax(samples, sorted[|sorted| - 1])
  {
    var sorted := Sort(NoMore, samples);
    NoMoreIsTotalOrder();
    SortSorts(NoMore, samples);
    var v := sorted[|sorted| - 1];
    SortMembers(NoMore, samples, v);
    assert v in sorted;
    forall i | 0 <= i < |samples|
      ensures samples[i] <= v
    {
      SortMembers(NoMore, samples, samples[i]);
      assert samples[i] in samples;
      var k :| 0 <= k < |sorted| && sorted[k] == samples[i];
      assert k < |sorted| - 1 ==> NoMore(sorted[k], v);
    }
  }

  predicate PercentilesOrdered(sorted: seq<real>) {
    && sorted != []
    && Percentile(sorted, 50.0) <= Percentile(sorted, 95.0) <= Percentile(sorted, 99.0) <= sorted[|sorted| - 1]
  }

  lemma SortedPercentiles(sorted: seq<real>)
    requires Sorted(NoMore, sorted) && sorted != []
    ensures PercentilesOrdered(sorted)
  {
    PercentilesGrow(sorted, 50.0, 95.0);
    PercentilesGrow(sorted, 95.0, 99.0);
  }

  lemma RowPercentiles(samples: seq<real>)
    requires samples != []
    ensures PercentilesOrdered(Sort(NoMore, samples))
  {
    NoMoreIsTotalOrder();
    SortSorts(NoMore, samples);
    SortedPercentiles(Sort(NoMore, samples));
  }

  /** In every row the percentiles are ordered, the maximum is one, and the counts are those of its results. */
  lemma RowIsOrdered(name: string, entries: seq<Outcome>)
    requires entries != []
    ensures var r := RowOf(name, entries);
      && r.name == name && r.count == |entries|
      && r.errors == |ErrorPlaces(entries)| && r.rateLimited == |LimitedPlaces(entries)|
      && r.errors + r.rateLimited <= r.count
      && r.errorRate == r.errors as real / r.count as real && 0.0 <= r.errorRate <= 1.0
      && IsMax(Map(Elapsed, entries), r.max)
      && r.p50 <= r.p95 <= r.p99 <= r.max
      && IsPercentile(Map(Elapsed, entries), 50.0, r.p50)
      && IsPercentile(Map(Elapsed, entries), 95.0, r.p95)
      && IsPercentile(Map(Elapsed, entries), 99.0, r.p99)
  {
    var elapsed := Map(Elapsed, entries);
    RowCounts(name, entries);
    RowPercentiles(elapsed);
    LastIsMax(elapsed);
    NearestRank(elapsed, 50.0);
    NearestRank(elapsed, 95.0);
    NearestRank(elapsed, 99.0);
  }

  lemma {:induction false} ErrorsAreNotRateLimits(entries: seq<Outcome>)
    ensures Count(IsError, entries) + Count(IsRateLimited, entries) <= |entries|
  {
    if entries == [] {
    } else {
      ErrorsAreNotRateLimits(entries[..|entries| - 1]);
    }
  }

  lemma ErrorRateBounds(errors: nat, n: nat)
    requires n > 0 && errors <= n
    ensures 0.0 <= errors as real / n as real <= 1.0
  {
  }

  // --- Round robin ---------------------------------------------------------------------------------

  datatype Request = Request(name: string, path: string, authenticated: bool)

  const BOOTSTRAP: Request := Request("bootstrap", "/me/bootstrap", true)
  const CAMPAIGNS: Request := Request("campaigns_list", "/campaigns?page=1&pageSize=20", true)
  const USERS: Request := Request("users_list", "/users?page=1&pageSize=20", true)
  const HEALTH: Request := Request("health", "/health", false)

  function BuildWorkload(name: string): (requests: seq<Request>)
    ensures requests != []
  {
    if name == "bootstrap-only" then [BOOTSTRAP]
    else [BOOTSTRAP, BOOTSTRAP, BOOTSTRAP, CAMPAIGNS, CAMPAIGNS, USERS, HEALTH]
  }

  /** One send: the workload slot it came from, and the actor whose cookie it carried. */
  datatype Sent = Sent(slot: nat, actor: Option<nat>)

  /** The authenticated ones among the first `n` sends. */
  function Authenticated(requests: seq<Request>, n: nat): nat
    requires requests != []
  {
    if n == 0 then 0
    else Authenticated(requests, n - 1) + (if requests[(n - 1) % |requests|].authenticated then 1 else 0)
  }

  function SendAt(requests: seq<Request>, actors: nat, i: nat): Sent
    requires requests != []
  {
    var slot := i % |requests|;
    Sent(slot, if requests[slot].authenticated && actors > 0
               then Some(Authenticated(requests, i) % actors) else None)
  }

  /** The first `n` sends of a phase. */
  function Sends(requests: seq<Request>, actors: nat, n: nat): seq<Sent>
    requires requests != []
  {
    if n == 0 then [] else Sends(requests, actors, n - 1) + [SendAt(requests, actors, n - 1)]
  }

  method RunPhase(requests: seq<Request>, actors: nat, total: nat) returns (sends: seq<Sent>)
    requires requests != []
    ensures sends == Sends(requests, actors, total)
  {
    sends := [];
    var actorCursor := 0;
    for i := 0 to total
      invariant actors > 0 ==> actorCursor == Authenticated(requests, i)
      invariant sends == Sends(requests, actors, i)
    {
      var spec := requests[i % |requests|];
      var actor: Option<nat> := None;
      if spec.authenticated && actors > 0 {
        actor := Some(actorCursor % actors);
        actorCursor := actorCursor + 1;
      }
      sends := sends + [Sent(i % |requests|, actor)];
    }
  }

  function InSlot(slot: nat): Sent -> bool {
    (s: Sent) => s.slot == slot
  }

  function ByActor(actor: nat): Sent -> bool {
    (s: Sent) => s.actor == Some(actor)
  }

  lemma {:induction false} SendsBySlot(requests: seq<Request>, actors: nat, n: nat, slot: nat)
    requires requests != []
    ensures Count(InSlot(slot), Sends(requests, actors, n)) == Turns(n, |requests|, slot)
  {
    if n == 0 {
    } else {
      SendsBySlot(requests, actors, n - 1, slot);
      CountAppend(InSlot(slot), Sends(requests, actors, n - 1), SendAt(requests, actors, n - 1));
    }
  }

  /** One more send is one more turn of the actor whose cursor value it is, and of no other. */
  lemma SendIsTurn(requests: seq<Request>, actors: nat, n: nat, actor: nat)
    requires requests != [] && actors > 0
    ensures Turns(Authenticated(requests, n + 1), actors, actor)
         == Turns(Authenticated(requests, n), actors, actor)
            + (if SendAt(requests, actors, n).actor == Some(actor) then 1 else 0)
  {
    var auth, next := Authenticated(requests, n), Authenticated(requests, n + 1);
    if requests[n % |requests|].authenticated {
      assert next == auth + 1;
      assert SendAt(requests, actors, n).actor == Some(auth % actors);
    } else {
      assert next == auth;
      assert SendAt(requests, actors, n).actor == None;
    }
  }

  lemma {:induction false} SendsByActor(requests: seq<Request>, actors: nat, n: nat, actor: nat)
    requires requests != [] && actors > 0
    ensures Count(ByActor(actor), Sends(requests, actors, n)) == Turns(Authenticated(requests, n), actors, actor)
  {
    if n == 0 {
    } else {
      var sent := SendAt(requests, actors, n - 1);
      SendsByActor(requests, actors, n - 1, actor);
      CountAppend(ByActor(actor), Sends(requests, actors, n - 1), sent);
      assert ByActor(actor)(sent) == (sent.actor == Some(actor));
      SendIsTurn(requests, actors, n - 1, actor);
    }
  }

  /**
   After any number of sends, each slot of the workload has been used its share, rounded down or up,
   and each actor has sent the share of the authenticated requests, rounded down or up: so any two
   actors differ by at most one.
   */
  lemma RoundRobinBalance(requests: seq<Request>, actors: nat, n: nat, slot: nat, actor: nat, other: nat)
    requires slot < |requests| && actor < actors && other < actors
    ensures var sends := Sends(requests, actors, n);
      var auth := Authenticated(requests, n);
      && n / |requests| <= Count(InSlot(slot), sends) <= CeilDiv(n, |requests|)
      && auth / actors <= Count(ByActor(actor), sends) <= CeilDiv(auth, actors)
      && -1 <= Count(ByActor(actor), sends) - Count(ByActor(other), sends) <= 1
  {
    var auth := Authenticated(requests, n);
    SendsBySlot(requests, actors, n, slot);
    TurnsShare(n, |requests|, slot);
    SendsByActor(requests, actors, n, actor);
    TurnsShare(auth, actors, actor);
    SendsByActor(requests, actors, n, other);
    TurnsShare(auth, actors, other);
  }

  lemma {:induction false} MixedTurns(n: nat)
    ensures Authenticated(BuildWorkload("mixed"), n) + Turns(n, 7, 6) == n
  {
    if n == 0 {
    } else {
      MixedTurns(n - 1);
    }
  }

  /**
   The mixed workload's rare request: of any `n` sends exactly every seventh is the unauthenticated
   health check, and the rest is shared by the actors.
   */
  lemma MixedWorkload(actors: nat, n: nat, actor: nat)
    requires actor < actors
    ensures var requests := BuildWorkload("mixed");
      && Count(InSlot(6), Sends(requests, actors, n)) == n / 7 && requests[6] == HEALTH
      && Authenticated(requests, n) == n - n / 7
      && Count(ByActor(actor), Sends(requests, actors, n)) <= CeilDiv(n - n / 7, actors)
  {
    var requests := BuildWorkload("mixed");
    MixedTurns(n);
    TurnsShare(n, 7, 6);
    SendsBySlot(requests, actors, n, 6);
    RoundRobinBalance(requests, actors, n, 6, actor, actor);
  }

  // --- What is requested how often -----------------------------------------------------------------

  function HasPath(path: string): Request -> bool {
    (request: Request) => request.path == path
  }

  function ToPath(requests: seq<Request>, path: string): Sent -> bool {
    (sent: Sent) => sent.slot < |requests| && requests[sent.slot].path == path
  }

  /** `q` times `m`, by rounds. */
  function Rounded(q: nat, m: nat): nat {
    if q == 0 then 0 else Rounded(q - 1, m) + m
  }

  lemma {:induction false} RoundedIsProduct(q: nat, m: nat)
    ensures Rounded(q, m) == q * m
  {
    if q > 0 {
      RoundedIsProduct(q - 1, m);
      MulDistributes(q - 1, 1, m);
    }
  }

  /** After `q` whole rounds and `k` slots more the path was requested as often as these list it. */
  ghost predicate PathCounted(requests: seq<Request>, actors: nat, q: nat, k: nat, path: string)
    requires requests != [] && k <= |requests|
  {
    Count(ToPath(requests, path), Sends(requests, actors, Rounded(q, |requests|) + k))
    == Rounded(q, Count(HasPath(path), requests)) + Count(HasPath(path), requests[..k])
  }

  lemma SlotInRound(requests: seq<Request>, q: nat, k: nat)
    requires k < |requests|
    ensures (Rounded(q, |requests|) + k) % |requests| == k
  {
    RoundedIsProduct(q, |requests|);
    DivModUnique(q, k, |requests|);
  }

  lemma OneSendMore(requests: seq<Request>, actors: nat, n: nat, k: nat, path: string)
    requires k < |requests| && n % |requests| == k
    ensures Count(ToPath(requests, path), Sends(requests, actors, n + 1))
         == Count(ToPath(requests, path), Sends(requests, actors, n)) + (if requests[k].path == path then 1 else 0)
  {
    CountAppend(ToPath(requests, path), Sends(requests, actors, n), SendAt(requests, actors, n));
  }

  lemma OneSlotMore(requests: seq<Request>, k: nat, path: string)
    requires k < |requests|
    ensures Count(HasPath(path), requests[..k + 1])
         == Count(HasPath(path), requests[..k]) + (if requests[k].path == path then 1 else 0)
  {
    assert requests[..k + 1] == requests[..k] + [requests[k]];
    CountAppend(HasPath(path), requests[..k], requests[k]);
  }

  lemma PathNext(requests: seq<Request>, actors: nat, q: nat, k: nat, path: string)
    requires k < |requests| && PathCounted(requests, actors, q, k, path)
    ensures PathCounted(requests, actors, q, k + 1, path)
  {
    SlotInRound(requests, q, k);
    OneSendMore(requests, actors, Rounded(q, |requests|) + k, k, path);
    OneSlotMore(requests, k, path);
  }

  lemma PathRound(requests: seq<Request>, actors: nat, q: nat, path: string)
    requires requests != [] && PathCounted(requests, actors, q, |requests|, path)
    ensures PathCounted(requests, actors, q + 1, 0, path)
  {
    assert requests[..|requests|] == requests && requests[..0] == [];
  }

  lemma PathStart(requests: seq<Request>, actors: nat, path: string)
    requires requests != []
    ensures PathCounted(requests, actors, 0, 0, path)
  {
    assert requests[..0] == [];
  }

  lemma {:induction false} PathInRounds(requests: seq<Request>, actors: nat, q: nat, k: nat, path: string)
    requires requests != [] && k <= |requests|
    ensures PathCounted(requests, actors, q, k, path)
    decreases q, k
  {
    if k > 0 {
      PathInRounds(requests, actors, q, k - 1, path);
      PathNext(requests, actors, q, k - 1, path);
    } else if q > 0 {
      PathInRounds(requests, actors, q - 1, |requests|, path);
      PathRound(requests, actors, q - 1, path);
    } else {
      PathStart(requests, actors, path);
    }
  }

  /** In any number of whole rounds each path is requested as often as the workload lists it, each time. */
  lemma PathShares(requests: seq<Request>, actors: nat, n: nat, q: nat, path: string)
    requires requests != [] && n == q * |requests|
    ensures Count(ToPath(requests, path), Sends(requests, actors, n)) == q * Count(HasPath(path), requests)
  {
    PathInRounds(requests, actors, q, 0, path);
    RoundedIsProduct(q, |requests|);
    RoundedIsProduct(q, Count(HasPath(path), requests));
    assert requests[..0] == [];
  }

  lemma CountTwice(test: Request -> bool, front: seq<Request>, a: Request, b: Request)
    ensures Count(test, front + [a, b]) == Count(test, front) + (if test(a) then 1 else 0) + (if test(b) then 1 else 0)
  {
    assert front + [a, b] == front + [a] + [b];
    CountAppend(test, front, a);
    CountAppend(test, front + [a], b);
  }

  /** The mixed workload lists the bootstrap three times, the campaigns twice, users and health once. */
  lemma MixedPaths(path: string)
    ensures Count(HasPath(path), BuildWorkload("mixed")) ==
      if path == "/me/bootstrap" then 3
      else if path == "/campaigns?page=1&pageSize=20" then 2
      else if path == "/users?page=1&pageSize=20" || path == "/health" then 1 else 0
  {
    var test := HasPath(path);
    CountTwice(test, [BOOTSTRAP], BOOTSTRAP, BOOTSTRAP);
    CountTwice(test, [BOOTSTRAP] + [BOOTSTRAP, BOOTSTRAP], CAMPAIGNS, CAMPAIGNS);
    CountTwice(test, [BOOTSTRAP] + [BOOTSTRAP, BOOTSTRAP] + [CAMPAIGNS, CAMPAIGNS], USERS, HEALTH);
    CountAppend(test, [], BOOTSTRAP);
    assert [] + [BOOTSTRAP] == [BOOTSTRAP];
    assert BuildWorkload("mixed")
        == [BOOTSTRAP] + [BOOTSTRAP, BOOTSTRAP] + [CAMPAIGNS, CAMPAIGNS] + [USERS, HEALTH];
    PathsDiffer();
  }

  lemma PathsDiffer()
    ensures |BOOTSTRAP.path| == 13 && |CAMPAIGNS.path| == 29 && |USERS.path| == 25 && |HEALTH.path| == 7
  {
  }
}
