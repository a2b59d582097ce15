/**
 The in-memory metrics: a text key for each name and label set, and counters and histograms under
 those keys. The keys are canonical, and faithful as long as no delimiter occurs inside a part.
 */
module Metrics {
  import opened Common
  import opened Text
  import opened Sorting

  type Labels = map<string, string>

  /** `keys` lists the record's keys, each once, in the order the record happens to have. */
  ghost predicate Enumerates(keys: seq<string>, labels: Labels) {
    multiset(keys) == multiset(labels.Keys)
  }

  function Pair(labels: Labels, key: string): string {
    key + ['='] + (if key in labels then labels[key] else "undefined")
  }

  function Pairs(keys: seq<string>, labels: Labels): seq<string> {
    Map(key => Pair(labels, key), Sort(AtMost, keys))
  }

  function LabelKey(name: string, keys: seq<string>, labels: Labels): string {
    var labelPart := Join(Pairs(keys, labels), ',');
    if |labelPart| > 0 then name + ['{'] + labelPart + ['}'] else name
  }

  // --- Canonical and faithful ----------------------------------------------------------------------

  /** The order in which the record lists its labels does not matter. */
  lemma LabelOrderIrrelevant(name: string, keys: seq<string>, keys': seq<string>, labels: Labels)
    requires Enumerates(keys, labels) && Enumerates(keys', labels)
    ensures LabelKey(name, keys, labels) == LabelKey(name, keys', labels)
  {
    AtMostIsTotalOrder();
    SortIgnoresOrder(AtMost, keys, keys');
  }

  /** No part contains a delimiter that follows it. */
  predicate Plain(name: string, labels: Labels) {
    && '{' !in name
    && forall k :: k in labels ==> '=' !in k && ',' !in k && ',' !in labels[k]
  }

  lemma SortedKeys(keys: seq<string>, labels: Labels)
    requires Enumerates(keys, labels)
    ensures multiset(Sort(AtMost, keys)) == multiset(labels.Keys)
    ensures forall k :: k in Sort(AtMost, keys) <==> k in labels
    ensures labels != map[] ==> keys != [] && |Sort(AtMost, keys)| > 0
  {
    AtMostIsTotalOrder();
    SortSorts(AtMost, keys);
    forall k
      ensures k in Sort(AtMost, keys) <==> k in labels
    {
      assert k in Sort(AtMost, keys) <==> k in multiset(Sort(AtMost, keys));
      assert k in multiset(labels.Keys) <==> k in labels.Keys;
    }
    if labels != map[] {
      var k :| k in labels;
      assert k in multiset(keys);
    }
  }

  lemma PlainPairs(name: string, keys: seq<string>, labels: Labels)
    requires Plain(name, labels) && Enumerates(keys, labels)
    ensures Free(Pairs(keys, labels), ',')
    ensures Pairs(keys, labels) == [] <==> labels == map[]
    ensures Join(Pairs(keys, labels), ',') == "" <==> labels == map[]
  {
    var sorted, pairs := Sort(AtMost, keys), Pairs(keys, labels);
    SortedKeys(keys, labels);
    forall i | 0 <= i < |pairs|
      ensures ',' !in pairs[i]
    {
      assert sorted[i] in sorted;
      assert pairs[i] == sorted[i] + ['='] + labels[sorted[i]];
    }
    assert sorted != [] ==> sorted[0] in sorted;
    if pairs != [] {
      assert '=' in pairs[0];
    }
  }

  lemma PairCut(labels: Labels, k: string, labels': Labels, k': string)
    requires k in labels && k' in labels' && '=' !in k && '=' !in k'
    requires Pair(labels, k) == Pair(labels', k')
    ensures k == k' && labels[k] == labels'[k']
  {
    FirstCutUnique(k, labels[k], k', labels'[k'], '=');
  }

  lemma PairsCut(keys: seq<string>, labels: Labels, keys': seq<string>, labels': Labels)
    requires forall i :: 0 <= i < |keys| ==> keys[i] in labels && '=' !in keys[i]
    requires forall i :: 0 <= i < |keys'| ==> keys'[i] in labels' && '=' !in keys'[i]
    requires Map(key => Pair(labels, key), keys) == Map(key => Pair(labels', key), keys')
    ensures keys == keys' && forall i :: 0 <= i < |keys| ==> labels[keys[i]] == labels'[keys[i]]
  {
    var pairs, pairs' := Map(key => Pair(labels, key), keys), Map(key => Pair(labels', key), keys');
    assert |keys| == |pairs| == |pairs'| == |keys'|;
    forall i | 0 <= i < |keys|
      ensures keys[i] == keys'[i] && labels[keys[i]] == labels'[keys[i]]
    {
      assert pairs[i] == Pair(labels, keys[i]) && pairs'[i] == Pair(labels', keys'[i]);
      PairCut(labels, keys[i], labels', keys'[i]);
    }
  }

  lemma SortedPlain(name: string, keys: seq<string>, labels: Labels)
    requires Plain(name, labels) && Enumerates(keys, labels)
    ensures var sorted := Sort(AtMost, keys);
      && (forall i :: 0 <= i < |sorted| ==> sorted[i] in labels && '=' !in sorted[i])
      && (forall k :: k in labels <==> k in sorted)
  {
    var sorted := Sort(AtMost, keys);
    SortedKeys(keys, labels);
    forall i | 0 <= i < |sorted|
      ensures sorted[i] in labels
    {
      assert sorted[i] in sorted;
    }
  }

  lemma SameLabels(sorted: seq<string>, labels: Labels, labels': Labels)
    requires forall k :: k in labels <==> k in sorted
    requires forall k :: k in labels' <==> k in sorted
    requires forall i :: 0 <= i < |sorted| ==> labels[sorted[i]] == labels'[sorted[i]]
    ensures labels == labels'
  {
    assert labels.Keys == labels'.Keys;
    forall k | k in labels
      ensures labels[k] == labels'[k]
    {
      var i :| 0 <= i < |sorted| && sorted[i] == k;
    }
  }

  /** Equal sorted pairs are equal label sets. */
  lemma PairsInjective(name: string, keys: seq<string>, labels: Labels,
                       name': string, keys': seq<string>, labels': Labels)
    requires Plain(name, labels) && Enumerates(keys, labels)
    requires Plain(name', labels') && Enumerates(keys', labels')
    requires Pairs(keys, labels) == Pairs(keys', labels')
    ensures labels == labels'
  {
    var sorted := Sort(AtMost, keys);
    SortedPlain(name, keys, labels);
    SortedPlain(name', keys', labels');
    PairsCut(sorted, labels, Sort(AtMost, keys'), labels');
    SameLabels(sorted, labels, labels');
  }

  /** Without delimiters inside the parts, different names or label sets have different keys. */
  lemma LabelKeyInjective(name: string, keys: seq<string>, labels: Labels,
                          name': string, keys': seq<string>, labels': Labels)
    requires Plain(name, labels) && Enumerates(keys, labels)
    requires Plain(name', labels') && Enumerates(keys', labels')
    requires LabelKey(name, keys, labels) == LabelKey(name', keys', labels')
    ensures name == name' && labels == labels'
  {
    var part, part' := Join(Pairs(keys, labels), ','), Join(Pairs(keys', labels'), ',');
    PlainPairs(name, keys, labels);
    PlainPairs(name', keys', labels');
    if part != "" && part' != "" {
      BracesCut(name, part, name', part');
      JoinInjective(Pairs(keys, labels), Pairs(keys', labels'), ',');
      PairsInjective(name, keys, labels, name', keys', labels');
    } else if part != "" {
      BracesDiffer(name, part, name');
    } else if part' != "" {
      BracesDiffer(name', part', name);
    }
  }

  lemma BracesDiffer(name: string, part: string, plain: string)
    requires '{' !in plain
    ensures name + ['{'] + part + ['}'] != plain
  {
    assert (name + ['{'] + part + ['}'])[|name|] == '{';
  }

  lemma BracesCut(name: string, part: string, name': string, part': string)
    requires '{' !in name && '{' !in name'
    requires name + ['{'] + part + ['}'] == name' + ['{'] + part' + ['}']
    ensures name == name' && part == part'
  {
    assert name + ['{'] + part + ['}'] == name + ['{'] + (part + ['}']);
    assert name' + ['{'] + part' + ['}'] == name' + ['{'] + (part' + ['}']);
    FirstCutUnique(name, part + ['}'], name', part' + ['}'], '{');
    assert part == (part + ['}'])[..|part|] && part' == (part' + ['}'])[..|part'|];
  }

  // --- The service ---------------------------------------------------------------------------------

  /** A name with a record of labels. */
  datatype Series = Series(name: string, keys: seq<string>, labels: Labels) {
    function Key(): string {
      LabelKey(name, keys, labels)
    }

    ghost predicate Regular() {
      Plain(name, labels) && Enumerates(keys, labels)
    }

    predicate Is(other: Series) {
      name == other.name && labels == other.labels
    }
  }

  datatype Operation = Increment(series: Series, amount: real) | Observe(series: Series, value: real) | Reset

  datatype State = State(counters: map<string, real>, samples: map<string, seq<real>>)

  function Counter(s: State, key: string): real {
    if key in s.counters then s.counters[key] else 0.0
  }

  function Samples(s: State, key: string): seq<real> {
    if key in s.samples then s.samples[key] else []
  }

  function Next(s: State, op: Operation): State {
    match op
    case Increment(series, amount) => s.(counters := s.counters[series.Key() := Counter(s, series.Key()) + amount])
    case Observe(series, value) => s.(samples := s.samples[series.Key() := Samples(s, series.Key()) + [value]])
    case Reset => State(map[], map[])
  }

  function After(ops: seq<Operation>): State {
    if ops == [] then State(map[], map[]) else Next(After(ops[..|ops| - 1]), ops[|ops| - 1])
  }

  function Total(values: seq<real>): real {
    if values == [] then 0.0 else Total(values[..|values| - 1]) + values[|values| - 1]
  }

  datatype HistogramSnapshot = HistogramSnapshot(count: nat, sum: real, values: seq<real>)

  class MetricsService {
    var counters: map<string, real>
    var histogramSamples: map<string, seq<real>>

    function View(): State
      reads this
    {
      State(counters, histogramSamples)
    }

    constructor ()
      ensures View() == After([])
    {
      counters, histogramSamples := map[], map[];
    }

    method IncrementCounter(series: Series, amount: real)
      modifies this
      ensures View() == Next(old(View()), Increment(series, amount))
    {
      var key := series.Key();
      counters := counters[key := (if key in counters then counters[key] else 0.0) + amount];
    }

    method ObserveHistogram(series: Series, value: real)
      modifies this
      ensures View() == Next(old(View()), Observe(series, value))
    {
      var key := series.Key();
      var samples := if key in histogramSamples then histogramSamples[key] else [];
      samples := samples + [value];
      histogramSamples := histogramSamples[key := samples];
    }

    method ResetForTests()
      modifies this
      ensures View() == Next(old(View()), Reset)
    {
      counters, histogramSamples := map[], map[];
    }

    method GetHistogramSnapshot(series: Series) returns (snapshot: HistogramSnapshot)
      ensures snapshot.values == Samples(View(), series.Key())
      ensures snapshot.count == |snapshot.values| && snapshot.sum == Total(snapshot.values)
    {
      var values := Samples(View(), series.Key());
      var total, i := 0.0, 0;
      while i < |values|
        invariant 0 <= i <= |values|
        invariant total == Total(values[..i])
      {
        assert values[..i + 1][..i] == values[..i];
        total := total + values[i];
        i := i + 1;
      }
      assert values[..i] == values;
      snapshot := HistogramSnapshot(|values|, total, values);
    }
  }

  // --- Whole runs ----------------------------------------------------------------------------------

  /** What the operations since the last reset added to the series. */
  function Added(ops: seq<Operation>, series: Series): real {
    if ops == [] then 0.0
    else
      var before := Added(ops[..|ops| - 1], series);
      match ops[|ops| - 1]
      case Increment(other, amount) => if other.Is(series) then before + amount else before
      case Observe(_, _) => before
      case Reset => 0.0
  }

  /** What was observed on the series since the last reset, in order. */
  function Observed(ops: seq<Operation>, series: Series): seq<real> {
    if ops == [] then []
    else
      var before := Observed(ops[..|ops| - 1], series);
      match ops[|ops| - 1]
      case Increment(_, _) => before
      case Observe(other, value) => if other.Is(series) then before + [value] else before
      case Reset => []
  }

  ghost predicate RegularOperation(op: Operation) {
    op.Reset? || op.series.Regular()
  }

  lemma SameKey(a: Series, b: Series)
    requires a.Regular() && b.Regular()
    ensures a.Key() == b.Key() <==> a.Is(b)
  {
    if a.Key() == b.Key() {
      LabelKeyInjective(a.name, a.keys, a.labels, b.name, b.keys, b.labels);
    } else if a.Is(b) {
      LabelOrderIrrelevant(a.name, a.keys, b.keys, a.labels);
    }
  }

  /** The operations' keys tell `series` from every other one they touch. */
  ghost predicate ToldApart(ops: seq<Operation>, series: Series) {
    forall i :: 0 <= i < |ops| && !ops[i].Reset? ==>
      (ops[i].series.Key() == series.Key() <==> ops[i].series.Is(series))
  }

  lemma {:induction false} ReadersFollowKeys(ops: seq<Operation>, series: Series)
    requires ToldApart(ops, series)
    ensures Counter(After(ops), series.Key()) == Added(ops, series)
    ensures Samples(After(ops), series.Key()) == Observed(ops, series)
  {
    if ops == [] {
    } else {
      ReadersFollowKeys(ops[..|ops| - 1], series);
    }
  }

  /**
   After any operations, a counter is the sum of the increments for exactly its name and label set,
   and a histogram has exactly its observations in order.
   */
  lemma ReadersAreFaithful(ops: seq<Operation>, series: Series)
    requires series.Regular() && forall i :: 0 <= i < |ops| ==> RegularOperation(ops[i])
    ensures Counter(After(ops), series.Key()) == Added(ops, series)
    ensures Samples(After(ops), series.Key()) == Observed(ops, series)
  {
    forall i | 0 <= i < |ops| && !ops[i].Reset?
      ensures ops[i].series.Key() == series.Key() <==> ops[i].series.Is(series)
    {
      assert RegularOperation(ops[i]);
      SameKey(ops[i].series, series);
    }
    ReadersFollowKeys(ops, series);
  }
}
