/**
 The series the metrics service really writes, one constructor for each public writer. Label values
 are free text, so two label sets can share a key; this says exactly when.
 */
module ServiceMetrics {
  import opened Text
  import opened Sorting
  import opened Metrics

  datatype Metric =
    | ActivitiesIngested(transport: string)
    | ActivityLogsFanout
    | TrackerComponentsCompleted(campaignCode: string)
    | RewardsCreated(campaignCode: string, rewardCategory: string)
    | BudgetBreach(campaignCode: string, capType: string)
    | DedupHits
    | RewardDispatchTier(tier: string)
    | ActivityProcessingDuration

  function NameOf(m: Metric): string {
    match m
    case ActivitiesIngested(_) => "activities_ingested_total"
    case ActivityLogsFanout => "activity_logs_fanout_total"
    case TrackerComponentsCompleted(_) => "tracker_components_completed_total"
    case RewardsCreated(_, _) => "rewards_created_total"
    case BudgetBreach(_, _) => "budget_breach_total"
    case DedupHits => "dedup_hits_total"
    case RewardDispatchTier(_) => "reward_dispatch_tier_total"
    case ActivityProcessingDuration => "activity_processing_duration_seconds"
  }

  /** The label keys, in the order the writer's record lists them. */
  function KeysOf(m: Metric): seq<string> {
    match m
    case ActivitiesIngested(_) => ["transport"]
    case TrackerComponentsCompleted(_) => ["campaign_code"]
    case RewardsCreated(_, _) => ["campaign_code", "reward_category"]
    case BudgetBreach(_, _) => ["campaign_code", "cap_type"]
    case RewardDispatchTier(_) => ["tier"]
    case _ => []
  }

  function LabelsOf(m: Metric): Labels {
    match m
    case ActivitiesIngested(transport) => map["transport" := transport]
    case TrackerComponentsCompleted(campaignCode) => map["campaign_code" := campaignCode]
    case RewardsCreated(campaignCode, rewardCategory) =>
      map["campaign_code" := campaignCode, "reward_category" := rewardCategory]
    case BudgetBreach(campaignCode, capType) =>
      map["campaign_code" := campaignCode, "cap_type" := capType]
    case RewardDispatchTier(tier) => map["tier" := tier]
    case _ => map[]
  }

  function SeriesOf(m: Metric): Series {
    Series(NameOf(m), KeysOf(m), LabelsOf(m))
  }

  // --- The keys as texts ---------------------------------------------------------------------------

  /** What stands between the two label values of a metric that has two. */
  function Separator(second: string): string {
    [','] + second + ['=']
  }

  lemma SortOne(a: string)
    ensures Sort(AtMost, [a]) == [a]
  {
    assert [a][1..] == [];
  }

  lemma SortPair(a: string, b: string)
    requires AtMost(a, b)
    ensures Sort(AtMost, [a, b]) == [a, b]
  {
    assert [a, b][1..] == [b];
    SortOne(b);
  }

  lemma JoinPair(a: string, b: string)
    ensures Join([a, b], ',') == a + [','] + b
  {
    assert [a, b][1..] == [b];
  }

  lemma OneLabel(key: string, labels: Labels)
    requires key in labels
    ensures Join(Pairs([key], labels), ',') == key + ['='] + labels[key]
  {
    SortOne(key);
    assert Pairs([key], labels) == [Pair(labels, key)];
  }

  lemma TwoLabels(first: string, second: string, labels: Labels)
    requires first in labels && second in labels && AtMost(first, second)
    ensures Join(Pairs([first, second], labels), ',')
         == first + ['='] + (labels[first] + Separator(second) + labels[second])
  {
    SortPair(first, second);
    assert Pairs([first, second], labels) == [Pair(labels, first), Pair(labels, second)];
    JoinPair(Pair(labels, first), Pair(labels, second));
    TwoLabelText(first, labels[first], second, labels[second]);
  }

  lemma TwoLabelText(first: string, v: string, second: string, w: string)
    ensures first + ['='] + v + [','] + (second + ['='] + w) == first + ['='] + (v + Separator(second) + w)
  {
  }

  lemma CampaignCodeComesFirst()
    ensures AtMost("campaign_code", "reward_category") && AtMost("campaign_code", "cap_type")
  {
    assert "campaign_code"[1..] == "ampaign_code" && "cap_type"[1..] == "ap_type";
    assert "ampaign_code"[1..] == "mpaign_code" && "ap_type"[1..] == "p_type";
    assert AtMost("mpaign_code", "p_type");
    assert AtMost("ampaign_code", "ap_type");
  }

  /** The label part of the key, "" without labels. */
  function PartOf(m: Metric): string {
    match m
    case ActivitiesIngested(transport) => "transport" + ['='] + transport
    case TrackerComponentsCompleted(campaignCode) => "campaign_code" + ['='] + campaignCode
    case RewardsCreated(campaignCode, rewardCategory) =>
      "campaign_code" + ['='] + (campaignCode + Separator("reward_category") + rewardCategory)
    case BudgetBreach(campaignCode, capType) =>
      "campaign_code" + ['='] + (campaignCode + Separator("cap_type") + capType)
    case RewardDispatchTier(tier) => "tier" + ['='] + tier
    case _ => ""
  }

  lemma PartOfKey(m: Metric)
    ensures Join(Pairs(KeysOf(m), LabelsOf(m)), ',') == PartOf(m)
  {
    var keys, labels := KeysOf(m), LabelsOf(m);
    CampaignCodeComesFirst();
    match m
    case ActivitiesIngested(_) => OneLabel("transport", labels);
    case TrackerComponentsCompleted(_) => OneLabel("campaign_code", labels);
    case RewardsCreated(_, _) => TwoLabels("campaign_code", "reward_category", labels);
    case BudgetBreach(_, _) => TwoLabels("campaign_code", "cap_type", labels);
    case RewardDispatchTier(_) => OneLabel("tier", labels);
    case _ =>
  }

  lemma CampaignNamesHaveNoBrace()
    ensures '{' !in "tracker_components_completed_total" && '{' !in "rewards_created_total"
    ensures '{' !in "budget_breach_total"
  {
  }

  lemma ActivityNamesHaveNoBrace()
    ensures '{' !in "activities_ingested_total" && '{' !in "activity_logs_fanout_total"
    ensures '{' !in "activity_processing_duration_seconds"
  {
  }

  lemma NamesHaveNoBrace(m: Metric)
    ensures '{' !in NameOf(m)
  {
    CampaignNamesHaveNoBrace();
    ActivityNamesHaveNoBrace();
    match m
    case DedupHits => assert '{' !in "dedup_hits_total";
    case RewardDispatchTier(_) => assert '{' !in "reward_dispatch_tier_total";
    case _ =>
  }

  /** Names tell the metrics apart, whatever their labels. */
  lemma NamesDiffer(m: Metric, m': Metric)
    requires NameOf(m) == NameOf(m')
    ensures KeysOf(m) == KeysOf(m') && Shape(m) == Shape(m')
  {
    assert |NameOf(m)| == |NameOf(m')| && NameOf(m)[0] == NameOf(m')[0];
  }

  /** Which of the writers it is. */
  function Shape(m: Metric): nat {
    match m
    case ActivitiesIngested(_) => 0
    case ActivityLogsFanout => 1
    case TrackerComponentsCompleted(_) => 2
    case RewardsCreated(_, _) => 3
    case BudgetBreach(_, _) => 4
    case DedupHits => 5
    case RewardDispatchTier(_) => 6
    case ActivityProcessingDuration => 7
  }

  /** Keys are equal when names and label parts are. */
  lemma KeyParts(m: Metric, m': Metric)
    ensures SeriesOf(m).Key() == SeriesOf(m').Key() <==> NameOf(m) == NameOf(m') && PartOf(m) == PartOf(m')
  {
    PartOfKey(m);
    PartOfKey(m');
    NamesHaveNoBrace(m);
    NamesHaveNoBrace(m');
    KeyTextParts(NameOf(m), PartOf(m), NameOf(m'), PartOf(m'));
  }

  function KeyText(name: string, part: string): string {
    if |part| > 0 then name + ['{'] + part + ['}'] else name
  }

  lemma KeyTextParts(name: string, part: string, name': string, part': string)
    requires '{' !in name && '{' !in name'
    ensures KeyText(name, part) == KeyText(name', part') <==> name == name' && part == part'
  {
    if part != "" && part' != "" {
      if KeyText(name, part) == KeyText(name', part') {
        BracesCut(name, part, name', part');
      }
    } else if part != "" {
      BracesDiffer(name, part, name');
    } else if part' != "" {
      BracesDiffer(name', part', name);
    }
  }

  lemma KeyIsText(m: Metric)
    ensures SeriesOf(m).Key() == KeyText(NameOf(m), PartOf(m))
  {
    PartOfKey(m);
  }

  lemma OneLabelKey(name: string, key: string, value: string)
    ensures KeyText(name, key + ['='] + value) == name + ['{'] + key + ['='] + value + ['}']
  {
  }

  lemma TwoLabelKey(name: string, second: string, v: string, w: string)
    ensures KeyText(name, "campaign_code" + ['='] + (v + Separator(second) + w))
         == name + ['{'] + "campaign_code" + ['='] + v + [','] + second + ['='] + w + ['}']
  {
  }

  /** The keys as they are written, under which an exporter would find the counters. */
  lemma KeyAsWritten(m: Metric)
    ensures SeriesOf(m).Key() == match m
      case ActivitiesIngested(transport) => "activities_ingested_total" + ['{'] + "transport" + ['='] + transport + ['}']
      case ActivityLogsFanout => "activity_logs_fanout_total"
      case TrackerComponentsCompleted(code) =>
        "tracker_components_completed_total" + ['{'] + "campaign_code" + ['='] + code + ['}']
      case RewardsCreated(code, category) =>
        "rewards_created_total" + ['{'] + "campaign_code" + ['='] + code
          + [','] + "reward_category" + ['='] + category + ['}']
      case BudgetBreach(code, capType) =>
        "budget_breach_total" + ['{'] + "campaign_code" + ['='] + code + [','] + "cap_type" + ['='] + capType + ['}']
      case DedupHits => "dedup_hits_total"
      case RewardDispatchTier(tier) => "reward_dispatch_tier_total" + ['{'] + "tier" + ['='] + tier + ['}']
      case ActivityProcessingDuration => "activity_processing_duration_seconds"
  {
    KeyIsText(m);
    match m
    case ActivitiesIngested(transport) => OneLabelKey(NameOf(m), "transport", transport);
    case TrackerComponentsCompleted(code) => OneLabelKey(NameOf(m), "campaign_code", code);
    case RewardsCreated(code, category) => TwoLabelKey(NameOf(m), "reward_category", code, category);
    case BudgetBreach(code, capType) => TwoLabelKey(NameOf(m), "cap_type", code, capType);
    case RewardDispatchTier(tier) => OneLabelKey(NameOf(m), "tier", tier);
    case _ =>
  }

  // --- Which series have a key of their own --------------------------------------------------------

  /**
   What a caller can check: a two-label series has the separator of its metric in neither value.
   Every other series qualifies, whatever its value.
   */
  ghost predicate Separable(m: Metric) {
    match m
    case RewardsCreated(v, w) => !Occurs(Separator("reward_category"), v) && !Occurs(Separator("reward_category"), w)
    case BudgetBreach(v, w) => !Occurs(Separator("cap_type"), v) && !Occurs(Separator("cap_type"), w)
    case _ => true
  }

  ghost predicate OwnKey(m: Metric) {
    forall m' :: SeriesOf(m').Key() == SeriesOf(m).Key() ==> m' == m
  }

  lemma SameLead(lead: string, a: string, b: string)
    requires lead + a == lead + b
    ensures a == b
  {
    assert a == (lead + a)[|lead|..] && b == (lead + b)[|lead|..];
  }

  predicate HasTwoLabels(m: Metric) {
    m.RewardsCreated? || m.BudgetBreach?
  }

  function Second(m: Metric): string
    requires HasTwoLabels(m)
  {
    if m.RewardsCreated? then m.rewardCategory else m.capType
  }

  function SeparatorOf(m: Metric): string
    requires HasTwoLabels(m)
  {
    Separator(if m.RewardsCreated? then "reward_category" else "cap_type")
  }

  /** The same metric with other values. */
  function With(m: Metric, v: string, w: string): Metric
    requires HasTwoLabels(m)
  {
    if m.RewardsCreated? then RewardsCreated(v, w) else BudgetBreach(v, w)
  }

  lemma TwoLabelKeys(m: Metric, v: string, w: string)
    requires HasTwoLabels(m)
    ensures SeriesOf(m).Key() == SeriesOf(With(m, v, w)).Key() <==>
      m.campaignCode + SeparatorOf(m) + Second(m) == v + SeparatorOf(m) + w
  {
    KeyParts(m, With(m, v, w));
    if PartOf(m) == PartOf(With(m, v, w)) {
      SameLead("campaign_code" + ['='], m.campaignCode + SeparatorOf(m) + Second(m), v + SeparatorOf(m) + w);
    }
  }

  lemma SeparatorStartsOnce(second: string)
    requires ',' !in second
    ensures var sep := Separator(second); sep != "" && sep[0] !in sep[1..]
  {
    assert Separator(second)[1..] == second + ['='];
  }

  lemma OwnIfCutOnce(m: Metric)
    requires HasTwoLabels(m) && CutsOnce(m.campaignCode, SeparatorOf(m), Second(m))
    ensures OwnKey(m)
  {
    forall m' | SeriesOf(m').Key() == SeriesOf(m).Key()
      ensures m' == m
    {
      SameKeySameMetric(m', m);
      assert m' == With(m, m'.campaignCode, Second(m'));
      TwoLabelKeys(m, m'.campaignCode, Second(m'));
    }
  }

  lemma SharedIfCutTwice(m: Metric)
    requires HasTwoLabels(m) && !CutsOnce(m.campaignCode, SeparatorOf(m), Second(m))
    ensures !OwnKey(m)
  {
    var v, w :| m.campaignCode + SeparatorOf(m) + Second(m) == v + SeparatorOf(m) + w
                && !(m.campaignCode == v && Second(m) == w);
    TwoLabelKeys(m, v, w);
    assert With(m, v, w) != m;
  }

  lemma TwoLabelOwnKey(m: Metric)
    requires HasTwoLabels(m)
    ensures OwnKey(m) <==> Separable(m)
  {
    SeparatorStartsOnce("reward_category");
    SeparatorStartsOnce("cap_type");
    SeparatorCutsOnce(m.campaignCode, SeparatorOf(m), Second(m));
    if Separable(m) {
      OwnIfCutOnce(m);
    } else {
      SharedIfCutTwice(m);
    }
  }

  lemma SameKeySameMetric(m: Metric, m': Metric)
    requires SeriesOf(m).Key() == SeriesOf(m').Key()
    ensures Shape(m) == Shape(m') && PartOf(m) == PartOf(m')
  {
    KeyParts(m, m');
    NamesDiffer(m, m');
  }

  lemma OneLabelOwnKey(m: Metric)
    requires !HasTwoLabels(m)
    ensures OwnKey(m)
  {
    forall m' | SeriesOf(m').Key() == SeriesOf(m).Key()
      ensures m' == m
    {
      SameKeySameMetric(m', m);
      SamePartSameValue(m', m);
    }
  }

  lemma SamePartSameValue(m: Metric, m': Metric)
    requires Shape(m) == Shape(m') && !HasTwoLabels(m) && PartOf(m) == PartOf(m')
    ensures m == m'
  {
    match m
    case ActivitiesIngested(transport) => SameLead("transport" + ['='], transport, m'.transport);
    case TrackerComponentsCompleted(campaignCode) => SameLead("campaign_code" + ['='], campaignCode, m'.campaignCode);
    case RewardDispatchTier(tier) => SameLead("tier" + ['='], tier, m'.tier);
    case _ =>
  }

  /**
   The exact condition: a series shares its key with no other the service can write if and only if
   neither of its two values, where it has two, contains the text that separates them.
   */
  lemma KeysExact(m: Metric)
    ensures OwnKey(m) <==> Separable(m)
  {
    if HasTwoLabels(m) {
      TwoLabelOwnKey(m);
    } else {
      OneLabelOwnKey(m);
    }
  }

  /**
   Two different series of one metric that the service counts as one, for any three texts: with
   "a", "b" and "c", the codes are "a,reward_category=b" and "a".
   */
  lemma RewardsCreatedCollide(a: string, b: string, c: string)
    ensures var m, m' := RewardsCreated(a + ",reward_category=" + b, c),
                         RewardsCreated(a, b + ",reward_category=" + c);
      m != m' && SeriesOf(m).Key() == SeriesOf(m').Key()
  {
    var sep := ",reward_category=";
    assert sep == Separator("reward_category");
    assert a + sep + b + sep + c == a + sep + (b + sep + c);
    TwoLabelKeys(RewardsCreated(a + sep + b, c), a, b + sep + c);
    assert |a + sep + b| != |a|;
  }

  // --- What the readers return ---------------------------------------------------------------------

  ghost predicate ByService(op: Operation) {
    op.Reset? || exists m :: op.series == SeriesOf(m)
  }

  ghost predicate Runs(ops: seq<Operation>) {
    forall i :: 0 <= i < |ops| ==> ByService(ops[i])
  }

  ghost predicate ReadExactly(ops: seq<Operation>, m: Metric) {
    && Counter(After(ops), SeriesOf(m).Key()) == Added(ops, SeriesOf(m))
    && Samples(After(ops), SeriesOf(m).Key()) == Observed(ops, SeriesOf(m))
  }

  lemma SeriesDetermined(m: Metric, m': Metric)
    ensures SeriesOf(m).Is(SeriesOf(m')) <==> m == m'
  {
    if SeriesOf(m).Is(SeriesOf(m')) {
      NamesDiffer(m, m');
      var labels, labels' := LabelsOf(m), LabelsOf(m');
      assert forall k :: k in KeysOf(m) ==> labels[k] == labels'[k];
      match m
      case ActivitiesIngested(_) => assert labels["transport"] == labels'["transport"];
      case TrackerComponentsCompleted(_) => assert labels["campaign_code"] == labels'["campaign_code"];
      case RewardsCreated(_, _) =>
        assert labels["campaign_code"] == labels'["campaign_code"];
        assert labels["reward_category"] == labels'["reward_category"];
      case BudgetBreach(_, _) =>
        assert labels["campaign_code"] == labels'["campaign_code"];
        assert labels["cap_type"] == labels'["cap_type"];
      case RewardDispatchTier(_) => assert labels["tier"] == labels'["tier"];
      case _ =>
    }
  }

  lemma SharedKeyMisreads(m: Metric, m': Metric)
    requires m != m' && SeriesOf(m').Key() == SeriesOf(m).Key()
    ensures Runs([Increment(SeriesOf(m'), 1.0)]) && !ReadExactly([Increment(SeriesOf(m'), 1.0)], m)
  {
    var ops := [Increment(SeriesOf(m'), 1.0)];
    SeriesDetermined(m', m);
    assert ByService(ops[0]);
    assert ops[..0] == [];
    assert After(ops) == Next(After([]), ops[0]);
    assert Counter(After(ops), SeriesOf(m).Key()) == 1.0;
    assert Added(ops, SeriesOf(m)) == Added([], SeriesOf(m)) == 0.0;
  }

  /**
   Whatever the service writes, and whatever the values of the other series, a series reads as
   exactly its own increments and observations if and only if it is separable.
   */
  lemma ReadersExact(m: Metric)
    ensures (forall ops: seq<Operation> :: Runs(ops) ==> ReadExactly(ops, m)) <==> Separable(m)
  {
    KeysExact(m);
    if Separable(m) {
      forall ops: seq<Operation> | Runs(ops)
        ensures ReadExactly(ops, m)
      {
        forall i | 0 <= i < |ops| && !ops[i].Reset?
          ensures ops[i].series.Key() == SeriesOf(m).Key() <==> ops[i].series.Is(SeriesOf(m))
        {
          assert ByService(ops[i]);
          var m' :| ops[i].series == SeriesOf(m');
          SeriesDetermined(m', m);
        }
        ReadersFollowKeys(ops, SeriesOf(m));
      }
    } else {
      var m' :| SeriesOf(m').Key() == SeriesOf(m).Key() && m' != m;
      SharedKeyMisreads(m, m');
    }
  }
}
