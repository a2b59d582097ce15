/**
 The campaign-configuration service: which sections a call may return, the etag over payload and
 section set, and the conditional fetch, which must leave a caching client with what an
 unconditional fetch would have given it.
 */
module ConfigFetch {
  import opened Common
  import opened Text
  import opened Sorting

  // --- Sections ------------------------------------------------------------------------------------

  datatype Section = BASIC | MERCHANTS | TRACKERS | RULES | REWARDS | CAPS {
    function Number(): nat {
      match this
      case BASIC => 1
      case MERCHANTS => 2
      case TRACKERS => 3
      case RULES => 4
      case REWARDS => 5
      case CAPS => 6
    }
  }

  function NameOf(section: Section): string {
    match section
    case BASIC => "BASIC"
    case MERCHANTS => "MERCHANTS"
    case TRACKERS => "TRACKERS"
    case RULES => "RULES"
    case REWARDS => "REWARDS"
    case CAPS => "CAPS"
  }

  const ALL_SECTIONS: seq<Section> := [BASIC, MERCHANTS, TRACKERS, RULES, REWARDS, CAPS]
  const UNSPECIFIED: int := 0

  /** The section of a wire number, `None` for anything unknown. */
  function SectionName(value: int): Option<Section> {
    if value == 1 then Some(BASIC)
    else if value == 2 then Some(MERCHANTS)
    else if value == 3 then Some(TRACKERS)
    else if value == 4 then Some(RULES)
    else if value == 5 then Some(REWARDS)
    else if value == 6 then Some(CAPS)
    else None
  }

  datatype SectionResolution = SectionResolution(returned: seq<Section>, omitted: seq<Section>)

  /** The members of `wanted`, in enum order. */
  function Among(order: seq<Section>, wanted: set<Section>): (kept: seq<Section>)
    ensures forall s :: s in kept <==> s in order && s in wanted
  {
    if order == [] then []
    else (if order[0] in wanted then [order[0]] else []) + Among(order[1..], wanted)
  }

  predicate Refused(granted: set<Section>, value: int) {
    SectionName(value) == None || SectionName(value).value !in granted + {BASIC}
  }

  function Explicit(requested: seq<int>): seq<int> {
    if requested == [] then []
    else (if requested[0] != UNSPECIFIED then [requested[0]] else []) + Explicit(requested[1..])
  }

  /** The first explicitly requested number that is unknown or not granted. */
  function FirstRefused(granted: set<Section>, explicit: seq<int>): Option<int> {
    if explicit == [] then None
    else if Refused(granted, explicit[0]) then Some(explicit[0])
    else FirstRefused(granted, explicit[1..])
  }

  function Named(explicit: seq<int>): set<Section> {
    set s: Section | s.Number() in explicit
  }

  /** An empty request means all that is granted; an explicit one fails on its first refused number. */
  function Resolution(granted: set<Section>, requested: seq<int>): Result<SectionResolution, int> {
    var explicit := Explicit(requested);
    if explicit == [] then
      Ok(SectionResolution(Among(ALL_SECTIONS, granted + {BASIC}),
                           Among(ALL_SECTIONS, (set s: Section | s !in granted + {BASIC}))))
    else
      match FirstRefused(granted, explicit)
      case Some(value) => Err(value)
      case None => Ok(SectionResolution(Among(ALL_SECTIONS, Named(explicit) + {BASIC}), []))
  }

  /** The numbers are those of the wire enum: the positions of the sections in order, from one on. */
  lemma SectionNumbers(s: Section)
    ensures SectionName(s.Number()) == Some(s) && s.Number() != UNSPECIFIED
    ensures 1 <= s.Number() <= |ALL_SECTIONS| && ALL_SECTIONS[s.Number() - 1] == s
  {
  }

  lemma {:induction false} ExplicitMembers(requested: seq<int>, value: int)
    ensures value in Explicit(requested) <==> value in requested && value != UNSPECIFIED
  {
    if requested == [] {
    } else {
      ExplicitMembers(requested[1..], value);
    }
  }

  /** The number stands for a section that the grant covers. */
  ghost predicate Covered(granted: set<Section>, value: int) {
    exists s: Section :: s.Number() == value && s in granted + {BASIC}
  }

  lemma RefusedIfNotCovered(granted: set<Section>, value: int)
    ensures Refused(granted, value) <==> !Covered(granted, value)
  {
    if SectionName(value).Some? {
      assert SectionName(value).value.Number() == value;
    }
    if s: Section :| s.Number() == value && s in granted + {BASIC} {
      SectionNumbers(s);
    }
  }

  /** The first number of the request that is neither left open nor covered. */
  ghost predicate RefusedFirst(granted: set<Section>, requested: seq<int>, i: nat) {
    && i < |requested| && requested[i] != 0 && !Covered(granted, requested[i])
    && forall j :: 0 <= j < i ==> requested[j] == 0 || Covered(granted, requested[j])
  }

  lemma RefusedLater(granted: set<Section>, requested: seq<int>, i: nat)
    requires requested != [] && (requested[0] == 0 || Covered(granted, requested[0]))
    requires RefusedFirst(granted, requested[1..], i)
    ensures RefusedFirst(granted, requested, i + 1)
  {
    forall j | 0 <= j < i + 1
      ensures requested[j] == 0 || Covered(granted, requested[j])
    {
      assert j > 0 ==> requested[j] == requested[1..][j - 1];
    }
  }

  lemma RefusedAfterFirst(granted: set<Section>, requested: seq<int>)
    requires requested != []
    ensures var rest := FirstRefused(granted, Explicit(requested[1..]));
      FirstRefused(granted, Explicit(requested)) ==
        if requested[0] != 0 && Refused(granted, requested[0]) then Some(requested[0]) else rest
  {
    var rest := Explicit(requested[1..]);
    if requested[0] != 0 {
      FirstRefusedCons(granted, requested[0], rest);
    } else {
      assert Explicit(requested) == [] + rest == rest;
    }
  }

  lemma FirstRefusedCons(granted: set<Section>, value: int, rest: seq<int>)
    ensures FirstRefused(granted, [value] + rest)
         == if Refused(granted, value) then Some(value) else FirstRefused(granted, rest)
  {
    assert ([value] + rest)[1..] == rest;
  }

  lemma {:induction false} FirstRefusedFinds(granted: set<Section>, requested: seq<int>) returns (i: nat)
    ensures FirstRefused(granted, Explicit(requested)).None? ==>
              forall v :: v in requested && v != 0 ==> Covered(granted, v)
    ensures FirstRefused(granted, Explicit(requested)).Some? ==>
              RefusedFirst(granted, requested, i)
              && requested[i] == FirstRefused(granted, Explicit(requested)).value
  {
    i := 0;
    if requested == [] {
    } else {
      RefusedIfNotCovered(granted, requested[0]);
      RefusedAfterFirst(granted, requested);
      if requested[0] == 0 || Covered(granted, requested[0]) {
        i := FirstRefusedFinds(granted, requested[1..]);
        if FirstRefused(granted, Explicit(requested[1..])).Some? {
          RefusedLater(granted, requested, i);
        }
        i := i + 1;
      }
    }
  }

  /** Sections in the order of their numbers, each once. */
  ghost predicate Ascending(sections: seq<Section>) {
    forall i, j :: 0 <= i < j < |sections| ==> sections[i].Number() < sections[j].Number()
  }

  lemma {:induction false} AmongAscends(order: seq<Section>, wanted: set<Section>)
    requires Ascending(order)
    ensures Ascending(Among(order, wanted))
  {
    if order == [] {
    } else {
      AmongAscends(order[1..], wanted);
      forall s | s in Among(order[1..], wanted)
        ensures order[0].Number() < s.Number()
      {
        var k :| 0 <= k < |order[1..]| && order[1..][k] == s;
        assert order[k + 1] == s;
      }
    }
  }

  lemma AmongAll(wanted: set<Section>, s: Section)
    ensures s in Among(ALL_SECTIONS, wanted) <==> s in wanted
  {
    assert ALL_SECTIONS[s.Number() - 1] == s;
  }

  lemma ImplicitRequest(granted: set<Section>, requested: seq<int>)
    requires forall v :: v in requested ==> v == UNSPECIFIED
    ensures Resolution(granted, requested).Ok?
    ensures var r := Resolution(granted, requested).value;
      forall s :: (s in r.returned <==> s in granted + {BASIC}) && (s in r.omitted <==> s !in granted + {BASIC})
  {
    if Explicit(requested) != [] {
      ExplicitMembers(requested, Explicit(requested)[0]);
    }
    forall s
      ensures s in Among(ALL_SECTIONS, granted + {BASIC}) <==> s in granted + {BASIC}
      ensures s in Among(ALL_SECTIONS, (set t: Section | t !in granted + {BASIC})) <==> s !in granted + {BASIC}
    {
      AmongAll(granted + {BASIC}, s);
      AmongAll((set t: Section | t !in granted + {BASIC}), s);
    }
  }

  lemma ExplicitRequest(granted: set<Section>, requested: seq<int>, v: int)
    requires v in requested && v != UNSPECIFIED
    ensures match Resolution(granted, requested)
      case Ok(r) =>
        && r.omitted == []
        && (forall s :: s in r.returned <==> s == BASIC || s.Number() in requested)
        && (forall w :: w in requested && w != UNSPECIFIED ==> Covered(granted, w))
      case Err(w) => exists i: nat :: RefusedFirst(granted, requested, i) && requested[i] == w
  {
    var explicit := Explicit(requested);
    forall w
      ensures w in explicit <==> w in requested && w != UNSPECIFIED
    {
      ExplicitMembers(requested, w);
    }
    assert explicit != [];
    var i := FirstRefusedFinds(granted, requested);
    forall s
      ensures s in Among(ALL_SECTIONS, Named(explicit) + {BASIC}) <==> s == BASIC || s.Number() in requested
    {
      AmongAll(Named(explicit) + {BASIC}, s);
      SectionNumbers(s);
    }
  }

  lemma SectionsAscend()
    ensures Ascending(ALL_SECTIONS)
  {
  }

  lemma ReturnedAscend(granted: set<Section>, requested: seq<int>)
    requires Resolution(granted, requested).Ok?
    ensures Ascending(Resolution(granted, requested).value.returned)
    ensures Ascending(Resolution(granted, requested).value.omitted)
  {
    SectionsAscend();
    AmongAscends(ALL_SECTIONS, granted + {BASIC});
    AmongAscends(ALL_SECTIONS, (set s: Section | s !in granted + {BASIC}));
    AmongAscends(ALL_SECTIONS, Named(Explicit(requested)) + {BASIC});
  }

  /**
   Sections are an authorisation boundary: `BASIC` is always returned and nothing else beyond the
   grant; an empty request gets all that is granted and is told what was withheld; an explicit one
   gets what it names, and fails with the first number that is unknown or not granted, if there is one.
   */
  lemma SectionsWithinGrant(granted: set<Section>, requested: seq<int>)
    ensures var explicit := exists v :: v in requested && v != UNSPECIFIED;
      match Resolution(granted, requested)
      case Ok(r) =>
        && Ascending(r.returned) && Ascending(r.omitted)
        && BASIC in r.returned && (forall s :: s in r.returned ==> s in granted + {BASIC})
        && (explicit ==> r.omitted == [] && forall s :: s in r.returned <==> s == BASIC || s.Number() in requested)
        && (!explicit ==> forall s ::
              (s in r.returned <==> s in granted + {BASIC}) && (s in r.omitted <==> s !in r.returned))
        && (forall v :: v in requested && v != UNSPECIFIED ==> Covered(granted, v))
      case Err(v) => exists i: nat :: RefusedFirst(granted, requested, i) && requested[i] == v
  {
    if Resolution(granted, requested).Ok? {
      ReturnedAscend(granted, requested);
    }
    if v :| v in requested && v != UNSPECIFIED {
      ExplicitRequest(granted, requested, v);
      forall s: Section, t: Section | s.Number() == t.Number()
        ensures s == t
      {
        SectionNumbers(s);
        SectionNumbers(t);
      }
    } else {
      ImplicitRequest(granted, requested);
    }
  }

  lemma FirstRefusedFrom(granted: set<Section>, explicit: seq<int>, i: nat)
    requires i < |explicit|
    ensures FirstRefused(granted, explicit[i..])
         == if Refused(granted, explicit[i]) then Some(explicit[i]) else FirstRefused(granted, explicit[i + 1..])
  {
    assert explicit[i..][1..] == explicit[i + 1..];
  }

  lemma NamedUpTo(explicit: seq<int>, i: nat)
    requires i < |explicit| && SectionName(explicit[i]).Some?
    ensures Named(explicit[..i + 1]) == Named(explicit[..i]) + {SectionName(explicit[i]).value}
  {
    assert explicit[..i + 1] == explicit[..i] + [explicit[i]];
  }

  /** The guard as it runs: one pass that gathers what is wanted and stops at the first refusal. */
  method ResolveSections(granted: set<Section>, requested: seq<int>)
    returns (r: Result<SectionResolution, int>)
    ensures r == Resolution(granted, requested)
  {
    var grantedSet := granted + {BASIC};
    var explicit := Explicit(requested);
    if explicit == [] {
      return Ok(SectionResolution(Among(ALL_SECTIONS, grantedSet),
                                  Among(ALL_SECTIONS, (set s: Section | s !in grantedSet))));
    }
    var wanted := {BASIC};
    var i := 0;
    while i < |explicit|
      invariant 0 <= i <= |explicit|
      invariant FirstRefused(granted, explicit) == FirstRefused(granted, explicit[i..])
      invariant wanted == Named(explicit[..i]) + {BASIC}
    {
      var name := SectionName(explicit[i]);
      FirstRefusedFrom(granted, explicit, i);
      if name == None || name.value !in grantedSet {
        return Err(explicit[i]);
      }
      NamedUpTo(explicit, i);
      wanted := wanted + {name.value};
      i := i + 1;
    }
    assert explicit[..i] == explicit;
    r := Ok(SectionResolution(Among(ALL_SECTIONS, wanted), []));
  }

  // --- Hashes --------------------------------------------------------------------------------------

  /** A built configuration: the campaign's header and the slices of the returned sections. */
  datatype Payload = Payload(campaignId: int, campaignCode: string, tenantId: int, header: string,
                             slices: map<Section, string>)

  datatype Host = Host(canonicalJson: Payload -> string, sha256: string -> string)

  /** Hashes collide for no two inputs and are non-empty hexadecimal text. */
  ghost predicate Collisionless(host: Host) {
    && (forall a, b :: host.canonicalJson(a) == host.canonicalJson(b) ==> a == b)
    && (forall a, b :: host.sha256(a) == host.sha256(b) ==> a == b)
    && (forall a :: host.sha256(a) != "" && '|' !in host.sha256(a))
  }

  function ConfigHashOf(host: Host, payload: Payload): string {
    host.sha256(host.canonicalJson(payload))
  }

  function EtagOf(host: Host, configHash: string, sections: seq<Section>): string {
    host.sha256(configHash + ['|'] + Join(Sort(AtMost, Map(NameOf, sections)), ','))
  }

  /** A client that asks for the same sections in another order gets the same etag. */
  lemma EtagIgnoresOrder(host: Host, configHash: string, a: seq<Section>, b: seq<Section>)
    requires multiset(a) == multiset(b)
    ensures EtagOf(host, configHash, a) == EtagOf(host, configHash, b)
  {
    AtMostIsTotalOrder();
    MapPermutation(NameOf, a, b);
    SortIgnoresOrder(AtMost, Map(NameOf, a), Map(NameOf, b));
  }

  lemma NamesAreDistinct()
    ensures forall s, t :: NameOf(s) == NameOf(t) ==> s == t
    ensures forall s :: ',' !in NameOf(s)
  {
    forall s, t | NameOf(s) == NameOf(t)
      ensures s == t
    {
      assert |NameOf(s)| == |NameOf(t)| && NameOf(s)[0] == NameOf(t)[0];
    }
  }

  ghost predicate Separable<T(!new)>(name: T -> string) {
    (forall s, t :: name(s) == name(t) ==> s == t) && forall s :: ',' !in name(s)
  }

  lemma SortedNames<T(!new)>(name: T -> string, items: seq<T>, t: T)
    requires Separable(name)
    ensures t in items <==> name(t) in Sort(AtMost, Map(name, items))
    ensures |Sort(AtMost, Map(name, items))| == |items|
    ensures Free(Sort(AtMost, Map(name, items)), ',')
  {
    var sorted := Sort(AtMost, Map(name, items));
    AtMostIsTotalOrder();
    SortSorts(AtMost, Map(name, items));
    SortMembers(AtMost, Map(name, items), name(t));
    MapMembers(name, items, name(t));
    forall i | 0 <= i < |sorted|
      ensures ',' !in sorted[i]
    {
      SortMembers(AtMost, Map(name, items), sorted[i]);
      MapMembers(name, items, sorted[i]);
    }
  }

  /** Sorted, comma-joined names say which items there are. */
  lemma JoinedNamesInjective<T(!new)>(name: T -> string, a: seq<T>, b: seq<T>)
    requires Separable(name) && a != [] && b != []
    requires Join(Sort(AtMost, Map(name, a)), ',') == Join(Sort(AtMost, Map(name, b)), ',')
    ensures forall t :: t in a <==> t in b
  {
    SortedNames(name, a, a[0]);
    SortedNames(name, b, b[0]);
    JoinInjective(Sort(AtMost, Map(name, a)), Sort(AtMost, Map(name, b)), ',');
    forall t
      ensures t in a <==> t in b
    {
      SortedNames(name, a, t);
      SortedNames(name, b, t);
    }
  }

  /** The hash that is hashed and the joined names come apart again at the bar. */
  lemma EtagParts(host: Host, h: string, a: seq<Section>, h': string, b: seq<Section>)
    requires Collisionless(host) && '|' !in h && '|' !in h'
    requires EtagOf(host, h, a) == EtagOf(host, h', b)
    ensures h == h'
    ensures Join(Sort(AtMost, Map(NameOf, a)), ',') == Join(Sort(AtMost, Map(NameOf, b)), ',')
  {
    var joinedA, joinedB := Join(Sort(AtMost, Map(NameOf, a)), ','), Join(Sort(AtMost, Map(NameOf, b)), ',');
    assert h + ['|'] + joinedA == h' + ['|'] + joinedB;
    FirstCutUnique(h, joinedA, h', joinedB, '|');
  }

  /**
   Equal etags mean equal payloads and equal section sets: leaving the sections out, or joining
   them so that two sets could read alike, would break this.
   */
  lemma EtagInjective(host: Host, p: Payload, a: set<Section>, q: Payload, b: set<Section>)
    requires Collisionless(host) && BASIC in a && BASIC in b
    requires EtagOf(host, ConfigHashOf(host, p), Among(ALL_SECTIONS, a))
          == EtagOf(host, ConfigHashOf(host, q), Among(ALL_SECTIONS, b))
    ensures p == q && a == b
  {
    var inA, inB := Among(ALL_SECTIONS, a), Among(ALL_SECTIONS, b);
    EtagParts(host, ConfigHashOf(host, p), inA, ConfigHashOf(host, q), inB);
    AmongAll(a, BASIC);
    AmongAll(b, BASIC);
    NamesAreDistinct();
    JoinedNamesInjective(NameOf, inA, inB);
    forall s: Section
      ensures s in a <==> s in b
    {
      AmongAll(a, s);
      AmongAll(b, s);
    }
  }

  // --- The response --------------------------------------------------------------------------------

  datatype Wire =
    | Full(payload: Payload, etag: string, configHash: string, servedAt: int,
           sectionsReturned: seq<int>, sectionsOmitted: seq<int>)
    | NotModified(campaignId: int, campaignCode: string, tenantId: int, etag: string, configHash: string,
                  servedAt: int, sectionsReturned: seq<int>, sectionsOmitted: seq<int>)

  function Numbers(sections: seq<Section>): seq<int> {
    if sections == [] then [] else [sections[0].Number()] + Numbers(sections[1..])
  }

  function ToWire(host: Host, payload: Payload, sections: SectionResolution, presentedEtag: string,
                  servedAt: int): Wire {
    var configHash := ConfigHashOf(host, payload);
    var etag := EtagOf(host, configHash, sections.returned);
    if presentedEtag != "" && presentedEtag == etag then
      NotModified(payload.campaignId, payload.campaignCode, payload.tenantId, etag, configHash, servedAt,
                  Numbers(sections.returned), Numbers(sections.omitted))
    else
      Full(payload, etag, configHash, servedAt, Numbers(sections.returned), Numbers(sections.omitted))
  }

  // --- The call ------------------------------------------------------------------------------------

  datatype Campaign = Campaign(id: int, tenantId: int, campaignCode: string, status: string,
                               header: string, slices: map<Section, string>)

  datatype Grant = Grant(tenantId: Option<int>, allowedSections: seq<Section>)

  /** What a call runs against: the stored campaigns, and the caller's grants. */
  datatype World = World(campaigns: seq<Campaign>, grants: seq<Grant>)

  datatype Request = Request(tenantId: int, campaignCode: string, sections: seq<int>)

  datatype Failure = RateLimited | ScopeDenied | SectionNotGranted(value: int) | NotFound

  function FindGrant(grants: seq<Grant>, tenantId: Option<int>): Option<Grant> {
    if grants == [] then None
    else if grants[0].tenantId == tenantId then Some(grants[0])
    else FindGrant(grants[1..], tenantId)
  }

  const MAX_SAFE_INTEGER: int := 9007199254740991

  /** The tenant's own grant, otherwise a global one. */
  function GrantFor(grants: seq<Grant>, tenantId: int): Option<Grant> {
    if tenantId <= 0 || tenantId > MAX_SAFE_INTEGER then None
    else if FindGrant(grants, Some(tenantId)).Some? then FindGrant(grants, Some(tenantId))
    else FindGrant(grants, None)
  }

  function FindCampaign(campaigns: seq<Campaign>, tenantId: int, code: string): Option<Campaign> {
    if campaigns == [] then None
    else if campaigns[0].tenantId == tenantId && campaigns[0].campaignCode == code then Some(campaigns[0])
    else FindCampaign(campaigns[1..], tenantId, code)
  }

  predicate Served(status: string) {
    status == "active" || status == "paused"
  }

  function Build(campaign: Campaign, returned: seq<Section>): Payload {
    Payload(campaign.id, campaign.campaignCode, campaign.tenantId, campaign.header,
            map s | s in campaign.slices && s in returned :: campaign.slices[s])
  }

  /** The checks and the build; `admitted` is the rate limiter's verdict. */
  function Serve(world: World, request: Request, admitted: bool): Result<(Payload, SectionResolution), Failure> {
    if !admitted then Err(RateLimited)
    else
      match GrantFor(world.grants, request.tenantId)
      case None => Err(ScopeDenied)
      case Some(grant) =>
        match Resolution((set s | s in grant.allowedSections), request.sections)
        case Err(value) => Err(SectionNotGranted(value))
        case Ok(sections) =>
          match FindCampaign(world.campaigns, request.tenantId, request.campaignCode)
          case None => Err(NotFound)
          case Some(campaign) =>
            if Served(campaign.status) then Ok((Build(campaign, sections.returned), sections)) else Err(NotFound)
  }

  function GetCampaignConfig(host: Host, world: World, request: Request, etag: string,
                             admitted: bool, servedAt: int): Result<Wire, Failure> {
    var (payload, sections) :- Serve(world, request, admitted);
    Ok(ToWire(host, payload, sections, etag, servedAt))
  }

  // --- A caching client ----------------------------------------------------------------------------

  /** What a client keeps of a full response. */
  datatype Document = Document(payload: Payload, etag: string, configHash: string, sectionsReturned: seq<int>)

  function Content(wire: Wire): Document
    requires wire.Full?
  {
    Document(wire.payload, wire.etag, wire.configHash, wire.sectionsReturned)
  }

  function Presented(held: Option<Document>): string {
    if held.Some? then held.value.etag else ""
  }

  /** Keep on `notModified`, replace on a full response, and keep on an error. */
  function Received(held: Option<Document>, r: Result<Wire, Failure>): Option<Document> {
    if r.Ok? && r.value.Full? then Some(Content(r.value)) else held
  }

  datatype Event =
    | Change(world: World)
    | Fetch(request: Request, admitted: bool, servedAt: int)

  datatype History = History(world: World, held: Option<Document>)

  function Step(host: Host, h: History, e: Event): History {
    match e
    case Change(world) => h.(world := world)
    case Fetch(request, admitted, servedAt) =>
      h.(held := Received(h.held, GetCampaignConfig(host, h.world, request, Presented(h.held), admitted, servedAt)))
  }

  function Run(host: Host, h: History, events: seq<Event>): History {
    if events == [] then h
    else Step(host, Run(host, h, events[..|events| - 1]), events[|events| - 1])
  }

  /** `d` is a response document for some sections. */
  ghost predicate DocumentFor(host: Host, d: Document, sections: set<Section>) {
    && BASIC in sections
    && d.configHash == ConfigHashOf(host, d.payload)
    && d.etag == EtagOf(host, d.configHash, Among(ALL_SECTIONS, sections))
    && d.sectionsReturned == Numbers(Among(ALL_SECTIONS, sections))
  }

  ghost predicate Genuine(host: Host, held: Option<Document>) {
    held.Some? ==> exists sections :: DocumentFor(host, held.value, sections)
  }

  /** Every resolution returns `BASIC` and lists its sections in enum order. */
  lemma ServedSections(world: World, request: Request, admitted: bool) returns (sections: set<Section>)
    requires Serve(world, request, admitted).Ok?
    ensures BASIC in sections
    ensures Serve(world, request, admitted).value.1.returned == Among(ALL_SECTIONS, sections)
  {
    var explicit := Explicit(request.sections);
    var granted := set s | s in GrantFor(world.grants, request.tenantId).value.allowedSections;
    sections := if explicit == [] then granted + {BASIC} else Named(explicit) + {BASIC};
  }

  /** The document a full response carries. */
  function DocumentOf(host: Host, payload: Payload, sections: set<Section>): Document {
    var configHash := ConfigHashOf(host, payload);
    Document(payload, EtagOf(host, configHash, Among(ALL_SECTIONS, sections)), configHash,
             Numbers(Among(ALL_SECTIONS, sections)))
  }

  lemma EtagIdentifies(host: Host, held: Document, payload: Payload, kept: set<Section>)
    requires Collisionless(host) && Genuine(host, Some(held)) && BASIC in kept
    requires held.etag == DocumentOf(host, payload, kept).etag
    ensures held == DocumentOf(host, payload, kept)
  {
    var b :| DocumentFor(host, held, b);
    EtagInjective(host, held.payload, b, payload, kept);
  }

  lemma ResponseCarries(host: Host, payload: Payload, sections: SectionResolution, kept: set<Section>,
                        presented: string, servedAt: int)
    requires Collisionless(host) && BASIC in kept && sections.returned == Among(ALL_SECTIONS, kept)
    ensures var d, r := DocumentOf(host, payload, kept), ToWire(host, payload, sections, presented, servedAt);
      && DocumentFor(host, d, kept) && d.etag != ""
      && (r.Full? <==> presented == "" || presented != d.etag)
      && (r.Full? ==> r == ToWire(host, payload, sections, "", servedAt) && Content(r) == d)
  {
  }

  /** A full answer without its payload. */
  function Shortened(full: Wire): Wire
    requires full.Full?
  {
    NotModified(full.payload.campaignId, full.payload.campaignCode, full.payload.tenantId, full.etag,
                full.configHash, full.servedAt, full.sectionsReturned, full.sectionsOmitted)
  }

  /** `notModified` is answered exactly to a client that already holds the full answer. */
  lemma NotModifiedExact(host: Host, payload: Payload, sections: SectionResolution, kept: set<Section>,
                         held: Option<Document>, servedAt: int)
    requires Collisionless(host) && Genuine(host, held)
    requires BASIC in kept && sections.returned == Among(ALL_SECTIONS, kept)
    ensures var full := ToWire(host, payload, sections, "", servedAt);
      var r := ToWire(host, payload, sections, Presented(held), servedAt);
      && full.Full? && DocumentFor(host, Content(full), kept)
      && (r.NotModified? <==> held == Some(Content(full)))
      && (r.Full? ==> r == full)
      && (r.NotModified? ==> r == Shortened(full))
  {
    var d := DocumentOf(host, payload, kept);
    ResponseCarries(host, payload, sections, kept, "", servedAt);
    ResponseCarries(host, payload, sections, kept, Presented(held), servedAt);
    if held.Some? && held.value.etag == d.etag {
      EtagIdentifies(host, held.value, payload, kept);
    }
  }

  /** A conditional call fails exactly when an unconditional one would, and in the same way. */
  lemma FetchRefines(host: Host, world: World, request: Request, held: Option<Document>,
                     admitted: bool, servedAt: int)
    requires Collisionless(host) && Genuine(host, held)
    ensures var plain := GetCampaignConfig(host, world, request, "", admitted, servedAt);
      var r := GetCampaignConfig(host, world, request, Presented(held), admitted, servedAt);
      && Genuine(host, Received(held, r))
      && (plain.Ok? <==> r.Ok?)
      && (plain.Err? ==> r == plain && Received(held, r) == held)
      && (plain.Ok? ==> plain.value.Full? && Received(held, r) == Some(Content(plain.value)))
  {
    var served := Serve(world, request, admitted);
    if served.Ok? {
      var kept := ServedSections(world, request, admitted);
      NotModifiedExact(host, served.value.0, served.value.1, kept, held, servedAt);
    }
  }

  lemma {:induction false} RunGenuine(host: Host, h: History, events: seq<Event>)
    requires Collisionless(host) && Genuine(host, h.held)
    ensures Genuine(host, Run(host, h, events).held)
  {
    if events == [] {
    } else {
      var front, last := events[..|events| - 1], events[|events| - 1];
      RunGenuine(host, h, front);
      var at := Run(host, h, front);
      if last.Fetch? {
        FetchRefines(host, at.world, last.request, at.held, last.admitted, last.servedAt);
      }
    }
  }

  /** What the service has stored and granted after the changes. */
  function LatestWorld(world: World, events: seq<Event>): World {
    if events == [] then world
    else if events[|events| - 1].Change? then events[|events| - 1].world
    else LatestWorld(world, events[..|events| - 1])
  }

  lemma {:induction false} RunWorld(host: Host, h: History, events: seq<Event>)
    ensures Run(host, h, events).world == LatestWorld(h.world, events)
  {
    if events == [] {
    } else {
      RunWorld(host, h, events[..|events| - 1]);
    }
  }

  /**
   Over any history of configuration changes, grant changes, and fetches of any campaigns and
   section sets, a client that starts empty ends a successful call holding what an unconditional
   call would return at that moment, and a failed one holding what it held before.
   */
  lemma ConditionalFetchIsPlainFetch(host: Host, world: World, events: seq<Event>, e: Event)
    requires Collisionless(host) && e.Fetch?
    ensures var before := Run(host, History(world, None), events);
      var plain := GetCampaignConfig(host, LatestWorld(world, events), e.request, "", e.admitted, e.servedAt);
      var after := Run(host, History(world, None), events + [e]);
      if plain.Ok? then plain.value.Full? && after.held == Some(Content(plain.value))
      else after.held == before.held
  {
    RunGenuine(host, History(world, None), events);
    RunWorld(host, History(world, None), events);
    var before := Run(host, History(world, None), events);
    assert (events + [e])[..|events|] == events;
    FetchRefines(host, before.world, e.request, before.held, e.admitted, e.servedAt);
  }
}
