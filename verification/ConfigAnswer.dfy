/**
 What a call of the campaign-configuration service answers, said of its request, the stored campaigns
 and the grants alone: whose configuration, with which sections, and which failure otherwise.
 */
module ConfigAnswer {
  import opened Common
  import opened ConfigFetch

  // --- Who may have what ---------------------------------------------------------------------------

  /** Grant `i` governs the tenant: its first own one or, without any, the first global one. */
  ghost predicate Governs(grants: seq<Grant>, tenantId: int, i: nat) {
    && 0 < tenantId < 0x20_0000_0000_0000 && i < |grants|
    && (grants[i].tenantId == Some(tenantId)
        || (grants[i].tenantId == None && forall j :: 0 <= j < |grants| ==> grants[j].tenantId != Some(tenantId)))
    && forall j :: 0 <= j < i ==> grants[j].tenantId != grants[i].tenantId
  }

  function Sections(grant: Grant): set<Section> {
    set s | s in grant.allowedSections
  }

  lemma {:induction false} FoundGrant(grants: seq<Grant>, tenantId: Option<int>) returns (i: nat)
    ensures FindGrant(grants, tenantId).None? ==> forall j :: 0 <= j < |grants| ==> grants[j].tenantId != tenantId
    ensures FindGrant(grants, tenantId).Some? ==>
              i < |grants| && FindGrant(grants, tenantId) == Some(grants[i]) && grants[i].tenantId == tenantId
              && forall j :: 0 <= j < i ==> grants[j].tenantId != tenantId
  {
    i := 0;
    if grants != [] && grants[0].tenantId != tenantId {
      i := FoundGrant(grants[1..], tenantId);
      assert forall j :: 0 < j < |grants| ==> grants[j] == grants[1..][j - 1];
      i := i + 1;
    }
  }

  lemma GrantExactly(grants: seq<Grant>, tenantId: int) returns (i: nat)
    ensures GrantFor(grants, tenantId).None? ==> forall k: nat :: !Governs(grants, tenantId, k)
    ensures GrantFor(grants, tenantId).Some? ==>
              Governs(grants, tenantId, i) && GrantFor(grants, tenantId) == Some(grants[i])
  {
    i := FoundGrant(grants, Some(tenantId));
    if FindGrant(grants, Some(tenantId)).None? {
      i := FoundGrant(grants, None);
    }
  }

  lemma GovernsOne(grants: seq<Grant>, tenantId: int, i: nat, k: nat)
    requires Governs(grants, tenantId, i) && Governs(grants, tenantId, k)
    ensures i == k
  {
  }

  // --- Which campaign ------------------------------------------------------------------------------

  /** Campaign `k` is the first of the request's tenant and code. */
  ghost predicate Meant(world: World, request: Request, k: nat) {
    && k < |world.campaigns|
    && world.campaigns[k].tenantId == request.tenantId && world.campaigns[k].campaignCode == request.campaignCode
    && forall j :: 0 <= j < k ==>
         world.campaigns[j].tenantId != request.tenantId || world.campaigns[j].campaignCode != request.campaignCode
  }

  ghost predicate Servable(world: World, request: Request, k: nat) {
    Meant(world, request, k) && world.campaigns[k].status in {"active", "paused"}
  }

  lemma {:induction false} FoundCampaign(campaigns: seq<Campaign>, grants: seq<Grant>, request: Request)
    returns (k: nat)
    ensures var found := FindCampaign(campaigns, request.tenantId, request.campaignCode);
      && (found.None? ==> forall j: nat :: !Meant(World(campaigns, grants), request, j))
      && (found.Some? ==> Meant(World(campaigns, grants), request, k) && found.value == campaigns[k])
  {
    k := 0;
    if campaigns != [] && !(campaigns[0].tenantId == request.tenantId && campaigns[0].campaignCode == request.campaignCode) {
      k := FoundCampaign(campaigns[1..], grants, request);
      assert forall j :: 0 < j < |campaigns| ==> campaigns[j] == campaigns[1..][j - 1];
      if j: nat :| Meant(World(campaigns, grants), request, j) {
        assert Meant(World(campaigns[1..], grants), request, j - 1);
      }
      k := k + 1;
    }
  }

  // --- The answer ----------------------------------------------------------------------------------

  /** What a request that fails in this way looks like. */
  ghost predicate FailsWith(world: World, request: Request, admitted: bool, failure: Failure) {
    match failure
    case RateLimited => !admitted
    case ScopeDenied => admitted && forall i: nat :: !Governs(world.grants, request.tenantId, i)
    case SectionNotGranted(value) =>
      admitted && exists i: nat, v: nat ::
        Governs(world.grants, request.tenantId, i)
        && RefusedFirst(Sections(world.grants[i]), request.sections, v) && request.sections[v] == value
    case NotFound =>
      && admitted && (exists i: nat :: GrantsAll(world, request, i))
      && forall k: nat :: !Servable(world, request, k)
  }

  /** Grant `i` governs the tenant and covers whatever the request names. */
  ghost predicate GrantsAll(world: World, request: Request, i: nat) {
    && Governs(world.grants, request.tenantId, i)
    && forall v: nat :: !RefusedFirst(Sections(world.grants[i]), request.sections, v)
  }

  /**
   The sections an answer returns: `BASIC`, and of those the grant has all, or the ones that the request
   names; what it omits is said only to a request that names none.
   */
  ghost predicate SectionsFor(grant: Grant, requested: seq<int>, returned: seq<Section>, omitted: seq<Section>) {
    var explicit := exists v :: v in requested && v != 0;
    && Ascending(returned) && Ascending(omitted)
    && (forall s :: s in returned ==> s == BASIC || s in grant.allowedSections)
    && (forall s :: s in returned <==>
          s == BASIC || (if explicit then s.Number() in requested else s in grant.allowedSections))
    && (forall s :: s in omitted <==> !explicit && s !in returned)
  }

  /** A payload with the campaign's own header, and its own slice of each section that is returned. */
  ghost predicate PayloadOf(payload: Payload, campaign: Campaign, returned: seq<Section>) {
    && payload.campaignId == campaign.id && payload.campaignCode == campaign.campaignCode
    && payload.tenantId == campaign.tenantId && payload.header == campaign.header
    && (forall s :: s in payload.slices <==> s in campaign.slices && s in returned)
    && (forall s :: s in payload.slices ==> payload.slices[s] == campaign.slices[s])
  }

  lemma SectionsOfGrant(grant: Grant, s: Section)
    ensures s in Sections(grant) + {BASIC} <==> s == BASIC || s in grant.allowedSections
  {
  }

  lemma ReturnedExactly(grant: Grant, requested: seq<int>, r: SectionResolution)
    requires Resolution(Sections(grant), requested) == Ok(r)
    ensures SectionsFor(grant, requested, r.returned, r.omitted)
  {
    SectionsWithinGrant(Sections(grant), requested);
    forall s
      ensures s in Sections(grant) + {BASIC} <==> s == BASIC || s in grant.allowedSections
    {
      SectionsOfGrant(grant, s);
    }
  }

  lemma NoneRefused(granted: set<Section>, requested: seq<int>)
    requires forall v :: v in requested && v != 0 ==> Covered(granted, v)
    ensures forall v: nat :: !RefusedFirst(granted, requested, v)
  {
  }

  lemma SectionsExactly(grant: Grant, requested: seq<int>)
    ensures match Resolution(Sections(grant), requested)
      case Ok(r) => SectionsFor(grant, requested, r.returned, r.omitted)
                    && forall v: nat :: !RefusedFirst(Sections(grant), requested, v)
      case Err(value) => exists v: nat :: RefusedFirst(Sections(grant), requested, v) && requested[v] == value
  {
    var granted := Sections(grant);
    SectionsWithinGrant(granted, requested);
    match Resolution(granted, requested)
    case Ok(r) =>
      ReturnedExactly(grant, requested, r);
      NoneRefused(granted, requested);
    case Err(_) =>
  }

  lemma BuildExactly(campaign: Campaign, returned: seq<Section>)
    ensures PayloadOf(Build(campaign, returned), campaign, returned)
  {
  }

  lemma ScopeDecides(world: World, request: Request) returns (i: nat)
    ensures Serve(world, request, true) == Err(ScopeDenied) ==> FailsWith(world, request, true, ScopeDenied)
    ensures Serve(world, request, true) != Err(ScopeDenied) ==>
              Governs(world.grants, request.tenantId, i)
              && GrantFor(world.grants, request.tenantId) == Some(world.grants[i])
  {
    i := GrantExactly(world.grants, request.tenantId);
  }

  lemma CampaignDecides(world: World, request: Request, sections: SectionResolution) returns (k: nat)
    requires GrantFor(world.grants, request.tenantId).Some?
    requires Resolution(Sections(GrantFor(world.grants, request.tenantId).value), request.sections) == Ok(sections)
    ensures var served := Serve(world, request, true);
      && (served.Ok? ==>
            && Servable(world, request, k) && served.value.1 == sections
            && PayloadOf(served.value.0, world.campaigns[k], sections.returned))
      && (served.Err? ==> served.error == NotFound && forall j: nat :: !Servable(world, request, j))
  {
    k := FoundCampaign(world.campaigns, world.grants, request);
    if FindCampaign(world.campaigns, request.tenantId, request.campaignCode).Some? {
      BuildExactly(world.campaigns[k], sections.returned);
      forall j: nat | Meant(world, request, j)
        ensures j == k
      {
      }
    }
  }

  lemma GrantedExactly(world: World, request: Request, i: nat) returns (k: nat)
    requires Governs(world.grants, request.tenantId, i)
    requires GrantFor(world.grants, request.tenantId) == Some(world.grants[i])
    ensures var served := Serve(world, request, true);
      && (served.Ok? ==>
            && GrantsAll(world, request, i) && Servable(world, request, k)
            && SectionsFor(world.grants[i], request.sections, served.value.1.returned, served.value.1.omitted)
            && PayloadOf(served.value.0, world.campaigns[k], served.value.1.returned))
      && (served.Err? ==> FailsWith(world, request, true, served.error))
  {
    k := 0;
    SectionsExactly(world.grants[i], request.sections);
    match Resolution(Sections(world.grants[i]), request.sections)
    case Err(value) =>
      assert Serve(world, request, true) == Err(SectionNotGranted(value));
    case Ok(sections) =>
      assert GrantsAll(world, request, i);
      k := CampaignDecides(world, request, sections);
  }

  lemma ServedExactly(world: World, request: Request, admitted: bool) returns (i: nat, k: nat)
    ensures var served := Serve(world, request, admitted);
      && (served.Ok? ==>
            && admitted && GrantsAll(world, request, i) && Servable(world, request, k)
            && SectionsFor(world.grants[i], request.sections, served.value.1.returned, served.value.1.omitted)
            && PayloadOf(served.value.0, world.campaigns[k], served.value.1.returned))
      && (served.Err? ==> FailsWith(world, request, admitted, served.error))
  {
    i, k := 0, 0;
    if admitted {
      i := ScopeDecides(world, request);
      if Serve(world, request, true) != Err(ScopeDenied) {
        k := GrantedExactly(world, request, i);
      }
    }
  }

  /** A request fails in one way at most, and not at all if there is an answer to it. */
  lemma FailsOneWay(world: World, request: Request, admitted: bool, f: Failure, g: Failure)
    requires FailsWith(world, request, admitted, f)
    ensures FailsWith(world, request, admitted, g) ==> f == g
    ensures admitted ==> forall i: nat, k: nat :: !(GrantsAll(world, request, i) && Servable(world, request, k))
  {
    forall i: nat, k: nat | Governs(world.grants, request.tenantId, i) && Governs(world.grants, request.tenantId, k)
      ensures i == k
    {
      GovernsOne(world.grants, request.tenantId, i, k);
    }
  }

  predicate AreNumbersOf(numbers: seq<int>, sections: seq<Section>) {
    |numbers| == |sections| && forall i :: 0 <= i < |sections| ==> numbers[i] == sections[i].Number()
  }

  lemma {:induction false} NumbersExactly(sections: seq<Section>)
    ensures AreNumbersOf(Numbers(sections), sections)
  {
    if sections == [] {
    } else {
      NumbersExactly(sections[1..]);
    }
  }

  /** An answer, whole or shortened, about the campaign and for the sections that are returned. */
  ghost predicate Answers(host: Host, wire: Wire, campaign: Campaign, presented: string,
                          returned: seq<Section>, omitted: seq<Section>, payload: Payload) {
    && AreNumbersOf(wire.sectionsReturned, returned) && AreNumbersOf(wire.sectionsOmitted, omitted)
    && PayloadOf(payload, campaign, returned)
    && wire.configHash == ConfigHashOf(host, payload) && wire.etag == EtagOf(host, wire.configHash, returned)
    && (wire.NotModified? <==> presented != "" && presented == wire.etag)
    && (wire.Full? ==> wire.payload == payload)
    && (wire.NotModified? ==>
          (wire.campaignId, wire.campaignCode, wire.tenantId) == (campaign.id, campaign.campaignCode, campaign.tenantId))
  }

  /** Grant `i` and campaign `k` are what the request is served by, and the answer follows from them. */
  ghost predicate AnsweredBy(host: Host, world: World, request: Request, presented: string, wire: Wire, i: nat, k: nat) {
    && GrantsAll(world, request, i) && Servable(world, request, k)
    && exists returned, omitted, payload ::
         SectionsFor(world.grants[i], request.sections, returned, omitted)
         && Answers(host, wire, world.campaigns[k], presented, returned, omitted, payload)
  }

  lemma WireExactly(host: Host, campaign: Campaign, payload: Payload, sections: SectionResolution,
                    presented: string, servedAt: int)
    requires PayloadOf(payload, campaign, sections.returned)
    ensures var wire := ToWire(host, payload, sections, presented, servedAt);
      wire.servedAt == servedAt
      && Answers(host, wire, campaign, presented, sections.returned, sections.omitted, payload)
  {
    NumbersExactly(sections.returned);
    NumbersExactly(sections.omitted);
  }

  /**
   For every request: what is answered is the configuration of the campaign that is meant, if it is active
   or paused, with the slices of exactly the sections that the governing grant covers and the request asks
   for. Each failure is given exactly to the requests it is for: the limit first, then the scope, the
   sections, and the campaign.
   */
  lemma AnswerExactly(host: Host, world: World, request: Request, presented: string, admitted: bool, servedAt: int)
    ensures var r := GetCampaignConfig(host, world, request, presented, admitted, servedAt);
      && (r.Ok? ==> r.value.servedAt == servedAt && admitted
                    && exists i: nat, k: nat :: AnsweredBy(host, world, request, presented, r.value, i, k))
      && forall failure :: r == Err(failure) <==> FailsWith(world, request, admitted, failure)
  {
    var served := Serve(world, request, admitted);
    var i, k := ServedExactly(world, request, admitted);
    match served
    case Ok((payload, sections)) =>
      WireExactly(host, world.campaigns[k], payload, sections, presented, servedAt);
      assert AnsweredBy(host, world, request, presented, ToWire(host, payload, sections, presented, servedAt), i, k);
      forall failure | FailsWith(world, request, admitted, failure)
        ensures false
      {
        FailsOneWay(world, request, admitted, failure, failure);
      }
    case Err(error) =>
      forall failure | FailsWith(world, request, admitted, failure)
        ensures failure == error
      {
        FailsOneWay(world, request, admitted, failure, error);
      }
  }
}
