/**
 What the Kafka validator takes from a message body, for every JSON value: the checks it makes, in
 order, the reason it gives, and where each field of an accepted input comes from.
 */
module RewardSchema {
  import opened Common
  import opened RewardEvents

  /** What a body must meet: a text under a key, an optional text, and so on. */
  datatype Check =
    | NonEmptyText(field: Field)
    | PositiveTenant
    | DecimalValue
    | OptionalText(field: Field)
    | ValidDate(field: Field)
    | KnownKind

  const CHECKS: seq<Check> := [
    NonEmptyText(RewardEntryId), NonEmptyText(CorrelationId), PositiveTenant,
    NonEmptyText(CustomerId), NonEmptyText(CampaignCode), NonEmptyText(TrackerCode),
    NonEmptyText(TrackerComponentCode), NonEmptyText(RewardCode), NonEmptyText(RewardCategory),
    NonEmptyText(RewardValue), DecimalValue, OptionalText(RewardValueUnit),
    NonEmptyText(RedeemedAt), ValidDate(RedeemedAt), OptionalText(ExpiresAt), ValidDate(ExpiresAt),
    KnownKind]

  function KindName(kind: RewardKind): string {
    match kind
    case FixedAmount => "FIXED_AMOUNT"
    case Percentage => "PERCENTAGE"
    case Points => "POINTS"
    case Physical => "PHYSICAL"
    case PromoCode => "PROMO_CODE"
  }

  /** The text under a key; "" when there is none. */
  function TextOf(body: Body, f: Field): string {
    if Known(f) in body && body[Known(f)].Str? then body[Known(f)].s else ""
  }

  /** An absent key, a `null` and an empty text all say that there is no value. */
  predicate LeftOut(body: Body, f: Field) {
    Known(f) !in body || body[Known(f)] == Null || body[Known(f)] == Str("")
  }

  predicate TenantIs(body: Body, n: int) {
    Known(TenantId) in body && body[Known(TenantId)] == Num(Finite(n as real))
  }

  ghost predicate Passes(host: Host, body: Body, check: Check) {
    match check
    case NonEmptyText(f) => TextOf(body, f) != ""
    case PositiveTenant => exists n :: n > 0 && TenantIs(body, n)
    case DecimalValue => host.isDecimal(TextOf(body, RewardValue))
    case OptionalText(f) => LeftOut(body, f) || body[Known(f)].Str?
    case ValidDate(f) => TextOf(body, f) == "" || host.parseDate(TextOf(body, f)).Some?
    case KnownKind =>
      LeftOut(body, RewardKindField) || exists kind :: body[Known(RewardKindField)] == Str(KindName(kind))
  }

  /** The reason given when a check is the first to fail. */
  function Complaint(body: Body, check: Check): Reason {
    match check
    case NonEmptyText(f) => Required(f)
    case PositiveTenant => TenantNotPositive
    case DecimalValue => NotDecimal(TextOf(body, RewardValue))
    case OptionalText(f) => if f == RewardValueUnit then UnitNotText else DateNotText(f)
    case ValidDate(f) => BadDate(f, TextOf(body, f))
    case KnownKind => BadKind(if Known(RewardKindField) in body then body[Known(RewardKindField)] else Null)
  }

  ghost predicate FailsFirst(host: Host, body: Body, k: nat) {
    && k < |CHECKS| && !Passes(host, body, CHECKS[k])
    && forall j :: 0 <= j < k ==> Passes(host, body, CHECKS[j])
  }

  ghost predicate AllPass(host: Host, body: Body) {
    forall j :: 0 <= j < |CHECKS| ==> Passes(host, body, CHECKS[j])
  }

  /** `v` is the text under the key, if there is one and it is not empty. */
  predicate Taken(body: Body, f: Field, v: Option<string>) {
    v == if TextOf(body, f) != "" then Some(TextOf(body, f)) else None
  }

  predicate TextsTaken(body: Body, input: ApplyInput) {
    && input.rewardEntryId == TextOf(body, RewardEntryId)
    && input.correlationId == TextOf(body, CorrelationId)
    && input.customerId == TextOf(body, CustomerId)
    && input.campaignCode == TextOf(body, CampaignCode)
    && input.trackerCode == TextOf(body, TrackerCode)
    && input.trackerComponentCode == TextOf(body, TrackerComponentCode)
    && input.rewardCode == TextOf(body, RewardCode)
    && input.rewardCategory == TextOf(body, RewardCategory)
    && input.rewardValue == TextOf(body, RewardValue)
    && input.rewardValueUnit == TextOf(body, RewardValueUnit)
  }

  predicate OptionalTextsTaken(body: Body, input: ApplyInput) {
    && Taken(body, TenantCode, input.tenantCode)
    && Taken(body, CountryCode, input.countryCode)
    && Taken(body, MerchantCode, input.merchantCode)
    && Taken(body, UnitType, input.unitType)
    && Taken(body, UnitCode, input.unitCode)
    && Taken(body, ExternalSystemCode, input.externalSystemCode)
    && Taken(body, ExternalReferenceId, input.externalReferenceId)
    && Taken(body, PromoCodeConfigId, input.promoCodeConfigId)
  }

  ghost predicate OthersTaken(host: Host, body: Body, input: ApplyInput) {
    && input.receivedChannel == KAFKA
    && TenantIs(body, input.tenantId)
    && (forall n: Number :: input.promoCodeConfigVersionNo == Some(n) <==>
          n.Finite? && Known(PromoCodeConfigVersionNo) in body && body[Known(PromoCodeConfigVersionNo)] == Num(n))
    && (forall kind :: input.rewardKind == Some(kind) <==> TextOf(body, RewardKindField) == KindName(kind))
    && host.parseDate(TextOf(body, RedeemedAt)) == Some(input.redeemedAt)
    && input.expiresAt == if TextOf(body, ExpiresAt) == "" then None else host.parseDate(TextOf(body, ExpiresAt))
  }

  /** Every field of the input is what the body has under the key of the same name. */
  ghost predicate Faithful(host: Host, body: Body, input: ApplyInput) {
    TextsTaken(body, input) && OptionalTextsTaken(body, input) && OthersTaken(host, body, input)
  }

  // --- One field at a time -------------------------------------------------------------------------

  lemma TextField(body: Body, f: Field)
    ensures RequireNonEmptyString(body, f) == if TextOf(body, f) != "" then Ok(TextOf(body, f)) else Err(Required(f))
    ensures Taken(body, f, OptionalString(Lookup(body, f)))
    ensures IsAbsent(Lookup(body, f)) <==> LeftOut(body, f)
  {
  }

  lemma TenantField(host: Host, body: Body)
    ensures RequireTenant(body).Ok? <==> Passes(host, body, PositiveTenant)
    ensures RequireTenant(body).Ok? ==> RequireTenant(body).value > 0 && TenantIs(body, RequireTenant(body).value)
    ensures RequireTenant(body).Err? ==> RequireTenant(body).error == TenantNotPositive
  {
    if n :| n > 0 && TenantIs(body, n) {
      assert Lookup(body, TenantId) == Some(Num(Finite(n as real)));
      assert (n as real).Floor == n;
    }
    if RequireTenant(body).Ok? {
      assert TenantIs(body, RequireTenant(body).value);
    }
  }

  lemma KindNames()
    ensures forall kind :: ParseKind(KindName(kind)) == Some(kind) && KindName(kind) != ""
    ensures forall s :: ParseKind(s).Some? ==> s == KindName(ParseKind(s).value)
  {
  }

  lemma KindField(host: Host, body: Body)
    ensures match ParseOptionalKind(body)
      case Ok(kind) =>
        Passes(host, body, KnownKind)
        && forall k :: kind == Some(k) <==> TextOf(body, RewardKindField) == KindName(k)
      case Err(reason) => !Passes(host, body, KnownKind) && reason == Complaint(body, KnownKind)
  {
    KindNames();
  }

  lemma RequiredDateField(host: Host, body: Body, f: Field)
    ensures TextOf(body, f) == "" ==> ParseRequiredDate(host, body, f) == Err(Required(f))
    ensures TextOf(body, f) != "" && host.parseDate(TextOf(body, f)).None? ==>
              ParseRequiredDate(host, body, f) == Err(BadDate(f, TextOf(body, f)))
    ensures TextOf(body, f) != "" && host.parseDate(TextOf(body, f)).Some? ==>
              ParseRequiredDate(host, body, f) == Ok(host.parseDate(TextOf(body, f)).value)
  {
  }

  lemma OptionalDateField(host: Host, body: Body, f: Field)
    requires f != RewardValueUnit
    ensures !Passes(host, body, OptionalText(f)) ==>
              ParseOptionalDate(host, body, f) == Err(Complaint(body, OptionalText(f)))
    ensures Passes(host, body, OptionalText(f)) && !Passes(host, body, ValidDate(f)) ==>
              ParseOptionalDate(host, body, f) == Err(Complaint(body, ValidDate(f)))
    ensures Passes(host, body, OptionalText(f)) && Passes(host, body, ValidDate(f)) ==>
              ParseOptionalDate(host, body, f)
              == Ok(if TextOf(body, f) == "" then None else host.parseDate(TextOf(body, f)))
  {
  }

  lemma UnitField(host: Host, body: Body)
    ensures OptionalRewardValueUnit(body) ==
      if Passes(host, body, OptionalText(RewardValueUnit)) then Ok(TextOf(body, RewardValueUnit)) else Err(UnitNotText)
  {
  }

  // --- The checks in order -------------------------------------------------------------------------

  predicate HeadTaken(body: Body, head: Head) {
    && head.rewardEntryId == TextOf(body, RewardEntryId)
    && head.correlationId == TextOf(body, CorrelationId)
    && head.customerId == TextOf(body, CustomerId)
    && head.campaignCode == TextOf(body, CampaignCode)
    && head.trackerCode == TextOf(body, TrackerCode)
    && head.trackerComponentCode == TextOf(body, TrackerComponentCode)
    && head.rewardCode == TextOf(body, RewardCode)
    && head.rewardCategory == TextOf(body, RewardCategory)
    && head.rewardText == TextOf(body, RewardValue)
    && TenantIs(body, head.tenantId)
  }

  /** The first `k` of the required fields are there. */
  predicate There(body: Body, k: nat) {
    && (k > 0 ==> TextOf(body, RewardEntryId) != "")
    && (k > 1 ==> TextOf(body, CorrelationId) != "")
    && (k > 2 ==> RequireTenant(body).Ok?)
    && (k > 3 ==> TextOf(body, CustomerId) != "")
    && (k > 4 ==> TextOf(body, CampaignCode) != "")
    && (k > 5 ==> TextOf(body, TrackerCode) != "")
    && (k > 6 ==> TextOf(body, TrackerComponentCode) != "")
    && (k > 7 ==> TextOf(body, RewardCode) != "")
    && (k > 8 ==> TextOf(body, RewardCategory) != "")
    && (k > 9 ==> TextOf(body, RewardValue) != "")
  }

  /** One required field more, and what `RequiredFields` says without it. */
  lemma HeadOutcome(body: Body, k: nat)
    requires forall f :: RequireNonEmptyString(body, f) ==
               if TextOf(body, f) != "" then Ok(TextOf(body, f)) else Err(Required(f))
    requires k <= 10 && There(body, k) && (k < 10 ==> !There(body, k + 1))
    ensures k == 10 ==> RequiredFields(body).Ok?
    ensures k < 10 && k != 2 ==> CHECKS[k].NonEmptyText? && RequiredFields(body) == Err(Required(CHECKS[k].field))
    ensures k == 2 ==> RequiredFields(body).Err? && RequiredFields(body).error == RequireTenant(body).error
  {
  }

  lemma HeadFields(body: Body)
    requires forall f :: RequireNonEmptyString(body, f) ==
               if TextOf(body, f) != "" then Ok(TextOf(body, f)) else Err(Required(f))
    requires RequireTenant(body).Ok? ==> TenantIs(body, RequireTenant(body).value)
    requires RequiredFields(body).Ok?
    ensures HeadTaken(body, RequiredFields(body).value)
  {
  }

  lemma TherePasses(host: Host, body: Body, k: nat)
    requires k <= 10 && (RequireTenant(body).Ok? <==> Passes(host, body, PositiveTenant))
    ensures There(body, k) <==> forall j :: 0 <= j < k ==> Passes(host, body, CHECKS[j])
  {
    assert Passes(host, body, CHECKS[0]) <==> TextOf(body, RewardEntryId) != "";
    assert Passes(host, body, CHECKS[1]) <==> TextOf(body, CorrelationId) != "";
    assert Passes(host, body, CHECKS[2]) <==> RequireTenant(body).Ok?;
    assert Passes(host, body, CHECKS[3]) <==> TextOf(body, CustomerId) != "";
    assert Passes(host, body, CHECKS[4]) <==> TextOf(body, CampaignCode) != "";
    assert Passes(host, body, CHECKS[5]) <==> TextOf(body, TrackerCode) != "";
    assert Passes(host, body, CHECKS[6]) <==> TextOf(body, TrackerComponentCode) != "";
    assert Passes(host, body, CHECKS[7]) <==> TextOf(body, RewardCode) != "";
    assert Passes(host, body, CHECKS[8]) <==> TextOf(body, RewardCategory) != "";
    assert Passes(host, body, CHECKS[9]) <==> TextOf(body, RewardValue) != "";
  }

  lemma CountThere(body: Body) returns (k: nat)
    ensures k <= 10 && There(body, k) && (k < 10 ==> !There(body, k + 1))
  {
    k := 0;
    while k < 10 && There(body, k + 1)
      invariant k <= 10 && There(body, k)
    {
      k := k + 1;
    }
  }

  /** The required fields are checks 0 to 9. */
  lemma HeadExactly(host: Host, body: Body) returns (k: nat)
    ensures RequiredFields(body).Ok? ==>
      HeadTaken(body, RequiredFields(body).value) && forall j :: 0 <= j < 10 ==> Passes(host, body, CHECKS[j])
    ensures RequiredFields(body).Err? ==>
      FailsFirst(host, body, k) && RequiredFields(body).error == Complaint(body, CHECKS[k])
  {
    forall f
      ensures RequireNonEmptyString(body, f) ==
        if TextOf(body, f) != "" then Ok(TextOf(body, f)) else Err(Required(f))
    {
      TextField(body, f);
    }
    TenantField(host, body);
    k := CountThere(body);
    HeadOutcome(body, k);
    TherePasses(host, body, k);
    if k < 10 {
      TherePasses(host, body, k + 1);
    } else {
      HeadFields(body);
    }
  }

  ghost predicate TailTaken(host: Host, body: Body, tail: Tail) {
    && tail.rewardValue == TextOf(body, RewardValue)
    && tail.rewardValueUnit == TextOf(body, RewardValueUnit)
    && host.parseDate(TextOf(body, RedeemedAt)) == Some(tail.redeemedAt)
    && tail.expiresAt == (if TextOf(body, ExpiresAt) == "" then None else host.parseDate(TextOf(body, ExpiresAt)))
    && forall kind :: tail.rewardKind == Some(kind) <==> TextOf(body, RewardKindField) == KindName(kind)
  }

  /** The first `k` of the checks after them pass. */
  ghost predicate Sound(host: Host, body: Body, k: nat) {
    && (k > 10 ==> host.isDecimal(TextOf(body, RewardValue)))
    && (k > 11 ==> Passes(host, body, OptionalText(RewardValueUnit)))
    && (k > 12 ==> TextOf(body, RedeemedAt) != "")
    && (k > 13 ==> Passes(host, body, ValidDate(RedeemedAt)))
    && (k > 14 ==> Passes(host, body, OptionalText(ExpiresAt)))
    && (k > 15 ==> Passes(host, body, ValidDate(ExpiresAt)))
    && (k > 16 ==> Passes(host, body, KnownKind))
  }

  lemma TailOutcome(host: Host, body: Body, k: nat)
    requires 10 <= k <= 17 && Sound(host, body, k) && (k < 17 ==> !Sound(host, body, k + 1))
    ensures k == 17 ==> CheckedFields(host, body, TextOf(body, RewardValue)).Ok?
                        && TailTaken(host, body, CheckedFields(host, body, TextOf(body, RewardValue)).value)
    ensures k < 17 ==> CheckedFields(host, body, TextOf(body, RewardValue)) == Err(Complaint(body, CHECKS[k]))
  {
    UnitField(host, body);
    RequiredDateField(host, body, RedeemedAt);
    OptionalDateField(host, body, ExpiresAt);
    KindField(host, body);
  }

  lemma SoundPasses(host: Host, body: Body, k: nat)
    requires 10 <= k <= 17
    ensures Sound(host, body, k) <==> forall j :: 10 <= j < k ==> Passes(host, body, CHECKS[j])
  {
    assert Passes(host, body, CHECKS[10]) <==> host.isDecimal(TextOf(body, RewardValue));
    assert Passes(host, body, CHECKS[11]) <==> Passes(host, body, OptionalText(RewardValueUnit));
    assert Passes(host, body, CHECKS[12]) <==> TextOf(body, RedeemedAt) != "";
    assert Passes(host, body, CHECKS[13]) <==> Passes(host, body, ValidDate(RedeemedAt));
    assert Passes(host, body, CHECKS[14]) <==> Passes(host, body, OptionalText(ExpiresAt));
    assert Passes(host, body, CHECKS[15]) <==> Passes(host, body, ValidDate(ExpiresAt));
    assert Passes(host, body, CHECKS[16]) <==> Passes(host, body, KnownKind);
  }

  lemma CountSound(host: Host, body: Body) returns (k: nat)
    ensures 10 <= k <= 17 && Sound(host, body, k) && (k < 17 ==> !Sound(host, body, k + 1))
  {
    k := 10;
    while k < 17 && Sound(host, body, k + 1)
      invariant 10 <= k <= 17 && Sound(host, body, k)
    {
      k := k + 1;
    }
  }

  /** The fields that are checked after them are checks 10 to 16. */
  lemma TailExactly(host: Host, body: Body) returns (k: nat)
    requires forall j :: 0 <= j < 10 ==> Passes(host, body, CHECKS[j])
    ensures var checked := CheckedFields(host, body, TextOf(body, RewardValue));
      && (checked.Ok? ==> TailTaken(host, body, checked.value) && AllPass(host, body))
      && (checked.Err? ==> FailsFirst(host, body, k) && checked.error == Complaint(body, CHECKS[k]))
  {
    k := CountSound(host, body);
    TailOutcome(host, body, k);
    SoundPasses(host, body, k);
    if k < 17 { SoundPasses(host, body, k + 1); }
  }

  lemma InputExactly(host: Host, body: Body, head: Head, tail: Tail)
    requires HeadTaken(body, head) && TailTaken(host, body, tail)
    ensures Faithful(host, body, InputOf(body, head, tail))
  {
    forall f
      ensures Taken(body, f, OptionalString(Lookup(body, f)))
    {
      TextField(body, f);
    }
  }

  /**
   For every JSON value: an object is accepted if and only if it passes every check, and then each field
   of the input is what the body has under the key of the same name; otherwise the reason is that of the
   first check it fails. Whatever is no object is rejected as such.
   */
  lemma ParseExactly(host: Host, payload: Json)
    ensures !payload.Obj? ==> ParseMessage(host, payload) == Err(NotAnObject)
    ensures payload.Obj? ==> (ParseMessage(host, payload).Ok? <==> AllPass(host, payload.fields))
    ensures payload.Obj? && ParseMessage(host, payload).Ok? ==>
              Faithful(host, payload.fields, ParseMessage(host, payload).value)
    ensures payload.Obj? ==> forall k: nat :: FailsFirst(host, payload.fields, k) ==>
              ParseMessage(host, payload) == Err(Complaint(payload.fields, CHECKS[k]))
  {
    if payload.Obj? {
      var k := BodyExactly(host, payload.fields);
      forall i: nat | FailsFirst(host, payload.fields, i)
        ensures ParseMessage(host, payload) == Err(Complaint(payload.fields, CHECKS[i]))
      {
        FirstIsOne(host, payload.fields, i, k);
      }
    }
  }

  lemma FirstIsOne(host: Host, body: Body, i: nat, k: nat)
    requires FailsFirst(host, body, i)
    ensures !AllPass(host, body) && (FailsFirst(host, body, k) ==> i == k)
  {
  }

  lemma BodyExactly(host: Host, body: Body) returns (k: nat)
    ensures ParseBody(host, body).Ok? ==> AllPass(host, body) && Faithful(host, body, ParseBody(host, body).value)
    ensures ParseBody(host, body).Err? ==>
              FailsFirst(host, body, k) && ParseBody(host, body).error == Complaint(body, CHECKS[k])
  {
    var head := RequiredFields(body);
    k := HeadExactly(host, body);
    if head.Ok? {
      var tail := CheckedFields(host, body, head.value.rewardText);
      k := TailExactly(host, body);
      if tail.Ok? {
        InputExactly(host, body, head.value, tail.value);
      }
    }
  }

  // --- What makes no difference --------------------------------------------------------------------

  /** A key without a value: absent, or `null`. */
  predicate NoValue(v: Option<Json>) {
    v == None || v == Some(Null)
  }

  /** The bodies say the same, `null` standing for an absent key; other keys may differ. */
  predicate SaysTheSame(body: Body, body': Body, f: Field) {
    Lookup(body, f) == Lookup(body', f) || (NoValue(Lookup(body, f)) && NoValue(Lookup(body', f)))
  }

  lemma SameField(host: Host, body: Body, body': Body, f: Field)
    requires SaysTheSame(body, body', f)
    ensures RequireNonEmptyString(body, f) == RequireNonEmptyString(body', f)
    ensures OptionalString(Lookup(body, f)) == OptionalString(Lookup(body', f))
    ensures OptionalNumber(Lookup(body, f)) == OptionalNumber(Lookup(body', f))
    ensures ParseRequiredDate(host, body, f) == ParseRequiredDate(host, body', f)
    ensures ParseOptionalDate(host, body, f) == ParseOptionalDate(host, body', f)
    ensures f == TenantId ==> RequireTenant(body) == RequireTenant(body')
    ensures f == RewardValueUnit ==> OptionalRewardValueUnit(body) == OptionalRewardValueUnit(body')
    ensures f == RewardKindField ==> ParseOptionalKind(body) == ParseOptionalKind(body')
  {
  }

  /** Every field is read alike from the two bodies. */
  ghost predicate ReadAlike(host: Host, body: Body, body': Body) {
    && (forall f :: RequireNonEmptyString(body, f) == RequireNonEmptyString(body', f))
    && (forall f :: OptionalString(Lookup(body, f)) == OptionalString(Lookup(body', f)))
    && (forall f :: ParseRequiredDate(host, body, f) == ParseRequiredDate(host, body', f))
    && (forall f :: ParseOptionalDate(host, body, f) == ParseOptionalDate(host, body', f))
    && OptionalNumber(Lookup(body, PromoCodeConfigVersionNo)) == OptionalNumber(Lookup(body', PromoCodeConfigVersionNo))
    && RequireTenant(body) == RequireTenant(body')
    && OptionalRewardValueUnit(body) == OptionalRewardValueUnit(body')
    && ParseOptionalKind(body) == ParseOptionalKind(body')
  }

  lemma SameHead(host: Host, body: Body, body': Body)
    requires ReadAlike(host, body, body')
    ensures RequiredFields(body) == RequiredFields(body')
  {
  }

  lemma SameTail(host: Host, body: Body, body': Body, rewardText: string)
    requires ReadAlike(host, body, body')
    ensures CheckedFields(host, body, rewardText) == CheckedFields(host, body', rewardText)
  {
  }

  lemma SameInput(host: Host, body: Body, body': Body, head: Head, tail: Tail)
    requires ReadAlike(host, body, body')
    ensures InputOf(body, head, tail) == InputOf(body', head, tail)
  {
  }

  lemma FieldsReadAlike(host: Host, body: Body, body': Body)
    requires forall f :: SaysTheSame(body, body', f)
    ensures ReadAlike(host, body, body')
  {
    forall f
      ensures RequireNonEmptyString(body, f) == RequireNonEmptyString(body', f)
      ensures OptionalString(Lookup(body, f)) == OptionalString(Lookup(body', f))
      ensures ParseRequiredDate(host, body, f) == ParseRequiredDate(host, body', f)
      ensures ParseOptionalDate(host, body, f) == ParseOptionalDate(host, body', f)
    {
      SameField(host, body, body', f);
    }
    SameField(host, body, body', TenantId);
    SameField(host, body, body', RewardValueUnit);
    SameField(host, body, body', RewardKindField);
    SameField(host, body, body', PromoCodeConfigVersionNo);
  }

  /** Producers send `null` for a value they have not got; it reads like an absent key, in every field. */
  lemma NullIsAbsent(host: Host, body: Body, body': Body)
    requires forall f :: SaysTheSame(body, body', f)
    ensures ParseMessage(host, Obj(body)) == ParseMessage(host, Obj(body'))
  {
    FieldsReadAlike(host, body, body');
    SameHead(host, body, body');
    var head := RequiredFields(body);
    if head.Ok? {
      SameTail(host, body, body', head.value.rewardText);
      var tail := CheckedFields(host, body, head.value.rewardText);
      if tail.Ok? {
        SameInput(host, body, body', head.value, tail.value);
      }
    }
  }
}
