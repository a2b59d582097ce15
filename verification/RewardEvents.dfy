/**
 The reward-tracking event and its two validators: the Kafka one over a parsed JSON body and the
 gRPC one over a decoded request. Fields and JSON keys are names; `host` holds the platform
 functions whose insides do not matter here.
 */
module RewardEvents {
  import opened Common

  datatype Field =
    | RewardEntryId | CorrelationId | TenantId | TenantCode | CountryCode | CustomerId
    | CampaignCode | TrackerCode | TrackerComponentCode | MerchantCode | RewardCode
    | RewardCategory | RewardKindField | UnitType | UnitCode | RewardValue | RewardValueUnit
    | ExternalSystemCode | ExternalReferenceId | PromoCodeConfigId | PromoCodeConfigVersionNo
    | RedeemedAt | ExpiresAt

  /** The keys of a JSON object: the event's fields, those the dead-letter record adds, the rest. */
  datatype Key = Known(field: Field) | CustomerIdHash | ErrorText | FailedAt | RawText | Other(name: string)

  /** The numbers `JSON.parse` can produce; an overflowing literal becomes infinite. */
  datatype Number = Finite(r: real) | Infinite(positive: bool)

  datatype Json =
    | Null
    | Bool(b: bool)
    | Num(n: Number)
    | Str(s: string)
    | Arr(items: seq<Json>)
    | Obj(fields: map<Key, Json>)

  type Instant = int

  /** `JSON.parse`, `new Date(text)`, the decimal test, the customer hash, and a number's JSON text. */
  datatype Host = Host(
    parseJson: string -> Option<Json>,
    parseDate: string -> Option<Instant>,
    isDecimal: string -> bool,
    hash: string -> string,
    numberText: Number -> string)

  datatype RewardKind = FixedAmount | Percentage | Points | Physical | PromoCode

  datatype Channel = KAFKA | GRPC

  datatype ApplyInput = ApplyInput(
    rewardEntryId: string,
    correlationId: string,
    receivedChannel: Channel,
    tenantId: int,
    tenantCode: Option<string>,
    countryCode: Option<string>,
    customerId: string,
    campaignCode: string,
    trackerCode: string,
    trackerComponentCode: string,
    merchantCode: Option<string>,
    rewardCode: string,
    rewardCategory: string,
    rewardKind: Option<RewardKind>,
    unitType: Option<string>,
    unitCode: Option<string>,
    rewardValue: string,
    rewardValueUnit: string,
    externalSystemCode: Option<string>,
    externalReferenceId: Option<string>,
    promoCodeConfigId: Option<string>,
    promoCodeConfigVersionNo: Option<Number>,
    redeemedAt: Instant,
    expiresAt: Option<Instant>)

  /** Why a message is rejected; the two adapters word these differently. */
  datatype Reason =
    | NotAnObject
    | Required(field: Field)
    | TenantNotPositive
    | NotDecimal(text: string)
    | UnitNotText
    | DateNotText(field: Field)
    | BadDate(field: Field, text: string)
    | BadKind(given: Json)

  function ParseKind(s: string): Option<RewardKind> {
    if s == "FIXED_AMOUNT" then Some(FixedAmount)
    else if s == "PERCENTAGE" then Some(Percentage)
    else if s == "POINTS" then Some(Points)
    else if s == "PHYSICAL" then Some(Physical)
    else if s == "PROMO_CODE" then Some(PromoCode)
    else None
  }

  // --- The Kafka validator -------------------------------------------------------------------------

  type Body = map<Key, Json>

  /** `body[field]`, `None` standing for `undefined`. */
  function Lookup(body: Body, field: Field): Option<Json> {
    if Known(field) in body then Some(body[Known(field)]) else None
  }

  predicate IsNonEmptyString(v: Option<Json>) {
    v.Some? && v.value.Str? && v.value.s != ""
  }

  function OptionalString(v: Option<Json>): Option<string> {
    if IsNonEmptyString(v) then Some(v.value.s) else None
  }

  function OptionalNumber(v: Option<Json>): Option<Number> {
    if v.Some? && v.value.Num? && v.value.n.Finite? then Some(v.value.n) else None
  }

  function RequireNonEmptyString(body: Body, field: Field): Result<string, Reason> {
    if IsNonEmptyString(Lookup(body, field)) then Ok(Lookup(body, field).value.s)
    else Err(Required(field))
  }

  function RequireTenant(body: Body): Result<int, Reason> {
    match Lookup(body, TenantId)
    case Some(Num(Finite(r))) =>
      if r.Floor as real == r && r > 0.0 then Ok(r.Floor) else Err(TenantNotPositive)
    case _ => Err(TenantNotPositive)
  }

  predicate IsAbsent(v: Option<Json>) {
    v == None || v == Some(Null) || v == Some(Str(""))
  }

  function OptionalRewardValueUnit(body: Body): Result<string, Reason> {
    var v := Lookup(body, RewardValueUnit);
    if IsAbsent(v) then Ok("")
    else if !v.value.Str? then Err(UnitNotText)
    else Ok(v.value.s)
  }

  function ParseRequiredDate(host: Host, body: Body, field: Field): Result<Instant, Reason> {
    var raw :- RequireNonEmptyString(body, field);
    match host.parseDate(raw)
    case Some(at) => Ok(at)
    case None => Err(BadDate(field, raw))
  }

  function ParseOptionalDate(host: Host, body: Body, field: Field): Result<Option<Instant>, Reason> {
    var v := Lookup(body, field);
    if IsAbsent(v) then Ok(None)
    else if !v.value.Str? then Err(DateNotText(field))
    else
      match host.parseDate(v.value.s)
      case Some(at) => Ok(Some(at))
      case None => Err(BadDate(field, v.value.s))
  }

  function ParseOptionalKind(body: Body): Result<Option<RewardKind>, Reason> {
    var v := Lookup(body, RewardKindField);
    if IsAbsent(v) then Ok(None)
    else if v.value.Str? && ParseKind(v.value.s).Some? then Ok(ParseKind(v.value.s))
    else Err(BadKind(v.value))
  }

  function RequireDecimal(host: Host, text: string): Result<string, Reason> {
    if host.isDecimal(text) then Ok(text) else Err(NotDecimal(text))
  }

  function ParseMessage(host: Host, payload: Json): Result<ApplyInput, Reason> {
    if !payload.Obj? then Err(NotAnObject) else ParseBody(host, payload.fields)
  }

  /** The fields that come first and must be present. */
  datatype Head = Head(
    rewardEntryId: string, correlationId: string, tenantId: int, customerId: string,
    campaignCode: string, trackerCode: string, trackerComponentCode: string,
    rewardCode: string, rewardCategory: string, rewardText: string)

  function RequiredFields(body: Body): Result<Head, Reason> {
    var rewardEntryId :- RequireNonEmptyString(body, RewardEntryId);
    var correlationId :- RequireNonEmptyString(body, CorrelationId);
    var tenantId :- RequireTenant(body);
    var customerId :- RequireNonEmptyString(body, CustomerId);
    var campaignCode :- RequireNonEmptyString(body, CampaignCode);
    var trackerCode :- RequireNonEmptyString(body, TrackerCode);
    var trackerComponentCode :- RequireNonEmptyString(body, TrackerComponentCode);
    var rewardCode :- RequireNonEmptyString(body, RewardCode);
    var rewardCategory :- RequireNonEmptyString(body, RewardCategory);
    var rewardText :- RequireNonEmptyString(body, RewardValue);
    Ok(Head(rewardEntryId, correlationId, tenantId, customerId, campaignCode, trackerCode,
            trackerComponentCode, rewardCode, rewardCategory, rewardText))
  }

  /** The fields that are checked after them. */
  datatype Tail = Tail(rewardValue: string, rewardValueUnit: string, redeemedAt: Instant,
                       expiresAt: Option<Instant>, rewardKind: Option<RewardKind>)

  function CheckedFields(host: Host, body: Body, rewardText: string): Result<Tail, Reason> {
    var rewardValue :- RequireDecimal(host, rewardText);
    var rewardValueUnit :- OptionalRewardValueUnit(body);
    var redeemedAt :- ParseRequiredDate(host, body, RedeemedAt);
    var expiresAt :- ParseOptionalDate(host, body, ExpiresAt);
    var rewardKind :- ParseOptionalKind(body);
    Ok(Tail(rewardValue, rewardValueUnit, redeemedAt, expiresAt, rewardKind))
  }

  function InputOf(body: Body, head: Head, tail: Tail): ApplyInput {
    ApplyInput(
      head.rewardEntryId, head.correlationId, KAFKA, head.tenantId,
      OptionalString(Lookup(body, TenantCode)),
      OptionalString(Lookup(body, CountryCode)),
      head.customerId, head.campaignCode, head.trackerCode, head.trackerComponentCode,
      OptionalString(Lookup(body, MerchantCode)),
      head.rewardCode, head.rewardCategory, tail.rewardKind,
      OptionalString(Lookup(body, UnitType)),
      OptionalString(Lookup(body, UnitCode)),
      tail.rewardValue, tail.rewardValueUnit,
      OptionalString(Lookup(body, ExternalSystemCode)),
      OptionalString(Lookup(body, ExternalReferenceId)),
      OptionalString(Lookup(body, PromoCodeConfigId)),
      OptionalNumber(Lookup(body, PromoCodeConfigVersionNo)),
      tail.redeemedAt, tail.expiresAt)
  }

  function ParseBody(host: Host, body: Body): Result<ApplyInput, Reason> {
    var head :- RequiredFields(body);
    var tail :- CheckedFields(host, body, head.rewardText);
    Ok(InputOf(body, head, tail))
  }

  // --- The gRPC validator --------------------------------------------------------------------------

  /** A decoded request: the text fields that are present, and the two 32-bit integer fields. */
  datatype Request = Request(text: map<Field, string>, tenantId: Option<int>, versionNo: Option<int>) {
    ghost predicate WellTyped() {
      TenantId !in text && PromoCodeConfigVersionNo !in text
    }
  }

  function RequireNonEmpty(request: Request, field: Field): Result<string, Reason> {
    if field in request.text && request.text[field] != "" then Ok(request.text[field])
    else Err(Required(field))
  }

  function EmptyToNull(request: Request, field: Field): Option<string> {
    if field in request.text && request.text[field] != "" then Some(request.text[field]) else None
  }

  function ZeroToNull(v: Option<int>): Option<Number> {
    if v.None? || v.value == 0 then None else Some(Finite(v.value as real))
  }

  function RequirePositiveTenant(request: Request): Result<int, Reason> {
    if request.tenantId.Some? && request.tenantId.value > 0 then Ok(request.tenantId.value)
    else Err(TenantNotPositive)
  }

  function RequiredRpcDate(host: Host, request: Request, field: Field): Result<Instant, Reason> {
    var raw :- RequireNonEmpty(request, field);
    match host.parseDate(raw)
    case Some(at) => Ok(at)
    case None => Err(BadDate(field, raw))
  }

  function OptionalRpcDate(host: Host, request: Request, field: Field): Result<Option<Instant>, Reason> {
    if EmptyToNull(request, field).None? then Ok(None)
    else
      match host.parseDate(request.text[field])
      case Some(at) => Ok(Some(at))
      case None => Err(BadDate(field, request.text[field]))
  }

  function RpcRewardKind(request: Request): Result<Option<RewardKind>, Reason> {
    match EmptyToNull(request, RewardKindField)
    case None => Ok(None)
    case Some(s) => if ParseKind(s).Some? then Ok(ParseKind(s)) else Err(BadKind(Str(s)))
  }

  function RequiredRpcFields(request: Request): Result<Head, Reason> {
    var rewardEntryId :- RequireNonEmpty(request, RewardEntryId);
    var correlationId :- RequireNonEmpty(request, CorrelationId);
    var tenantId :- RequirePositiveTenant(request);
    var customerId :- RequireNonEmpty(request, CustomerId);
    var campaignCode :- RequireNonEmpty(request, CampaignCode);
    var trackerCode :- RequireNonEmpty(request, TrackerCode);
    var trackerComponentCode :- RequireNonEmpty(request, TrackerComponentCode);
    var rewardCode :- RequireNonEmpty(request, RewardCode);
    var rewardCategory :- RequireNonEmpty(request, RewardCategory);
    var rewardText :- RequireNonEmpty(request, RewardValue);
    Ok(Head(rewardEntryId, correlationId, tenantId, customerId, campaignCode, trackerCode,
            trackerComponentCode, rewardCode, rewardCategory, rewardText))
  }

  function CheckedRpcFields(host: Host, request: Request, rewardText: string): Result<Tail, Reason> {
    var rewardValue :- RequireDecimal(host, rewardText);
    var rewardValueUnit := if RewardValueUnit in request.text then request.text[RewardValueUnit] else "";
    var redeemedAt :- RequiredRpcDate(host, request, RedeemedAt);
    var expiresAt :- OptionalRpcDate(host, request, ExpiresAt);
    var rewardKind :- RpcRewardKind(request);
    Ok(Tail(rewardValue, rewardValueUnit, redeemedAt, expiresAt, rewardKind))
  }

  function RpcInputOf(request: Request, head: Head, tail: Tail): ApplyInput {
    ApplyInput(
      head.rewardEntryId, head.correlationId, GRPC, head.tenantId,
      EmptyToNull(request, TenantCode),
      EmptyToNull(request, CountryCode),
      head.customerId, head.campaignCode, head.trackerCode, head.trackerComponentCode,
      EmptyToNull(request, MerchantCode),
      head.rewardCode, head.rewardCategory, tail.rewardKind,
      EmptyToNull(request, UnitType),
      EmptyToNull(request, UnitCode),
      tail.rewardValue, tail.rewardValueUnit,
      EmptyToNull(request, ExternalSystemCode),
      EmptyToNull(request, ExternalReferenceId),
      EmptyToNull(request, PromoCodeConfigId),
      ZeroToNull(request.versionNo),
      tail.redeemedAt, tail.expiresAt)
  }

  function ToApplyInput(host: Host, request: Request): Result<ApplyInput, Reason> {
    var head :- RequiredRpcFields(request);
    var tail :- CheckedRpcFields(host, request, head.rewardText);
    Ok(RpcInputOf(request, head, tail))
  }

  // --- Parity --------------------------------------------------------------------------------------

  /**
   `body` is a JSON rendering of `request`: every field says the same thing, where an empty text may
   be left out or kept. A zero version number is left out exactly when `dropsZero`. Keys the
   validator does not read may hold anything.
   */
  ghost predicate Renders(body: Body, request: Request, dropsZero: bool) {
    && (forall f | IsText(f) :: RendersText(body, request, f))
    && Lookup(body, TenantId) == RenderInt(request.tenantId)
    && Lookup(body, PromoCodeConfigVersionNo)
       == RenderInt(if dropsZero && request.versionNo == Some(0) then None else request.versionNo)
  }

  ghost predicate RendersText(body: Body, request: Request, f: Field) {
    if f in request.text && request.text[f] != "" then Lookup(body, f) == Some(Str(request.text[f]))
    else if f in request.text then Lookup(body, f) == None || Lookup(body, f) == Some(Str(""))
    else Lookup(body, f) == None
  }

  /** The rendering the wire contract asks for: empty texts and a zero version number omitted. */
  function Rendering(request: Request): Body {
    var text := map f | f in request.text && request.text[f] != "" :: Known(f) := Str(request.text[f]);
    var withTenant :=
      if request.tenantId.Some? then text[Known(TenantId) := RenderInt(request.tenantId).value] else text;
    if request.versionNo.None? || request.versionNo == Some(0) then withTenant
    else withTenant[Known(PromoCodeConfigVersionNo) := RenderInt(request.versionNo).value]
  }

  lemma RenderingRenders(request: Request)
    requires request.WellTyped()
    ensures Renders(Rendering(request), request, true)
  {
    forall f | IsText(f)
      ensures RendersText(Rendering(request), request, f)
    {
      assert Known(f) in Rendering(request) <==> f in request.text && request.text[f] != "";
    }
  }

  function RenderInt(v: Option<int>): Option<Json> {
    match v
    case None => None
    case Some(n) => Some(Num(Finite(n as real)))
  }

  /** Field by field, the helpers of the two adapters agree on a rendering. */
  lemma TextParity(host: Host, body: Body, request: Request, f: Field)
    requires RendersText(body, request, f)
    ensures RequireNonEmptyString(body, f) == RequireNonEmpty(request, f)
    ensures OptionalString(Lookup(body, f)) == EmptyToNull(request, f)
    ensures ParseRequiredDate(host, body, f) == RequiredRpcDate(host, request, f)
    ensures ParseOptionalDate(host, body, f) == OptionalRpcDate(host, request, f)
  {
  }

  lemma TenantParity(body: Body, request: Request)
    requires Lookup(body, TenantId) == RenderInt(request.tenantId)
    ensures RequireTenant(body) == RequirePositiveTenant(request)
  {
    if request.tenantId.Some? {
      assert (request.tenantId.value as real).Floor == request.tenantId.value;
    }
  }

  /** What the Kafka adapter makes of a version number rendered by `Renders`. */
  function RenderedVersion(request: Request, dropsZero: bool): Option<Number> {
    if request.versionNo == Some(0) && !dropsZero then Some(Finite(0.0))
    else ZeroToNull(request.versionNo)
  }

  /** The gRPC outcome as the Kafka adapter would report it. */
  function AsKafka(r: Result<ApplyInput, Reason>, versionNo: Option<Number>): Result<ApplyInput, Reason> {
    match r
    case Err(reason) => Err(reason)
    case Ok(input) => Ok(input.(receivedChannel := KAFKA, promoCodeConfigVersionNo := versionNo))
  }

  predicate IsText(f: Field) {
    f != TenantId && f != PromoCodeConfigVersionNo
  }

  /** Every field but the two numbers is read alike. */
  ghost predicate FieldsAgree(host: Host, body: Body, request: Request) {
    && (forall f | IsText(f) :: RequireNonEmptyString(body, f) == RequireNonEmpty(request, f))
    && (forall f | IsText(f) :: OptionalString(Lookup(body, f)) == EmptyToNull(request, f))
    && (forall f | IsText(f) :: ParseRequiredDate(host, body, f) == RequiredRpcDate(host, request, f))
    && (forall f | IsText(f) :: ParseOptionalDate(host, body, f) == OptionalRpcDate(host, request, f))
  }

  lemma UnitParity(body: Body, request: Request)
    requires RendersText(body, request, RewardValueUnit)
    ensures OptionalRewardValueUnit(body)
         == Ok(if RewardValueUnit in request.text then request.text[RewardValueUnit] else "")
  {
  }

  lemma KindParity(body: Body, request: Request)
    requires RendersText(body, request, RewardKindField)
    ensures ParseOptionalKind(body) == RpcRewardKind(request)
  {
  }

  lemma TextsAgree(host: Host, request: Request, body: Body)
    requires forall f | IsText(f) :: RendersText(body, request, f)
    ensures FieldsAgree(host, body, request)
  {
    forall f | IsText(f)
      ensures RequireNonEmptyString(body, f) == RequireNonEmpty(request, f)
      ensures OptionalString(Lookup(body, f)) == EmptyToNull(request, f)
      ensures ParseRequiredDate(host, body, f) == RequiredRpcDate(host, request, f)
      ensures ParseOptionalDate(host, body, f) == OptionalRpcDate(host, request, f)
    {
      TextParity(host, body, request, f);
    }
  }

  lemma RenderingAgrees(host: Host, request: Request, body: Body, dropsZero: bool)
    requires request.WellTyped() && Renders(body, request, dropsZero)
    ensures FieldsAgree(host, body, request)
    ensures RequireTenant(body) == RequirePositiveTenant(request)
    ensures OptionalRewardValueUnit(body)
         == Ok(if RewardValueUnit in request.text then request.text[RewardValueUnit] else "")
    ensures ParseOptionalKind(body) == RpcRewardKind(request)
    ensures OptionalNumber(Lookup(body, PromoCodeConfigVersionNo)) == RenderedVersion(request, dropsZero)
  {
    TextsAgree(host, request, body);
    TenantParity(body, request);
    UnitParity(body, request);
    KindParity(body, request);
  }

  lemma HeadParity(host: Host, request: Request, body: Body)
    requires FieldsAgree(host, body, request) && RequireTenant(body) == RequirePositiveTenant(request)
    ensures RequiredFields(body) == RequiredRpcFields(request)
  {
  }

  lemma TailParity(host: Host, request: Request, body: Body, rewardText: string)
    requires FieldsAgree(host, body, request)
    requires OptionalRewardValueUnit(body)
          == Ok(if RewardValueUnit in request.text then request.text[RewardValueUnit] else "")
    requires ParseOptionalKind(body) == RpcRewardKind(request)
    ensures CheckedFields(host, body, rewardText) == CheckedRpcFields(host, request, rewardText)
  {
  }

  lemma InputParity(host: Host, request: Request, body: Body, dropsZero: bool, head: Head, tail: Tail)
    requires FieldsAgree(host, body, request)
    requires OptionalNumber(Lookup(body, PromoCodeConfigVersionNo)) == RenderedVersion(request, dropsZero)
    ensures InputOf(body, head, tail)
         == RpcInputOf(request, head, tail).(receivedChannel := KAFKA,
              promoCodeConfigVersionNo := RenderedVersion(request, dropsZero))
  {
  }

  /**
   Transport parity, for every rendering. Both adapters reject, for the same reason at the same
   first failing field, or both accept, and then the inputs differ in nothing but the channel and
   the version number of a rendered zero.
   */
  lemma Parity(host: Host, request: Request, body: Body, dropsZero: bool)
    requires request.WellTyped() && Renders(body, request, dropsZero)
    ensures ParseMessage(host, Obj(body))
         == AsKafka(ToApplyInput(host, request), RenderedVersion(request, dropsZero))
    ensures ToApplyInput(host, request).Ok? ==> ToApplyInput(host, request).value.receivedChannel == GRPC
  {
    RenderingAgrees(host, request, body, dropsZero);
    HeadParity(host, request, body);
    var head := RequiredFields(body);
    if head.Ok? {
      TailParity(host, request, body, head.value.rewardText);
      var tail := CheckedFields(host, body, head.value.rewardText);
      if tail.Ok? {
        InputParity(host, request, body, dropsZero, head.value, tail.value);
      }
    }
  }

  /** The zero version number is the whole difference: parity is exact just when none is rendered. */
  lemma ParityExact(host: Host, request: Request, body: Body, dropsZero: bool)
    requires request.WellTyped() && Renders(body, request, dropsZero)
    requires ToApplyInput(host, request).Ok?
    ensures ParseMessage(host, Obj(body)) == Ok(ToApplyInput(host, request).value.(receivedChannel := KAFKA))
            <==> dropsZero || request.versionNo != Some(0)
  {
    Parity(host, request, body, dropsZero);
  }

  /** For the canonical rendering parity is exact: the two inputs differ in the channel alone. */
  lemma RenderingParity(host: Host, request: Request)
    requires request.WellTyped()
    ensures ParseMessage(host, Obj(Rendering(request))) ==
      match ToApplyInput(host, request) {
        case Err(reason) => Err(reason)
        case Ok(input) => Ok(input.(receivedChannel := KAFKA))
      }
  {
    RenderingRenders(request);
    Parity(host, request, Rendering(request), true);
  }

  /** A request with all its texts but the reward kind, which the platform functions take. */
  ghost predicate Full(host: Host, request: Request) {
    && (forall f | IsText(f) :: f in request.text <==> f != RewardKindField)
    && (forall f | f in request.text :: IsText(f) && request.text[f] != "")
    && request.tenantId.Some? && request.tenantId.value > 0
    && (forall t :: host.isDecimal(t)) && (forall t :: host.parseDate(t).Some?)
  }

  lemma FullText(host: Host, request: Request, f: Field)
    requires Full(host, request) && IsText(f) && f != RewardKindField
    ensures RequireNonEmpty(request, f).Ok?
  {
  }

  lemma FullHead(host: Host, request: Request)
    requires Full(host, request)
    ensures RequiredRpcFields(request).Ok?
  {
    forall f | IsText(f) && f != RewardKindField
      ensures RequireNonEmpty(request, f).Ok?
    {
      FullText(host, request, f);
    }
    HeadFromTexts(request);
  }

  lemma HeadFromTexts(request: Request)
    requires forall f | IsText(f) && f != RewardKindField :: RequireNonEmpty(request, f).Ok?
    requires RequirePositiveTenant(request).Ok?
    ensures RequiredRpcFields(request).Ok?
  {
  }

  lemma FullTail(host: Host, request: Request, rewardText: string)
    requires Full(host, request)
    ensures CheckedRpcFields(host, request, rewardText).Ok?
  {
    FullText(host, request, RedeemedAt);
    assert RequiredRpcDate(host, request, RedeemedAt).Ok? && OptionalRpcDate(host, request, ExpiresAt).Ok?;
    assert RpcRewardKind(request) == Ok(None);
  }

  lemma CheckedIsAccepted(host: Host, request: Request)
    requires RequiredRpcFields(request).Ok?
    requires CheckedRpcFields(host, request, RequiredRpcFields(request).value.rewardText).Ok?
    ensures ToApplyInput(host, request).Ok?
    ensures ToApplyInput(host, request).value.promoCodeConfigVersionNo == ZeroToNull(request.versionNo)
  {
  }

  lemma FullIsAccepted(host: Host, request: Request)
    requires Full(host, request)
    ensures ToApplyInput(host, request).Ok?
    ensures ToApplyInput(host, request).value.promoCodeConfigVersionNo == ZeroToNull(request.versionNo)
  {
    FullHead(host, request);
    FullTail(host, request, RequiredRpcFields(request).value.rewardText);
    CheckedIsAccepted(host, request);
  }

  /** The canonical rendering with the zero version number put in. */
  lemma ZeroRenders(request: Request)
    requires request.WellTyped() && request.versionNo == Some(0)
    ensures Renders(Rendering(request)[Known(PromoCodeConfigVersionNo) := Num(Finite(0.0))], request, false)
  {
    var body := Rendering(request)[Known(PromoCodeConfigVersionNo) := Num(Finite(0.0))];
    RenderingRenders(request);
    forall f | IsText(f)
      ensures RendersText(body, request, f)
    {
      assert RendersText(Rendering(request), request, f);
    }
  }

  /** Such a request, with a rendered zero version number, is accepted by both and read differently. */
  lemma ZeroVersionDiffers() returns (host: Host, request: Request, body: Body)
    ensures request.WellTyped() && Renders(body, request, false)
    ensures ToApplyInput(host, request).Ok? && ParseMessage(host, Obj(body)).Ok?
    ensures ToApplyInput(host, request).value.promoCodeConfigVersionNo == None
    ensures ParseMessage(host, Obj(body)).value.promoCodeConfigVersionNo == Some(Finite(0.0))
  {
    host := Host(_ => None, _ => Some(0), _ => true, text => text, _ => "0");
    request := Request(map f: Field | IsText(f) && f != RewardKindField :: "x", Some(1), Some(0));
    body := Rendering(request)[Known(PromoCodeConfigVersionNo) := Num(Finite(0.0))];
    FullIsAccepted(host, request);
    ZeroRenders(request);
    Parity(host, request, body, false);
  }

  // --- What acceptance guarantees ------------------------------------------------------------------

  /** The guard of the domain service, which throws when it does not hold. */
  predicate WellFormed(host: Host, input: ApplyInput) {
    && input.rewardEntryId != "" && input.correlationId != "" && input.customerId != ""
    && input.campaignCode != "" && input.trackerCode != "" && input.trackerComponentCode != ""
    && input.rewardCode != "" && input.rewardCategory != "" && input.rewardValue != ""
    && host.isDecimal(input.rewardValue)
  }

  /** An accepted message passes the domain guard, so that guard never blocks the partition. */
  lemma AcceptedIsWellFormed(host: Host, payload: Json)
    requires ParseMessage(host, payload).Ok?
    ensures WellFormed(host, ParseMessage(host, payload).value)
    ensures ParseMessage(host, payload).value.tenantId > 0
  {
  }
}
