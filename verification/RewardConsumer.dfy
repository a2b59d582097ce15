/**
 The reward-tracking consumer itself: bounded schema-validation retries, the apply call, the
 dead-letter record, and the offset commit that only a resolved message reaches. Every delivery it
 handles is a run of the partition machine.
 */
module RewardConsumer {
  import opened Common
  import opened Retry
  import opened RewardEvents
  import opened RewardSchema
  import opened RewardPartition
  import opened Text

  datatype RawMessage = RawMessage(key: Option<string>, value: Option<string>)

  datatype Failure = UnknownError | NotJson | Schema(reason: Reason)

  datatype ProcessOutcome = ACK | DLQ

  datatype DlqRecord = DlqRecord(key: Option<string>, body: Body, error: Failure, failedAt: Instant)

  // --- One validation attempt, and the dead-letter record ------------------------------------------

  /** `JSON.parse(raw.value ?? '')`; `None` when it throws. */
  function Parsed(host: Host, raw: RawMessage): Option<Json> {
    host.parseJson(if raw.value.Some? then raw.value.value else "")
  }

  function ValidateOnce(host: Host, raw: RawMessage): Result<ApplyInput, Failure> {
    match Parsed(host, raw)
    case None => Err(NotJson)
    case Some(payload) =>
      match ParseMessage(host, payload)
      case Ok(input) => Ok(input)
      case Err(reason) => Err(Schema(reason))
  }

  /** The log entry this message is, as far as the partition machine is concerned. */
  function Classify(host: Host, raw: RawMessage): Message {
    match ValidateOnce(host, raw)
    case Ok(input) => Valid(input)
    case Err(_) => Poison
  }

  function SanitizeForDlq(host: Host, body: Body): Body {
    var rest := body - {Known(CustomerId)};
    if IsNonEmptyString(Lookup(body, CustomerId))
    then rest[CustomerIdHash := Str(host.hash(Lookup(body, CustomerId).value.s))]
    else rest
  }

  function DlqBody(host: Host, raw: RawMessage, bestEffortParsed: Option<Json>): Body {
    match bestEffortParsed
    case Some(Obj(fields)) => SanitizeForDlq(host, fields)
    case _ => map[RawText := if raw.value.Some? then Str(raw.value.value) else Null]
  }

  function DlqKey(host: Host, raw: RawMessage): Option<string> {
    if raw.key.Some? && raw.key.value != "" then Some(host.hash(raw.key.value)) else None
  }

  function BuildDlqRecord(host: Host, raw: RawMessage, bestEffortParsed: Option<Json>,
                          lastReason: Failure, failedAt: Instant): DlqRecord {
    DlqRecord(DlqKey(host, raw), DlqBody(host, raw, bestEffortParsed) - {ErrorText, FailedAt},
              lastReason, failedAt)
  }

  /** The record a poison message leads to. */
  function DlqRecordFor(host: Host, raw: RawMessage, failedAt: Instant): DlqRecord
    requires ValidateOnce(host, raw).Err?
  {
    BuildDlqRecord(host, raw, Parsed(host, raw), ValidateOnce(host, raw).error, failedAt)
  }

  /** The message's text, "" for a message without one. */
  function TextOfMessage(raw: RawMessage): string {
    match raw.value
    case Some(text) => text
    case None => ""
  }

  /**
   A message is valid if and only if its text is a JSON object that passes every check, and then its
   input is the object's fields; otherwise it fails with what went wrong first.
   */
  lemma ValidatedExactly(host: Host, raw: RawMessage)
    ensures var json := host.parseJson(TextOfMessage(raw));
      && (json.None? ==> ValidateOnce(host, raw) == Err(NotJson))
      && (json.Some? && !json.value.Obj? ==> ValidateOnce(host, raw) == Err(Schema(NotAnObject)))
      && (json.Some? && json.value.Obj? ==>
            && (ValidateOnce(host, raw).Ok? <==> AllPass(host, json.value.fields))
            && (ValidateOnce(host, raw).Ok? ==> Faithful(host, json.value.fields, ValidateOnce(host, raw).value))
            && forall k: nat :: FailsFirst(host, json.value.fields, k) ==>
                 ValidateOnce(host, raw) == Err(Schema(Complaint(json.value.fields, CHECKS[k]))))
  {
    var json := host.parseJson(TextOfMessage(raw));
    if json.Some? { ParseExactly(host, json.value); }
  }

  /** What the record of an object has under `k`, if anything. */
  function RecordField(host: Host, body: Body, k: Key): Option<Json> {
    if k in {Known(CustomerId), ErrorText, FailedAt} then None
    else if k == CustomerIdHash && TextOf(body, CustomerId) != "" then Some(Str(host.hash(TextOf(body, CustomerId))))
    else if k in body then Some(body[k])
    else None
  }

  /**
   The record of a JSON object has no `customerId` of its own; if the object had a usable one, the
   record has its hash instead, and every field the record does not set itself is the object's. Any
   other message is published as its own text, whatever that says. The key is hashed, and the error is
   the one that validation failed with.
   */
  lemma DlqRecordHidesCustomer(host: Host, raw: RawMessage, failedAt: Instant)
    requires ValidateOnce(host, raw).Err?
    ensures var r := DlqRecordFor(host, raw, failedAt);
      && r.key == (if raw.key.None? || raw.key.value == "" then None else Some(host.hash(raw.key.value)))
      && ValidateOnce(host, raw) == Err(r.error) && r.failedAt == failedAt
      && match host.parseJson(TextOfMessage(raw)) {
           case Some(Obj(body)) =>
             forall k :: RecordField(host, body, k) == if k in r.body then Some(r.body[k]) else None
           case _ =>
             r.body == map[RawText := if raw.value.Some? then Str(raw.value.value) else Null]
         }
  {
  }

  // --- What reaches the dead-letter topic in the clear ---------------------------------------------

  /** A field name that is the sender's own, not one of the schema's or the record's. */
  ghost predicate NameShows(k: Key, text: string) {
    k.Other? && Occurs(text, k.name)
  }

  /** `text` occurs in a text, a number or a field name inside the value. */
  ghost predicate Shows(host: Host, j: Json, text: string)
    decreases j
  {
    match j
    case Str(s) => Occurs(text, s)
    case Num(n) => Occurs(text, host.numberText(n))
    case Arr(items) => exists i :: 0 <= i < |items| && Shows(host, items[i], text)
    case Obj(fields) => exists k :: k in fields && (NameShows(k, text) || Shows(host, fields[k], text))
    case _ => false
  }

  ghost predicate ShowsIn(host: Host, body: Body, text: string) {
    exists k :: k in body && (NameShows(k, text) || Shows(host, body[k], text))
  }

  /** The record takes field `k` over from an object as it is. */
  predicate TakenOver(body: Body, k: Key) {
    && k in body && k != Known(CustomerId) && k != ErrorText && k != FailedAt
    && (k == CustomerIdHash ==> !IsNonEmptyString(Lookup(body, CustomerId)))
  }

  predicate IsObject(host: Host, raw: RawMessage) {
    Parsed(host, raw).Some? && Parsed(host, raw).value.Obj?
  }

  /** The sanitised object has `text` in the name or value of a field taken over, or in the hash it adds. */
  ghost predicate LeftInTheClear(host: Host, body: Body, text: string) {
    || (exists k :: TakenOver(body, k) && (NameShows(k, text) || Shows(host, body[k], text)))
    || (IsNonEmptyString(Lookup(body, CustomerId)) && Occurs(text, host.hash(Lookup(body, CustomerId).value.s)))
  }

  lemma ObjectShows(host: Host, raw: RawMessage, failedAt: Instant, text: string)
    requires ValidateOnce(host, raw).Err? && IsObject(host, raw)
    ensures ShowsIn(host, DlqRecordFor(host, raw, failedAt).body, text)
            <==> LeftInTheClear(host, Parsed(host, raw).value.fields, text)
  {
    var body := Parsed(host, raw).value.fields;
    var record := DlqRecordFor(host, raw, failedAt).body;
    forall k
      ensures TakenOver(body, k) ==> k in record && record[k] == body[k]
      ensures k in record ==> TakenOver(body, k) || k == CustomerIdHash
    {
    }
    if IsNonEmptyString(Lookup(body, CustomerId)) {
      assert CustomerIdHash in record;
      assert record[CustomerIdHash] == Str(host.hash(Lookup(body, CustomerId).value.s));
    }
  }

  /**
   A text, say a customer's id, is published in the clear if and only if a JSON object has it in the
   name or the value of a field other than its top-level `customerId`, at any depth and as text or
   number, or in the hash, or another message has it anywhere.
   The source promises that no customer id is; the condition is what a caller would have to check.
   */
  lemma ClearTextExactly(host: Host, raw: RawMessage, failedAt: Instant, text: string)
    requires ValidateOnce(host, raw).Err?
    ensures ShowsIn(host, DlqRecordFor(host, raw, failedAt).body, text) <==>
      if IsObject(host, raw) then LeftInTheClear(host, Parsed(host, raw).value.fields, text)
      else raw.value.Some? && Occurs(text, raw.value.value)
  {
    if IsObject(host, raw) {
      ObjectShows(host, raw, failedAt, text);
    } else {
      var body := DlqRecordFor(host, raw, failedAt).body;
      assert body.Keys == {RawText};
      assert RawText in body && body[RawText] == if raw.value.Some? then Str(raw.value.value) else Null;
    }
  }

  /** A text inside a JSON object is shorter than the object's own text. */
  ghost predicate TextsShorter(host: Host) {
    forall t, body: Body, k :: host.parseJson(t) == Some(Obj(body)) && k in body && body[k].Str? ==> |body[k].s| < |t|
  }

  /** The raw text is published if and only if the message is not a JSON object. */
  lemma RawTextExactly(host: Host, raw: RawMessage, failedAt: Instant)
    requires TextsShorter(host) && raw.value.Some?
    ensures ValidateOnce(host, raw).Err?
            && PublishedText(DlqRecordFor(host, raw, failedAt).body) == Some(Str(raw.value.value))
            <==> !IsObject(host, raw)
  {
    if IsObject(host, raw) && ValidateOnce(host, raw).Err? {
      var body := Parsed(host, raw).value.fields;
      var record := DlqRecordFor(host, raw, failedAt).body;
      assert RawText in record ==> RawText in body && record[RawText] == body[RawText];
    }
  }

  function PublishedText(body: Body): Option<Json> {
    if RawText in body then Some(body[RawText]) else None
  }

  /** An array, or an object cut short, takes the customer's id to the topic as it is. */
  lemma CustomerIdLeaks(host: Host, id: string, failedAt: Instant)
    ensures var raw := RawMessage(None, Some("[{\"customerId\":\"" + id + "\"}]"));
      Parsed(host, raw) == Some(Arr([Obj(map[Known(CustomerId) := Str(id)])])) ==>
        ValidateOnce(host, raw).Err? && ShowsIn(host, DlqRecordFor(host, raw, failedAt).body, id)
    ensures var raw := RawMessage(None, Some("{\"customerId\":\"" + id + "\""));
      Parsed(host, raw) == None ==>
        ValidateOnce(host, raw).Err? && ShowsIn(host, DlqRecordFor(host, raw, failedAt).body, id)
  {
    var listed := RawMessage(None, Some("[{\"customerId\":\"" + id + "\"}]"));
    var cut := RawMessage(None, Some("{\"customerId\":\"" + id + "\""));
    PartOccurs("[{\"customerId\":\"", id, "\"}]");
    PartOccurs("{\"customerId\":\"", id, "\"");
    if ValidateOnce(host, listed).Err? { ClearTextExactly(host, listed, failedAt, id); }
    if ValidateOnce(host, cut).Err? { ClearTextExactly(host, cut, failedAt, id); }
  }

  /** So does an object that has the id as a name further down, with no other customer in it. */
  lemma CustomerIdLeaksAsName(host: Host, raw: RawMessage, group: string, id: string, failedAt: Instant)
    requires Parsed(host, raw) == Some(Obj(map[Other(group) := Obj(map[Other(id) := Bool(true)])]))
    ensures ValidateOnce(host, raw).Err? && ShowsIn(host, DlqRecordFor(host, raw, failedAt).body, id)
  {
    var body := Parsed(host, raw).value.fields;
    assert ValidateOnce(host, raw).Err? by {
      assert RequireNonEmptyString(body, RewardEntryId).Err?;
    }
    PartOccurs("", id, "");
    assert "" + id + "" == id;
    assert NameShows(Other(id), id) && Other(id) in body[Other(group)].fields;
    assert TakenOver(body, Other(group)) && Shows(host, body[Other(group)], id);
    ClearTextExactly(host, raw, failedAt, id);
  }

  // --- The store and the consumer ------------------------------------------------------------------

  /** What outlives the consumer: the ledger, the dead-letter topic and the committed offset. */
  class PartitionStore {
    var ledger: Ledger
    var records: seq<DlqRecord>
    var committed: nat

    constructor (ledger: Ledger, start: nat)
      ensures this.ledger == ledger && records == [] && committed == start
    {
      this.ledger := ledger;
      records := [];
      committed := start;
    }

    /** The domain call: atomic, first-wins, and possibly failing with or without its effect. */
    method ApplyRewardTrackingEvent(input: ApplyInput, fate: Fate) returns (ok: bool)
      modifies this`ledger
      ensures ok == (fate == Succeeds)
      ensures ledger == if fate.Takes() then FirstWins(old(ledger), input) else old(ledger)
    {
      if fate.Takes() && input.rewardEntryId !in ledger {
        ledger := ledger[input.rewardEntryId := input];
      }
      ok := fate == Succeeds;
    }

    method PublishToDlq(record: DlqRecord, fate: Fate) returns (ok: bool)
      modifies this`records
      ensures ok == (fate == Succeeds)
      ensures records == if fate.Takes() then old(records) + [record] else old(records)
    {
      if fate.Takes() {
        records := records + [record];
      }
      ok := fate == Succeeds;
    }

    method CommitOffset(next: nat, fate: Fate) returns (ok: bool)
      modifies this`committed
      ensures ok == (fate == Succeeds)
      ensures committed == if fate.Takes() then next else old(committed)
    {
      if fate.Takes() {
        committed := next;
      }
      ok := fate == Succeeds;
    }
  }

  class RewardTrackingConsumer {
    const host: Host
    const backoffBaseMs: nat
    const backoffMaxMs: nat
    const store: PartitionStore
    var failedIngestions: nat

    constructor (host: Host, backoffBaseMs: nat, backoffMaxMs: nat, store: PartitionStore)
      ensures this.store == store && failedIngestions == 0
    {
      this.host := host;
      this.backoffBaseMs := backoffBaseMs;
      this.backoffMaxMs := backoffMaxMs;
      this.store := store;
      failedIngestions := 0;
    }

    /**
     A valid message costs one attempt and no wait. A poison one costs all attempts, with growing
     clamped waits between them, and then its dead-letter record; the call fails, against its
     comment in the source, exactly when that publish does.
     */
    method ValidateWithBoundedRetries(raw: RawMessage, now: Instant, publishFate: Fate)
      returns (r: Result<Option<ApplyInput>, ()>, waits: seq<nat>)
      modifies this`failedIngestions, store`records
      ensures match ValidateOnce(host, raw) {
          case Ok(input) =>
            && r == Ok(Some(input)) && waits == []
            && store.records == old(store.records) && failedIngestions == old(failedIngestions)
          case Err(_) =>
            && r == (if publishFate == Succeeds then Ok(None) else Err(()))
            && |waits| == MAX_SCHEMA_VALIDATION_ATTEMPTS - 1
            && (forall k :: 0 <= k < |waits| ==> waits[k] == Backoff(backoffBaseMs, backoffMaxMs, k + 1))
            && failedIngestions == old(failedIngestions) + 1
            && store.records
               == old(store.records) + (if publishFate.Takes() then [DlqRecordFor(host, raw, now)] else [])
        }
    {
      var lastReason := UnknownError;
      var bestEffortParsed: Option<Json> := None;
      waits := [];
      var attempt := 1;
      while attempt <= MAX_SCHEMA_VALIDATION_ATTEMPTS
        invariant 1 <= attempt <= MAX_SCHEMA_VALIDATION_ATTEMPTS + 1
        invariant bestEffortParsed == if attempt == 1 then None else Parsed(host, raw)
        invariant attempt > 1 ==> ValidateOnce(host, raw) == Err(lastReason)
        invariant |waits| == (if attempt <= MAX_SCHEMA_VALIDATION_ATTEMPTS then attempt - 1 else attempt - 2)
        invariant forall k :: 0 <= k < |waits| ==> waits[k] == Backoff(backoffBaseMs, backoffMaxMs, k + 1)
      {
        var parsed := Parsed(host, raw);
        if parsed.Some? {
          bestEffortParsed := parsed;
          var result := ParseMessage(host, parsed.value);
          if result.Ok? {
            return Ok(Some(result.value)), waits;
          }
          lastReason := Schema(result.error);
        } else {
          lastReason := NotJson;
        }
        if attempt < MAX_SCHEMA_VALIDATION_ATTEMPTS {
          waits := waits + [Backoff(backoffBaseMs, backoffMaxMs, attempt)];
        }
        attempt := attempt + 1;
      }
      failedIngestions := failedIngestions + 1;
      var record := BuildDlqRecord(host, raw, bestEffortParsed, lastReason, now);
      var published := store.PublishToDlq(record, publishFate);
      r := if published then Ok(None) else Err(());
    }

    /** Validate, then apply; an apply failure is neither retried nor dead-lettered. */
    method ProcessMessage(raw: RawMessage, now: Instant, fate: Fate)
      returns (r: Result<ProcessOutcome, ()>)
      modifies this`failedIngestions, store`ledger, store`records
      ensures match ValidateOnce(host, raw) {
          case Ok(input) =>
            && r == (if fate == Succeeds then Ok(ACK) else Err(()))
            && store.records == old(store.records)
            && store.ledger == if fate.Takes() then FirstWins(old(store.ledger), input) else old(store.ledger)
          case Err(_) =>
            && r == (if fate == Succeeds then Ok(DLQ) else Err(()))
            && store.ledger == old(store.ledger)
            && store.records
               == old(store.records) + (if fate.Takes() then [DlqRecordFor(host, raw, now)] else [])
        }
    {
      var validated, _ := ValidateWithBoundedRetries(raw, now, fate);
      if validated.Err? {
        return Err(());
      }
      if validated.value.None? {
        return Ok(DLQ);
      }
      var applied := store.ApplyRewardTrackingEvent(validated.value.value, fate);
      r := if applied then Ok(ACK) else Err(());
    }

    /** The callback: the offset is committed only after the message resolved. */
    method EachMessage(offset: nat, raw: RawMessage, now: Instant, fate: Fate, commitFate: Fate)
      returns (resolved: bool)
      modifies this`failedIngestions, store
      ensures StoreView(store.ledger, store.records, store.committed)
           == Delivered(host, StoreView(old(store.ledger), old(store.records), old(store.committed)),
                        offset, raw, now, fate, commitFate)
      ensures resolved == (fate == Succeeds && commitFate == Succeeds)
    {
      var outcome := ProcessMessage(raw, now, fate);
      if outcome.Err? {
        return false;
      }
      resolved := store.CommitOffset(offset + 1, commitFate);
    }
  }

  // --- Deliveries are runs -------------------------------------------------------------------------

  datatype StoreView = StoreView(ledger: Ledger, records: seq<DlqRecord>, committed: nat)

  /** The effect of one delivery on the store. */
  function Delivered(host: Host, v: StoreView, offset: nat, raw: RawMessage, now: Instant,
                     fate: Fate, commitFate: Fate): StoreView {
    var settled :=
      if !fate.Takes() then v
      else
        match ValidateOnce(host, raw)
        case Ok(input) => v.(ledger := FirstWins(v.ledger, input))
        case Err(_) => v.(records := v.records + [DlqRecordFor(host, raw, now)]);
    if fate == Succeeds && commitFate.Takes() then settled.(committed := offset + 1) else settled
  }

  /** The machine's steps for one delivery to instance `i`. */
  function DeliverySteps(i: nat, m: Message, fate: Fate, commitFate: Fate): seq<Step> {
    var settling :=
      if m.Valid? then [Deliver(i), Validate(i), Apply(i, fate)]
      else [Deliver(i), Validate(i), Validate(i), Validate(i), Publish(i, fate)];
    if fate == Succeeds then settling + [Commit(i, commitFate)] else settling
  }

  /** The machine's state while instance `i` is busy with a message and nothing else has changed. */
  function Busy(s: State, i: nat, phase: Phase): State
    requires i < |s.instances|
  {
    WithInstance(s, i, s.instances[i].(phase := phase))
  }

  lemma DeliverFrom(c: Config, s: State, i: nat)
    requires i < |s.instances| && s.instances[i].phase == Idle && s.instances[i].position < |c.log|
    ensures Feasible(c, s, [Deliver(i)]) && After(c, s, [Deliver(i)]) == Busy(s, i, Validating(1))
  {
    AfterOneMore(c, s, [], Deliver(i));
    assert [] + [Deliver(i)] == [Deliver(i)];
  }

  lemma ValidateFrom(c: Config, s: State, i: nat, k: nat)
    requires i < |s.instances| && s.instances[i].position < |c.log|
    requires 1 <= k <= MAX_SCHEMA_VALIDATION_ATTEMPTS
    ensures var at := Busy(s, i, Validating(k));
      && Enabled(c, at, Validate(i))
      && Next(c, at, Validate(i)) == Busy(s, i,
           if c.log[s.instances[i].position].Valid? then Applying
           else if k < MAX_SCHEMA_VALIDATION_ATTEMPTS then Validating(k + 1) else Publishing)
  {
    var at, inst := Busy(s, i, Validating(k)), s.instances[i];
    var phase := if c.log[inst.position].Valid? then Applying
                 else if k < MAX_SCHEMA_VALIDATION_ATTEMPTS then Validating(k + 1) else Publishing;
    assert at.instances[i := inst.(phase := phase)] == s.instances[i := inst.(phase := phase)];
  }

  lemma ValidRun(c: Config, s: State, i: nat, fate: Fate)
    requires i < |s.instances| && s.instances[i].phase == Idle && s.instances[i].position < |c.log|
    requires c.log[s.instances[i].position].Valid?
    ensures var steps := [Deliver(i), Validate(i), Apply(i, fate)];
            var at := Busy(s, i, Applying);
            && Enabled(c, at, Apply(i, fate)) && Feasible(c, s, steps)
            && After(c, s, steps) == Next(c, at, Apply(i, fate))
  {
    var t1 := [Deliver(i)];
    DeliverFrom(c, s, i);
    ValidateFrom(c, s, i, 1);
    AfterOneMore(c, s, t1, Validate(i));
    AfterOneMore(c, s, t1 + [Validate(i)], Apply(i, fate));
    assert t1 + [Validate(i)] + [Apply(i, fate)] == [Deliver(i), Validate(i), Apply(i, fate)];
  }

  /** The machine after `k` failed validation attempts. */
  lemma {:induction false} FailedValidations(c: Config, s: State, i: nat, k: nat)
    requires i < |s.instances| && s.instances[i].phase == Idle && s.instances[i].position < |c.log|
    requires c.log[s.instances[i].position].Poison? && k <= MAX_SCHEMA_VALIDATION_ATTEMPTS
    ensures var steps := [Deliver(i)] + seq(k, _ => Validate(i));
      && Feasible(c, s, steps)
      && After(c, s, steps)
         == Busy(s, i, if k < MAX_SCHEMA_VALIDATION_ATTEMPTS then Validating(k + 1) else Publishing)
  {
    var steps := [Deliver(i)] + seq(k, _ => Validate(i));
    if k == 0 {
      DeliverFrom(c, s, i);
      assert steps == [Deliver(i)];
    } else {
      var front := [Deliver(i)] + seq(k - 1, _ => Validate(i));
      FailedValidations(c, s, i, k - 1);
      ValidateFrom(c, s, i, k);
      AfterOneMore(c, s, front, Validate(i));
      assert steps == front + [Validate(i)];
    }
  }

  lemma PoisonRun(c: Config, s: State, i: nat, fate: Fate)
    requires i < |s.instances| && s.instances[i].phase == Idle && s.instances[i].position < |c.log|
    requires c.log[s.instances[i].position].Poison?
    ensures var steps := [Deliver(i), Validate(i), Validate(i), Validate(i), Publish(i, fate)];
            var at := Busy(s, i, Publishing);
            && Enabled(c, at, Publish(i, fate)) && Feasible(c, s, steps)
            && After(c, s, steps) == Next(c, at, Publish(i, fate))
  {
    var front := [Deliver(i)] + seq(MAX_SCHEMA_VALIDATION_ATTEMPTS, _ => Validate(i));
    FailedValidations(c, s, i, MAX_SCHEMA_VALIDATION_ATTEMPTS);
    AfterOneMore(c, s, front, Publish(i, fate));
    assert front + [Publish(i, fate)]
        == [Deliver(i), Validate(i), Validate(i), Validate(i), Publish(i, fate)];
  }

  /** The machine after the message at the offset of idle instance `i` was settled, or not. */
  function SettledAt(c: Config, s: State, i: nat, fate: Fate): State
    requires i < |s.instances| && s.instances[i].phase == Idle && s.instances[i].position < |c.log|
  {
    var p := s.instances[i].position;
    var at := if fate == Succeeds then Busy(s, i, Committing) else s;
    if !fate.Takes() then at
    else if c.log[p].Valid? then
      at.(ledger := FirstWins(s.ledger, c.log[p].input), settled := Max(s.settled, p + 1))
    else at.(dlq := s.dlq + [p], settled := Max(s.settled, p + 1))
  }

  lemma SettlingRun(c: Config, s: State, i: nat, fate: Fate)
    requires i < |s.instances| && s.instances[i].phase == Idle && s.instances[i].position < |c.log|
    ensures var steps :=
        if c.log[s.instances[i].position].Valid? then [Deliver(i), Validate(i), Apply(i, fate)]
        else [Deliver(i), Validate(i), Validate(i), Validate(i), Publish(i, fate)];
      Feasible(c, s, steps) && After(c, s, steps) == SettledAt(c, s, i, fate)
  {
    var inst := s.instances[i];
    var after := inst.(phase := if fate == Succeeds then Committing else Idle);
    if c.log[inst.position].Valid? {
      ValidRun(c, s, i, fate);
      assert Busy(s, i, Applying).instances[i := after] == s.instances[i := after];
    } else {
      PoisonRun(c, s, i, fate);
      assert Busy(s, i, Publishing).instances[i := after] == s.instances[i := after];
    }
    assert s.instances[i := inst] == s.instances;
  }

  /**
   The callback refines the machine: delivering a message to an idle instance at its offset is a
   run, and what it leaves in the store is what that run leaves in the machine's state.
   */
  lemma DeliveryIsRun(host: Host, c: Config, s: State, i: nat, raw: RawMessage, now: Instant,
                      fate: Fate, commitFate: Fate, records: seq<DlqRecord>)
    requires i < |s.instances| && s.instances[i].phase == Idle && s.instances[i].position < |c.log|
    requires c.log[s.instances[i].position] == Classify(host, raw)
    ensures
      var p := s.instances[i].position;
      var steps := DeliverySteps(i, c.log[p], fate, commitFate);
      && Feasible(c, s, steps)
      && var s', v' := After(c, s, steps),
           Delivered(host, StoreView(s.ledger, records, s.committed), p, raw, now, fate, commitFate);
      && s'.ledger == v'.ledger && s'.committed == v'.committed
      && (s'.dlq, v'.records) == (if c.log[p].Poison? && fate.Takes()
           then (s.dlq + [p], records + [DlqRecordFor(host, raw, now)]) else (s.dlq, records))
      && s'.instances[i] == Instance(if fate == Succeeds && commitFate == Succeeds then p + 1 else p, Idle)
  {
    var p := s.instances[i].position;
    SettlingRun(c, s, i, fate);
    if fate == Succeeds {
      var settling :=
        if c.log[p].Valid? then [Deliver(i), Validate(i), Apply(i, fate)]
        else [Deliver(i), Validate(i), Validate(i), Validate(i), Publish(i, fate)];
      AfterOneMore(c, s, settling, Commit(i, commitFate));
    }
  }
}
