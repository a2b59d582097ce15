/**
 The promo-code consumer itself: the whole pipeline in a loop of three attempts, then the
 dead-letter record. Every delivery it handles is a run of the partition machine.
 */
module PromoConsumer {
  import opened Common
  import opened Retry
  import opened PromoPartition

  /** A JSON value; what the adapter never looks into stays text. */
  datatype Json = Null | Text(s: string) | Object(fields: Fields) | Unread(text: string)

  type Fields = map<string, Json>

  datatype Envelope = Envelope(correlationId: string, tenantId: string, data: Json)

  /** The payload's fields; a JSON `null` reads like an absent one. */
  datatype Payload = Payload(
    bindLevel: Option<string>,
    bindRefId: Option<string>,
    customerId: Option<string>,
    merchantId: Option<string>,
    versionNo: Option<string>,
    activityContext: Option<Json>)

  /** What `generateCode` is called with. */
  datatype Generate = Generate(correlationId: string, tenantId: string, payload: Payload)

  /** `JSON.parse` and the two schemas; an error carries its message. */
  datatype Host = Host(
    parseJson: string -> Result<Json, string>,
    parseEnvelope: Json -> Result<Envelope, string>,
    parsePayload: Json -> Result<Payload, string>)

  datatype RawMessage = RawMessage(key: Option<string>, value: Option<string>)

  datatype ProcessOutcome = ACK | DLQ

  datatype DlqRecord = DlqRecord(key: Option<string>, body: Fields)

  /** How the calls of one delivery go, by attempt number, and what a throwing one says. */
  datatype Calls = Calls(generation: nat -> Generation, error: nat -> string)

  // --- One attempt ---------------------------------------------------------------------------------

  function Parsed(host: Host, raw: RawMessage): Result<Json, string> {
    host.parseJson(if raw.value.Some? then raw.value.value else "")
  }

  /** The part of an attempt before the call, the same at every attempt. */
  function Prepare(host: Host, raw: RawMessage): Result<Generate, string> {
    var json :- Parsed(host, raw);
    var envelope :- host.parseEnvelope(json);
    var payload :- host.parsePayload(envelope.data);
    Ok(Generate(envelope.correlationId, envelope.tenantId, payload))
  }

  function Classify(host: Host, raw: RawMessage): Message {
    match Prepare(host, raw)
    case Ok(request) => Request(request.correlationId)
    case Err(_) => Malformed
  }

  /** The `k`-th attempt as a whole: one that never reaches the call throws without a row. */
  function Attempted(host: Host, raw: RawMessage, calls: Calls, k: nat): Generation {
    if Prepare(host, raw).Ok? then calls.generation(k) else Generation(false, None)
  }

  /** The message of the error the `k`-th attempt ended with. */
  function ErrorOf(host: Host, raw: RawMessage, calls: Calls, k: nat): string {
    match Prepare(host, raw)
    case Ok(_) => calls.error(k)
    case Err(message) => message
  }

  /** The first attempt from `k` on that returns; one past the last if none does. */
  function FirstReturn(host: Host, raw: RawMessage, calls: Calls, k: nat): (n: nat)
    requires k <= MAX_PROCESSING_ATTEMPTS + 1
    ensures k <= n <= MAX_PROCESSING_ATTEMPTS + 1
    ensures n <= MAX_PROCESSING_ATTEMPTS ==> Attempted(host, raw, calls, n).completes
    ensures forall j :: k <= j < n ==> !Attempted(host, raw, calls, j).completes
    decreases MAX_PROCESSING_ATTEMPTS + 1 - k
  {
    if k > MAX_PROCESSING_ATTEMPTS || Attempted(host, raw, calls, k).completes then k
    else FirstReturn(host, raw, calls, k + 1)
  }

  /** The attempts a delivery makes: up to the first that returns. */
  function Made(host: Host, raw: RawMessage, calls: Calls): (n: nat)
    ensures 1 <= n <= MAX_PROCESSING_ATTEMPTS
  {
    var n := FirstReturn(host, raw, calls, 1);
    if n > MAX_PROCESSING_ATTEMPTS then MAX_PROCESSING_ATTEMPTS else n
  }

  predicate Exhausted(host: Host, raw: RawMessage, calls: Calls) {
    FirstReturn(host, raw, calls, 1) > MAX_PROCESSING_ATTEMPTS
  }

  /** The rows after the first `k` attempts. */
  function RowsAfter(host: Host, raw: RawMessage, calls: Calls, rows: seq<Row>, k: nat): seq<Row> {
    if k == 0 || Prepare(host, raw).Err? then rows
    else Issue(RowsAfter(host, raw, calls, rows, k - 1), Prepare(host, raw).value.correlationId,
               calls.generation(k))
  }

  // --- The dead-letter record ----------------------------------------------------------------------

  function BuildRecord(raw: RawMessage, envelope: Option<Fields>, error: string, failedAt: string): DlqRecord {
    var original := match envelope
      case Some(fields) => fields
      case None => map["raw" := if raw.value.Some? then Text(raw.value.value) else Null];
    DlqRecord(raw.key, original["error" := Text(error)]["failedAt" := Text(failedAt)])
  }

  function BestEffortEnvelope(host: Host, raw: RawMessage): Option<Fields> {
    match Parsed(host, raw)
    case Ok(Object(fields)) => Some(fields)
    case _ => None
  }

  function DlqRecordFor(host: Host, raw: RawMessage, calls: Calls, failedAt: string): DlqRecord {
    BuildRecord(raw, BestEffortEnvelope(host, raw),
                ErrorOf(host, raw, calls, MAX_PROCESSING_ATTEMPTS), failedAt)
  }

  // --- What a message asks for ---------------------------------------------------------------------

  /** The message's text, "" for a message without one. */
  function TextOfMessage(raw: RawMessage): string {
    match raw.value
    case Some(text) => text
    case None => ""
  }

  /** All three stages succeed, and `request` is what the envelope and its payload say. */
  ghost predicate Asks(host: Host, raw: RawMessage, request: Generate) {
    var json := host.parseJson(TextOfMessage(raw));
    json.Ok? &&
    var envelope := host.parseEnvelope(json.value);
    && envelope.Ok? && host.parsePayload(envelope.value.data) == Ok(request.payload)
    && request.correlationId == envelope.value.correlationId
    && request.tenantId == envelope.value.tenantId
  }

  /** The first stage to fail says `message`. */
  ghost predicate Refuses(host: Host, raw: RawMessage, message: string) {
    var json := host.parseJson(TextOfMessage(raw));
    json == Err(message) ||
    (json.Ok? &&
     var envelope := host.parseEnvelope(json.value);
     || envelope == Err(message)
     || (envelope.Ok? && host.parsePayload(envelope.value.data) == Err(message)))
  }

  lemma AsksOrRefuses(host: Host, raw: RawMessage)
    ensures forall request :: Asks(host, raw, request) <==> Prepare(host, raw) == Ok(request)
    ensures forall message :: Refuses(host, raw, message) <==> Prepare(host, raw) == Err(message)
  {
  }

  /** Call `n` is the last of a delivery: those before it threw, and it returned or is the third. */
  ghost predicate LastCall(calls: Calls, n: nat) {
    && 1 <= n <= 3 && (n < 3 ==> calls.generation(n).completes)
    && forall k :: 1 <= k < n ==> !calls.generation(k).completes
  }

  /** The calls from `1` to `n` leave one code for the id: the one it had, or the first they came up with. */
  ghost predicate OneCode(rows: seq<Row>, id: string, calls: Calls, n: nat, rows': seq<Row>) {
    if HasRow(rows, id) || (forall k :: 1 <= k <= n ==> calls.generation(k).code.None?) then rows' == rows
    else exists k :: FirstCode(calls, n, k) && rows' == rows + [Row(id, calls.generation(k).code.value)]
  }

  predicate FirstCode(calls: Calls, n: nat, k: nat) {
    1 <= k <= n && calls.generation(k).code.Some? && forall j :: 1 <= j < k ==> calls.generation(j).code.None?
  }

  lemma {:induction false} RowsExactly(host: Host, raw: RawMessage, calls: Calls, rows: seq<Row>, n: nat)
    requires Prepare(host, raw).Ok?
    ensures OneCode(rows, Prepare(host, raw).value.correlationId, calls, n, RowsAfter(host, raw, calls, rows, n))
  {
    var id := Prepare(host, raw).value.correlationId;
    if n > 0 {
      RowsExactly(host, raw, calls, rows, n - 1);
      var before := RowsAfter(host, raw, calls, rows, n - 1);
      if HasRow(rows, id) {
      } else if k :| FirstCode(calls, n - 1, k) && before == rows + [Row(id, calls.generation(k).code.value)] {
        assert before[|rows|].key == id;
        assert FirstCode(calls, n, k);
      } else if calls.generation(n).code.Some? {
        assert FirstCode(calls, n, n);
      }
    }
  }

  /**
   What a delivery comes to, from the three stages alone. A message they accept is a log entry for its
   envelope's id; its calls stop at the first that returns or at the third; what they leave is one code.
   One they refuse is attempted three times and leaves nothing. The record says what went wrong last.
   */
  lemma DeliveryExactly(host: Host, raw: RawMessage, calls: Calls, rows: seq<Row>, failedAt: string)
    ensures (exists request :: Asks(host, raw, request)) || (exists message :: Refuses(host, raw, message))
    ensures forall request :: Asks(host, raw, request) ==>
      && Classify(host, raw) == Request(request.correlationId)
      && LastCall(calls, Made(host, raw, calls))
      && (Exhausted(host, raw, calls) <==> !calls.generation(Made(host, raw, calls)).completes)
      && OneCode(rows, request.correlationId, calls, Made(host, raw, calls),
                 RowsAfter(host, raw, calls, rows, Made(host, raw, calls)))
      && ErrorOf(host, raw, calls, 3) == calls.error(3)
    ensures forall message :: Refuses(host, raw, message) ==>
      && Classify(host, raw) == Malformed
      && Made(host, raw, calls) == 3 && Exhausted(host, raw, calls)
      && RowsAfter(host, raw, calls, rows, Made(host, raw, calls)) == rows
      && ErrorOf(host, raw, calls, 3) == message
  {
    AsksOrRefuses(host, raw);
    match Prepare(host, raw)
    case Ok(request) =>
      assert Asks(host, raw, request);
      RowsExactly(host, raw, calls, rows, Made(host, raw, calls));
    case Err(message) =>
      assert Refuses(host, raw, message);
  }

  /**
   The record keeps the message's own key and, for a JSON object, every field of it except an
   `error` or `failedAt` of its own, which the record's hide; other messages are kept as text. Its
   error is what the last attempt failed with: the third call, or the first stage that refused.
   */
  lemma RecordKeepsMessage(host: Host, raw: RawMessage, calls: Calls, failedAt: string)
    ensures var r := DlqRecordFor(host, raw, calls, failedAt);
      && r.key == raw.key
      && r.body - {"error", "failedAt"} ==
         (match host.parseJson(TextOfMessage(raw)) {
           case Ok(Object(fields)) => fields - {"error", "failedAt"}
           case _ => map["raw" := if raw.value.Some? then Text(raw.value.value) else Null]
         })
      && "failedAt" in r.body && r.body["failedAt"] == Text(failedAt) && "error" in r.body
      && (forall message :: Refuses(host, raw, message) ==> r.body["error"] == Text(message))
      && forall request :: Asks(host, raw, request) ==> r.body["error"] == Text(calls.error(3))
  {
    AsksOrRefuses(host, raw);
  }

  // --- The store and the consumer ------------------------------------------------------------------

  /** What outlives the consumer: the generated codes, the calls made so far, the dead-letter topic. */
  class Outside {
    var rows: seq<Row>
    var calls: seq<Generate>
    var records: seq<DlqRecord>

    constructor (rows: seq<Row>)
      ensures this.rows == rows && calls == [] && records == []
    {
      this.rows, calls, records := rows, [], [];
    }

    /** One row per correlation id at most, whether the call then returns or throws. */
    method GenerateCode(request: Generate, g: Generation) returns (ok: bool)
      modifies this`rows, this`calls
      ensures ok == g.completes
      ensures calls == old(calls) + [request]
      ensures rows == Issue(old(rows), request.correlationId, g)
    {
      calls := calls + [request];
      if g.code.Some? && !HasRow(rows, request.correlationId) {
        rows := rows + [Row(request.correlationId, g.code.value)];
      }
      ok := g.completes;
    }

    method Publish(record: DlqRecord, fate: Fate) returns (ok: bool)
      modifies this`records
      ensures ok == (fate == Succeeds)
      ensures records == if fate.Takes() then old(records) + [record] else old(records)
    {
      if fate.Takes() {
        records := records + [record];
      }
      ok := fate == Succeeds;
    }
  }

  class GenerateRequestedConsumer {
    const host: Host
    const backoffBaseMs: nat
    const backoffMaxMs: nat
    const outside: Outside

    constructor (host: Host, backoffBaseMs: nat, backoffMaxMs: nat, outside: Outside)
      ensures this.outside == outside
    {
      this.host := host;
      this.backoffBaseMs := backoffBaseMs;
      this.backoffMaxMs := backoffMaxMs;
      this.outside := outside;
    }

    /**
     A malformed message never reaches `generateCode`; a request reaches it once per attempt, at
     most three times and never after a return. `ACK` means the last attempt returned; otherwise
     all three failed and the record is published, and the call fails exactly when that publish
     does, against its comment in the source.
     */
    method ProcessMessageWithContext(raw: RawMessage, now: string, calls: Calls, fate: Fate)
      returns (r: Result<ProcessOutcome, ()>, waits: seq<nat>)
      modifies outside
      ensures r == (if !Exhausted(host, raw, calls) then Ok(ACK)
                    else if fate == Succeeds then Ok(DLQ) else Err(()))
      ensures outside.rows == RowsAfter(host, raw, calls, old(outside.rows), Made(host, raw, calls))
      ensures forall message :: Refuses(host, raw, message) ==> outside.calls == old(outside.calls)
      ensures forall request :: Asks(host, raw, request) ==>
                outside.calls == old(outside.calls) + seq(Made(host, raw, calls), _ => request)
      ensures outside.records == old(outside.records) +
                (if Exhausted(host, raw, calls) && fate.Takes()
                 then [DlqRecordFor(host, raw, calls, now)] else [])
      ensures |waits| == Made(host, raw, calls) - 1
      ensures forall k :: 0 <= k < |waits| ==> waits[k] == Backoff(backoffBaseMs, backoffMaxMs, k + 1)
    {
      AsksOrRefuses(host, raw);
      var lastErrorMessage := "unknown error";
      var bestEffortEnvelope: Option<Fields> := None;
      waits := [];
      var attempt := 1;
      while attempt <= MAX_PROCESSING_ATTEMPTS
        invariant 1 <= attempt <= MAX_PROCESSING_ATTEMPTS + 1
        invariant FirstReturn(host, raw, calls, 1) == FirstReturn(host, raw, calls, attempt)
        invariant bestEffortEnvelope == if attempt == 1 then None else BestEffortEnvelope(host, raw)
        invariant attempt > 1 ==> lastErrorMessage == ErrorOf(host, raw, calls, attempt - 1)
        invariant outside.rows == RowsAfter(host, raw, calls, old(outside.rows), attempt - 1)
        invariant Prepare(host, raw).Err? ==> outside.calls == old(outside.calls)
        invariant Prepare(host, raw).Ok? ==>
                    outside.calls == old(outside.calls) + seq(attempt - 1, _ => Prepare(host, raw).value)
        invariant outside.records == old(outside.records)
        invariant |waits| == if attempt <= MAX_PROCESSING_ATTEMPTS then attempt - 1 else attempt - 2
        invariant forall k :: 0 <= k < |waits| ==> waits[k] == Backoff(backoffBaseMs, backoffMaxMs, k + 1)
      {
        var parsed := Parsed(host, raw);
        if parsed.Ok? && parsed.value.Object? {
          bestEffortEnvelope := Some(parsed.value.fields);
        }
        var prepared := Prepare(host, raw);
        if prepared.Ok? {
          var ok := outside.GenerateCode(prepared.value, calls.generation(attempt));
          if ok {
            return Ok(ACK), waits;
          }
          lastErrorMessage := calls.error(attempt);
        } else {
          lastErrorMessage := prepared.error;
        }
        if attempt < MAX_PROCESSING_ATTEMPTS {
          waits := waits + [Backoff(backoffBaseMs, backoffMaxMs, attempt)];
        }
        attempt := attempt + 1;
      }
      var published := outside.Publish(BuildRecord(raw, bestEffortEnvelope, lastErrorMessage, now), fate);
      r := if published then Ok(DLQ) else Err(());
    }
  }

  // --- Deliveries are runs -------------------------------------------------------------------------

  function AttemptSteps(i: nat, host: Host, raw: RawMessage, calls: Calls, k: nat): seq<Step> {
    if k == 0 then [Deliver(i)]
    else AttemptSteps(i, host, raw, calls, k - 1) + [Attempt(i, Attempted(host, raw, calls, k))]
  }

  function DeliverySteps(i: nat, host: Host, raw: RawMessage, calls: Calls, fate: Fate): seq<Step> {
    AttemptSteps(i, host, raw, calls, Made(host, raw, calls)) +
    (if Exhausted(host, raw, calls) then [Publish(i, fate)] else [])
  }

  /** The machine's state while instance `i` is busy with a message and nothing else has changed. */
  function Busy(s: State, i: nat, phase: Phase, rows: seq<Row>): State
    requires i < |s.instances|
  {
    WithInstance(s, i, s.instances[i].(phase := phase)).(rows := rows)
  }

  function PhaseAfter(k: nat): Phase {
    if k < MAX_PROCESSING_ATTEMPTS then Attempting(k + 1) else Publishing
  }

  lemma AttemptFrom(c: Config, s: State, i: nat, k: nat, rows: seq<Row>, g: Generation)
    requires i < |s.instances| && s.instances[i].phase == Idle && s.instances[i].resolved < |c.log|
    requires c.log[s.instances[i].resolved].Malformed? ==> g == Generation(false, None)
    requires k < MAX_PROCESSING_ATTEMPTS
    ensures var p := s.instances[i].resolved;
      var at := Busy(s, i, Attempting(k + 1), rows);
      var issued := if c.log[p].Request? then Issue(rows, c.log[p].key, g) else rows;
      && Enabled(c, at, Attempt(i, g))
      && Next(c, at, Attempt(i, g)) ==
           if g.completes then WithInstance(s, i, Instance(p + 1, Idle, true)).(rows := issued, acked := s.acked + {p})
           else Busy(s, i, PhaseAfter(k + 1), issued)
  {
    var inst, at := s.instances[i], Busy(s, i, Attempting(k + 1), rows);
    var onward, next := Instance(inst.resolved + 1, Idle, true), inst.(phase := PhaseAfter(k + 1));
    assert at.instances[i := onward] == s.instances[i := onward];
    assert at.instances[i := next] == s.instances[i := next];
  }

  /** An attempt in terms of the log entry alone. */
  lemma AttemptOfEntry(host: Host, raw: RawMessage, calls: Calls, rows: seq<Row>, k: nat)
    ensures var m, g := Classify(host, raw), Attempted(host, raw, calls, k + 1);
      && (m.Malformed? ==> g == Generation(false, None))
      && RowsAfter(host, raw, calls, rows, k + 1)
         == if m.Request? then Issue(RowsAfter(host, raw, calls, rows, k), m.key, g)
            else RowsAfter(host, raw, calls, rows, k)
  {
  }

  /** One attempt more that throws, after a run that left the instance before it. */
  lemma OneMoreFailure(c: Config, s: State, i: nat, host: Host, raw: RawMessage, calls: Calls, k: nat, steps: seq<Step>)
    requires i < |s.instances| && s.instances[i].phase == Idle && s.instances[i].resolved < |c.log|
    requires c.log[s.instances[i].resolved] == Classify(host, raw)
    requires k < MAX_PROCESSING_ATTEMPTS && !Attempted(host, raw, calls, k + 1).completes
    requires Feasible(c, s, steps)
    requires After(c, s, steps) == Busy(s, i, PhaseAfter(k), RowsAfter(host, raw, calls, s.rows, k))
    ensures var longer := steps + [Attempt(i, Attempted(host, raw, calls, k + 1))];
      && Feasible(c, s, longer)
      && After(c, s, longer) == Busy(s, i, PhaseAfter(k + 1), RowsAfter(host, raw, calls, s.rows, k + 1))
  {
    var g := Attempted(host, raw, calls, k + 1);
    AttemptOfEntry(host, raw, calls, s.rows, k);
    AttemptFrom(c, s, i, k, RowsAfter(host, raw, calls, s.rows, k), g);
    AfterOneMore(c, s, steps, Attempt(i, g));
  }

  lemma DeliverFrom(c: Config, s: State, i: nat)
    requires i < |s.instances| && s.instances[i].phase == Idle && s.instances[i].resolved < |c.log|
    ensures Feasible(c, s, [Deliver(i)]) && After(c, s, [Deliver(i)]) == Busy(s, i, Attempting(1), s.rows)
  {
    AfterOneMore(c, s, [], Deliver(i));
    assert [] + [Deliver(i)] == [Deliver(i)];
  }

  /** The machine after `k` attempts that all threw. */
  lemma {:induction false} FailedAttempts(c: Config, s: State, i: nat, host: Host, raw: RawMessage,
                                          calls: Calls, k: nat)
    requires i < |s.instances| && s.instances[i].phase == Idle && s.instances[i].resolved < |c.log|
    requires c.log[s.instances[i].resolved] == Classify(host, raw)
    requires k <= MAX_PROCESSING_ATTEMPTS
    requires forall j :: 1 <= j <= k ==> !Attempted(host, raw, calls, j).completes
    ensures Feasible(c, s, AttemptSteps(i, host, raw, calls, k))
    ensures After(c, s, AttemptSteps(i, host, raw, calls, k))
         == Busy(s, i, PhaseAfter(k), RowsAfter(host, raw, calls, s.rows, k))
  {
    if k == 0 {
      DeliverFrom(c, s, i);
    } else {
      FailedAttempts(c, s, i, host, raw, calls, k - 1);
      OneMoreFailure(c, s, i, host, raw, calls, k - 1, AttemptSteps(i, host, raw, calls, k - 1));
    }
  }

  lemma PublishFrom(c: Config, s: State, i: nat, rows: seq<Row>, fate: Fate)
    requires i < |s.instances| && s.instances[i].phase == Idle && s.instances[i].resolved < |c.log|
    ensures var p := s.instances[i].resolved;
      var at := Busy(s, i, Publishing, rows);
      && Enabled(c, at, Publish(i, fate))
      && Next(c, at, Publish(i, fate)) ==
           WithInstance(s, i, if fate == Succeeds then Instance(p + 1, Idle, true) else s.instances[i])
             .(rows := rows, dlq := s.dlq + (if fate.Takes() then [p] else []))
  {
    var at := Busy(s, i, Publishing, rows);
    var onward := Instance(s.instances[i].resolved + 1, Idle, true);
    assert at.instances[i := onward] == s.instances[i := onward];
    assert at.instances[i := s.instances[i]] == s.instances[i := s.instances[i]];
  }

  /** A delivery whose attempt `k + 1` is the first to return. */
  lemma ReturningDelivery(c: Config, s: State, i: nat, host: Host, raw: RawMessage, calls: Calls, k: nat)
    requires i < |s.instances| && s.instances[i].phase == Idle && s.instances[i].resolved < |c.log|
    requires c.log[s.instances[i].resolved] == Classify(host, raw)
    requires k < MAX_PROCESSING_ATTEMPTS && Attempted(host, raw, calls, k + 1).completes
    requires forall j :: 1 <= j <= k ==> !Attempted(host, raw, calls, j).completes
    ensures var p := s.instances[i].resolved;
      var steps := AttemptSteps(i, host, raw, calls, k + 1);
      && Feasible(c, s, steps)
      && After(c, s, steps) == WithInstance(s, i, Instance(p + 1, Idle, true))
           .(rows := RowsAfter(host, raw, calls, s.rows, k + 1), acked := s.acked + {p})
  {
    var g := Attempted(host, raw, calls, k + 1);
    FailedAttempts(c, s, i, host, raw, calls, k);
    AttemptOfEntry(host, raw, calls, s.rows, k);
    AttemptFrom(c, s, i, k, RowsAfter(host, raw, calls, s.rows, k), g);
    AfterOneMore(c, s, AttemptSteps(i, host, raw, calls, k), Attempt(i, g));
  }

  /** A delivery whose attempts all threw. */
  lemma ExhaustedDelivery(c: Config, s: State, i: nat, host: Host, raw: RawMessage, calls: Calls, fate: Fate)
    requires i < |s.instances| && s.instances[i].phase == Idle && s.instances[i].resolved < |c.log|
    requires c.log[s.instances[i].resolved] == Classify(host, raw)
    requires forall j :: 1 <= j <= MAX_PROCESSING_ATTEMPTS ==> !Attempted(host, raw, calls, j).completes
    ensures var p := s.instances[i].resolved;
      var steps := AttemptSteps(i, host, raw, calls, MAX_PROCESSING_ATTEMPTS) + [Publish(i, fate)];
      && Feasible(c, s, steps)
      && After(c, s, steps) ==
           WithInstance(s, i, if fate == Succeeds then Instance(p + 1, Idle, true) else s.instances[i])
             .(rows := RowsAfter(host, raw, calls, s.rows, MAX_PROCESSING_ATTEMPTS),
               dlq := s.dlq + (if fate.Takes() then [p] else []))
  {
    FailedAttempts(c, s, i, host, raw, calls, MAX_PROCESSING_ATTEMPTS);
    PublishFrom(c, s, i, RowsAfter(host, raw, calls, s.rows, MAX_PROCESSING_ATTEMPTS), fate);
    AfterOneMore(c, s, AttemptSteps(i, host, raw, calls, MAX_PROCESSING_ATTEMPTS), Publish(i, fate));
  }

  /**
   The callback refines the machine: delivering a message to an idle instance at its offset is a
   run whose rows and dead-letter offsets are what the callback leaves, and the instance moves past
   the message exactly when the callback resolves.
   */
  lemma DeliveryIsRun(c: Config, s: State, i: nat, host: Host, raw: RawMessage, calls: Calls, fate: Fate)
    requires i < |s.instances| && s.instances[i].phase == Idle && s.instances[i].resolved < |c.log|
    requires c.log[s.instances[i].resolved] == Classify(host, raw)
    ensures
      var p := s.instances[i].resolved;
      var steps := DeliverySteps(i, host, raw, calls, fate);
      && Feasible(c, s, steps)
      && var s' := After(c, s, steps);
      && s'.rows == RowsAfter(host, raw, calls, s.rows, Made(host, raw, calls))
      && s'.dlq == s.dlq + (if Exhausted(host, raw, calls) && fate.Takes() then [p] else [])
      && s'.acked == s.acked + (if Exhausted(host, raw, calls) then {} else {p})
      && s'.committed == s.committed
      && s'.instances[i] == (if Exhausted(host, raw, calls) && fate != Succeeds then s.instances[i]
                             else Instance(p + 1, Idle, true))
  {
    var k := Made(host, raw, calls);
    if Exhausted(host, raw, calls) {
      ExhaustedDelivery(c, s, i, host, raw, calls, fate);
    } else {
      ReturningDelivery(c, s, i, host, raw, calls, k - 1);
      assert DeliverySteps(i, host, raw, calls, fate) == AttemptSteps(i, host, raw, calls, k);
    }
  }
}
