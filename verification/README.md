# Message settlement and service boundaries: a Dafny model

This project models the parts of the reward platform where correctness spans several functions, and
proves what they are for.

- **Two Kafka consumers** (`RewardPartition`, `RewardProgress`, `RewardConsumer`, `PromoPartition`,
  `PromoConsumer`, `Retry`). A partition is a state machine whose steps are the points between
  awaits, with any number of instances, crashes at every point, redelivery, and calls that fail with
  or without having taken effect. The consumers themselves are classes whose callbacks are proved to
  be runs of those machines. The two policies differ: the reward consumer retries only the schema
  validation and commits by hand; the promo consumer retries its whole pipeline and leaves the commit
  to the client library.
- **The dead-letter producers' lazy connection** (`LazyProducer`), one protocol shared by both
  services, under any interleaving of publishes, destroys and promise callbacks.
- **The reward-tracking event** (`RewardEvents`, `RewardSchema`): the Kafka and the gRPC validator, their
  parity, and for every JSON value what is accepted, what it means, and what is said of the rest.
- **One-time codes** (`Totp`, over `Numbers`): base32 decoding with a wrapping 32-bit accumulator,
  dynamic truncation, and the six-digit text.
- **The campaign-configuration service** (`ConfigFetch`, `ConfigAnswer`, `ChangeEvents`, `Watchers`):
  section resolution, what a call answers, the etag, the conditional fetch, the change-event publisher,
  and the watch call over it.
- **The identity allowlist** (`Allowlist`): parser, certificate identities, guard, per-call tenant.
- **Metrics, load driver, access log** (`Metrics`, `ServiceMetrics`, `LoadTest`, `AccessLog`):
  canonical keys, the series the service really writes, nearest-rank percentiles, round robin, sampling.
- `Common`, `Text`, `Sorting`, `Sums`, `Rounds` hold what these share.

Code that is not in the modelled files enters as a contract: `applyRewardTrackingEvent` is atomic and
the first event of a `rewardEntryId` wins; `generateCode` may throw and stores at most one row for a
`correlationId`; `sha256` and the canonical JSON are injective, and a digest is non-empty text without
a bar; `JSON.parse`, dates, the decimal test, HMAC and the customer hash are arbitrary functions. How
an awaited call ends (`Fate`) and the clock are parameters, so every claim holds for all of them.

Where the code and its comments disagree, the model follows the code:

- `validateWithBoundedRetries` is said never to throw
  (`reward-tracking-service/src/kafka/reward-tracking-consumer.service.ts:264`), but the awaited
  publish at line 331 can reject; then the call rejects and the offset is not committed. The same holds
  for `processMessage` of the promo consumer
  (`promo-code-service/src/messaging/generate-requested.consumer.ts:20` against line 263).
- The reward consumer is said never to let a customer id reach the dead-letter topic in the clear
  (`reward-tracking-service/src/kafka/reward-tracking-consumer.service.ts:48-57`). Only the top-level
  `customerId` of a JSON object is replaced: the array `[{"customerId":"c-1"}]`, or an object cut short,
  is published as its own text, and `{"byCustomer":{"c-1":true}}` keeps it as a field name.
  `RewardConsumer.ClearTextExactly` and `RawTextExactly` say exactly when, `CustomerIdLeaks` and
  `CustomerIdLeaksAsName` give the inputs.
- `WATCH_MAX_QUEUE` is described as how far a subscriber may fall behind; the code counts failed
  deliveries over the subscription's whole life and never resets the count. A subscriber that recovers
  after every failure is dropped one event behind (`ChangeEvents.DroppedWithoutFallingBehind`); the
  description is true of a dropped one exactly when no delivery succeeded after one had failed
  (`ChangeEvents.DroppedForFallingBehind`). The dropped one is said to have to reconnect and re-warm
  (`portal/back-end/src/grpc/change-event.publisher.ts:26-27`), but its call stays open and silent until
  its own abort (`Watchers.DroppedIsNotTold`).
- The guard is said to take the DNS names of the SAN, and the common name when there is no SAN at all.
  The code cuts the SAN's text at every comma and falls back whenever no part is a `DNS:` entry, say when
  there is only an IP address (`Allowlist.AddressOnlyFallsBack`). A single entry of another kind with a
  comma in it, say the address `http://x, DNS:admin`, offers a name that is not a certified DNS name
  (`Allowlist.CommaOffersName`); `Allowlist.SanRoundTrip` says exactly which entries offer what they certify.
- The allowlist's error text asks for a positive integer as tenant. `svc: 7`, `svc:+7` and `svc:7x` are
  accepted too (`Allowlist.LooseEntries`), and `svc :7` with the blank in the identity. What is accepted
  is `Allowlist.EntryParsesExactly`; the text is kept exactly when nothing follows the digits
  (`Allowlist.IntegerExactly`).
- Metric keys are meant to stand for one name and label set each. Label values are free text, so
  `incrementRewardsCreated("a,reward_category=b", "c")` and `("a", "b,reward_category=c")` count as one
  series. A series has its key to itself, and reads as exactly its own writes, if and only if neither
  of its two values contains the text between them (`ServiceMetrics.KeysExact`, `ReadersExact`).
- The two validators are meant to be one validation; a request whose version number is zero is
  accepted by both, but the Kafka one keeps a rendered zero and the gRPC one drops it
  (`RewardEvents.ParityExact`).
- Destroying a dead-letter producer does not stop a connection attempt that is in flight; its producer
  is adopted afterwards (`LazyProducer.DestroyLeavesNothing` says exactly when).
- The access log with a sample rate of zero samples nothing, since a remainder by zero is not a number.

## Model

| member | source | states |
|---|---|---|
| RewardPartition.ExactlyOnceEffect | reward-tracking-service/src/kafka/reward-tracking-consumer.service.ts:204-259 | After any run of any number of instances, with crashes, failures and redelivery, the ledger is the first-wins fold of the valid events of a contiguous log prefix, and handling any message of that prefix again changes nothing |
| RewardPartition.NoLoss | reward-tracking-service/src/kafka/reward-tracking-consumer.service.ts:204-337 | Every committed offset is in the ledger or has a dead-letter record, and only poison messages have a record |
| RewardPartition.FoldIsFirst | reward-tracking-service/src/kafka/reward-tracking-consumer.service.ts:244-248 | The fold's entry for an id is the one the ledger began with if it had one, otherwise the first valid event with that id in the log |
| RewardPartition.SettlingKeepsFold | reward-tracking-service/src/kafka/reward-tracking-consumer.service.ts:238-259 | Settling the message at an instance's offset, for the first time or again, keeps the ledger equal to the fold of the settled prefix |
| RewardPartition.StepInvariant | reward-tracking-service/src/kafka/reward-tracking-consumer.service.ts:204-337 | Every step of the machine keeps the invariant that ties positions, phases, committed offset, ledger and dead letters together |
| RewardPartition.CrashAnywhere | reward-tracking-service/src/kafka/reward-tracking-consumer.service.ts:199-219 | An instance may crash at any point of a run; it loses its place and nothing else, and goes on at the committed offset |
| RewardPartition.ApplyLeaves | reward-tracking-service/src/kafka/reward-tracking-consumer.service.ts:244-248 | An apply that fails may or may not have taken effect, and leaves the message to be handed out again |
| RewardProgress.RunRefines | reward-tracking-service/src/kafka/reward-tracking-consumer.service.ts:204-337 | Every run refines the ideal machine that settles each message of the log once, in order |
| RewardProgress.UnacknowledgedBlocks | reward-tracking-service/src/kafka/reward-tracking-consumer.service.ts:209-217 | As long as the message at an offset is never applied or published successfully, neither the committed offset nor any instance moves past it |
| RewardProgress.RunsAreBounded | reward-tracking-service/src/kafka/reward-tracking-consumer.service.ts:238-337 | A run's length is bounded by instances, log length and number of faults |
| RewardProgress.MaximalRunCommitsAll | reward-tracking-service/src/kafka/reward-tracking-consumer.service.ts:238-337 | A run after which only faults could happen has committed the whole log, poison messages included |
| RewardProgress.ReplayBound | reward-tracking-service/src/kafka/reward-tracking-consumer.service.ts:203-218 | With one instance, completed processings are at most messages plus faults, and dead-letter records at most poison messages plus faults |
| RewardConsumer.RewardTrackingConsumer.ValidateWithBoundedRetries | reward-tracking-service/src/kafka/reward-tracking-consumer.service.ts:266-337 | A valid message takes one attempt and no wait; a poison one takes all three with clamped growing waits, one failed-ingestion count and one record, and the call fails exactly when the publish does |
| RewardConsumer.RewardTrackingConsumer.ProcessMessage | reward-tracking-service/src/kafka/reward-tracking-consumer.service.ts:238-259 | Valid messages are applied once and never dead-lettered, poison ones are dead-lettered and never applied; a failed call is passed on |
| RewardConsumer.RewardTrackingConsumer.EachMessage | reward-tracking-service/src/kafka/reward-tracking-consumer.service.ts:204-218 | The offset is committed only after the message resolved; the store afterwards is the delivery's effect on the store before |
| RewardConsumer.ValidatedExactly | reward-tracking-service/src/kafka/reward-tracking-consumer.service.ts:274-283 | A message is valid if and only if its text is a JSON object that passes every check, and then the input is that object's fields; otherwise the failure is that the text is not JSON, that it is no object, or the first failed check |
| RewardConsumer.DlqRecordHidesCustomer | reward-tracking-service/src/kafka/reward-tracking-consumer.service.ts:314-355 | Field by field what the record of a JSON object has: no top-level `customerId`, its hash if it was usable, every other field as it was; any other message is published as its own text. The key is hashed, and the error is what validation failed with |
| RewardConsumer.ClearTextExactly | reward-tracking-service/src/kafka/reward-tracking-consumer.service.ts:48-57 | A text is published in the clear if and only if a JSON object has it in the name or value of a field other than its top-level `customerId`, at any depth, as text or number, or in the hash, or another message has it anywhere |
| RewardConsumer.RawTextExactly | reward-tracking-service/src/kafka/reward-tracking-consumer.service.ts:305-319 | A record with the raw text is published if and only if the message is not a JSON object |
| RewardConsumer.CustomerIdLeaks | reward-tracking-service/src/kafka/reward-tracking-consumer.service.ts:48-57 | An array holding a customer, and an object cut short, take the customer's id to the topic |
| RewardConsumer.CustomerIdLeaksAsName | reward-tracking-service/src/kafka/reward-tracking-consumer.service.ts:48-57 | An object whose inner field is named by a customer's id takes that id to the topic |
| RewardConsumer.DeliveryIsRun | reward-tracking-service/src/kafka/reward-tracking-consumer.service.ts:199-219 | The callback's effect on the store is that of a run of the partition machine from an idle instance |
| PromoPartition.Safety | promo-code-service/src/messaging/generate-requested.consumer.ts:138-269 | However often messages are redelivered, every committed offset was acknowledged or dead-lettered, only requests are acknowledged, whatever codes had been issued before are kept, codes exist only for these ids and requested ones, and no `correlationId` gets a second or a different code |
| PromoPartition.StepInvariant | promo-code-service/src/messaging/generate-requested.consumer.ts:138-269 | Every step keeps the invariant and only ever appends rows |
| PromoPartition.CrashAnywhere | promo-code-service/src/messaging/generate-requested.consumer.ts:137-144 | An instance may crash at any point of a run; it loses its place and nothing else, and goes on at the committed offset |
| PromoPartition.CommitAnywhere | promo-code-service/src/messaging/generate-requested.consumer.ts:137-144 | The client may commit the resolved offset at any point, also while a message is being handled |
| PromoPartition.UnresolvedBlocks | promo-code-service/src/messaging/generate-requested.consumer.ts:200-269 | A message whose attempts all throw and whose publish never succeeds is passed by no instance and no commit |
| PromoPartition.AtMostThreePerDelivery | promo-code-service/src/messaging/generate-requested.consumer.ts:204-254 | Over a whole run the attempts are at most three times the deliveries |
| PromoPartition.EachDelivery | promo-code-service/src/messaging/generate-requested.consumer.ts:204-267 | At every point of a run with crashes, a delivery makes an attempt only after fewer than three that all threw, and publishes only after exactly three that threw |
| PromoPartition.SettledByDelivery | promo-code-service/src/messaging/generate-requested.consumer.ts:204-268 | A dead-lettered offset had a delivery whose three attempts threw, an acknowledged one a delivery whose last attempt returned after at most two that threw |
| PromoPartition.Progress | promo-code-service/src/messaging/generate-requested.consumer.ts:138-269 | A run's length is bounded by instances, log length and faults, however many attempts throw, and a run after which only faults could happen has committed the whole log |
| PromoConsumer.GenerateRequestedConsumer.ProcessMessageWithContext | promo-code-service/src/messaging/generate-requested.consumer.ts:200-269 | A message that one of the three stages refuses never reaches `generateCode`; one they accept reaches it with its envelope's correlation id and tenant id and its payload, once per attempt; `ACK` exactly when an attempt returned, otherwise the record is published, and the call fails exactly when that publish does |
| PromoConsumer.DeliveryExactly | promo-code-service/src/messaging/generate-requested.consumer.ts:200-254 | From the three stages alone: the calls stop at the first that returns or at the third, they leave one code for the envelope's correlation id, the one it had or the first they came up with; a refused message is attempted three times and leaves nothing |
| PromoConsumer.RecordKeepsMessage | promo-code-service/src/messaging/generate-requested.consumer.ts:256-267 | The record keeps the key and every field of a JSON object other than `error` and `failedAt`, or the raw text; its error is that of the third call, or of the first stage that refused |
| PromoConsumer.DeliveryIsRun | promo-code-service/src/messaging/generate-requested.consumer.ts:137-144 | The callback's effect is that of a run of the partition machine, and the instance moves on exactly when the callback resolves |
| Retry.BackoffDoubles | reward-tracking-service/src/kafka/reward-tracking-consumer.service.ts:284-292 | The first wait is the base, each further one twice the one before, as far as the clamp allows; so waits never shrink |
| LazyProducer.LazyConnect | reward-tracking-service/src/kafka/reward-tracking-dlq.producer.ts:45-113 | Under any interleaving at most one attempt is in flight, and it is `connecting`; adoptions are disconnections plus the current producer, and at most one more than destroys; a send uses only a producer adopted before and not disconnected |
| LazyProducer.StepInvariant | promo-code-service/src/messaging/dlq-producer.service.ts:24-89 | Every segment keeps the invariant that ties the two fields to attempts, waiting publishes and history |
| LazyProducer.FailureAllowsRetry | reward-tracking-service/src/kafka/reward-tracking-dlq.producer.ts:74-82 | Once a failed attempt has run its last callback both fields are clear, and the next publish, whatever else happens before it, starts a fresh attempt |
| LazyProducer.EveryPublishSettles | reward-tracking-service/src/kafka/reward-tracking-dlq.producer.ts:97-113 | Runs are bounded by publishes and destroys, and when only new ones could follow every publish has settled |
| LazyProducer.PublishOutcome | reward-tracking-service/src/kafka/reward-tracking-dlq.producer.ts:74-113 | Over every run: a publish succeeded if and only if its send did, after a step that sent for it through a connected, not disconnected producer; it failed if and only if the attempt it joined was rejected, it found no producer, or its send failed |
| LazyProducer.DestroyLeavesNothing | reward-tracking-service/src/kafka/reward-tracking-dlq.producer.ts:45-51 | After a destroy without later publishes no producer can appear, if and only if no attempt that can still succeed is in flight |
| LazyProducer.DlqProducer.Publish | promo-code-service/src/messaging/dlq-producer.service.ts:32-76 | Deciding on the two fields alone, the segment up to the first await reuses the producer, joins the attempt, or starts one, and awaits that |
| LazyProducer.DlqProducer.Adopted | promo-code-service/src/messaging/dlq-producer.service.ts:54-58 | The `then` callback makes the attempt's producer the current one |
| LazyProducer.DlqProducer.Settle | promo-code-service/src/messaging/dlq-producer.service.ts:59-61 | The `finally` callback clears `connecting`, after a success or a failure |
| LazyProducer.DlqProducer.ResumeConnect | promo-code-service/src/messaging/dlq-producer.service.ts:54-62 | The segment after the await of the attempt passes a rejection on |
| LazyProducer.DlqProducer.ResumeSend | promo-code-service/src/messaging/dlq-producer.service.ts:76-89 | The segment after the await of the send passes a failure on |
| LazyProducer.DlqProducer.ResumePublish | promo-code-service/src/messaging/dlq-producer.service.ts:76-89 | The segment after the await throws without a producer and otherwise sends through it |
| LazyProducer.DlqProducer.OnModuleDestroy | promo-code-service/src/messaging/dlq-producer.service.ts:24-30 | Destroying hands the current producer to `disconnect` and forgets it |
| RewardEvents.Parity | reward-tracking-service/src/kafka/reward-tracking-event.schema.ts:130-222 | For every well-typed gRPC request and its JSON rendering both validators accept or both reject at the same first field, and accepted inputs agree except for the channel, which is each adapter's own, and a rendered zero version |
| RewardEvents.ParityExact | reward-tracking-service/src/grpc/reward-tracking-ingest.grpc-controller.ts:196-262 | The two results agree up to the channel exactly when no accepted request's zero version number is rendered |
| RewardEvents.RenderingParity | reward-tracking-service/src/grpc/reward-tracking-ingest.grpc-controller.ts:196-262 | For the rendering without empty texts and without a zero version the two results agree up to the channel |
| RewardEvents.ZeroVersionDiffers | reward-tracking-service/src/kafka/reward-tracking-event.schema.ts:51-53 | There is a request both accept and, its zero version rendered, read differently |
| RewardEvents.RenderingAgrees | reward-tracking-service/src/grpc/reward-tracking-ingest.grpc-controller.ts:117-166 | Field by field, the helpers of the two adapters read the same value from a request and its rendering |
| RewardEvents.AcceptedIsWellFormed | reward-tracking-service/src/kafka/reward-tracking-event.schema.ts:43-222 | An accepted input meets the domain's own well-formedness guard |
| RewardSchema.ParseExactly | reward-tracking-service/src/kafka/reward-tracking-event.schema.ts:130-222 | For every JSON value: an object is accepted if and only if it passes every check, and then each field of the input is what the body has under the key of that name; otherwise the reason is that of the first check it fails |
| RewardSchema.NullIsAbsent | reward-tracking-service/src/kafka/reward-tracking-event.schema.ts:51-128 | A `null` reads like an absent key, in every field |
| Totp.DecodeBase32 | portal/e2e/utils/totp.ts:27-44 | The loop with an unmasked 32-bit accumulator yields the floor(5n/8) big-endian bytes of the base-32 number shifted right by 5n mod 8, or fails at the first character outside the alphabet |
| Totp.RoundTrip | portal/e2e/utils/totp.ts:27-44 | Decoding undoes the encoder of section 6 of RFC 4648 for every byte string, whatever the case, blanks, dashes and padding |
| Totp.RoundTripStandard | portal/e2e/utils/totp.ts:25-44 | In particular for the encoder's own output with its standard padding |
| Totp.AcceptedExactly | portal/e2e/utils/totp.ts:27-37 | A text is accepted if and only if it is symbols in either case with white space and dashes anywhere and padding behind them, and those symbols are what is decoded |
| Totp.DecodeTurn | portal/e2e/utils/totp.ts:33-42 | One turn of the loop keeps the accumulator congruent to the whole number although high bits are lost |
| Totp.SymbolIndexIsPosition | portal/e2e/utils/totp.ts:23-35 | The index of a character is its position in the alphabet |
| Totp.TruncationIsWordMod31 | portal/e2e/utils/totp.ts:51-56 | For every 20-byte digest the truncation reads in bounds and its signed 32-bit operations give the big-endian word modulo 2^31, as section 5.3 of RFC 4226 has it |
| Totp.PaddedNumeral | portal/e2e/utils/totp.ts:58 | The padded text has exactly the digits asked for and denotes the value |
| Totp.HotpCode | portal/e2e/utils/totp.ts:46-59 | The code is six digits denoting the truncated digest modulo 10^6, of the HMAC over the eight big-endian bytes of the counter; it fails exactly for a counter outside 64 bits |
| Totp.CounterBytesExactly | portal/e2e/utils/totp.ts:47-48 | Exactly the counters of 64 bits have eight bytes whose big-endian value they are, and have one string of them |
| Totp.TotpCodeAt | portal/e2e/utils/totp.ts:62-66 | The code is that of the 30-second step that the time lies in, section 4.2 of RFC 6238, for the decoded secret; it fails exactly for a secret with a bad character, which it names, and then for a time outside the range |
| Totp.ConstantWithinStep | portal/e2e/utils/totp.ts:62-66 | The code value is the same throughout a step |
| ConfigFetch.ConditionalFetchIsPlainFetch | portal/back-end/src/grpc/campaign-config.service.ts:110-135 | Over any history of configuration and grant changes and fetches of any campaigns and sections, a client that keeps its document on `notModified` holds after each successful call what an unconditional call would return then, and after a failed one what it held before |
| ConfigAnswer.AnswerExactly | portal/back-end/src/grpc/campaign-config.service.ts:110-135 | For every request: the answer is about the first campaign of the tenant and code, active or paused, and has its slices of exactly the returned sections, `BASIC` and of those the governing grant covers the ones asked for; each failure is given exactly to the requests it is for, limit first, then scope, sections and campaign |
| ConfigFetch.NotModifiedExact | portal/back-end/src/grpc/campaign-config.service.ts:383-417 | `notModified` is answered exactly to a client that already holds the full answer, and is that answer without its payload |
| ConfigFetch.FetchRefines | portal/back-end/src/grpc/campaign-config.service.ts:110-135 | A conditional call fails exactly when an unconditional one would, in the same way |
| ConfigFetch.EtagInjective | portal/back-end/src/grpc/config-hash.ts:64-67 | Equal etags mean equal payloads and equal section sets |
| ConfigFetch.EtagIgnoresOrder | portal/back-end/src/grpc/config-hash.ts:60-67 | The same sections in another order give the same etag |
| ConfigFetch.ResolveSections | portal/back-end/src/grpc/section-grant.guard.ts:66-96 | The guard's loop computes the resolution of its declarative reading |
| ConfigFetch.SectionsWithinGrant | portal/back-end/src/grpc/section-grant.guard.ts:66-96 | `BASIC` is always returned and nothing else beyond the grant, in the order of the wire enum; an explicit request gets what it names and fails with the first number that is unknown or not granted, if there is one; an empty one gets all that is granted and is told the rest |
| ChangeEvents.Conservation | portal/back-end/src/grpc/change-event.publisher.ts:74-115 | What a subscription was handed, delivered and failed together, is exactly its tenant's events published while it was open, in order; it is open only below the bound of failures, and unless unsubscribed is closed by the delivery that reaches it |
| ChangeEvents.DroppedForFallingBehind | portal/back-end/src/grpc/change-event.publisher.ts:99-109 | A dropped subscriber is behind by the bound exactly when no delivery to it succeeded after one had failed |
| ChangeEvents.DroppedWithoutFallingBehind | portal/back-end/src/grpc/change-event.publisher.ts:99-109 | A subscriber that recovers after every failure is dropped one event behind |
| ChangeEvents.Isolated | portal/back-end/src/grpc/change-event.publisher.ts:94-115 | Each subscription behaves as if no other existed |
| ChangeEvents.ClosedIsFinal | portal/back-end/src/grpc/change-event.publisher.ts:77-115 | A closed subscription stays closed and is handed nothing more |
| Watchers.SentWhileOpen | portal/back-end/src/grpc/campaign-config.service.ts:198-208 | Over any run of watches, aborts and publishes, a watch is sent exactly its tenant's events published while its subscription was open, in order |
| Watchers.WireEventTellsAll | portal/back-end/src/grpc/campaign-config.service.ts:200-207 | The wire event has the event's own fields and its change type by the number of the wire enum, and tells it from every other event |
| Watchers.MayWatchExactly | portal/back-end/src/grpc/campaign-config.service.ts:195-196 | A call may watch exactly if it is within its limit and has a grant that governs the tenant |
| Watchers.AbortedGetsNothing | portal/back-end/src/grpc/campaign-config.service.ts:209-215 | From its abort on, whenever that comes, a watch has ended and is sent nothing, whatever is published |
| Watchers.AbortedBeforeGetsNothing | portal/back-end/src/grpc/campaign-config.service.ts:213 | A watch whose call was aborted before it subscribed ends at once and is never sent anything |
| Watchers.DroppedIsNotTold | portal/back-end/src/grpc/change-event.publisher.ts:99-109 | A watch dropped at the bound has not ended and is sent nothing more, whatever follows, until its own abort |
| Watchers.StepInvariant | portal/back-end/src/grpc/campaign-config.service.ts:189-216 | Every watch either waits for its abort or has ended, and one that has ended is unsubscribed |
| Watchers.WatchService.WatchCampaignConfig | portal/back-end/src/grpc/campaign-config.service.ts:189-216 | A call past limiter and scope guard is subscribed, and then ended at once or given an abort listener; any other is rejected without effect |
| Watchers.WatchService.OnAbort | portal/back-end/src/grpc/campaign-config.service.ts:209-214 | The listener unsubscribes and resolves, once |
| ChangeEvents.ChangeEventPublisher.Publish | portal/back-end/src/grpc/change-event.publisher.ts:94-115 | The loop that counts failures and removes subscriptions on the way computes the publish step |
| ChangeEvents.ChangeEventPublisher.Subscribe | portal/back-end/src/grpc/change-event.publisher.ts:74-76 | A new subscription with no failures and an empty log |
| ChangeEvents.ChangeEventPublisher.Unsubscribe | portal/back-end/src/grpc/change-event.publisher.ts:77-79 | The subscription goes, or nothing happens if it is gone already |
| Allowlist.RoundTrip | realtime-activity-processing-service/src/grpc/grpc-server.config.ts:123-162 | Parsing the written list, with any padding and empty entries, gives the last-wins map, and a list without an entry is refused |
| Allowlist.LastWinsIsLast | realtime-activity-processing-service/src/grpc/grpc-server.config.ts:152 | The map holds for each identity the tenant of its last entry |
| Allowlist.EntryParsesExactly | realtime-activity-processing-service/src/grpc/grpc-server.config.ts:138-152 | The last colon separates; an entry is accepted if and only if its tenant is blanks, an optional plus sign, digits of positive finite value, and a rest that starts with no digit, and the tenant is the value of the digits |
| Allowlist.IntegerExactly | realtime-activity-processing-service/src/grpc/grpc-server.config.ts:147-151 | An accepted tenant is the positive integer the error text asks for exactly when nothing follows its digits |
| Allowlist.LooseEntries | realtime-activity-processing-service/src/grpc/grpc-server.config.ts:134-152 | Whatever blanks, with or without a plus sign, stand before the tenant's digits and whatever text without a leading digit after them, the entry is accepted with the same tenant, and with all that is before its colon as identity |
| Allowlist.ParsedIsWellFormed | realtime-activity-processing-service/src/grpc/grpc-server.config.ts:133-153 | Parsing succeeds exactly when every non-empty entry does, and then identities are non-empty and tenants positive |
| Allowlist.TrimWholeTrimParts | realtime-activity-processing-service/src/grpc/grpc-server.config.ts:124-134 | Trimming the whole value first makes no difference to the trimmed parts |
| Allowlist.LoadServiceIdentityRegistry | realtime-activity-processing-service/src/grpc/grpc-server.config.ts:123-162 | The loop fills the map the value stands for, or fails with the first bad entry |
| Allowlist.ParseFailsExactly | realtime-activity-processing-service/src/grpc/grpc-server.config.ts:123-162 | The value is missing exactly when it is unset or blank; otherwise the first entry that does not parse is the one reported, and a value without any entry is reported as such |
| Allowlist.EntryFailsExactly | realtime-activity-processing-service/src/grpc/grpc-server.config.ts:138-151 | An entry is malformed exactly when its last colon, if any, has nothing on one of its sides; any other that fails has a bad tenant |
| Allowlist.ExtractIdentityCandidates | realtime-activity-processing-service/src/grpc/mtls.guard.ts:62-76 | The candidates are the DNS names, or the common name when there are none |
| Allowlist.SanRoundTrip | realtime-activity-processing-service/src/grpc/mtls.guard.ts:62-76 | From any printed subject alternative name the candidates are what its entries' own texts offer, in order, or the common name, if any, when that is nothing; what they offer is exactly the certified DNS names if and only if each DNS name has no comma and no blank at its end and no comma-separated part of another entry is a DNS entry |
| Allowlist.CommaOffersName | realtime-activity-processing-service/src/grpc/mtls.guard.ts:62-76 | An entry of another kind with a comma and a DNS entry after it offers that name, though nothing certifies it as a DNS name |
| Allowlist.AddressOnlyFallsBack | realtime-activity-processing-service/src/grpc/mtls.guard.ts:57-76 | A certificate whose SAN has only an IP address is taken by its common name |
| Allowlist.FirstListedIsFirst | realtime-activity-processing-service/src/grpc/service-identity.registry.ts:24-32 | A tenant is found exactly when some candidate is listed, and it is the first listed one's |
| Allowlist.JudgedExactly | realtime-activity-processing-service/src/grpc/mtls.guard.ts:93-120 | A call without a certificate or not over TLS is unauthenticated, one without a listed candidate is denied, and any other is admitted for the tenant of its first listed candidate |
| Allowlist.ServiceIdentityRegistry.ResolveTenantId | realtime-activity-processing-service/src/grpc/service-identity.registry.ts:24-32 | The search returns the first listed candidate's tenant |
| Allowlist.MtlsGuard.CanActivate | realtime-activity-processing-service/src/grpc/mtls.guard.ts:93-120 | The verdict, and the tenant recorded for this call exactly when it is admitted |
| Allowlist.ResolvedIdentityContext.Set | realtime-activity-processing-service/src/grpc/resolved-identity.context.ts:21-23 | The tenant is recorded for the call and for no other |
| Allowlist.OwnTenant | realtime-activity-processing-service/src/grpc/resolved-identity.context.ts:18-27 | Under any interleaving a call finds its own tenant exactly when the guard admitted it |
| Allowlist.ListedCallsOnly | realtime-activity-processing-service/src/grpc/mtls.guard.ts:93-120 | From the written list to the recorded tenant: a call with a certificate is admitted exactly when some candidate is in the list, and gets the tenant of the last entry of its first listed candidate |
| Metrics.LabelOrderIrrelevant | realtime-activity-processing-service/src/observability/metrics.service.ts:61-67 | The key does not depend on the order of the labels |
| Metrics.LabelKeyInjective | realtime-activity-processing-service/src/observability/metrics.service.ts:61-67 | Without delimiters inside the parts, different names or label sets have different keys |
| ServiceMetrics.KeysExact | realtime-activity-processing-service/src/observability/metrics.service.ts:61-124 | A series the service writes shares its key with no other it can write if and only if neither of its two values, where it has two, contains the text that separates them |
| ServiceMetrics.KeyAsWritten | realtime-activity-processing-service/src/observability/metrics.service.ts:61-124 | The text of every key the service writes |
| ServiceMetrics.ReadersExact | realtime-activity-processing-service/src/observability/metrics.service.ts:74-167 | Whatever the service writes, a series reads as exactly its own increments and observations if and only if it meets that condition |
| ServiceMetrics.RewardsCreatedCollide | realtime-activity-processing-service/src/observability/metrics.service.ts:91-96 | For any three texts, two different reward series share a key |
| Metrics.ReadersAreFaithful | realtime-activity-processing-service/src/observability/metrics.service.ts:128-167 | After any operations a counter is the sum of the increments for exactly its name and label set, and a histogram its observations in order |
| Metrics.MetricsService.IncrementCounter | realtime-activity-processing-service/src/observability/metrics.service.ts:153-156 | The series' counter grows by the amount and nothing else changes |
| Metrics.MetricsService.ObserveHistogram | realtime-activity-processing-service/src/observability/metrics.service.ts:158-167 | The value is appended to the series' samples and nothing else changes |
| Metrics.MetricsService.GetHistogramSnapshot | realtime-activity-processing-service/src/observability/metrics.service.ts:134-144 | The snapshot's count and sum are those of its values |
| LoadTest.NearestRank | portal/scripts/load-test.js:352-356 | At least p percent of the samples are at most the result, fewer than p percent are below it, and no other value has both properties |
| LoadTest.RowIsOrdered | portal/scripts/load-test.js:358-384 | In every row p50, p95 and p99 are nearest-rank percentiles, ordered, and max is the maximum; errors are the results without an answer or with a status of 500 and more, rate limits those with 429, and the error rate is the errors' share |
| LoadTest.RowsPartition | portal/scripts/load-test.js:358-384 | There is one row for each name with results, and the counts add up to the number of results |
| LoadTest.Summarise | portal/scripts/load-test.js:358-384 | The rows, in order of first appearance, are those of all results of each name |
| LoadTest.RunPhase | portal/scripts/load-test.js:407-431 | The loop with its actor cursor makes exactly the specified sends |
| LoadTest.RoundRobinBalance | portal/scripts/load-test.js:329-431 | After any number of sends each workload slot and each actor has had its share rounded down or up, so two actors differ by at most one |
| LoadTest.MixedWorkload | portal/scripts/load-test.js:329-350 | Of any n sends of the mixed workload exactly n div 7 are the unauthenticated health check; no actor sends more than its ceiling of the rest |
| LoadTest.PathShares | portal/scripts/load-test.js:407-431 | In any number of whole rounds each path is requested as often as the workload lists it, each time |
| LoadTest.MixedPaths | portal/scripts/load-test.js:329-350 | The mixed workload lists the bootstrap three times, the campaigns twice, users and health once |
| AccessLog.GrpcAccessLog.Record | portal/back-end/src/grpc/access-log.ts:62-80 | Recording keeps the written lines equal to those the recorded entries lead to |
| AccessLog.SamplingBounds | portal/back-end/src/grpc/access-log.ts:62-80 | The number written is between ceil(n/rate) and that plus the always-logged ones; at rate zero it is the latter |
| AccessLog.AlwaysWritten | portal/back-end/src/grpc/access-log.ts:36-80 | Every entry with status 7, 8, 9, 13 or 16 is written, as a warning |
| AccessLog.WrittenExactly | portal/back-end/src/grpc/access-log.ts:36-80 | Each record adds a line exactly if its turn has come or its status is one of those five, as a warning exactly in the latter case |
| AccessLog.NoLongGap | portal/back-end/src/grpc/access-log.ts:62-80 | Any `sampleRate` consecutive records include a written one |

## Left out

- RewardPartition.ExactlyOnceEffect: events the gRPC and REST adapters apply to the same ledger are not steps, and the log does not grow during a run.
- PromoPartition.Safety: a code is stored under the correlation id alone; what `generateCode` decides, and its tenant, are not modelled. Codes issued over gRPC before the run are in the table it starts with; those issued during it are not steps.
- RewardConsumer.RewardTrackingConsumer.ProcessMessage: log lines and the success metric are not modelled; the failure metric is.
- RewardConsumer.ClearTextExactly: it speaks of the texts, numbers and field names in the record's body, before they are escaped; the words true, false and null, the names of the fields the schema and the record define, and the wording of the error, which a JSON parser may fill with a piece of its input, are not counted.
- PromoConsumer.RecordKeepsMessage: a record for text that is not a JSON object embeds that text as it is, as the code does.
- LazyProducer.LazyConnect: that the client disconnects a producer handed to it is the client's affair and not a step.
- RewardSchema.ParseExactly: the decimal test and the date parser are arbitrary functions of the text.
- RewardEvents.Parity: requests are well-typed, as the decoder delivers them, and numbers are exact reals rather than doubles.
- The gRPC handler around `toApplyInput` only counts failures and passes the outcome to its callback.
- Totp.DecodeBase32: upper-casing is that of the Latin letters; characters whose Unicode upper case is such a letter are not.
- Totp.HotpCode: digests of other lengths than 20 bytes do not arise from the caller.
- ConfigFetch.ConditionalFetchIsPlainFetch: `servedAt` and `sectionsOmitted` come with every response and are not part of what a client holds; the snapshot builder's queries are one function of campaign and sections.
- ChangeEvents.Conservation: a listener that subscribes or unsubscribes while an event is being published is not modelled.
- Watchers.WatchService.WatchCampaignConfig: the limiter's verdict is a parameter, and a listener's exception is the failed delivery of `ChangeEvents`.
- Allowlist.LoadServiceIdentityRegistry: a tenant too large for a double is refused, as infinite; the rounding of smaller ones beyond 2^53 is not modelled.
- Allowlist.SanRoundTrip: an entry's own text is what the platform prints for it; one that escapes commas inside entries prints texts without them.
- Metrics.ReadersAreFaithful: amounts and samples are exact reals; the check that a duration is finite and not negative is left to its caller.
- LoadTest.NearestRank: the share of the samples is an exact rational, without floating-point rounding.
- LoadTest.RunPhase: pacing, the requests themselves and the refreshing of cookies are not modelled; `total` is the rounded product of rate and duration.
- AccessLog.GrpcAccessLog.Record: the rate is a whole number, and the text of a line is not modelled.
- Strings are sequences of Unicode characters, so the sort order is by character rather than by UTF-16 unit.
- Starting and stopping consumers, dependency injection, configuration reading, TLS, the broker, the database and the gRPC runtime are not part of this model.
- `ListActiveCampaigns`, version resolution, budget status and the rate limiter's windows are not modelled: they add no state to what is.
- The copies of the allowlist, guard and registry in the redemption service are the same code.
