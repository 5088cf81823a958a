# Verified models of natricine

natricine is a Python messaging toolkit: publishers and subscribers over several brokers, a router that
runs handlers with middlewares, and a command and event bus. This project models the delivery protocols
behind these and proves what they keep, in Dafny. `dafny verify dfyconfig.toml` checks everything.

Protocols whose tasks interleave at each `await` are state machines: everything between two awaits is one
event, `Step` gives its effect, and `Run` describes the sequences of states and events. Theorems speak of
every run, or of every state that runs reach. Code that updates fields or loops is written as classes and
methods, which are proved against `Step` or against functions that give the meaning of the loop.

- **Groundwork**: `Options` and `Sequences` have the optional value and sequences without repetitions.
- **Messages**: `Messages` has the message, its one-shot `ack` and `nack`, and `copy`.
- **SQL queue**: `SqlTable` gives the meaning of the statements of both dialects, `SqlQueue` the machine of
  one topic table: inserts, clock ticks, polls, claims of a batch that may be stale by then, acks and nacks.
  On it rest `SqlExclusive` (exclusive delivery), `SqlLease` (visibility timeouts), `SqlDialects` (when the
  dialects agree), `SqlFairness` (bounded bypass), `SqlFifo` (first deliveries in order) and `SqlContent`
  (what is yielded is what was published). `SqlSubscriber` has the publisher, the subscriber's generator and
  its messages as objects.
- **SQS and SNS bodies**: `Utf8` and `Base64` are the codecs of section 3 of RFC 3629 and section 4 of RFC
  4648; `Rfc4648` has the table of the latter and that the codec follows it; `AwsMarshaling` has the
  guessing codec, the attributes, and exactly what survives them.
- **Router**: `RouterDrain` is the machine of any number of handler loops and a concurrent `close`, and
  `RouterHistory` says why it is where it is; `RouterStream` has chain building and the loop of one handler;
  `Middleware`, `Queues` and `RetryLaws` have the chain, the poison and dead-letter queues, and the
  arithmetic of retries; `RouterQueues` is the conservation law of the two queues.
- **Command and event bus**: `BusDrain` is the machine of a task per message, and `BusHistory` says why it
  is where it is; `BusHandler` is what one task does; `DependsGraph` resolves `Depends` parameters over an
  arbitrary graph, and `DependsCycles` says which graphs can be resolved at all.
- **Kafka**: `KafkaGroup` is the machine of a group member driven by the router or by any other consumer,
  with crashes and restarts; `KafkaHistory` has when it runs, what it reads, also after a nack, and what
  becomes of it; `KafkaSubscriber` is the subscriber as an object under the router.
- **Redis**: `RedisGroup` is the machine of a stream and one consumer group, and `RedisHistory` has the
  order of its reads; `RedisSubscriber` has its publisher, generator and messages as objects.
- **In-memory**: `FanOut` is the machine of a task that publishes to the live subscriber list among others;
  `FanOutDelivery` and `FanOutHistory` have what its runs deliver; `MemoryPubSub` is the object, with a
  publish call that other tasks interrupt.

Where the code does not do what its documentation or its names suggest, the model follows the code:

- `docs/concepts/middleware.md` says that `PermanentError` is not retried. The retry middleware raises the
  unwrapped cause, which an outer retry does retry (`RetryLaws.PermanentRunsOnceIff` says exactly when).
- In Postgres an ack that runs after its group has fetched the row again does not keep the row from being
  yielded once more (`SqlLease.AckedClaimIff`, `AckedCanComeBack`).
- The bus's `close` counts started tasks only, so that a graceful drain can drop a message that was pulled
  and whose task has not started (`BusDrain.DrainCanDrop`).
- A text payload that is itself canonical base64, such as `true`, comes back decoded, and metadata under the uuid attribute
  or the two FIFO keys does not come back (`AwsMarshaling.RoundTripIff`,
  `WordsLookEncoded`, `MessageRoundTripIff`).
- An entry that is nacked in Redis is redelivered only while fewer than `count` entries are pending
  before it (`RedisGroup.ReadAgainIff`, `HiddenEntry`).
- `docs/backends/redis.md` promises unacked messages to other consumers in the group. They only ever come back
  to the consumer that read them first (`RedisGroup.OneConsumerPerEntry`), and under a bus, which reads on
  while its handlers run, also while they are being handled (`RedisGroup.OpenYieldIff`).
- A Kafka commit covers all earlier records of its partition. Under the router these were acked; the bus that
  `packages/natricine-kafka/README.md` pairs with it can lose an open one, and a plain `async for` a nacked one
  (`KafkaGroup.PrefixAckedIff`, `ManyOpenLoseRecords`, `GoingOnLosesRecords`).
- Leaving during a publish can make the list iteration pass over another subscriber
  (`FanOutDelivery.GivenUnlessPassedOver`, `LeavingCanPassOver`).

## Model

| member | source | states |
|---|---|---|
| `SqlTable.SelectPendingIff` | packages/natricine-sql/src/natricine_sql/dialect.py:71-80 | in the columns of the table and both dialects: a list of ids is the result of select_pending if and only if it holds only rows of the group that are due, unacked and, in SQLite, unclaimed, ordered by due time and id, no more than the limit, and leaves such a row out only when the limit is used up by rows that all come before it |
| `SqlExclusive.ExclusiveDelivery` | packages/natricine-sql/src/natricine_sql/subscriber.py:111-165 | SQLite, every reachable state, stale batches included: at most one unsettled message per row; fetched rows are unclaimed, unacked and have no unsettled message; delivery_count is the nacks that ran plus the current claim |
| `SqlExclusive.AckedIsFinal` | packages/natricine-sql/src/natricine_sql/subscriber.py:123-147 | SQLite: once a row is acked, no later event of any run claims it |
| `SqlExclusive.NackBetweenClaims` | packages/natricine-sql/src/natricine_sql/dialect.py:71-98 | SQLite: a nack lies between any two claims of a row, so an abandoned claim never comes back |
| `SqlLease.WhoIsEligible` | packages/natricine-sql/src/natricine_sql/dialect.py:142-151 | every reachable state: a row is eligible if and only if it is unacked and either unclaimed or, in Postgres only, past the end of its lease |
| `SqlLease.LeaseRespected` | packages/natricine-sql/src/natricine_sql/dialect.py:152-169 | between two claims of a row lies a nack of it, or a poll at least ack_deadline after the first claim |
| `SqlLease.AtMostOneAfterAck` | packages/natricine-sql/src/natricine_sql/subscriber.py:111-138 | after an ack a row is claimed at most once more, and only if a batch held it when the ack ran |
| `SqlLease.AckedClaimIff` | packages/natricine-sql/src/natricine_sql/subscriber.py:111-143 | a claim is of an acked row if and only if an ack of it ran while a batch held it |
| `SqlLease.LateAckIsTooLate` | packages/natricine-sql/src/natricine_sql/subscriber.py:123-147 | from any state in which a row with an open message has been fetched again, acking the message does not stop the row from being yielded again |
| `SqlLease.AckedCanComeBack` | packages/natricine-sql/src/natricine_sql/subscriber.py:111-147 | Postgres does reach that: for every deadline and batch size a run in which a row is refetched at its lease end, its late ack runs, and the acked row is yielded next |
| `SqlDialects.SameEligibleIff` | packages/natricine-sql/src/natricine_sql/dialect.py:142-151 | the dialects see the same eligible rows of a group if and only if no lease of an unacked row of the group has run out |
| `SqlDialects.SamePoll` | packages/natricine-sql/src/natricine_sql/dialect.py:71-80 | equal eligibility makes the two polls return the same batch |
| `SqlDialects.DialectsAgree` | packages/natricine-sql/src/natricine_sql/dialect.py:81-98 | if each poll finds the leases of its group kept, a sequence of states is a run of SQLite if and only if it is a run of Postgres |
| `SqlDialects.DialectsAgreeWhenSettled` | packages/natricine-sql/src/natricine_sql/subscriber.py:111-147 | the same from timely settlement: if every claim is delivered, and by the time its group polls a lease after it each message has been acked or nacked, the dialects have the same runs |
| `SqlFairness.NobodyOvertakes` | packages/natricine-sql/src/natricine_sql/dialect.py:71-98 | no event but its own claim or settlement ends the wait of an eligible row past its due time, none adds a row before it, and a claimed row stops being before it |
| `SqlFairness.PollMakesProgress` | packages/natricine-sql/src/natricine_sql/dialect.py:71-80 | a poll fetches the waiting row, or spends its whole batch on rows before it |
| `SqlFairness.BoundedBypass` | packages/natricine-sql/src/natricine_sql/subscriber.py:111-138 | a row waiting behind r others is claimed within r / batch_size + 1 drained polls of its group, whatever happens in between, unless an older message of it is settled |
| `SqlFairness.BoundedBypassInSqlite` | packages/natricine-sql/src/natricine_sql/subscriber.py:111-138 | in SQLite the proviso about older messages is not needed |
| `SqlFifo.FirstClaimsInOrder` | packages/natricine-sql/src/natricine_sql/publisher.py:108-116 | rows of a group are claimed for the first time in strictly increasing id order, whatever nacks, redeliveries and abandoned batches come between |
| `SqlContent.InsertedIsHeld` | packages/natricine-sql/src/natricine_sql/publisher.py:108-116 | in every later state of every run, the n-th insert has row n, with the message and the group of the insert |
| `SqlContent.ClaimedIsPublished` | packages/natricine-sql/src/natricine_sql/subscriber.py:115-165 | either dialect: every claim is of a row that an earlier insert made for the claiming group, and that holds the message of that insert, so that what is yielded is what was published |
| `SqlContent.YieldedHasMessage` | packages/natricine-sql/src/natricine_sql/subscriber.py:129-165 | every message is that of one yield, of the row that this claimed, for good; a claim that is cancelled before the yield makes none |
| `SqlContent.FirstAnswerSettles` | packages/natricine/src/natricine/pubsub/message.py:23-45 | over every run, the first ack or nack of a message settles it that way for good |
| `SqlContent.StatementsWrite` | packages/natricine-sql/src/natricine_sql/dialect.py:81-98 | column by column, over every run of either dialect: a claim leases its row until the deadline from now for one more delivery, an ack sets when it was acked, a nack makes it unclaimed and due now, and nothing else of that row or any other changes |
| `SqlContent.AbandonedCanBePolled` | packages/natricine-sql/src/natricine_sql/subscriber.py:111-123 | SQLite: the unclaimed rows of a batch that is abandoned can be polled again at once |
| `SqlSubscriber.Table.Pending` | packages/natricine-sql/src/natricine_sql/dialect.py:71-80 | the row-by-row loop computes select_pending |
| `SqlSubscriber.Publisher.Publish` | packages/natricine-sql/src/natricine_sql/publisher.py:99-118 | appends one row per message in argument order, with its content and this group, unclaimed, unacked, never delivered and due now, and leaves the others alone; a closed publisher appends nothing and rejects |
| `SqlSubscriber.Delivery.Ack` | packages/natricine-sql/src/natricine_sql/subscriber.py:141-143 | sets the flag and acked_at of its row to now, or rejects and changes nothing; it is the machine events CallAck and Settle |
| `SqlSubscriber.Delivery.Nack` | packages/natricine-sql/src/natricine_sql/subscriber.py:145-147 | sets the flag and makes its row unclaimed and due now, or rejects and changes nothing; it is the machine events CallNack and Settle |
| `SqlSubscriber.Subscription.Resume` | packages/natricine-sql/src/natricine_sql/subscriber.py:106-165 | one resumption of the generator is the machine events Poll and Claim; it yields nothing exactly when the batch stays empty, and otherwise a new unsettled message with the content of the claimed row |
| `Messages.OneShot` | packages/natricine/src/natricine/pubsub/message.py:23-45 | of any sequence of ack and nack calls on a message exactly the first is accepted, and it alone decides the flags |
| `Messages.Tracked.MarkAcked` | packages/natricine/src/natricine/pubsub/message.py:23-33 | accepted if and only if neither flag was set; then acked, otherwise unchanged, with the reason |
| `Messages.Tracked.MarkNacked` | packages/natricine/src/natricine/pubsub/message.py:35-45 | accepted if and only if neither flag was set; then nacked, otherwise unchanged, with the reason |
| `Messages.Tracked.Copy` | packages/natricine/src/natricine/pubsub/message.py:55-61 | a copy has the same content, is a new object and is unsettled |
| `Utf8.DecodesExactly` | packages/natricine-aws/src/natricine_aws/marshaling.py:32-33 | strict UTF-8 decoding yields a text if and only if the bytes are that text encoded, for all bytes and texts |
| `Utf8.EncodesExactly` | packages/natricine-aws/src/natricine_aws/marshaling.py:49-50 | by the octet table of section 3 of RFC 3629: bytes are the encoding of a text if and only if they are the octet sequences of its characters, one after the other |
| `Base64.EncodeThenDecode` | packages/natricine-aws/src/natricine_aws/marshaling.py:35 | validated base64 decoding undoes encoding for all byte strings |
| `Base64.CanonicalIff` | packages/natricine-aws/src/natricine_aws/marshaling.py:45-46 | the texts that decode and encode back to themselves are exactly the image of encoding: groups of four digits with zero pad bits |
| `Rfc4648.EncodesExactly` | packages/natricine-aws/src/natricine_aws/marshaling.py:35 | by Table 1 and the bit groups of section 4 of RFC 4648, without the codec: a text is the encoding of bytes if and only if each four characters of the table make the number of three bytes, with = for what a last group lacks and zero bits left over |
| `Rfc4648.DecodesExactly` | packages/natricine-aws/src/natricine_aws/marshaling.py:45-46 | validated decoding yields bytes if and only if the text stands for them by that table, whatever bits are left over, and fails on every other text |
| `Rfc4648.OthersAreRefused` | packages/natricine-aws/src/natricine_aws/marshaling.py:45-46 | a text with a character outside Table 1 and the pad is refused, and is no encoding |
| `Rfc4648.CanonicalIsSpelt` | packages/natricine-aws/src/natricine_aws/marshaling.py:45-46 | the canonical texts are those that stand for bytes by that table with zero bits left over |
| `AwsMarshaling.DecodeBodyOf` | packages/natricine-aws/src/natricine_aws/marshaling.py:38-50 | decoding undoes base64 for every body that is an encoding, and is the UTF-8 encoding of every other body |
| `AwsMarshaling.DecodeBodyIff` | packages/natricine-aws/src/natricine_aws/marshaling.py:38-50 | by the tables of both standards: decoding yields the bytes that the body stands for as base64 with zero bits left over, or its UTF-8 octets if it stands for none |
| `AwsMarshaling.EncodeBodyIff` | packages/natricine-aws/src/natricine_aws/marshaling.py:27-35 | likewise, encoding yields the text whose UTF-8 octets the payload is, or its base64 text if it is those of none |
| `AwsMarshaling.RoundTripIff` | packages/natricine-aws/src/natricine_aws/marshaling.py:27-50 | a payload survives encoding and decoding if and only if it is empty, not UTF-8, or UTF-8 text that is not canonical base64 |
| `AwsMarshaling.EncodingsAreDecoded` | packages/natricine-aws/src/natricine_aws/marshaling.py:27-50 | lost payloads exist: the base64 text of any non-empty bytes, sent as a text, comes back as those bytes |
| `AwsMarshaling.WordsLookEncoded` | packages/natricine-aws/src/natricine_aws/marshaling.py:42-48 | every text of characters of Table 1 whose length is a multiple of four, such as true, is lost |
| `AwsMarshaling.CollisionIff` | packages/natricine-aws/src/natricine_aws/marshaling.py:27-50 | two different payloads have one body if and only if one is binary and the other is its base64 text, and the decoder returns the binary one |
| `AwsMarshaling.ToMessageAttributes` | packages/natricine-aws/src/natricine_aws/marshaling.py:53-86 | the loop over the metadata, in any order of keys: the two FIFO ids are the entries of MessageDeduplicationId and MessageGroupId, every other entry is an attribute, and the uuid is one unless an entry has its name |
| `AwsMarshaling.FromSqsMessage` | packages/natricine-aws/src/natricine_aws/marshaling.py:89-122 | the loop over the attributes, in any order of keys: metadata are the attributes with a string value other than the uuid; the uuid is that of its attribute, a random one if that is missing or empty, and an error if it cannot be parsed |
| `AwsMarshaling.MessageRoundTripIff` | packages/natricine-aws/src/natricine_aws/marshaling.py:53-122 | a message comes back as sent if and only if its payload does not look encoded and its metadata uses none of the three reserved keys |
| `RouterDrain.InFlightIsExact` | packages/natricine/src/natricine/router/router.py:146-159 | in every reachable state of n loops and close, in_flight is the number of loops processing a message, and 0 when all are over |
| `RouterDrain.NeverRisesWhileClosing` | packages/natricine/src/natricine/router/router.py:140-146 | once the router is closing, in_flight never rises |
| `RouterDrain.DrainSettlesAll` | packages/natricine/src/natricine/router/router.py:111-129 | when the wait of close ends without timeout and nothing was cancelled before, nothing is in flight and every pulled message is acked or nacked; callbacks are outstanding only for messages refused while closing |
| `RouterDrain.AtMostOnePerLoop` | packages/natricine/src/natricine/router/router.py:122-129 | at any time, so also after a timeout, at most one message per loop is unsettled |
| `RouterDrain.SettledAsHandled` | packages/natricine/src/natricine/router/router.py:146-157 | over every run, a message is acked for good once its handler has returned, and nacked for good once it has raised |
| `RouterDrain.RaisingFails` | packages/natricine/src/natricine/router/router.py:155-157 | a handler that raises makes its loop raise, unless that is cancelled first |
| `RouterDrain.NoPullAfterNack` | packages/natricine/src/natricine/router/router.py:140-157 | a loop that has nacked a message, because its handler raised or the router was closing, never pulls another one |
| `RouterDrain.FewPulledWhileClosing` | packages/natricine/src/natricine/router/router.py:140-144 | once the router is closing, each loop pulls at most one more message |
| `RouterHistory.ClosingIff` | packages/natricine/src/natricine/router/router.py:111 | a router is closing if and only if close was called |
| `RouterHistory.DrainingIff` | packages/natricine/src/natricine/router/router.py:113-116 | close waits exactly while it has been called and neither the time is up nor nothing was found in flight since |
| `RouterHistory.CancelledIff` | packages/natricine/src/natricine/router/router.py:100-120 | a router is cancelled if and only if the wait of close has ended or the exception of a loop has spread |
| `RouterHistory.HowLoopsEnd` | packages/natricine/src/natricine/router/router.py:140-159 | in every reachable state a loop has raised if and only if a nack after its handler raised went through, or a callback or the publish raised; it has returned if and only if its subscription ended, it refused a message, or it was cancelled outside the handler; and it was cut off with a message if and only if it was cancelled in the handler of it |
| `RouterHistory.PullsAreFinished` | packages/natricine/src/natricine/router/router.py:140-159 | a loop finishes each message it pulls, outputs published, before it waits for the next |
| `RouterHistory.PulledIsCounted` | packages/natricine/src/natricine/router/router.py:140 | every pull adds one message, and nothing else does |
| `RouterHistory.HandledUnlessClosing` | packages/natricine/src/natricine/router/router.py:140-148 | a message goes to the handler if close was not called before it was pulled, and is nacked for good otherwise |
| `RouterHistory.HowCallbacksEnd` | packages/natricine/src/natricine/router/router.py:143-156 | the callback of a message has run, or raised, if and only if it has ended so |
| `RouterStream.Router.AddMiddleware` | packages/natricine/src/natricine/router/router.py:32-34 | appends a router middleware, which will be inside the earlier ones |
| `RouterStream.Router.BuildChain` | packages/natricine/src/natricine/router/router.py:133-138 | the two reversed loops build one chain whose layers, from outside, are the router middlewares and then the handler middlewares, each in the order given |
| `RouterStream.Router.ProcessOne` | packages/natricine/src/natricine/router/router.py:146-159 | settlement of one message, what leaves the loop and what was published, also when callbacks fail, the publish fails or the handler is cancelled; in_flight is restored |
| `RouterStream.Router.RunHandler` | packages/natricine/src/natricine/router/router.py:131-159 | the loop computes the settlements, what ends it and all that was sent, for any stream, any closing time and any failing callbacks; in_flight is restored |
| `RouterStream.StreamSettles` | packages/natricine/src/natricine/router/router.py:140-159 | for any stream, closing time and failures: each handled message is acked if and only if its chain returned and nacked if and only if it raised, in the world that the earlier ones left; its callback ran and its outputs were published in order up to the first failure; nothing leaves the loop if and only if all of this worked. All but the last are acked; the last is nacked if and only if its chain raised or the router was closing; unbroken, the loop ends exactly at the end of the stream or after one refused message |
| `RouterQueues.StreamConserved` | packages/natricine/src/natricine/router/middleware.py:171-211 | behind a catch-all poison or dead-letter queue, with publishes and callbacks that work and no cancellation but by timeouts of the chain, all messages are acked, messages are successes plus reports, and the queue sends to its topic one report per failure, in order |
| `Queues.QueueCatches` | packages/natricine/src/natricine/router/middleware.py:171-264 | a queue swallows an exception and sends one report to its topic if and only if the exception has one of the types to catch; anything else passes as it is and nothing is sent; a publish that fails ends the call |
| `Queues.PoisonedIsPoisonOf` | packages/natricine/src/natricine/router/middleware.py:176-203 | key by key: a poison message is new, with the payload and metadata of the original, the reason, handler and subscriber name and topic where there is one, and the traceback if it is wanted |
| `Queues.DeadLetterIsDeadLetterOf` | packages/natricine/src/natricine/router/middleware.py:236-253 | key by key: a dead letter is new, with the payload and metadata of the original, the error, its type, the original uuid, and the traceback if it is wanted |
| `Middleware.RunRetry` | packages/natricine/src/natricine/router/middleware.py:86-112 | the retry loop computes the outcome and the world that the recursive meaning of the middleware gives |
| `RetryLaws.RetryMakes` | packages/natricine/src/natricine/router/middleware.py:73-112 | one retry calls until the first outcome that is not an exception, is permanent or has none of the listed types, at most max_retries + 1 times, ends with that outcome unwrapped, and its i-th pause is the i-th delay give or take the jitter, unless that pause is cut off; RuntimeError for negative max_retries |
| `RetryLaws.JitterReaches` | packages/natricine/src/natricine/router/middleware.py:80-84 | every pause within the jitter of the delay can come out |
| `RetryLaws.DelayIsPower` | packages/natricine/src/natricine/router/middleware.py:104-105 | the i-th delay is delay times backoff to the i |
| `RetryLaws.TotalPause` | packages/natricine/src/natricine/router/middleware.py:80-105 | all pauses together stay below the geometric series of the delays stretched by the jitter |
| `RetryLaws.SeriesClosedForm` | packages/natricine/src/natricine/router/middleware.py:104-105 | that series times (backoff - 1) is delay times (backoff to the n - 1) |
| `RetryLaws.CallsBounded` | packages/natricine/src/natricine/router/middleware.py:86-124 | for any stack of all built-in middlewares, timeouts that cut calls, pauses or publishes off included, one message runs the handler at most the product of (max_retries + 1) times |
| `RetryLaws.CallsExhaust` | packages/natricine/src/natricine/router/middleware.py:90-98 | the bound is reached by a stack of retries around a handler that always fails |
| `RetryLaws.RunsOnceIff` | packages/natricine/src/natricine/router/middleware.py:73-112 | for any stack of built-in middlewares and any first outcome, the handler runs exactly once if and only if no retry goes on after what reaches it of that outcome, and then that is what leaves the stack |
| `RetryLaws.PermanentRunsOnceIff` | packages/natricine/src/natricine/router/middleware.py:93-98 | PermanentError keeps its promise of one run, over all stacks of retries, timeouts and recoverers, if and only if no retry with another retry inside it has attempts left and takes the unwrapped cause |
| `RetryLaws.PermanentIsRetriedOutside` | packages/natricine/src/natricine/router/middleware.py:93-98 | two nested retries break the promise, whatever later runs of the handler do |
| `BusDrain.UnfinishedOnlyShrink` | packages/natricine/src/natricine/cqrs/command_bus.py:225-240 | once a bus is closing, the set of spawned and started tasks that are not over only shrinks |
| `BusDrain.FewPulledWhileClosing` | packages/natricine/src/natricine/cqrs/command_bus.py:231-238 | once a bus is closing, its loops pull at most as many more messages as there are loops left |
| `BusDrain.SettledAsHandled` | packages/natricine/src/natricine/cqrs/command_bus.py:249-256 | over every run, a task acks its message if its handler has returned and nacks it if that has raised, for good |
| `BusDrain.DrainLeavesOnlyUnstarted` | packages/natricine/src/natricine/cqrs/command_bus.py:260-279 | when the wait ends without timeout and nothing was cancelled before, the unsettled messages are exactly those whose task has not started; such a task still starts, and the cancellation then cuts its handler off |
| `BusDrain.DrainCanDrop` | packages/natricine/src/natricine/cqrs/event_bus.py:261-280 | a run in which close drains cleanly and still drops a pulled message |
| `BusHistory.InFlightIsExact` | packages/natricine/src/natricine/cqrs/command_bus.py:249-258 | in_flight is the number of tasks that have begun and are in the handler or in the callback of ack or nack |
| `BusHistory.PulledIsCounted` | packages/natricine/src/natricine/cqrs/command_bus.py:231-240 | every pull adds one message, and each loop ends once, with its subscription or with a message it refuses |
| `BusHistory.HowTasksEnd` | packages/natricine/src/natricine/cqrs/command_bus.py:249-258 | in every reachable state a message is acked, nacked or refused with its callback through if and only if that callback has ended, and a task was cut off in its handler or in a callback if and only if a cancellation has reached it there |
| `BusHistory.BegunIff` | packages/natricine/src/natricine/cqrs/command_bus.py:231-240 | a task has begun if and only if it was started after it was spawned; a message pulled while closing never gets one |
| `BusHistory.ClosingIff` | packages/natricine/src/natricine/cqrs/command_bus.py:270 | a bus is closing if and only if close was called |
| `BusHistory.DrainingIff` | packages/natricine/src/natricine/cqrs/command_bus.py:272-275 | close waits exactly while it has been called and neither the time is up nor nothing was found in flight since |
| `BusHistory.CancelledIff` | packages/natricine/src/natricine/cqrs/command_bus.py:272-279 | a bus is cancelled if and only if the wait of close has ended or an exception has spread |
| `BusHistory.FailedIff` | packages/natricine/src/natricine/cqrs/command_bus.py:255-257 | a bus has raised if and only if a handler or the callback of an ack or nack has |
| `BusHandler.Bus.ProcessMessage` | packages/natricine/src/natricine/cqrs/command_bus.py:242-258 | the message is acked if and only if decoding and resolving succeed and the handler returns, nacked if and only if decoding, a dependency, the stack or the handler raises, and unsettled otherwise; the task finishes if and only if the message is acked and its callback works; in_flight is restored |
| `BusHandler.HandlerGetsCommand` | packages/natricine/src/natricine/cqrs/command_bus.py:252-253 | the handler is called last and once, with the command under its first parameter even if that is marked as a dependency, after one call per Depends path from the other parameters |
| `DependsGraph.ResolveDependencies` | packages/natricine/src/natricine/cqrs/depends.py:62-116 | the loop that fills the dictionary computes the recursive resolution: result, exception or recursion error, and the calls made |
| `DependsGraph.ProvidedKept` | packages/natricine/src/natricine/cqrs/depends.py:88-116 | on the signatures as written: provided arguments are never overwritten, exactly the unprovided parameters with a Depends annotation that can be evaluated, or else a Depends default, are added, and each holds what a call of that dependency answered to arguments resolved in the same way |
| `DependsGraph.CallsAreThePaths` | packages/natricine/src/natricine/cqrs/depends.py:94-114 | the calls are the Depends paths, each edge read off the signatures: one call per path, of the dependency at its end, no path twice; all of them when resolution succeeds, the first ones when it raises |
| `DependsGraph.EndsAsTheLastCall` | packages/natricine/src/natricine/cqrs/depends.py:101-114 | a resolution raises or is cancelled exactly as its last call does, and all earlier calls returned; when it succeeds or the stack is too short, all calls returned |
| `DependsGraph.CallEndsAsItsLast` | packages/natricine/src/natricine/cqrs/depends.py:133-160 | so does a call with dependencies, and a value is that of the function itself |
| `DependsGraph.ResolvesIffShallow` | packages/natricine/src/natricine/cqrs/depends.py:101-104 | if no dependency raises, resolution succeeds if and only if no path is longer than the stack has room for |
| `DependsCycles.ResolvesIffAcyclic` | packages/natricine/src/natricine/cqrs/depends.py:101-104 | among n functions, with a stack for n nested resolutions or more, resolution succeeds if and only if the function leads into no cycle |
| `DependsCycles.AcyclicIsShallow` | packages/natricine/src/natricine/cqrs/depends.py:101-104 | in any graph, finite or not, whose dependencies fall in rank, paths are no longer than the rank of the function |
| `DependsCycles.CycleIsTooDeep` | packages/natricine/src/natricine/cqrs/depends.py:101-104 | a function that leads into a cycle is never resolved, however deep the stack |
| `KafkaGroup.AckedPrefix` | packages/natricine-kafka/src/natricine_kafka/subscriber.py:80-88 | under the router, over any fetches, failures, closes, crashes and restarts, every record below a committed offset was acked |
| `KafkaGroup.NoneSkipped` | packages/natricine-kafka/src/natricine_kafka/subscriber.py:53-63 | under the router, when a record is yielded, all earlier ones of its partition were acked |
| `KafkaGroup.CommittedNeverFalls` | packages/natricine-kafka/src/natricine_kafka/subscriber.py:80-84 | under the router committed offsets never fall |
| `KafkaGroup.PrefixAckedIff` | packages/natricine-kafka/src/natricine_kafka/subscriber.py:60-88 | for every run of any consumer, with one record open or many, stopping or going on after failures: committed offsets only ever cover acked records if and only if no commit goes past a record of its partition that is still to be acked and was nacked or is open |
| `KafkaGroup.ManyOpenLoseRecords` | packages/natricine-kafka/src/natricine_kafka/subscriber.py:80-84 | a run of a consumer with two records open, as a bus has, that loses one without any nack: the second is acked first, and the member ends |
| `KafkaGroup.ManyOpenFallBack` | packages/natricine-kafka/src/natricine_kafka/subscriber.py:80-84 | a run of such a consumer in which the committed offset falls |
| `KafkaGroup.GoingOnLosesRecords` | packages/natricine-kafka/src/natricine_kafka/subscriber.py:60-63 | a run of a consumer that goes on with its batch after a nack, and commits past the nacked record |
| `KafkaHistory.OnlyAppended` | packages/natricine-kafka/src/natricine_kafka/subscriber.py:54-63 | any consumer: every yielded record was appended before, and nothing past the end of a log is committed |
| `KafkaHistory.NackedComesBack` | packages/natricine-kafka/src/natricine_kafka/subscriber.py:86-88 | for a consumer that goes on after a nack: the next fetch reads the partition from the nacked record on again, unless another nack of the partition or the end of the member comes between |
| `KafkaHistory.YieldsAreSettledOnce` | packages/natricine-kafka/src/natricine_kafka/subscriber.py:53-88 | any consumer: each time a record is yielded it is settled at most once; yields are settlements plus what is open or left over by members that ended |
| `KafkaHistory.SettledIff` | packages/natricine-kafka/src/natricine_kafka/subscriber.py:80-88 | any consumer: a record counts as acked, or nacked, if and only if an ack or a nack of a message of it ran, by its running member or later |
| `KafkaHistory.RunningIff` | packages/natricine-kafka/src/natricine_kafka/subscriber.py:50-68 | a member runs if and only if it was started and has not ended since; under the router it ends with a nack or with an ack that raises |
| `KafkaSubscriber.Subscriber.GetMany` | packages/natricine-kafka/src/natricine_kafka/subscriber.py:54-58 | the loop over the partitions of one fetch is the machine event |
| `KafkaSubscriber.Subscriber.Session` | packages/natricine-kafka/src/natricine_kafka/subscriber.py:50-68 | one session, start to stop, with records appended meanwhile, computes the meaning of its fetches and outcomes |
| `KafkaSubscriber.SessionContinues` | packages/natricine-kafka/src/natricine_kafka/subscriber.py:50-68 | a session continues any run of the machine, so that what holds of runs holds across sessions |
| `KafkaSubscriber.BatchAcks` | packages/natricine-kafka/src/natricine_kafka/subscriber.py:60-63 | while nothing fails, exactly the records of the batch are acked, in order, up to where nobody asks for more |
| `FanOutDelivery.AtMostOnceInOrder` | packages/natricine/src/natricine/pubsub/memory.py:36-39 | under every interleaving of joins, leaves, closes, receives, sends of other tasks and publish calls, raising ones included, each subscriber gets each message of a publishing task at most once and in order, and buffers never exceed buffer_size |
| `FanOutDelivery.GivenUnlessPassedOver` | packages/natricine/src/natricine/pubsub/memory.py:36-39 | a subscriber that is still subscribed was given a published message that it joined in time for if and only if the list iteration did not pass it over and the call did not raise before it |
| `FanOutDelivery.LeavingCanPassOver` | packages/natricine/src/natricine/pubsub/memory.py:65-69 | a run in which a reader leaves during a call and another subscriber is passed over |
| `FanOutDelivery.NothingAfterLeaving` | packages/natricine/src/natricine/pubsub/memory.py:65-71 | over every run, a reader that has left is on no list and receives nothing any more |
| `FanOutDelivery.NeverStuck` | packages/natricine/src/natricine/pubsub/memory.py:36-39 | in every reachable state a publish call can go on by itself, or its reader can let it go on by receiving; it goes on by itself when that reader has left; after a call that raised, the next one goes on with another message |
| `FanOutHistory.ChannelIsFifo` | packages/natricine/src/natricine/pubsub/memory.py:49-54 | what a subscriber has received and still buffers is exactly what was given to it, in order: the completed sends of the task and what other tasks published |
| `FanOutHistory.ClosedIff` | packages/natricine/src/natricine/pubsub/memory.py:65-77 | a channel is closed for sending if and only if close has closed it or its reader has left |
| `FanOutDelivery.CallGivesAll` | packages/natricine/src/natricine/pubsub/memory.py:27-39 | per call: while nobody leaves and no call raises, every subscriber present at its start is given each of its messages |
| `FanOutDelivery.OpenIsQuiet` | packages/natricine/src/natricine/pubsub/memory.py:36-39 | no call raises while all channels are open and nobody leaves or closes one |
| `FanOutDelivery.NoLossWithoutLeaving` | packages/natricine/src/natricine/pubsub/memory.py:36-54 | from the start of any message on, while nobody leaves and no call raises, what a subscriber has received or buffered ends in exactly the gapless messages since that start or its own joining, whatever left before |
| `FanOutDelivery.Backpressure` | packages/natricine/src/natricine/pubsub/memory.py:49-54 | in such a stretch a subscriber has received every message that is more than buffer_size behind the publisher |
| `MemoryPubSub.PubSub.Subscribe` | packages/natricine/src/natricine/pubsub/memory.py:41-54 | appends a new channel, or rejects when closed |
| `MemoryPubSub.PubSub.Leave` | packages/natricine/src/natricine/pubsub/memory.py:65-71 | removes the channel from the list and closes it |
| `MemoryPubSub.PubSub.Publish` | packages/natricine/src/natricine/pubsub/memory.py:27-39 | a whole publish call, with whatever other tasks do at its awaits, is a sequence of machine events; with all channels open, nobody leaving and nothing closed it does not raise, and on return everyone subscribed at its start has been given all its messages; rejected when closed |
| `MemoryPubSub.RunGoesOn` | packages/natricine/src/natricine/pubsub/memory.py:27-71 | such a call continues any run of the fan-out machine |
| `RedisGroup.Conservation` | packages/natricine-redisstream/src/natricine_redis/subscriber.py:81-116 | every entry is exactly one of undelivered, pending at exactly one consumer, or acked; it is acked if and only if the XACK of one of its messages ran; pending lists are in stream order |
| `RedisGroup.OneConsumerPerEntry` | packages/natricine-redisstream/src/natricine_redis/subscriber.py:101-116 | all messages ever made of one entry belong to one consumer |
| `RedisGroup.ReadAgainIff` | packages/natricine-redisstream/src/natricine_redis/subscriber.py:86-93 | a pending entry is in the next history read of its owner if and only if fewer than count entries are pending before it |
| `RedisGroup.RestartRecovers` | packages/natricine-redisstream/src/natricine_redis/subscriber.py:81-93 | after a generator is closed or dies, the next one of its consumer starts with the history, and an entry is in that if and only if fewer than count entries are pending before it |
| `RedisGroup.HiddenEntry` | packages/natricine-redisstream/src/natricine_redis/subscriber.py:86-93 | a run in which an unacked entry is hidden from the history read by an earlier one |
| `RedisGroup.NothingComesBefore` | packages/natricine-redisstream/src/natricine_redis/subscriber.py:86-93 | what is pending before an entry only ever leaves by acks; an unacked entry stays readable by its owner |
| `RedisGroup.AckedYieldIff` | packages/natricine-redisstream/src/natricine_redis/subscriber.py:95-99 | an acked entry is yielded again if and only if its XACK ran while the generator held it in its batch |
| `RedisGroup.NoneAfterAck` | packages/natricine-redisstream/src/natricine_redis/subscriber.py:145-155 | consumers that settle each message before asking for the next never see an acked entry again |
| `RedisGroup.OpenYieldIff` | packages/natricine-redisstream/src/natricine_redis/subscriber.py:85-99 | an entry is yielded again while another message of it is open, and so has two open messages, if and only if the history was read while that message was open and nobody has answered it since |
| `RedisHistory.ReadsAlternate` | packages/natricine-redisstream/src/natricine_redis/subscriber.py:83-116 | a generator reads the history between any two reads of new entries, empty ones included, and new entries between any two reads of the history unless it was started anew |
| `RedisHistory.FirstAnswerSettles` | packages/natricine/src/natricine/pubsub/message.py:23-45 | over every run, the first ack or nack of a message settles it that way for good |
| `RedisSubscriber.Publisher.Publish` | packages/natricine-redisstream/src/natricine_redis/publisher.py:42-65 | appends one entry per message in argument order; a closed publisher appends nothing and rejects |
| `RedisSubscriber.Delivery.Ack` | packages/natricine-redisstream/src/natricine_redis/subscriber.py:149-150 | sets the flag and takes the entry off the pending list, or rejects and changes nothing; it is the machine events CallAck and Settle |
| `RedisSubscriber.Delivery.Nack` | packages/natricine-redisstream/src/natricine_redis/subscriber.py:152-155 | sets the flag only: the entry stays pending |
| `RedisSubscriber.Consumer.Resume` | packages/natricine-redisstream/src/natricine_redis/subscriber.py:85-116 | one resumption of the generator is the machine events ReadHistory, ReadNew and Yield, with the content of the yielded entry; a closed generator ends only where the loop starts over |

## Left out

- Several live SQL subscriptions of one group: select and claim are separate statements, so that two workers can fetch one row; docs/backends/sql.md:94 is not established by the code.
- Redelivery of an abandoned claim in SQLite, which does not happen (`SqlExclusive.NackBetweenClaims`).
- SqlFairness.BoundedBypass: speaks of the claim of a row, which is followed by its yield unless the iterator is cancelled between the two; `delivered` in the event says which.
- SqlFifo.FirstClaimsInOrder: likewise orders claims; a claim that is cancelled before the yield counts as the first.
- SqlDialects.DialectsAgreeWhenSettled: a claim that is cancelled before the yield leaves no message to settle; `SqlDialects.DialectsAgree` covers runs with such claims.
- Row ids: they are positions in the table counted from 0; only their order matters to the statements.
- SQL metadata as JSON and uuids as text: the columns carry the message's own values.
- Clocks that step backwards, sub-second truncation of SQLite's `datetime`, float rounding (delays are real numbers).
- RetryLaws.CallsBounded: `on_retry`, `on_poison` and `on_dlq` callbacks and the log output of `recoverer` are not modelled; when a timeout strikes is an answer of the surroundings, not measured in seconds.
- RetryLaws.PermanentRunsOnceIff: stacks with poison or dead-letter queues are covered by `RetryLaws.RunsOnceIff`, whose condition follows the exception through them.
- `PermanentError` with a cause that is not an exception, as in docs/concepts/middleware.md: raising that cause is a `TypeError` of Python.
- RouterQueues.StreamConserved: one handler loop whose handler does not settle messages itself; failing publishes and callbacks are covered by `RouterStream.StreamSettles`.
- RouterStream.Router.RunHandler: a cancellation inside the callback of ack or nack is an event of `RouterDrain` only.
- The `Router is already running` error, handler registration and topic names of the router and the buses.
- BusDrain: payloads, decoding and handlers are in `BusHandler`; the two are not joined in one machine.
- DependsGraph.ResolvesIffShallow: the stack limit is a number of nested resolutions; threads for sync functions, `get_type_hints` and parameters without `Depends` that stay unprovided are left to what a call answers.
- `from_sns_sqs_message` and the SNS envelope (JSON), `is_base64=True`, and lone surrogates in bodies.
- AwsMarshaling.FromSqsMessage: parsing and printing of uuids are parameters, assumed to invert each other only in the round trip.
- KafkaGroup: a commit on a consumer that has been stopped is taken to fail; its ack or nack still counts as made.
- Kafka header mapping, rebalancing between members, `latest` reset and auto-commit; one member owns all partitions.
- KafkaSubscriber.Subscriber.Session: a process that dies during a commit counts as a commit that raises; the machine in `KafkaGroup` has crashes at any event.
- Redis trimming (`maxlen`), msgpack and field names, several generators under one consumer name, and groups other than one per stream.
- `InMemoryPubSub.close` as a whole: it awaits while it iterates lists that leaving subscribers shrink; its closing of single channels is an event.
- FanOutDelivery.AtMostOnceInOrder: one topic, and the view of one publishing task, whose calls are one sequence of messages; what other tasks publish meanwhile fills buffers. Copies of messages are numbers here, see `Messages.Tracked.Copy`.
- MemoryPubSub.PubSub.Publish: what other tasks do at each await is an argument; which events these are is kept in a ghost result.
- HTTP backend, OpenTelemetry, signal handling, decorators, table and topic creation, connection handling and the conformance suite: plumbing without a protocol of its own.
