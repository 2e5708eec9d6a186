# FutureQ in Dafny

FutureQ is a broker for delayed messages. A producer publishes a message with a
delay and a TTL. The broker stores it in an ordered key-value engine under a key
made of the topic's hash, a time bucket and an ID, directly or through a Raft log.
A dispatcher scans what is due and hands it to connected consumers. Acknowledged
and expired messages are deleted in batches. A second Raft group keeps the
cluster's topology in memory.

This project models that path and proves what it keeps. `dafny verify
dfyconfig.toml` checks everything.

| part | modules |
|---|---|
| bytes, byte-wise order, printers and parsers | `Bytes`, `WireFormat` |
| event keys, due ranges, time buckets | `Keys`, `Messages` |
| ordered storage and atomic batches | `Storage` |
| replicated commands, state machine, restart, snapshot | `EventCommands`, `EventReplica`, `EventRecovery`, `EventSnapshot`, `EventStateMachine` |
| event IDs, publishing | `EventIds`, `ConcurrentCommits`, `Producer`, `WritePaths` |
| consumers and rotation | `RoundRobin`, `Hub`, `HubDelivery`, `HubFairness` |
| deletion, dispatch, expiry | `Deleter`, `Dispatcher`, `DispatchPass` |
| the whole delivery path over all runs | `Broker`, `BrokerRuns`, `BrokerDelivery`, `BrokerHistory`, `BrokerUpkeep`, `PublishedDelivery`, `Redelivery`, `TopicIsolation`, `Counterexamples` |
| cluster metadata | `MetadataCommands`, `MetadataStateMachine` |

Code that changes state in place is a class or a method with loops. It is proved
against functions on values, and the long-range results are lemmas about those
functions. `Broker` joins the same functions into one state machine whose steps
come in any order: publish, a refused batch, pass, sweep, join, leave, receive, ack, nack, the two
halves of a flush, late application of a proposed deletion, the notification that
follows a deletion, and restart.

## Main results

- Crash and replay: for every log, cut, crash point and regrouping, the replica
  ends where the uninterrupted one does, if and only if the counter survives
  (`EventRecovery.CrashReplay`).
- Snapshots restore storage in full, and with a reopen the suffix of the log then
  gives the replica of the whole log (`EventSnapshot.SnapshotRestores`,
  `EventSnapshot.SnapshotThenSuffix`).
- Event keys are never written twice, over every run of commits, refusals, deletions and
  restarts (`EventIds.IdsNeverRepeat`).
- Both write paths leave the same storage, and exactly when; so do both deletion paths
  (`WritePaths.WritePathsAgree`, `WritePaths.PathsAgreeIff`, `WritePaths.DeletePathsAgree`).
- From publication to dispatch: whatever happens in a message's lifetime short of its
  acknowledgement, a pass after its delay sends it when somebody has room, and no pass
  of any run sends it a whole bucket early (`PublishedDelivery.PublishedThenSent`,
  `PublishedDelivery.NeverABucketEarly`).
- Redelivery is exact: a sent, unacknowledged message is sent again by a pass with room
  if and only if the in-flight timeout has passed (`Redelivery.SentAgain`,
  `Redelivery.RedeliveryIff`).
- Acknowledged and expired messages leave storage (`BrokerRuns.AckedIsRemoved`,
  `BrokerUpkeep.ExpiredIsMarked`, `BrokerRuns.SweptAway`).
- Members of a consumer group take turns over any dispatches (`HubFairness.MembersTakeTurns`),
  and no queue ever outgrows its channel (`BrokerUpkeep.QueuesStayBounded`).
- No message is lost before its deadline, and exactly when; redeliveries are spaced
  (`BrokerRuns.KeptToDeadlineIff`, `BrokerRuns.SpacedFromStart`).
- Over every run nothing that was deleted is stored or sent again
  (`BrokerHistory.DeletedNeverReturns`).
- Consumers get only their own topic's messages when the hash tells the topics apart
  (`TopicIsolation.ConsumersGetTheirTopic`).
- A pass sends a key exactly when the key is due and somebody selected has room at its
  visit, and the immediate re-scan ends (`BrokerDelivery`).
- Every codec accepts exactly the inputs that start with an encoding, or restores
  its input exactly when the lengths fit (`EventCommands`, `MetadataCommands`).
- A metadata snapshot restores shards and addresses for every walk of every map
  (`MetadataStateMachine.SaveRecoverIff`).

## Where the code and a natural claim part

Each claim below fails on some input. The first lemma named states exactly when it
holds, or what happens instead; the last shows one input on which it fails.

- "Visible only after the delay expires" (README.md:14): a pass may send a message
  up to one bucket early. At an instant nothing early is visible exactly when that
  instant is the last millisecond of its bucket (`Keys.NeverEarlyIff`;
  `Keys.OneMillisecondEarly`).
- "On NACK the key is immediately removed from in-flight"
  (internal/api/grpc/handlers/consumer.go:53-54): only the hub's record goes. No
  later step of any run changes (`BrokerDelivery.NackChangesNothing`). A pass sends the
  message again exactly when its in-flight entry has timed out or is gone
  (`BrokerDelivery.NackRedeliveryIff`; `Counterexamples.NackedMessageWaits`).
- A replica that recovered from a snapshot follows the others: the recovery leaves
  the ID counter in memory as it was, so storage follows only when the counters were
  equal or nothing more is stored (`EventSnapshot.WithoutReopenIff`;
  `Counterexamples.RecoveredDiverges`).
- A message is kept until it is acknowledged or its TTL has passed: the producer refuses
  only negative TTLs, the deadline is an int64 sum, and a sum that overflows lies in the
  past. A stored message survives every run within its true lifetime exactly when the
  sum fits (`BrokerRuns.KeptToDeadlineIff`, `Messages.TtlHonouredIff`;
  `Counterexamples.LostAtOnce`).
- A snapshot that was cut short is refused: it is, unless the cut falls between two
  pairs; then the part before the cut is restored without an error
  (`EventSnapshot.StreamTruncated`, `EventSnapshot.TruncatedRestores`;
  `EventSnapshot.CutBetweenPairs`).
- A consumer gets only messages of its topic: dispatch goes by the topic's hash alone
  (`TopicIsolation.ConsumersGetTheirTopic`; `Counterexamples.WrongTopicDelivered`).
- The persisted counter dominates every stored ID: with concurrent commits this
  needs the batch with the largest ID to commit last
  (`ConcurrentCommits.CommitOrderIff`; `ConcurrentCommits.OutOfOrder`).
- The two write paths agree: on lengths the command format cannot carry they do not
  (`WritePaths.PathsAgreeIff`; `WritePaths.LongIndexDiffers`). Too many indexes can go
  unnoticed, though (`WritePaths.CountsMayCoincide`).
- A group key identifies its group: topic and group are joined by `|`, and
  `RoundRobin.SameGroupKeyIff` lists all the pairs that share one
  (`RoundRobin.TwoGroupsOneKey`).
- A failed delete batch succeeds on some retry: in Raft mode, with something to delete,
  some run without a restart deletes more exactly when no key that is not 24 bytes long is
  in the batch under way, or in the next one (`BrokerRuns.RetrySucceedsIff`,
  `BrokerRuns.BlockedForGood`; `BrokerRuns.BlockedFromStart`).
- A delay is honoured: one that overflows the clock makes the message due at once
  (`Messages.DelayHonouredIff`; `Messages.LongestDelayIsNone`).
- A recovered metadata member has the saved epoch: it has it only when a surviving
  shard still carries that epoch (`MetadataStateMachine.RecoveredEpoch`;
  `MetadataStateMachine.EpochFallsBack`). Otherwise the members agree again only when
  a later entry reaches it (`MetadataStateMachine.EpochsMeetIff`).

## Hypotheses

- Index byte strings of published messages are neither 24 bytes long nor the counter
  key, wherever IDs are at stake (`CleanItem`). Crash replay and snapshots do not need
  this: there the exact condition is `CounterSurvives`.
- Acknowledgements do not name the counter key or an event ID above the persisted counter
  (`Tracked`). Any other tag is allowed, malformed ones included.
  `EventIds.RestartAfterDeleteIff` shows what the first part excludes.
- Consumer IDs are fresh. `Hub.RegisterAgreesIff` shows exactly when a used ID would
  also do.
- Fewer than 2^64 IDs are drawn, and dispatch passes run before bucket
  0x2f00000000000000 (`METADATA_HORIZON`).
- The clock does not run backwards, for `BrokerRuns.RedeliveriesSpaced` and
  `Redelivery.RedeliveryIff` only.

## Model

| member | source | states |
|---|---|---|
| `Bytes.BelowIsIntegerOrder` | internal/storage/contract.go:95-97 | On strings of one length the byte-wise order the engines keep is the order of the big-endian integers they spell. |
| `Bytes.BigEndianOrder` | pkg/utils/keys.go:46-52 | Fixed-width big-endian words compare as the numbers they encode. |
| `Bytes.PutBigEndian` | internal/raft/event/commands.go:67-79 | Writing a word at the cursor extends the written prefix by its encoding. |
| `Bytes.CopyInto` | internal/raft/event/commands.go:80-89 | Copying at the cursor extends the written prefix by the source bytes. |
| `Keys.MetadataKeysDiffer` | internal/repository/events.go:19 | The counter key and the applied-index key differ and neither has the length of an event key. |
| `Keys.BuildEventKey` | pkg/utils/keys.go:46-52 | The buffer holds the 24-byte key of the three parts. |
| `Keys.EventKeyBijection` | pkg/utils/keys.go:46-101 | Parsing inverts building, and every 24-byte string is the key of exactly the parts it parses to. |
| `Keys.EventKeyOrder` | pkg/utils/keys.go:46-52 | Byte-wise order of event keys is the order of (topic hash, bucket, ID). |
| `Keys.BuildDueUpperBound` | pkg/utils/keys.go:75-80 | The buffer holds the exclusive bound of the due range, with the bucket's successor wrapped to 64 bits. |
| `Keys.DueRangeExact` | pkg/utils/keys.go:56-80 | Any key of 16 bytes or more lies in a topic's due range exactly when its first word is the hash, its second is at most the bucket, and the bucket is not the largest. |
| `Keys.DueRangeGrows` | pkg/utils/keys.go:75-80 | The due range of a later bucket contains that of an earlier one. |
| `Keys.DueEventsExact` | internal/dispatcher/dispatcher.go:176-179 | The scan range holds an event exactly when its hash is the topic's and its bucket is at most the current one. |
| `Keys.MetadataNeverDue` | internal/dispatcher/dispatcher.go:176-179 | No due range below the horizon holds either metadata key. |
| `Keys.ValidatedBucketSize` | internal/config/config.go:199-201 | A configured size gives buckets of that many whole milliseconds, and of one millisecond below that. |
| `Keys.CalculateBucket` | pkg/utils/keys.go:26-34 | Every bucket of an int64 time is below 2^63, so its successor never wraps. |
| `Keys.DueExactly` | pkg/utils/keys.go:26-34 | A message is inside the scan made at a time exactly when it fires before the end of that time's bucket. |
| `Keys.BucketBegun` | pkg/utils/keys.go:26-34 | A bucket is at most the current one if and only if its first millisecond has come. |
| `Keys.BucketSpan` | pkg/utils/keys.go:26-34 | A time lies between the first millisecond of its bucket and that of the next. |
| `Keys.DeliveryTimeBound` | internal/dispatcher/dispatcher.go:166-179 | Nothing that should have fired is missed, nothing is yielded a whole bucket early, and the scan bound never wraps. |
| `Keys.NeverEarlyIff` | README.md:14 | No early message is visible at an instant if and only if it is the last millisecond of its bucket. |
| `Keys.OneMillisecondEarly` | internal/dispatcher/dispatcher.go:166-179 | With two-millisecond buckets the scan at time 0 holds an event that fires at 1. |
| `Storage.AscendingSorted` | internal/storage/contract.go:95-97 | An ordered scan yields each selected key once, in strictly ascending byte-wise order. |
| `Storage.AscendingPosition` | internal/storage/contract.go:95-97 | A key comes no later in a scan than its rank in byte-wise order. |
| `Storage.DB.InOrder` | internal/storage/contract.go:108-122 | Iterating yields exactly the selected keys in that order. |
| `Storage.Batch.Set` | internal/storage/contract.go:76-77 | The batch's outcome is its former outcome with this key overwritten. |
| `Storage.Batch.Delete` | internal/storage/contract.go:79-80 | The batch's outcome is its former outcome without this key. |
| `Storage.Batch.Commit` | internal/storage/contract.go:82-84 | All mutations take effect at once, in order. |
| `WireFormat.WordLaw` | internal/raft/event/commands.go:105-118 | A word is read from exactly the strings that start with its encoding. |
| `WireFormat.FieldLaw` | internal/raft/event/commands.go:122-146 | A length-prefixed field is read from exactly the strings that start with its encoding, and only when its length fits. |
| `WireFormat.ManyLaw` | internal/raft/event/commands.go:108-155 | If an element's parser accepts exactly its printer's output, so do counted sequences of it. |
| `WireFormat.CommandLaw` | internal/raft/event/commands.go:97-205 | A command is accepted, with given elements, exactly when the input starts with their encoding. |
| `WireFormat.CommandTruncated` | internal/raft/event/commands.go:97-205 | No proper prefix of an encoded command is accepted. |
| `WireFormat.WriteField` | internal/raft/event/commands.go:77-88 | The cursor moves by the field's size and the written prefix grows by the field. |
| `WireFormat.ReadField` | internal/raft/event/commands.go:122-146 | Reading at the cursor succeeds exactly when the field is there, and leaves the rest. |
| `EventCommands.DecodeStoreExact` | internal/raft/event/commands.go:97-158 | The store decoder returns these items if and only if they fit the format and the input starts with their encoding. |
| `EventCommands.StoreRoundTrip` | internal/raft/event/commands.go:54-158 | Encoding then decoding restores the items if and only if every count and length fits its field. |
| `EventCommands.StoreLayout` | internal/raft/event/commands.go:65-76 | Type, count, bucket, topic hash and index count stand at bytes 0, 1, 9, 17 and 25 of a store command. |
| `EventCommands.StoreTruncated` | internal/raft/event/commands.go:97-158 | Every proper prefix of an encoded store command is rejected. |
| `EventCommands.DecodeDeleteExact` | internal/raft/event/commands.go:187-205 | The delete decoder returns these keys if and only if the input starts with their encoding. |
| `EventCommands.DeleteTruncated` | internal/raft/event/commands.go:168-205 | An encoded delete command is restored, and every proper prefix of it is rejected. |
| `EventCommands.StoreSize` | internal/raft/event/commands.go:55-63 | The allocated size is exactly the encoding's length. |
| `EventCommands.WriteItems` | internal/raft/event/commands.go:69-89 | The loop appends exactly the items' encodings to what was written before. |
| `EventCommands.MarshalStoreBatch` | internal/raft/event/commands.go:54-92 | The filled buffer is the encoding of the items. |
| `EventCommands.MarshalDeleteBatch` | internal/raft/event/commands.go:168-183 | The result is the encoding of the keys, or a refusal when one has the wrong length. |
| `EventCommands.UnmarshalItem` | internal/raft/event/commands.go:110-154 | Reading one item at the cursor succeeds exactly when one is there, and leaves the rest. |
| `EventCommands.UnmarshalStoreBatch` | internal/raft/event/commands.go:97-158 | The loop computes the specified decoding, errors included, unless the announced count is more than the runtime can allocate; then, and only then, the process stops. |
| `EventCommands.UnmarshalDeleteBatch` | internal/raft/event/commands.go:187-205 | The slicing loop computes the specified decoding, errors included, unless the 64-bit size wraps and passes the check; then, and only then, the process stops. |
| `EventCommands.NeedsAtMost` | internal/raft/event/commands.go:194-197 | The wrapped size never exceeds the true one and is exact while it fits. |
| `EventCommands.OwnCommandsNeverStop` | internal/raft/event/commands.go:54-205 | No command the encoders produce stops a decoder. |
| `EventReplica.GroupingDoesNotMatter` | internal/raft/event/statemachine.go:122-153 | A log applied in any non-empty pieces gives the storage, counter, applied index, per-entry results and deleted keys of the log applied at once. |
| `EventReplica.BadEntryOnlyAdvancesIndex` | internal/raft/event/statemachine.go:74-120 | An entry that decodes as neither command changes nothing but the applied index. |
| `EventReplica.AfterLogConcat` | internal/raft/event/statemachine.go:122-153 | The effect of a log is the effect of its first part followed by that of the rest, with the counter carried over. |
| `EventRecovery.LogCounter` | internal/repository/events.go:94-116 | A log leaves under the counter key what its last stored message put there; deletions cannot reach it. |
| `EventRecovery.CounterReadsBack` | internal/repository/events.go:29-50 | The persisted counter reads back as the live one if and only if the last stored message does not index itself under the counter key, or its topic hash happens to equal its ID. |
| `EventRecovery.ReopenAfter` | internal/raft/event/statemachine.go:50-65 | Reopening after a log recovers the applied index always and the counter exactly when it survives, and finds only readable metadata values. |
| `EventRecovery.ReplayIsSuffix` | internal/raft/event/statemachine.go:50-65 | The entries above the recovered index are exactly those the crashed replica had not applied. |
| `EventRecovery.CrashReplay` | internal/raft/event/statemachine.go:50-153 | For every log, cut into calls, crash point and regrouping, reopening and replaying ends in the storage, counter and index of the uninterrupted run if and only if the counter survives. |
| `EventSnapshot.StreamLaw` | internal/raft/event/statemachine.go:167-253 | A snapshot stream is readable exactly when it is what some key-value pairs print to, and yields those pairs. |
| `EventSnapshot.LittleIsReversed` | internal/raft/event/statemachine.go:179-190 | The snapshot's length words are the big-endian words of the rest of the system with their bytes reversed. |
| `EventSnapshot.StreamTruncated` | internal/raft/event/statemachine.go:196-253 | A stream cut short is refused exactly when the cut falls inside a pair; otherwise it yields the pairs before the cut. |
| `EventSnapshot.SnapshotRestores` | internal/raft/event/statemachine.go:167-253 | Saved storage comes back whole on any replica and for any key order, with its applied index, if and only if every length fits its 32-bit prefix. |
| `EventSnapshot.TruncatedRestores` | internal/raft/event/statemachine.go:196-253 | A snapshot cut between pairs restores exactly the keys written before the cut; cut anywhere else it leaves storage empty. |
| `EventSnapshot.CutBetweenPairs` | internal/raft/event/statemachine.go:196-253 | A two-pair snapshot cut after the first pair is recovered without an error and lacks the second key. |
| `EventSnapshot.SnapshotThenSuffix` | internal/raft/event/statemachine.go:167-283 | Saving after a prefix, recovering onto any replica, reopening and applying the suffix equals applying the whole log, if and only if the saved counter survives. |
| `EventSnapshot.WithoutReopenIff` | internal/raft/event/statemachine.go:196-253 | Without a reopen, storage follows the saved replica through a log if and only if the counters were equal or the log stores nothing. |
| `Counterexamples.RecoveredDiverges` | internal/raft/event/statemachine.go:196-253 | An empty replica that recovers a one-message snapshot and applies one more entry ends with different storage. |
| `EventStateMachine.EventRepository.constructor` | internal/repository/events.go:29-50 | The repository starts from the persisted counter, or zero. |
| `EventStateMachine.EventRepository.StoreRawWithBatch` | internal/repository/events.go:94-116 | One ID is drawn; the batch gains the counter, the event and its indexes, in that order. |
| `EventStateMachine.EventStateMachine.Open` | internal/raft/event/statemachine.go:50-65 | Returns and remembers the persisted applied index, or zero. |
| `EventStateMachine.EventStateMachine.ApplyEntry` | internal/raft/event/statemachine.go:74-120 | The batch, the counter, the result and the deleted keys are those specified for the entry; a delete command takes exactly its keys out, answers their number and reports them all; nothing is committed, and the process stops exactly on the entries whose decoder does. |
| `EventStateMachine.EventStateMachine.Update` | internal/raft/event/statemachine.go:122-153 | Storage, counter, applied index, results and reported deletions are those of the log, committed together; if an entry stops the process nothing is committed. |
| `EventStateMachine.EventStateMachine.SaveSnapshot` | internal/raft/event/statemachine.go:167-194 | Writes every stored pair in key order. |
| `EventStateMachine.EventStateMachine.ClearDB` | internal/raft/event/statemachine.go:255-283 | Leaves storage empty. |
| `EventStateMachine.EventStateMachine.RecoverFromSnapshot` | internal/raft/event/statemachine.go:196-253 | Succeeds exactly on readable streams; storage and index are the stream's and the ID counter is left alone; a restored index value under eight bytes, and nothing else, stops the process. |
| `EventIds.BatchWritesEvents` | internal/repository/events.go:94-116 | The event keys a batch writes are exactly its messages' keys, one for each ID after the counter, each holding its own message. |
| `EventIds.IndexPointsToLast` | internal/repository/events.go:94-116 | An index entry holds the key of the last message of the batch that carries the index. |
| `EventIds.StoreIsFresh` | internal/repository/events.go:94-116 | A batch stored above the counter overwrites no stored event. |
| `EventIds.StoreMovesBound` | internal/repository/events.go:94-116 | The bound on stored IDs moves with the counter. |
| `EventIds.StoreKeysDiffer` | internal/repository/events.go:94-116 | The messages of one batch get different keys. |
| `EventIds.CommitDominates` | internal/repository/events.go:29-116 | Every commit, refusal, deletion and restart keeps the persisted counter above every stored ID and at most the live one, and never lowers it. |
| `EventIds.CounterDominates` | internal/repository/events.go:29-116 | Over every run of serialised commits, refusals, deletions and restarts the persisted counter dominates every stored ID and never falls. |
| `EventIds.IdsNeverRepeat` | internal/repository/events.go:29-116 | Over every such run no event key is written by two commits, deleted keys included, and none stored before the run is written again. |
| `EventIds.RestartAfterDeleteIff` | internal/dispatcher/deleter.go:62-73 | A restart after a direct deletion finds the counter it would have found without it if and only if its key was not deleted or nothing had been persisted. |
| `ConcurrentCommits.CommitOrderIff` | internal/api/grpc/handlers/producer.go:250-267 | After concurrent commits in any order the persisted counter dominates every stored ID if and only if the batch committed last has the largest ID. |
| `ConcurrentCommits.OutOfOrder` | internal/api/grpc/handlers/producer.go:250-267 | Two handlers that commit in the other order leave ID 2 stored and 1 persisted. |
| `Messages.DelayHonouredIff` | internal/repository/events.go:57-58 | The firing time is the true sum if and only if it fits an int64; otherwise the message lands in bucket zero. |
| `Messages.LongestDelayIsNone` | internal/repository/events.go:57-58 | The largest delay, published at time 1, is due at time 1. |
| `Messages.TtlHonouredIff` | internal/dispatcher/dispatcher.go:288-293 | From publication on the TTL check is the true one if and only if the sum fits an int64; otherwise the message has expired at its own publication time. |
| `Messages.LongestTtlIsNone` | internal/dispatcher/janitor.go:78-83 | The largest TTL, published at time 1, has elapsed at time 1. |
| `Producer.BuildItems` | internal/api/grpc/handlers/producer.go:191-217 | The loop succeeds if and only if no message has a negative delay or TTL and every message and index can be encoded; then there is one item per message, in order, under the topic's hash and in the bucket in which the delay ends. |
| `Producer.PublishedBucket` | internal/api/grpc/handlers/producer.go:191-217 | An accepted message is filed in the bucket that holds the end of its delay. |
| `Producer.PublishedContent` | internal/repository/events.go:54-89 | The stored bytes decode to the published topic, payload, time, delay, TTL and indexes, and every index is carried in order. |
| `Producer.BatchAcceptedIff` | internal/api/grpc/handlers/producer.go:146-175 | A batch is accepted if and only if no message has a negative delay or TTL and every message and index can be encoded; its items are then its messages', in order. |
| `Producer.IdsDrawnExactly` | internal/api/grpc/handlers/producer.go:250-267 | A refused batch has drawn one ID per message before the refused one, and one for that one unless its delay or TTL is negative. |
| `Producer.StoreWithBatch` | internal/repository/events.go:54-89 | Draws one ID even when encoding fails, and otherwise writes what the raw path would for the encoded item. |
| `Producer.ProcessStandaloneBatch` | internal/api/grpc/handlers/producer.go:250-267 | Stores the whole batch or nothing, draws exactly the IDs used up before the first refusal, and so is one step, commit or refusal, of a serialised run. |
| `Producer.RefusedAt` | internal/api/grpc/handlers/producer.go:146-175 | The first refused message decides the whole batch and how many IDs it used up. |
| `WritePaths.WritePathsAgree` | internal/api/grpc/handlers/producer.go:146-267 | For every accepted batch: the entry stores exactly its items if and only if the command format can carry them, and then leaves the storage, counter and answer that storing it directly leaves, apart from the applied index. |
| `WritePaths.DeleteEntry` | internal/raft/event/statemachine.go:98-114 | Applying a delete command removes exactly its keys, leaves the counter, answers their number and reports them in order. |
| `WritePaths.DeletePathsAgree` | internal/dispatcher/deleter.go:39-73 | What the replicated backend proposes leaves, once applied, the storage that deleting the keys directly leaves, apart from the applied index. |
| `WritePaths.CarriedIff` | internal/raft/event/commands.go:54-158 | Applying the encoded batch stores exactly its items if and only if every count and length fits. |
| `WritePaths.EntryKeepsShort` | internal/raft/event/statemachine.go:74-120 | No entry gives a replica a key of 2^16 bytes or a value of 2^32. |
| `WritePaths.PathsAgreeIff` | internal/api/grpc/handlers/producer.go:177-267 | On a replica, for clean batches with fewer than 2^16 indexes a message, both paths leave the same storage if and only if every length fits. |
| `WritePaths.LongIndexDiffers` | internal/raft/event/commands.go:76-85 | On an empty node a message with one index of 2^16 bytes leaves different storage on the two paths. |
| `WritePaths.CountsMayCoincide` | internal/raft/event/commands.go:76-85 | 2^16 + 1 empty indexes on an empty message are decoded as one, and storage is the same. |
| `RoundRobin.RoundRobinStrategy.Select` | internal/dispatcher/hub.go:37-51 | Picks the candidate under the group's counter and advances that counter only. |
| `RoundRobin.SameGroupKeyIff` | internal/dispatcher/hub.go:66-71 | Two (topic, group) pairs share a key if and only if they are equal or one topic continues the other past a vertical bar that the other's group makes up for. |
| `RoundRobin.TwoGroupsOneKey` | internal/dispatcher/hub.go:66-71 | Topic a-bar-b with group c, and topic a with group b-bar-c, share a key. |
| `RoundRobin.GroupKeyInjective` | internal/dispatcher/hub.go:66-71 | Within one topic different groups have different keys. |
| `RoundRobin.Fair` | internal/dispatcher/hub.go:37-51 | In any interleaving of selections, while one group's size is unchanged, any two of its candidates are chosen equally often or once apart. |
| `HubFairness.OfferTurns` | internal/dispatcher/hub.go:257-291 | A dispatch turns the counter of each group of its topic by one candidate and no other group's. |
| `HubFairness.TakesIff` | internal/dispatcher/hub.go:257-291 | A group member is the eligible one exactly on dispatches of its topic at which the rotation points at it. |
| `HubFairness.MembersTakeTurns` | internal/dispatcher/hub.go:257-310 | Over any dispatches, interleaved over topics in any way, two members of one group are the eligible one equally often or once apart. |
| `Hub.RemoveEntry` | internal/dispatcher/hub.go:109-125 | The loop removes the first member with this ID and keeps the order of the others. |
| `Hub.RemoveFrom` | internal/dispatcher/hub.go:109-125 | The subscription loses the consumer, and its group when that was the last member. |
| `Hub.RegisterAgreesIff` | internal/dispatcher/hub.go:194-222 | Registering keeps the indexes in agreement if and only if the ID is fresh or replaces a universal consumer of the same topic. |
| `Hub.UnregisterAgrees` | internal/dispatcher/hub.go:225-251 | Unregistering keeps the indexes in agreement and removes exactly that ID. |
| `Hub.IndexesAgree` | internal/dispatcher/hub.go:194-251 | After any run of fresh registrations and unregistrations the ID index is the disjoint union of all entries, no empty group or topic remains, and someone is connected exactly when some topic is active. |
| `Hub.ConnectedIffActive` | internal/dispatcher/hub.go:328-344 | While the indexes agree, there are consumers exactly when there are active topics. |
| `HubDelivery.OneDispatchIsExact` | internal/dispatcher/hub.go:257-310 | A consumer's queue and tags grow by one exactly when it is universal on the topic or its group's selected member, and has room; otherwise they are unchanged. |
| `HubDelivery.SomeoneReachedIff` | internal/dispatcher/hub.go:257-291 | The message reaches somebody if and only if some eligible consumer has room. |
| `HubDelivery.DispatchKeepsHub` | internal/dispatcher/hub.go:257-291 | Dispatching keeps the hub consistent and its registry unchanged. |
| `HubDelivery.MessageHub.Register` | internal/dispatcher/hub.go:194-222 | Both indexes gain the consumer, it starts with an empty queue, and the hub stays consistent. |
| `HubDelivery.MessageHub.Unregister` | internal/dispatcher/hub.go:225-251 | The consumer, its queue and its tags go; an unknown ID changes nothing; the hub stays consistent. |
| `HubDelivery.MessageHub.TrySend` | internal/dispatcher/hub.go:295-310 | Sends, and records the tag, exactly when the queue has room. |
| `HubDelivery.MessageHub.DispatchToTopic` | internal/dispatcher/hub.go:257-291 | The hub's new state is the specified dispatch, which `OneDispatchIsExact` and `MembersTakeTurns` pin down, and the returned list has one entry per queue that grew. |
| `HubDelivery.MessageHub.RemoveInFlightForConsumer` | internal/dispatcher/hub.go:314-324 | Drops exactly one record of the tag, if there is one, and nothing else. |
| `Deleter.NothingMarkedIsLost` | internal/dispatcher/deleter.go:108-166 | Over every interleaving of marks, takes, successes and failures, deleted keys, then the batch in progress, then pending keys are all marks in order. |
| `Deleter.KeyDeleter.MarkDeleted` | internal/dispatcher/deleter.go:108-115 | The key joins the end of the pending list, and conservation holds. |
| `Deleter.KeyDeleter.TakeBatch` | internal/dispatcher/deleter.go:135-143 | The pending list is swapped out whole, and conservation holds. |
| `Deleter.KeyDeleter.FinishBatch` | internal/dispatcher/deleter.go:145-165 | On success the batch counts as deleted; on failure it returns in front of what was marked meanwhile. |
| `Deleter.DeleteKeysDirect` | internal/dispatcher/deleter.go:62-73 | Storage loses exactly these keys. |
| `Deleter.ProposalFor` | internal/dispatcher/deleter.go:39-45 | A command is proposed if and only if every key is 24 bytes long; it is the encoded delete command and decodes to the keys. |
| `Dispatcher.MessageDispatcher.RemoveInFlightBatch` | internal/dispatcher/dispatcher.go:77-81 | Exactly these keys lose their in-flight entry. |
| `Dispatcher.MessageDispatcher.IsInFlight` | internal/dispatcher/dispatcher.go:271-285 | True exactly while the entry is younger than the timeout; an older entry is forgotten. |
| `Dispatcher.MessageDispatcher.VisitKey` | internal/dispatcher/dispatcher.go:179-245 | The scan callback changes the in-flight map, the hub, the expired list and the count as specified. |
| `Dispatcher.MessageDispatcher.DispatchTopic` | internal/dispatcher/dispatcher.go:166-266 | One topic's scan visits exactly the due keys, which `DueKeysExact` describes, in key order, and marks exactly the expired ones. |
| `Dispatcher.MessageDispatcher.DispatchAll` | internal/dispatcher/dispatcher.go:116-143 | A pass visits every active topic once, in some order, at one time, and returns the number of dispatches. |
| `Dispatcher.Swept` | internal/dispatcher/janitor.go:65-92 | A key is collected exactly when it is a stored 24-byte key whose message has outlived its TTL. |
| `Dispatcher.Sweep` | internal/dispatcher/janitor.go:61-111 | Exactly the expired events are marked for deletion, in key order. |
| `DispatchPass.OnlyOutlivedExpire` | internal/dispatcher/dispatcher.go:192-199 | A pass hands over for deletion only stored keys whose TTL has elapsed. |
| `DispatchPass.OutlivedIsExpired` | internal/dispatcher/dispatcher.go:181-199 | Every scanned key whose TTL has elapsed and that has no in-flight entry younger than the timeout is handed over for deletion. |
| `DispatchPass.DueKeysExact` | internal/dispatcher/dispatcher.go:166-179 | A stored event is scanned for a topic if and only if it has the topic's hash and the first millisecond of its bucket has come. |
| `DispatchPass.VisitSendsIff` | internal/dispatcher/dispatcher.go:179-245 | A visited key is sent if and only if it is not in flight, decodes, has not expired, and somebody selected on the topic has room at that moment. |
| `DispatchPass.PassSendsIff` | internal/dispatcher/dispatcher.go:166-266 | A pass sends a key if and only if that holds at one of the key's visits. |
| `DispatchPass.SentUnlessWaiting` | internal/dispatcher/dispatcher.go:179-245 | A live key at whose visit somebody selected has room is sent by the pass if and only if it was not in flight when the pass began. |
| `DispatchPass.SentIsInFlight` | internal/dispatcher/dispatcher.go:214-221 | What a pass sends is in flight from that time on. |
| `DispatchPass.SentIsQueued` | internal/dispatcher/dispatcher.go:213-222 | What a pass sends is in somebody's queue, with its decoded message, when the pass ends. |
| `DispatchPass.PassSpaces` | internal/dispatcher/dispatcher.go:179-245 | A pass keeps all dispatches of one key at least the in-flight timeout apart. |
| `DispatchPass.DispatchesUseIdle` | internal/dispatcher/dispatcher.go:179-245 | While nothing times out, every dispatch of a pass uses up exactly one key, not in flight, of any set that holds what the pass could send. |
| `DispatchPass.QueueGrowsSlowly` | internal/dispatcher/dispatcher.go:166-266 | A consumer's queue grows by at most one message per scanned key of its own topic. |
| `DispatchPass.DueIsSent` | internal/dispatcher/dispatcher.go:166-266 | A pass sends a due message when a listener of its topic has room for it and for the messages of that topic scanned before it. |
| `DispatchPass.PassIgnoresTags` | internal/dispatcher/dispatcher.go:179-245 | Hubs that differ only in recorded tags dispatch alike. |
| `Broker.StepKeepsInv` | internal/dispatcher/dispatcher.go:166-285 | Every step of the broker, refused batches included, keeps the hub consistent, the persisted counter above every stored ID and at most the live one, only persisted IDs on their way to deletion, every deleted event out of storage, and every mark accounted for. |
| `BrokerRuns.UnackedUnexpiredStays` | internal/dispatcher/deleter.go:108-166 | In every run a stored event on no path to deletion stays, byte for byte, unless it is acknowledged or the code's TTL check finds it expired. |
| `BrokerRuns.PublishedStays` | internal/api/grpc/handlers/consumer.go:214-218 | Every message of an accepted batch gets a new key and is kept, across restarts, until acknowledged or found expired by the code's TTL check. |
| `BrokerRuns.KeptToDeadline` | internal/dispatcher/janitor.go:61-111 | A message whose TTL sum fits is kept to its true deadline, or for good without a TTL, unless it is acknowledged. |
| `BrokerRuns.PublishedKept` | internal/api/grpc/handlers/producer.go:146-175 | The same from publication on: every such message of an accepted batch is kept, across restarts, to its true deadline. |
| `BrokerRuns.SweptAway` | internal/dispatcher/janitor.go:61-111 | A stored message that the TTL check finds expired is gone after one sweep and one flush. |
| `BrokerRuns.FlushRemoves` | internal/dispatcher/deleter.go:135-166 | A flush that goes through removes every key that was pending or in the batch under way. |
| `BrokerRuns.AckedIsRemoved` | internal/api/grpc/handlers/consumer.go:214-218 | Once acknowledged, an event is out of storage after the next flush that goes through, whatever happens in between short of a restart. |
| `BrokerUpkeep.ExpiredIsMarked` | internal/dispatcher/dispatcher.go:192-199 | A pass leaves in the deleter's pending list every stored event of a scanned topic whose bucket has begun, whose TTL has elapsed and which has no in-flight entry younger than the timeout. |
| `BrokerUpkeep.QueuesStayBounded` | internal/dispatcher/hub.go:194-310 | Over every run no queue is longer than its consumer's channel, and tags are recorded for connected consumers only. |
| `BrokerUpkeep.EntriesAccounted` | internal/dispatcher/dispatcher.go:77-81 | Over every run an event in flight is stored or its removal is about to be notified. |
| `BrokerRuns.KeptToDeadlineIff` | internal/dispatcher/dispatcher.go:288-293 | A stored message survives every run that stays within its true lifetime and does not acknowledge it if and only if its TTL sum fits the clock. |
| `Counterexamples.LostAtOnce` | internal/api/grpc/handlers/producer.go:151-158 | A message published at time 1 with the largest TTL is stored, and gone after a sweep at time 1 and a flush. |
| `BrokerRuns.RedeliveriesSpaced` | internal/dispatcher/dispatcher.go:181-221 | In every run on a clock that never runs backwards the spacing invariant is kept. |
| `BrokerRuns.SpacedFromStart` | internal/dispatcher/dispatcher.go:271-285 | From a process start, any two dispatches of one event are at least the in-flight timeout apart. |
| `BrokerDelivery.RescanEnds` | internal/dispatcher/dispatcher.go:102-109 | While nothing is stored, deleted or timed out, the passes that trigger an immediate re-scan are at most as many as the keys not in flight that are due on the scanned topics by the last pass and unexpired at the first. |
| `BrokerDelivery.PassIsExact` | internal/dispatcher/dispatcher.go:116-266 | A pass of the broker sends a key if and only if at one of its visits the key is due and somebody selected on the topic has room. |
| `BrokerDelivery.DueMessageIsSent` | internal/dispatcher/dispatcher.go:116-143 | A pass over a topic sends a message whose firing time has come, which has not expired and has no in-flight entry younger than the timeout, when a universal consumer, or all of a group, has room for the topic's scanned keys up to this one. |
| `BrokerDelivery.ScannedIsSent` | internal/dispatcher/dispatcher.go:116-143 | The same for any scanned key, with the room counted in scanned keys. |
| `BrokerDelivery.NackChangesNothing` | internal/api/grpc/handlers/consumer.go:214-219 | After a negative acknowledgement every run goes as it would have without it, apart from the recorded tags: same storage, queues, in-flight entries, deletions and dispatches. |
| `BrokerDelivery.NackRedeliveryIff` | internal/api/grpc/handlers/consumer.go:214-219 | After a negative acknowledgement, a pass at whose visit the message is alive and somebody selected has room sends it if and only if it has no in-flight entry younger than the timeout. |
| `BrokerDelivery.NackInsideTimeout` | internal/dispatcher/dispatcher.go:271-285 | A message that was sent and refused is not sent again before the in-flight timeout. |
| `Counterexamples.NackedMessageWaits` | internal/api/grpc/handlers/consumer.go:51-54 | A message sent at time 5 and refused is stored and in the due range at time 6, and a pass then does not send it. |
| `BrokerDelivery.WaitingIsNotSent` | internal/dispatcher/dispatcher.go:181-183 | While a key's in-flight entry is younger than the timeout no pass sends it, whatever was answered for it. |
| `BrokerHistory.PassIsPunctual` | internal/dispatcher/dispatcher.go:166-179 | Whatever event a pass sends has the hash of a topic it scanned, and the first millisecond of its bucket has come. |
| `BrokerHistory.LogIsPunctual` | internal/dispatcher/dispatcher.go:166-179 | Over every run no event in the log was sent before the first millisecond of its bucket. |
| `PublishedDelivery.KeyOfMessage` | internal/repository/events.go:54-89 | The key under which a published message is stored carries its topic's hash and the bucket in which its delay ends. |
| `PublishedDelivery.NeverABucketEarly` | pkg/utils/keys.go:26-34 | Over every run after a publication every dispatch of the message comes less than one bucket before its delay has passed. |
| `PublishedDelivery.PublishedIsSent` | internal/dispatcher/dispatcher.go:116-266 | A published message that is still stored is sent by any pass over its topic once its delay has passed, when it has not expired, has no in-flight entry younger than the timeout, and a listener has room. |
| `PublishedDelivery.PublishedThenSent` | internal/dispatcher/dispatcher.go:116-266 | The same after any run within the message's lifetime that does not acknowledge it: storage still has it, so the pass sends it. |
| `Redelivery.RunLogs` | internal/dispatcher/dispatcher.go:214-221 | Over every run each in-flight entry of a process is the time of a dispatch in its log. |
| `Redelivery.RedeliveryIff` | internal/dispatcher/dispatcher.go:181-221 | On a forward clock a pass at whose visit the message is alive and somebody selected has room sends it if and only if every earlier dispatch of it is at least the timeout ago. |
| `Redelivery.SentAgain` | internal/dispatcher/dispatcher.go:271-285 | An event sent at some time, after any steps but a restart with passes only inside the timeout, is sent again by a pass at whose visit it is alive and somebody selected has room if and only if the timeout has passed since. |
| `BrokerHistory.GoneForGood` | internal/repository/events.go:94-116 | Over every run, restarts included, an event that has left storage is never stored again and no pass sends it. |
| `BrokerHistory.DeletedNeverReturns` | internal/dispatcher/deleter.go:135-166 | An event recorded as deleted is out of storage, stays out, and is never sent again. |
| `TopicIsolation.BuiltIsFiled` | internal/api/grpc/handlers/producer.go:191-217 | When decoding inverts encoding, what the producer builds is stored under the hash of its own topic. |
| `TopicIsolation.VisitIsolates` | internal/dispatcher/dispatcher.go:176-214 | A visit to a due key of a topic adds only that topic's events to queues, when the hash tells the topics in use apart. |
| `TopicIsolation.ConsumersGetTheirTopic` | internal/dispatcher/dispatcher.go:166-266 | Over every run in which the hash tells the topics in use apart, whatever event waits in a consumer's queue was published to the consumer's topic. |
| `Counterexamples.WrongTopicDelivered` | internal/dispatcher/dispatcher.go:176-214 | With two topics of one hash, a consumer of the second is sent a message published to the first. |
| `BrokerRuns.BlockedForGood` | internal/dispatcher/deleter.go:135-166 | In Raft mode, with a malformed key pending and no flush under way, no run without a restart records anything more as deleted or proposes a new deletion. |
| `BrokerRuns.RetrySucceedsIff` | internal/dispatcher/deleter.go:135-166 | In Raft mode, with something to delete, some run without a restart records more as deleted if and only if no malformed key is in the batch under way, or in the next one when there is none. |
| `BrokerRuns.BlockedFromStart` | internal/dispatcher/deleter.go:135-166 | One acknowledgement with an empty tag blocks a new node in Raft mode. |
| `MetadataCommands.MapOfLists` | pkg/raft/metadata/commands.go:162-199 | A map rebuilt from any walk of its entries is the map. |
| `MetadataCommands.WalkSize` | pkg/raft/metadata/commands.go:162-174 | Every walk of a map prints the same number of bytes. |
| `MetadataCommands.EncodedSize` | pkg/raft/metadata/commands.go:78-112 | The buffer sized on one walk of the maps is filled exactly by any other. |
| `MetadataCommands.DecodedFits` | pkg/raft/metadata/commands.go:115-160 | Whatever the topology decoder accepts can be encoded again in no more bytes. |
| `MetadataCommands.TopologyRoundTrip` | pkg/raft/metadata/commands.go:77-160 | A topology is restored for every walk of its four maps if and only if every count and address fits sixteen bits. |
| `MetadataCommands.TopologyTruncated` | pkg/raft/metadata/commands.go:115-199 | Every proper prefix of an encoded topology is rejected. |
| `MetadataCommands.NodeAddrRoundTrip` | pkg/raft/metadata/commands.go:209-232 | A registration is restored if and only if its address fits sixteen bits. |
| `MetadataCommands.NodeMapSize` | pkg/raft/metadata/commands.go:79-84 | The sizing loop over a map finds the size of every walk of it. |
| `MetadataCommands.MarshalNodeMap` | pkg/raft/metadata/commands.go:162-174 | The loop appends the count and some walk of the entries, and ends where the sizing said. |
| `MetadataCommands.MarshalUpdateTopology` | pkg/raft/metadata/commands.go:77-112 | The filled buffer is the encoding of the topology for some walks of its maps, and decodes to the topology if and only if that fits the format. |
| `MetadataCommands.MarshalRegisterNodeAddr` | pkg/raft/metadata/commands.go:209-216 | The filled buffer is the encoding of the registration. |
| `MetadataCommands.UnmarshalNodeMap` | pkg/raft/metadata/commands.go:176-199 | The loop reads the specified map and leaves the rest, or fails where the specification does; a repeated ID keeps its last address. |
| `MetadataCommands.UnmarshalUpdateTopology` | pkg/raft/metadata/commands.go:115-160 | Computes the specified decoding, errors included. |
| `MetadataCommands.UnmarshalRegisterNodeAddr` | pkg/raft/metadata/commands.go:219-232 | Computes the specified decoding, errors included. |
| `MetadataStateMachine.EpochIsLargest` | pkg/raft/metadata/statemachine.go:50-55 | After any run the global epoch is the largest among the initial one and those of the topologies applied. |
| `MetadataStateMachine.ShardIsLatest` | pkg/raft/metadata/statemachine.go:50-55 | After any run from the start a shard is present exactly when some entry set it, and holds the last topology the log gave it. |
| `MetadataStateMachine.AddrIsLatest` | pkg/raft/metadata/statemachine.go:64-72 | The registry holds exactly the last address each node registered. |
| `MetadataStateMachine.RunInv` | pkg/raft/metadata/statemachine.go:38-84 | Every reachable state files shards under their own IDs, has an epoch no shard exceeds, and holds only what a snapshot can carry. |
| `MetadataStateMachine.SaveRecoverIff` | pkg/raft/metadata/statemachine.go:145-245 | Saving and recovering restores shards and addresses, for every walk of every map, if and only if counts and frames fit 32 bits and addresses 16. |
| `MetadataStateMachine.TruncatedIsRefused` | pkg/raft/metadata/statemachine.go:190-245 | Recovering from any proper prefix of a saved state reports an error. |
| `MetadataStateMachine.RecoveredEpoch` | pkg/raft/metadata/statemachine.go:190-245 | The recovered epoch is the largest among the surviving shards, never above the saved one, and equal to it if and only if a shard still carries it or it is zero. |
| `MetadataStateMachine.EpochFallsBack` | pkg/raft/metadata/statemachine.go:38-245 | A shard that reports epoch 5 and then 3 leaves the replica at 5 and a member recovering its snapshot at 3. |
| `MetadataStateMachine.RecoveredFits` | pkg/raft/metadata/statemachine.go:190-245 | Whatever the input, the state left behind satisfies the invariant and can be saved again. |
| `MetadataStateMachine.RunsRestore` | pkg/raft/metadata/statemachine.go:38-245 | Every log below 2^32 entries and bytes per entry leads to a state that a snapshot restores. |
| `MetadataStateMachine.EpochsMeetIff` | pkg/raft/metadata/statemachine.go:38-84 | Members that differ only in the epoch agree after a log if and only if some entry reaches the larger epoch. |
| `MetadataStateMachine.StateMachine.Update` | pkg/raft/metadata/statemachine.go:38-84 | State and answer are those specified for the command. |
| `MetadataStateMachine.StateMachine.SaveSnapshot` | pkg/raft/metadata/statemachine.go:145-187 | Writes some walk of the registry, then some walk of the shards; recovering the bytes restores both if and only if they fit the format. |
| `MetadataStateMachine.StateMachine.RecoverFromSnapshot` | pkg/raft/metadata/statemachine.go:190-245 | Drops the state first and loads what can be read; on an error the part read before it stays. |

## Left out

- UnmarshalStoreBatch: how much the runtime can allocate is a parameter; the slices it returns are values here and do not alias the input.
- UnmarshalDeleteBatch: the slices it returns are values here and do not alias the input.
- RecoverFromSnapshot: allocating a frame of the announced length before reading it is not modelled, in either state machine.
- PathsAgreeIff: messages with 2^16 indexes or more are excluded, because there storage can agree or not; `CountsMayCoincide` shows a case where it does.
- Fair: a group's counter standing at 2^64-1 is excluded; the strategy stores remainders only, so it never holds that value.
- MembersTakeTurns: the registry stays as it is over the dispatches, no other registered group shares the group's key (`SameGroupKeyIff` lists when one does), and the counter is not at 2^64-1.
- OneDispatchIsExact: the message is one value shared by all queues; the Go code shares one object, so aliasing between consumers is not captured.
- RemoveFrom: a topic's subscription is a value that replaces the old one; the in-place update of the shared map entry is not captured.
- DispatchAll: the leadership check and the early return without consumers are not modelled; a pass reads the clock once, where the code reads it again for each in-flight entry.
- StepKeepsInv: a pass, a sweep and each half of a flush is one step; finer interleavings inside them are not modelled.
- PublishedStays: messages whose indexes look like event keys or the counter key are excluded, as are acknowledgements of the counter key or of IDs above the persisted counter.
- Storage engines (internal/storage/pebble.go, internal/storage/bbolt.go): an ordered map with atomic batches stands for them; their errors, sync modes and snapshots of open iterators are not modelled.
- ConsumersGetTheirTopic: speaks of queued events; an index entry that lies in a due range and whose value decodes could be queued too, under its own key.
- Protobuf encoding and the topic hash are arbitrary functions, which may fail or collide; that decoding inverts encoding is needed for `BuiltIsFiled`, `PublishedContent`, `PublishedIsSent` and `PublishedThenSent` alone.
- Raft itself: a committed log with increasing indexes is given; leader lookup, membership changes and topology publication are not modelled.
- Stop channels, logging, metrics, configuration loading, gRPC streams and shutdown are not modelled.
- Secondary-index entries are written but not read anywhere, so only their effect on storage is modelled.
- `EventBatch`, `TopicUpperBound`, `BucketUpperBound`, `Lookup` and the copying getters would only add easy members.
