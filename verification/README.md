# RMemQueue in Dafny

RMemQueue is an in-memory message queue in the style of Kafka: topics split into partitions, each a
bounded log with eviction; producers routed by a partitioner; consumers that poll their assigned
partitions in rotation and recover when eviction overtakes them; groups that share partitions and
commit offsets. This project models its core and proves what the core promises.

How it is organised:

- `Common`, `Arithmetic`: results and errors; division and remainder by a variable.
- `PartitionLog`: the meaning of a partition as an append-only history (`all`) of which a suffix
  from `lo` on is retained, with append, eviction and reads as functions, and their laws. `Partition` is
  the class that keeps only the suffix and a counter, and refines it. `Retention` says in counts and raw clock
  readings what the policies leave.
- `Partitioner`: the wrapping 32-bit round-robin counter and FNV-1a hashing.
- `Clusters`: all topics as a value, what the operations do to them, and that all of them only let
  partitions extend. `Backend`, `Broker`: the classes that own topics, groups, offsets. `BrokerState` is the
  broker as a value; every broker method is proved to answer as that value does and to let it grow.
- `Polling`, `BaseConsumer`: one scan of `poll_once` as a function and as the method that refines it.
  `Draining` proves what repeated polls, seeks and commits deliver; `Fairness` that no entry
  whose visits would fetch a message waits longer than one round; `Interleaving` that order survives any interleaving with other threads
  and that nothing is skipped silently.
- `Assignor`, `ConsumerGroup`: the round-robin assignor, the group state, and whole runs of joins and leaves.
- `TopicCreation`: topic creation, produce and shutdown by any number of threads.

`dafny verify dfyconfig.toml` checks everything. Classes carry a ghost field `model` holding the value
their real fields stand for; `Valid()` ties the two.

What the model makes explicit:

- The monotonic clock is read once when a message is stamped and again at every eviction check
  (`Clock.at`); readings never decrease, and never run behind the last stamped message, because they are taken
  under the partition's write lock.
- Hash iteration order is arbitrary: `Assign` picks the next topic nondeterministically.
- Arithmetic of the round-robin counter and of the hash wraps at 32 bits as in a release build.
  Offsets and counts are unbounded integers.
- One thread polls a given consumer and moves its positions. Everything else may interleave, also
  between the locks that a single visit of `poll_once` takes in turn (`BrokerState.Visit`, `Interleaving.Step`).

Where the code differs from its documentation, the model follows the code:

- `partition.buffer.capacity` is documented as the maximum number of messages; the capacity test
  runs after the push with `>=`, so at most capacity - 1 stay (`Retention.RetainedWithoutPolicies`, `RunKeepsWindow`).
- `retention.policy` is documented to select the policy; the policies depend only on whether
  `retention.ms` and `retention.capacity` are set.
- `commit_message` is documented as the way to commit progress, but it stores the offset plus one and
  resuming adds one again (`CommitMessageResumesIff`, `CommitMessageSkipsAndReplays`).
- A rebalance is documented to redistribute partitions evenly across all members; a join redistributes
  only the joiner's topics and drops the others (`JoinCoversIff`, `JoinCoversEverythingIff`).
- Round robin is exact only up to 2^30 partitions (`RoundRobinExactUpTo2To30`).

## Model

| member | source | states |
|---|---|---|
| Partition.Partition.Append | src/partition.rs:143-185 | appending stamps the message with the next offset and moves the window as capacity and policies demand, which the Retention rows spell out |
| Partition.Partition.EvictBuffer | src/partition.rs:322-335 | the loop terminates with the window starting at the first message that meets both limits at its own check |
| Partition.Partition.ReadOne | src/partition.rs:231-263 | an in-window offset yields the history's message at that index, the end (or 0 on an empty log) yields nothing, anything else is out of range |
| Partition.Partition.Read | src/partition.rs:265-298 | a batch read yields that slice of the history, under the same error conditions |
| Partition.Partition.Watermarks | src/partition.rs:300-309 | the watermarks of the history, with 0 as the oldest of an empty log |
| Partition.PoliciesAreLimits | src/partition.rs:26-61 | the configured policies fire on the front exactly when it breaks the age or the count limit |
| PartitionLog.EvictionBetweenClocks | src/partition.rs:322-335 | with a moving clock, eviction leaves only messages within limits at the first check and drops only messages outside them at the last |
| PartitionLog.EvictionIsFilter | src/partition.rs:322-335 | with a standing clock, popping from the front leaves exactly the messages of the whole log that meet both limits |
| PartitionLog.AppendedKeepsWindow | src/partition.rs:143-185 | an append keeps the log a window of a growing history with a non-decreasing oldest offset, below capacity |
| PartitionLog.RunKeepsWindow | src/partition.rs:143-185 | over every run the retained log is a suffix of all appended messages, `log[i].offset = next_offset - len + i`, the window never moves back and never reaches max_capacity messages |
| PartitionLog.WatermarksSpanRetained | src/partition.rs:300-309 | the watermarks are 0 and next_offset - 1 when nothing is retained, and otherwise the offsets of the first and the last retained message, one apart per message |
| Retention.KeepsIffWithinLimits | src/partition.rs:26-42 | the limits in raw nanoseconds and counts: strictly younger than retention_ms + 1 milliseconds, and among the last retention_capacity messages |
| Retention.EvictEnforcesRetention | src/partition.rs:316-335 | after an eviction every retained message met both limits at the first check, every dropped one breaks a limit at the last, and at most retention_capacity messages stay |
| Retention.AppendEnforcesRetention | src/partition.rs:157-180 | after an append every retained message met both limits at the first check, every message it dropped is the one popped for max_capacity or breaks a limit at the last check, and at most retention_capacity messages stay |
| Retention.AppendRetainsExactly | src/partition.rs:157-180 | while the clock stands still an append retains a message if and only if it meets both limits and is not the one popped for max_capacity |
| Retention.RunEnforcesRetention | src/partition.rs:143-185 | after every non-empty run of appends and evictions the retained messages met both limits when the last operation first checked, and number at most retention_capacity |
| Retention.RetainedWithoutAgeLimit | src/partition.rs:174-180 | without retention_ms the number of retained messages after any run of a fresh log is exactly the minimum of the messages appended, retention_capacity and max_capacity - 1 |
| Retention.RetainedWithoutPolicies | src/partition.rs:174-178 | without policies n appends retain exactly the last min(n, max_capacity - 1), or all when max_capacity is 0 |
| PartitionLog.ReadIsIteratedReadOne | src/partition.rs:231-298 | a batch read is the iterated single read and fails with the same error |
| PartitionLog.ReadSplits | src/partition.rs:265-298 | consecutive chunks concatenate to the larger batch |
| PartitionLog.ReadOneServesOwed | src/partition.rs:231-309 | a read serves the first owed message or shows none is owed; if out of range, the oldest watermark is in range and owes the same |
| PartitionLog.AppendedReadsBack | src/partition.rs:143-185 | the returned offset reads back as the appended message in every later state until it is evicted, and never after |
| Backend.InMemoryBackend.EnsureTopic | src/broker_backend.rs:147-170 | creates an absent topic with empty partitions and leaves an existing one alone |
| Backend.InMemoryBackend.Produce | src/broker_backend.rs:172-195 | appends to the named partition only, or fails on shutdown, missing topic or partition without any change |
| Backend.InMemoryBackend.ProduceToTopic | src/topic.rs:68-78 | appends to the partition in range and leaves every other partition unchanged |
| Backend.InMemoryBackend.DescribeTopic | src/broker_backend.rs:119-143 | the metadata lists every partition's id, watermarks and retained count |
| Backend.MetadataSpansRetained | src/broker_backend.rs:119-143 | the metadata's count is what its own watermarks span, unless nothing is retained |
| Broker.Broker.Produce | src/broker.rs:185-220 | a chosen partition is used as it is and an unknown one fails with PartitionOutOfRange and no change to any log; otherwise a consistent partitioner sends a key to its hash mod n, and everything else goes to counter mod n (up to 2^30 partitions), which alone advances the counter; that partition's history grows by exactly this message at the returned offset, nothing else of the broker changes, and groups see at most the topic's creation |
| Broker.Broker.FetchOneFromPosition | src/broker.rs:273-319 | the fetch answers as the broker state does, including the start offset and the adjusted error |
| Broker.Broker.JoinGroup | src/broker.rs:378-415 | creates missing topics with empty logs, leaves existing logs unchanged, and takes the group through one join step while other groups only see the creation; the result is the joiner's list |
| Broker.Broker.LeaveGroup | src/broker.rs:417-433 | takes the group through one leave step, or fails without change; logs and offsets stay as they are |
| Broker.Broker.CommitOffset | src/broker.rs:435-450 | records the offset for the group and partition and changes nothing else; fails on shutdown or unknown group |
| Clusters.ProduceGrows | src/broker.rs:185-220 | a produce is one of the changes by other threads that the interleaving results allow |
| Clusters.CreationsGrow | src/broker.rs:378-389 | so is the creation of any number of topics, which leaves existing logs unchanged |
| Clusters.CreationsAddEmpty | src/broker_backend.rs:147-170 | creating topics adds exactly the missing ones, each with n empty partitions, and touches no other |
| Clusters.LookupOutcome | src/topic.rs:52-61 | a lookup succeeds exactly on an existing partition of a live backend, and otherwise names what is missing |
| Clusters.EvictionGrows | src/partition.rs:316-335 | so is an eviction |
| BrokerState.FetchServesOwed | src/broker.rs:273-319 | for any position a fetch hands over the first owed message, or nothing is owed, or one reset makes the next fetch succeed with the same messages owed |
| BaseConsumer.BaseConsumer.PollOnce | src/base_consumer.rs:188-249 | the loop over the assignment computes exactly the scan whose order, fairness and completeness are proved |
| BaseConsumer.BaseConsumer.Seek | src/base_consumer.rs:404-434 | stores the target of each symbolic offset, or fails leaving the consumer unchanged |
| BaseConsumer.BaseConsumer.Subscribe | src/base_consumer.rs:341-366 | a group consumer joins and takes its list, a lone one takes all partitions of existing topics; existing logs, positions and pauses survive; it fails exactly on a shut down broker, without change to the consumer |
| BaseConsumer.AllPartitionsIff | src/base_consumer.rs:347-359 | a lone consumer's list holds a partition if and only if the broker is live, the partition exists and its topic is named, and once if the names are distinct |
| BaseConsumer.BaseConsumer.Unsubscribe | src/base_consumer.rs:368-385 | leaves the group and forgets assignment, positions and pauses, or fails with the stated error leaving consumer and group unchanged |
| BaseConsumer.BaseConsumer.Commit | src/base_consumer.rs:436-448 | commits every plain offset in order, or none, with the error the broker reports |
| BaseConsumer.CommitAllKeepsLast | src/base_consumer.rs:436-448 | afterwards a partition's committed offset is its last plain entry in the list, and what it was if it has none; other groups' offsets stay |
| BaseConsumer.BaseConsumer.CommitMessage | src/consumer.rs:127-135 | commits the message's offset plus one, or nothing, with the error the broker reports |
| Polling.PollOnQuiescentBroker | src/base_consumer.rs:188-249 | a poll delivers the head of one partition's owed messages and leaves the rest owed; when it delivers nothing nothing is lost and every active partition is in range afterwards |
| Polling.PollAfterShutdown | src/base_consumer.rs:188-249 | on a shut down broker a poll returns BrokerShutdown if some entry is unpaused and nothing otherwise, and leaves the consumer unchanged |
| Polling.OtherErrorsEndScan | src/base_consumer.rs:245 | a visit that fails with anything but the three errors the scan goes on after ends the scan, which returns that error without change |
| Polling.SkippableErrorsAreNotReturned | src/base_consumer.rs:238-245 | a poll never returns an out-of-range offset, a missing topic or a missing partition, and an error does not move the rotation |
| Draining.DrainDeliversOwed | src/base_consumer.rs:188-249 | polling until two consecutive empty polls terminates and delivers, for each active partition, exactly its owed messages once and in order, and nothing else |
| Draining.SeekTailThenDrain | src/base_consumer.rs:424-427 | for every t >= 0 seeking to the tail t and draining yields exactly the last min(t, retained) messages; a negative t replays everything retained |
| Draining.SeekEndsThenDrain | src/base_consumer.rs:406-413 | seeking to the beginning replays all retained messages, to the end none |
| Draining.SeekAtThenDrain | src/base_consumer.rs:414 | seeking to an offset and draining yields exactly the retained messages from that offset on when it lies within the log, its end included, and everything retained otherwise |
| Draining.SeekStoredWithoutCommit | src/base_consumer.rs:415-423 | without a group or a commit seeking to the stored offset is seeking to 0, and draining then replays everything retained |
| Draining.SeekFailsIff | src/base_consumer.rs:404-434 | a seek fails exactly when it needs the watermarks of a missing partition, the commits of a missing group, or a broker that is shut down |
| Draining.FirstContactReplaysRetained | src/broker.rs:282-303 | a consumer with neither a position nor a committed offset receives exactly everything retained |
| Draining.CommittedOffsetResumes | src/broker.rs:282-318 | after committing the last processed offset a fresh group consumer receives exactly the retained messages after it |
| Draining.CommitMessageResumesIff | src/consumer.rs:127-135 | resuming after commit_message is right if and only if the next message is already evicted or nothing is retained; otherwise it skips one message, or replays everything |
| Draining.CommitMessageSkipsAndReplays | src/consumer.rs:127-135 | a concrete log of two messages on which commit_message skips the second, and replays both |
| Draining.SeekStoredAfterCommitMessage | src/base_consumer.rs:415-423 | seeking to the stored offset after commit_message yields exactly the messages after the committed one |
| Fairness.ReadyIff | src/broker.rs:280-318 | a visit fetches a message exactly when the offset it settled on first is still retained when the message is read |
| Fairness.EvictionBetweenLocksDefers | src/broker.rs:299-316 | a concrete eviction between the watermark read and the fetch makes the only poll of the only entry return nothing, although the entry can be fetched before and after |
| Fairness.ScanStopsBy | src/base_consumer.rs:204-247 | a scan in which the entry d visits ahead would be fetched returns a message of an entry at most d visits ahead and restarts after it |
| Fairness.ReadyEntryIsServedWithinOneRound | src/base_consumer.rs:188-249 | an unpaused entry that every visit of n consecutive polls of n entries would fetch is served by one of them, whatever changes between polls and between the locks of a visit |
| Fairness.InRangeIsReady | src/base_consumer.rs:204-235 | for an entry with a position that condition is: its position is retained whenever messages are read |
| Fairness.DecidesIff | src/broker.rs:282-316 | without a position a visit fetches or resets exactly when it does not read at the end of the log |
| Fairness.UnplacedEntryIsServedWithinTwoRounds | src/base_consumer.rs:188-249 | an entry that starts without a position, never reads at the end of the log before it has one, and stays in range after the first reset, is served within 2 n polls |
| Interleaving.StepKeepsInv | src/base_consumer.rs:206-246 | the position and the owed offset keep selecting the same retained messages through every lock acquisition of the poller and every change by others |
| Interleaving.PollingOnlyReceives | src/base_consumer.rs:204-247 | while the caller leaves its position and the assignment alone, polling a placed partition adds deliveries only and keeps it placed |
| Interleaving.OrderedAndNothingLostSilently | src/base_consumer.rs:188-249 | in every interleaving, from a delivery or a seek not past the end, and as long as the caller neither moves the partition's position nor replaces the assignment, offsets strictly increase and every skipped offset was already evicted when a later one was fetched |
| Interleaving.DeliveriesFollowInEveryRun | src/broker.rs:282-318 | the same between any two events of a run without a new start between them, which includes the first delivery after starting from a committed offset or the watermarks |
| Interleaving.VisitIsRun | src/base_consumer.rs:204-247 | a visit of the scan without interference is a run of the interleaving machine |
| Assignor.Assign | src/partition_assignor.rs:31-82 | for every order of visiting the topics the nested loops end in a list per member holding exactly the partitions p with p mod k equal to its rank |
| Assignor.AssignedByRank | src/partition_assignor.rs:55-78 | a member gets partition p of a counted topic with k subscribers, itself among them, if and only if exactly p mod k subscribers come before it in the order of their ids |
| Assignor.LexLeIsStringOrder | src/partition_assignor.rs:36-37 | that order is the order of strings: a prefix first, else by the first character that differs |
| Assignor.ExactCover | src/partition_assignor.rs:49-79 | a partition is assigned to exactly one member, once, if and only if its topic is counted and has a subscriber, and that member subscribes to it |
| Assignor.OrderIndependent | src/partition_assignor.rs:44-79 | any two orders of visiting the topics give each member the same multiset of partitions |
| Assignor.TopicLoad | src/partition_assignor.rs:71-78 | the i-th of k subscribers gets n / k partitions, and one more exactly when i < n mod k |
| Assignor.TopicBalanced | src/partition_assignor.rs:71-78 | two subscribers' shares of a topic differ by at most one |
| Assignor.TotalBalanced | src/partition_assignor.rs:49-79 | when all members subscribe to the same T topics their totals differ by at most T |
| ConsumerGroup.ConsumerGroup.Join | src/consumer_group.rs:56-81 | join rebalances over the given counts and always finds the joiner's assignment |
| ConsumerGroup.ConsumerGroup.Leave | src/consumer_group.rs:83-97 | leave removes the member from all three maps and rebalances if members remain |
| ConsumerGroup.RunStaysConsistent | src/consumer_group.rs:56-118 | over every run the key sets stay equal and every subscribed topic exists |
| ConsumerGroup.LeaveCoversEverything | src/broker.rs:417-433 | after every leave that leaves members each subscribed topic is exactly covered |
| ConsumerGroup.JoinCoversIff | src/broker.rs:378-415 | after a join a subscribed topic is covered if and only if the joiner named it or it has no partitions; an unnamed one is assigned to nobody |
| ConsumerGroup.JoinCoversEverythingIff | src/broker.rs:378-415 | a join covers everything if and only if no member subscribes to a topic with partitions that the joiner does not name |
| Partitioner.RoundRobinPartitioner.Partition | src/partitioner.rs:83-91 | picks counter mod n up to 2^30 partitions, advances the counter with wrap-around, and answers 0 for n <= 0 without advancing |
| Partitioner.ConsistentPartitioner.Partition | src/partitioner.rs:34-47 | a key is routed by its hash alone and leaves the counter alone, a missing key by the fallback; up to 2^30 partitions the pick lies in [0, n) |
| Partitioner.RoundRobinExactUpTo2To30 | src/partitioner.rs:88-89 | n <= 2^30 if and only if no counter overflows, if and only if every pick is the Euclidean remainder |
| Partitioner.PicksAdvance | src/partitioner.rs:88-89 | successive picks advance by one mod n, across the counter's wrap exactly when n divides 2^32 |
| Partitioner.RoundRobinIsFair | src/partitioner.rs:83-91 | in any run of picks with w wraps the partitions' shares differ by at most w + 1 |
| Partitioner.Fnv1a32 | src/partitioner.rs:50-57 | the loop computes the FNV-1a fold from the offset basis |
| Partitioner.XorIsBitwise | src/partitioner.rs:53 | each bit of the exclusive or is set exactly when the operands differ there |
| Partitioner.PublishedHashes | src/partitioner.rs:50-57 | the hashes of the empty string, of "a" and of "foobar" are the ones published for 32-bit FNV-1a |
| Partitioner.UnhashInverts | src/partitioner.rs:50-57 | for every byte string the hash is an invertible function of the state it starts from |
| Partitioner.OneByteApartNeverCollide | src/partitioner.rs:50-57 | keys of equal length that differ in exactly one byte never share a hash |
| TopicCreation.StepKeepsInv | src/broker_backend.rs:147-195 | every step of every thread keeps names unique, references published, acknowledged messages stored and counts conserved |
| TopicCreation.UndisturbedProduceIsBrokers | src/broker_backend.rs:147-195 | without interference one thread's steps have the effect of the broker's produce on all histories, and the sum of next offsets grows by one |
| TopicCreation.NoMessageLostToRecreation | src/broker_backend.rs:147-170 | in every interleaving each topic is created at most once, is never replaced, keeps every acknowledged message, each partition's history is as long as its number of acknowledged produces, and the sum of all next offsets is the number of successful produces |
| TopicCreation.ShutdownStopsNewCalls | src/broker_backend.rs:147-195 | once shut down, the backend stays so, and in every interleaving only the calls already under way can still succeed, each once |

## Left out

- Waiting and notification (`PartitionNotify`, `wait_for_messages`, `poll` with a timeout, `recv`): condition variables and wall-clock time; `poll_once` is modelled.
- Streams, sinks, futures and typed or serde wrappers: thin adapters. `append_typed` makes the same transition as `append`.
- The broker registry, configuration parsing, logging, context callbacks, headers, metadata of all topics beyond the partition counts.
- The `committed` and `position` queries of the consumer, and `assignment` of the group: they only list stored values.
- Custom backends, partitioners, assignors, offset stores and eviction policies; `RandomPartitioner`, which is seeded from the clock.
- Negative partition counts: a topic has a natural number of partitions; zero is included.
- 64-bit overflow of offsets, for example resuming from a committed i64::MAX, and of `start + max_count` in a batch read.
- Two threads polling or seeking the same consumer at once: the position is stored after the lock was released.
- The local assignments of earlier members after a join: the code does not refresh them, so nothing is claimed about exclusivity between consumers' local lists.
- Interleaving.OrderedAndNothingLostSilently: says nothing across a seek or a new assignment, or about the first delivery after a seek past the end, where the code replays from the oldest message.
- Broker.Broker.Produce: one call at a time; creation and append by many threads are the subject of TopicCreation, with an arbitrary choice of partition.
