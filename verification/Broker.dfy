/** src/broker.rs: the broker over the in-memory backend, its consumer groups and offset store. */
module Broker {
  import opened Common
  import opened PartitionLog
  import opened Partition
  import opened Clusters
  import opened Backend
  import opened ConsumerGroup
  import opened Partitioner
  import Assignor
  import BrokerState
  import opened Draining

  /** The partitioners that ship with the broker and are modelled here. */
  datatype PartitionerChoice =
    | RoundRobin(roundRobin: RoundRobinPartitioner)
    | Consistent(consistent: ConsistentPartitioner)
  {
    function Counter(): RoundRobinPartitioner {
      if RoundRobin? then roundRobin else consistent.fallback
    }
  }

  datatype RecordMetadata = RecordMetadata(topic: string, partition: int, offset: int, timestamp: int)

  /** One message was appended at `k` and the metadata names it, or the lookup failed without change. */
  ghost predicate AppendResult(c: Cluster, c': Cluster, config: Config, k: TopicPartition,
                               record: Record, clock: Clock, r: Result<RecordMetadata>)
  {
    match Lookup(false, c, k)
    case Ok(l) =>
      && l.lo <= |l.all|
      && r == Ok(RecordMetadata(k.topic, k.partition, |l.all|, l.Stamped(record, clock).timestamp))
      && c' == AppendedTo(c, config, k, record, clock)
    case Err(e) => r == Err(e) && c' == c
  }

  /** The record was appended to partition `p` of its topic, if there is one, and nowhere else. */
  ghost predicate WentTo(c: Cluster, c': Cluster, config: Config, topic: string, p: int,
                         record: Record, clock: Clock, r: Result<RecordMetadata>)
  {
    && topic in c && c'.Keys == c.Keys
    && (forall k | HasPartition(c, k) && k != TopicPartition(topic, p) ::
          HasPartition(c', k) && LogAt(c', k) == LogAt(c, k))
    && if 0 <= p < |c[topic]| then
         var l := c[topic][p];
         && HasPartition(c', TopicPartition(topic, p))
         && l.lo <= |l.all| && c'[topic][p] == l.Appended(config, record, clock)
         && c'[topic][p].all == l.all + [l.Stamped(record, clock)]
         && r == Ok(RecordMetadata(topic, p, |l.all|, l.Stamped(record, clock).timestamp))
       else
         r == Err(PartitionOutOfRange(topic, p)) && c' == c
  }

  /**
    A chosen partition is used as it is; otherwise a consistent partitioner routes a key by its
    hash, and all else goes in turn, which alone advances the counter.
  */
  ghost predicate Routed(consistent: bool, counter: int32, counter': int32, c: Cluster, c': Cluster, config: Config,
                         topic: string, partition: Option<int>, record: Record, clock: Clock,
                         r: Result<RecordMetadata>)
    requires topic in c
  {
    var n := |c[topic]|;
    if partition.Some? then
      WentTo(c, c', config, topic, partition.value, record, clock, r) && counter' == counter
    else if n == 0 then
      r == Err(PartitionOutOfRange(topic, 0)) && c' == c && counter' == counter
    else if consistent && record.key.Some? then
      && WentTo(c, c', config, topic, Fnv(OFFSET_BASIS, record.key.value) % n, record, clock, r)
      && counter' == counter
    else
      && counter' == Wrap32(counter + 1)
      && (n <= 0x4000_0000 ==> WentTo(c, c', config, topic, counter % n, record, clock, r))
  }

  lemma AppendWentTo(c: Cluster, c': Cluster, config: Config, k: TopicPartition,
                     record: Record, clock: Clock, r: Result<RecordMetadata>)
    requires k.topic in c && AppendResult(c, c', config, k, record, clock, r)
    ensures WentTo(c, c', config, k.topic, k.partition, record, clock, r)
  {
    if HasPartition(c, k) {
      WithLogAt(c, k, LogAt(c, k).Appended(config, record, clock));
    }
  }

  /** What the partitioner picks among `n` partitions. */
  function Choice(consistent: bool, counter: int32, key: Option<Bytes>, n: int32): int
    requires n > 0
  {
    if consistent && key.Some? then Fnv(OFFSET_BASIS, key.value) % n else Pick(counter, n)
  }

  /** The partition a record goes to in a topic of `n` partitions. */
  function Target(consistent: bool, counter: int32, partition: Option<int>, key: Option<Bytes>, n: int32): int {
    if partition.Some? then partition.value else if n <= 0 then 0 else Choice(consistent, counter, key, n)
  }

  /** The round-robin counter advances when, and only when, it is what picks the partition. */
  function CounterAfter(consistent: bool, counter: int32, partition: Option<int>, key: Option<Bytes>, n: int32): int32 {
    if partition.Some? || n <= 0 || (consistent && key.Some?) then counter else Wrap32(counter + 1)
  }

  lemma TargetIsRouted(consistent: bool, counter: int32, c: Cluster, c': Cluster, config: Config, topic: string,
                       partition: Option<int>, record: Record, clock: Clock, r: Result<RecordMetadata>)
    requires topic in c && |c[topic]| <= MAX_I32
    requires var p := Target(consistent, counter, partition, record.key, |c[topic]|);
             AppendResult(c, c', config, TopicPartition(topic, p), record, clock, r)
    ensures var counter' := CounterAfter(consistent, counter, partition, record.key, |c[topic]|);
            Routed(consistent, counter, counter', c, c', config, topic, partition, record, clock, r)
  {
    var n := |c[topic]|;
    var p := Target(consistent, counter, partition, record.key, n);
    AppendWentTo(c, c', config, TopicPartition(topic, p), record, clock, r);
    if 0 < n <= 0x4000_0000 {
      PickSmall(counter, n);
    }
    hide AppendedTo, Fnv, Pick, Wrap32;
  }

  class Broker {
    const backend: InMemoryBackend
    const defaultNumPartitions: nat
    const partitioner: PartitionerChoice
    var groups: map<string, ConsumerGroup>
    var shutdown: bool
    /** The shared offset store, by group and partition. */
    var offsets: map<(string, TopicPartition), int>

    ghost function GroupObjects(): set<ConsumerGroup>
      reads this
    {
      set g | g in groups :: groups[g]
    }

    ghost predicate Valid()
      reads this, backend, backend.Partitions(), GroupObjects()
    {
      && backend.Valid()
      && forall g | g in groups :: groups[g].Valid() && groups[g].groupId == g
    }

    /** The broker as the value that BrokerState reasons about. */
    ghost function State(): BrokerState.State
      reads this, backend
    {
      BrokerState.State(shutdown, backend.shutdown, backend.model, groups.Keys, offsets)
    }

    constructor (config: Config, defaultNumPartitions: nat, partitioner: PartitionerChoice)
      ensures Valid() && fresh(backend) && this.partitioner == partitioner
      ensures this.defaultNumPartitions == defaultNumPartitions
      ensures State() == BrokerState.State(false, false, map[], {}, map[])
    {
      backend := new InMemoryBackend(config);
      this.defaultNumPartitions := defaultNumPartitions;
      this.partitioner := partitioner;
      groups := map[];
      shutdown := false;
      offsets := map[];
    }

    // -------------------------------------------------------------------------
    // Produce
    // -------------------------------------------------------------------------

    method ChoosePartition(key: Option<Bytes>, n: int32) returns (p: int)
      modifies partitioner.Counter()
      ensures n <= 0 ==> p == 0
      ensures n > 0 ==> p == Choice(partitioner.Consistent?, old(partitioner.Counter().counter), key, n)
      ensures 0 < n <= 0x4000_0000 ==> 0 <= p < n
      ensures partitioner.Counter().counter ==
              CounterAfter(partitioner.Consistent?, old(partitioner.Counter().counter), None, key, n)
    {
      match partitioner {
        case RoundRobin(rr) => p := rr.Partition(key, n);
        case Consistent(c) => p := c.Partition(key, n);
      }
    }

    /** The part of Produce that follows the creation of the topic. */
    method ProduceToExisting(topic: string, partition: Option<int>, record: Record, clock: Clock)
      returns (r: Result<RecordMetadata>)
      requires backend.Valid() && AllPrecede(backend.model, clock) && topic in backend.model
      requires |backend.model[topic]| <= MAX_I32
      modifies backend`model, backend.Partitions(), partitioner.Counter()
      ensures backend.Valid() && backend.Partitions() == old(backend.Partitions())
      ensures backend.shutdown ==> r == Err(BrokerShutdown) && backend.model == old(backend.model)
      ensures !backend.shutdown ==>
                var consistent, counter := partitioner.Consistent?, old(partitioner.Counter().counter);
                var n := |old(backend.model)[topic]|;
                && AppendResult(old(backend.model), backend.model, backend.config,
                                TopicPartition(topic, Target(consistent, counter, partition, record.key, n)),
                                record, clock, r)
                && partitioner.Counter().counter == CounterAfter(consistent, counter, partition, record.key, n)
                && (partition.None? && 0 < n <= 0x4000_0000 ==> r.Ok?)
    {
      WindowsAreWithin(backend.model);
      hide Log.Appended, Log.Stamped, Log.Valid, Log.Precedes, Pick, Fnv, InMemoryBackend.Holds, AppendedTo;
      var meta := backend.Metadata(topic);
      if meta.Err? {
        return Err(meta.error);
      }
      var numP := |meta.value.partitions|;
      var p;
      if partition.Some? {
        p := partition.value;
      } else {
        p := ChoosePartition(record.key, numP);
      }
      var produced := backend.Produce(topic, p, record, clock);
      r := match produced
        case Ok((id, offset, ts)) => Ok(RecordMetadata(topic, id, offset, ts))
        case Err(e) => Err(e);
    }

    /** Produce behind the shutdown check. */
    method ProduceEnsured(topic: string, partition: Option<int>, record: Record, clock: Clock)
      returns (r: Result<RecordMetadata>)
      requires backend.Valid() && AllPrecede(backend.model, clock)
      requires defaultNumPartitions <= MAX_I32
      requires forall t | t in backend.model :: |backend.model[t]| <= MAX_I32
      modifies backend, backend.Partitions(), partitioner.Counter()
      ensures backend.Valid() && backend.shutdown == old(backend.shutdown)
      ensures Grows(old(backend.model), backend.model)
      ensures backend.shutdown ==> r == Err(BrokerShutdown) && backend.model == old(backend.model)
      ensures !backend.shutdown ==>
                var c := WithTopic(old(backend.model), topic, defaultNumPartitions);
                && CountsOf(backend.model) == Ensured(CountsOf(old(backend.model)), [topic], defaultNumPartitions)
                && Routed(partitioner.Consistent?, old(partitioner.Counter().counter), partitioner.Counter().counter,
                          c, backend.model, backend.config, topic, partition, record, clock, r)
                && (partition.None? && 0 < |c[topic]| <= 0x4000_0000 ==> r.Ok?)
    {
      WithTopicKeeps(backend.model, topic, defaultNumPartitions, clock);
      SameGrows(backend.model);
      ghost var before, c := backend.model, WithTopic(backend.model, topic, defaultNumPartitions);
      ghost var counter := partitioner.Counter().counter;
      hide Log.Valid, Log.Precedes, InMemoryBackend.Valid, AppendResult, Routed, Target, CounterAfter, WithTopic,
        Grows, CountsOf;
      var ensured := backend.EnsureTopic(topic, defaultNumPartitions);
      if ensured.Err? {
        return Err(ensured.error);
      }
      r := ProduceToExisting(topic, partition, record, clock);
      if !backend.shutdown {
        TargetIsRouted(partitioner.Consistent?, counter, c, backend.model, backend.config,
                       topic, partition, record, clock, r);
        ProduceOutcome(before, backend.model, backend.config, defaultNumPartitions,
                       TopicPartition(topic, Target(partitioner.Consistent?, counter, partition, record.key, |c[topic]|)),
                       record, clock, r);
      }
    }

    /**
      Ensures the topic and appends to the chosen partition, or to the one the partitioner picks.
      Without a chosen partition, on a live broker and with 1 to 2^30 partitions, it succeeds;
      exactly one partition grows, by one message, and the metadata names its offset. Consumer
      groups only see that the topic may have been created.
    */
    method Produce(topic: string, partition: Option<int>, record: Record, clock: Clock)
      returns (r: Result<RecordMetadata>)
      requires Valid() && AllPrecede(backend.model, clock)
      requires defaultNumPartitions <= MAX_I32
      requires forall t | t in backend.model :: |backend.model[t]| <= MAX_I32
      modifies backend, backend.Partitions(), partitioner.Counter()
      ensures Valid()
      ensures State() == old(State()).(topics := backend.model) && Grows(old(backend.model), backend.model)
      ensures shutdown || backend.shutdown ==> r == Err(BrokerShutdown) && State() == old(State())
      ensures !shutdown && !backend.shutdown ==>
                var c := WithTopic(old(backend.model), topic, defaultNumPartitions);
                && Routed(partitioner.Consistent?, old(partitioner.Counter().counter), partitioner.Counter().counter,
                          c, backend.model, backend.config, topic, partition, record, clock, r)
                && (partition.None? && 0 < |c[topic]| <= 0x4000_0000 ==> r.Ok?)
      ensures !shutdown && !backend.shutdown ==>
                forall g | g in groups ::
                  OnlyCreates(old(WorldOf(g)), [topic], defaultNumPartitions, WorldOf(g))
    {
      SameGrows(backend.model);
      hide Log.Valid, Log.Precedes, InMemoryBackend.Holds, Grows, CountsOf, Ensured, WithTopic, OnlyCreates, Routed;
      if shutdown {
        return Err(BrokerShutdown);
      }
      hide InMemoryBackend.Partitions;
      r := ProduceEnsured(topic, partition, record, clock);
      assert unchanged(GroupObjects());
      if !backend.shutdown {
        forall g | g in groups ensures OnlyCreates(old(WorldOf(g)), [topic], defaultNumPartitions, WorldOf(g)) {
          CreationOnly(old(WorldOf(g)), [topic], defaultNumPartitions, WorldOf(g));
        }
      }
    }

    // -------------------------------------------------------------------------
    // Fetch
    // -------------------------------------------------------------------------

    method InitialOffset(k: TopicPartition, group: Option<string>) returns (r: Result<int>)
      requires Valid()
      ensures r == State().StartOffset(k, None, group)
    {
      if group.Some? && group.value in groups && (group.value, k) in offsets {
        return Ok(offsets[(group.value, k)] + 1);
      }
      var marks := backend.Watermarks(k.topic, k.partition);
      r := match marks
        case Ok((oldest, _)) => Ok(oldest)
        case Err(e) => Err(e);
    }

    method FetchOneFromPosition(k: TopicPartition, position: Option<int>, group: Option<string>)
      returns (r: Result<Option<Message>>)
      requires Valid()
      ensures r == State().Fetch(k, position, group)
    {
      hide Log.ReadOne, Log.Oldest, Log.Valid;
      if shutdown {
        return Err(BrokerShutdown);
      }
      var offset;
      if position.Some? {
        offset := position.value;
      } else {
        var start := InitialOffset(k, group);
        if start.Err? {
          return Err(start.error);
        }
        offset := start.value;
      }
      r := backend.FetchOne(k.topic, k.partition, offset);
      if r.Err? && r.error.OffsetOutOfRange? {
        var marks := backend.Watermarks(k.topic, k.partition);
        r := match marks
          case Ok((oldest, _)) => Err(OffsetOutOfRange(k.topic, k.partition, oldest))
          case Err(e) => Err(e);
      }
    }

    method Watermarks(k: TopicPartition) returns (r: Result<(int, int)>)
      requires Valid()
      ensures match State().Find(k)
              case Ok(l) => r == Ok((l.Oldest(), l.Newest()))
              case Err(e) => r == Err(e)
    {
      r := backend.Watermarks(k.topic, k.partition);
    }

    method Metadata(topic: string) returns (r: Result<TopicMetadata>)
      requires Valid()
      ensures shutdown || backend.shutdown ==> r == Err(BrokerShutdown)
      ensures !shutdown && !backend.shutdown && topic !in backend.model ==> r == Err(TopicNotFound(topic))
      ensures !shutdown && !backend.shutdown && topic in backend.model ==>
                && r.Ok? && r.value.name == topic && |r.value.partitions| == |backend.model[topic]|
                && forall i | 0 <= i < |r.value.partitions| :: r.value.partitions[i].id == i
    {
      if shutdown {
        return Err(BrokerShutdown);
      }
      r := backend.Metadata(topic);
    }

    // -------------------------------------------------------------------------
    // Groups and committed offsets
    // -------------------------------------------------------------------------

    /** What whole runs of a group are about: the partition counts and this group's state. */
    ghost function WorldOf(group: string): World
      reads this, backend, GroupObjects()
    {
      World(CountsOf(backend.model),
            if group in groups then groups[group].memberTopics else map[],
            if group in groups then groups[group].assignments else map[])
    }

    ghost function GroupObject(group: string): set<ConsumerGroup>
      reads this
    {
      if group in groups then {groups[group]} else {}
    }

    method EnsureTopics(topics: seq<string>) returns (r: Result<()>)
      requires backend.Valid()
      modifies backend
      ensures backend.Valid() && fresh(backend.Partitions() - old(backend.Partitions()))
      ensures backend.shutdown == old(backend.shutdown)
      ensures r == if backend.shutdown && topics != [] then Err(BrokerShutdown) else Ok(())
      ensures backend.model ==
              if backend.shutdown then old(backend.model)
              else WithTopics(old(backend.model), topics, defaultNumPartitions)
    {
      hide InMemoryBackend.Valid, WithTopic;
      for i := 0 to |topics|
        invariant backend.Valid() && fresh(backend.Partitions() - old(backend.Partitions()))
        invariant backend.shutdown == old(backend.shutdown) && (backend.shutdown ==> i == 0)
        invariant backend.model == WithTopics(old(backend.model), topics[..i], defaultNumPartitions)
      {
        assert topics[..i + 1][..i] == topics[..i];
        var ensured := backend.EnsureTopic(topics[i], defaultNumPartitions);
        if ensured.Err? {
          return Err(ensured.error);
        }
      }
      assert topics[..|topics|] == topics;
      r := Ok(());
    }

    /** The partition counts of the given topics only. */
    method CountsFor(topics: seq<string>) returns (r: Result<Assignor.Counts>)
      requires backend.Valid()
      ensures r == if backend.shutdown then Err(BrokerShutdown) else Ok(Restrict(CountsOf(backend.model), topics))
    {
      var meta := backend.PartitionCounts();
      if meta.Err? {
        return Err(meta.error);
      }
      var counts: Assignor.Counts := map[];
      for i := 0 to |topics|
        invariant counts == Restrict(meta.value, topics[..i])
      {
        if topics[i] in meta.value {
          counts := counts[topics[i] := meta.value[topics[i]]];
        }
        assert topics[..i + 1] == topics[..i] + [topics[i]];
      }
      assert topics[..|topics|] == topics;
      r := Ok(counts);
    }

    method GetOrCreateGroup(group: string)
      requires Valid()
      modifies `groups
      ensures Valid() && group in groups && WorldOf(group) == old(WorldOf(group))
      ensures groups == old(groups) ||
              (group !in old(groups) && fresh(groups[group]) && groups == old(groups)[group := groups[group]])
    {
      hide CountsOf, Log.Valid, InMemoryBackend.Holds;
      if group !in groups {
        var created := new ConsumerGroup(group);
        groups := groups[group := created];
        assert forall g | g in groups && g != group :: g in old(groups) && groups[g] == old(groups)[g];
      }
    }

    /** The part of JoinGroup that follows the creation of missing topics. */
    method JoinWithTopics(group: string, memberId: string, topics: seq<string>)
      returns (r: Result<seq<TopicPartition>>)
      requires Valid()
      modifies this`groups, GroupObject(group)
      ensures Valid()
      ensures backend.shutdown ==> r == Err(BrokerShutdown)
      ensures !backend.shutdown ==>
                && WorldOf(group).topics == old(WorldOf(group).topics)
                && WorldOf(group).subs == old(WorldOf(group).subs)[memberId := topics]
                && Assignor.IsAssignment(
                     WorldOf(group).subs, Restrict(CountsOf(backend.model), topics), WorldOf(group).assignments)
                && group in groups && memberId in groups[group].assignments
                && r == Ok(groups[group].assignments[memberId])
      ensures groups == old(groups) ||
              (group !in old(groups) && group in groups && fresh(groups[group]) &&
               groups == old(groups)[group := groups[group]])
      ensures forall g | g in groups && g != group :: g in old(groups) && WorldOf(g) == old(WorldOf(g))
    {
      hide InMemoryBackend.Holds, Log.Valid, CountsOf, Restrict, Assignor.IsAssignment;
      GetOrCreateGroup(group);
      var counts := CountsFor(topics);
      if counts.Err? {
        return Err(counts.error);
      }
      r := groups[group].Join(memberId, topics, counts.value);
    }

    /** Creates missing topics, joins, and rebalances over the joiner's topics only. */
    method JoinGroup(group: string, memberId: string, topics: seq<string>)
      returns (r: Result<seq<TopicPartition>>)
      requires Valid()
      modifies this`groups, backend, GroupObject(group)
      ensures Valid() && fresh(backend.Partitions() - old(backend.Partitions()))
      ensures State() == old(State()).(topics := backend.model, groups := groups.Keys)
      ensures backend.model ==
              if shutdown || backend.shutdown then old(backend.model)
              else WithTopics(old(backend.model), topics, defaultNumPartitions)
      ensures Grows(old(backend.model), backend.model)
      ensures shutdown ==> r == Err(BrokerShutdown) && groups == old(groups)
      ensures backend.shutdown ==> r == Err(BrokerShutdown)
      ensures !shutdown && !backend.shutdown ==>
                && Step(defaultNumPartitions, old(WorldOf(group)), Joined(memberId, topics), WorldOf(group))
                && group in groups && memberId in groups[group].assignments
                && r == Ok(groups[group].assignments[memberId])
      ensures groups == old(groups) ||
              (group !in old(groups) && group in groups && fresh(groups[group]) &&
               groups == old(groups)[group := groups[group]])
      ensures !shutdown && !backend.shutdown ==>
                forall g | g in groups && g != group ::
                  g in old(groups) && OnlyCreates(old(WorldOf(g)), topics, defaultNumPartitions, WorldOf(g))
    {
      SameGrows(backend.model);
      CreationsGrow(backend.model, topics, defaultNumPartitions);
      CountsWithTopics(backend.model, topics, defaultNumPartitions);
      hide InMemoryBackend.Holds, Log.Valid, CountsOf, Ensured, Restrict, Assignor.IsAssignment, Grows, WithTopics;
      if shutdown {
        return Err(BrokerShutdown);
      }
      var ensured := EnsureTopics(topics);
      if ensured.Err? {
        return Err(ensured.error);
      }
      r := JoinWithTopics(group, memberId, topics);
    }

    /** Leaves, and rebalances the remaining members over all topics. */
    method LeaveGroup(group: string, memberId: string) returns (r: Result<()>)
      requires Valid()
      modifies GroupObject(group)
      ensures Valid()
      ensures shutdown ==> r == Err(BrokerShutdown)
      ensures !shutdown && group !in groups ==> r == Err(GroupNotFound(group))
      ensures !shutdown && group in groups && backend.shutdown ==> r == Err(BrokerShutdown)
      ensures r.Err? ==> WorldOf(group) == old(WorldOf(group))
      ensures r.Ok? <==> !shutdown && group in groups && !backend.shutdown
      ensures State() == old(State()) && Grows(old(backend.model), backend.model)
      ensures r.Ok? ==> Step(defaultNumPartitions, old(WorldOf(group)), Left(memberId), WorldOf(group))
    {
      SameGrows(backend.model);
      hide Grows;
      if shutdown {
        return Err(BrokerShutdown);
      }
      if group !in groups {
        return Err(GroupNotFound(group));
      }
      var counts := backend.PartitionCounts();
      if counts.Err? {
        return Err(counts.error);
      }
      r := groups[group].Leave(memberId, counts.value);
    }

    method CommitOffset(group: string, k: TopicPartition, offset: int) returns (r: Result<()>)
      requires Valid()
      modifies `offsets
      ensures Valid()
      ensures r == if shutdown then Err(BrokerShutdown)
                   else if group !in groups then Err(GroupNotFound(group))
                   else Ok(())
      ensures State() == if r.Ok? then AfterCommit(old(State()), group, k, offset) else old(State())
      ensures Grows(old(State()).topics, State().topics)
    {
      SameGrows(backend.model);
      hide Grows;
      if shutdown {
        return Err(BrokerShutdown);
      }
      if group !in groups {
        return Err(GroupNotFound(group));
      }
      offsets := offsets[(group, k) := offset];
      r := Ok(());
    }

    method CommittedOffset(group: string, k: TopicPartition) returns (r: Result<Option<int>>)
      requires Valid()
      ensures r == Committed(State(), group, k)
    {
      if shutdown {
        return Err(BrokerShutdown);
      }
      if group !in groups {
        return Err(GroupNotFound(group));
      }
      r := Ok(if (group, k) in offsets then Some(offsets[(group, k)]) else None);
    }

    method Shutdown()
      requires Valid()
      modifies `shutdown, backend`shutdown
      ensures Valid()
      ensures State() == old(State()).(down := true, backendDown := true)
    {
      shutdown := true;
      backend.Shutdown();
    }
  }

  ghost function CountsOf(c: Cluster): Assignor.Counts {
    map t | t in c :: |c[t]|
  }

  /** Whatever the outcome of a produce, the cluster grows and at most one topic is created. */
  lemma ProduceOutcome(c: Cluster, c': Cluster, config: Config, n: nat, k: TopicPartition,
                       record: Record, clock: Clock, r: Result<RecordMetadata>)
    requires ClusterValid(c) && AllPrecede(c, clock)
    requires AppendResult(WithTopic(c, k.topic, n), c', config, k, record, clock, r)
    ensures Grows(c, c') && CountsOf(c') == Ensured(CountsOf(c), [k.topic], n)
  {
    var ensured := WithTopic(c, k.topic, n);
    WithTopicKeeps(c, k.topic, n, clock);
    CreationGrows(c, k.topic, n);
    CountsWithTopic(c, k.topic, n);
    if c' != ensured {
      ProduceGrows(ensured, config, k, record, clock);
      GrowsTransitive(c, ensured, c');
      assert CountsOf(c') == CountsOf(ensured);
    }
  }

  lemma CountsWithTopic(c: Cluster, topic: string, n: nat)
    ensures CountsOf(WithTopic(c, topic, n)) == Ensured(CountsOf(c), [topic], n)
  {
    assert topic !in c ==> |EmptyLogs(topic, n)| == n;
    hide EmptyLogs;
  }

  lemma {:induction false} CountsWithTopics(c: Cluster, topics: seq<string>, n: nat)
    ensures CountsOf(WithTopics(c, topics, n)) == Ensured(CountsOf(c), topics, n)
    decreases |topics|
  {
    if topics == [] {
      assert Ensured(CountsOf(c), topics, n) == CountsOf(c);
    } else {
      var rest, last := topics[..|topics| - 1], topics[|topics| - 1];
      CountsWithTopics(c, rest, n);
      CountsWithTopic(WithTopics(c, rest, n), last, n);
      EnsuredConcat(CountsOf(c), rest, last, n);
      assert topics == rest + [last];
    }
  }

  lemma EnsuredConcat(before: Assignor.Counts, names: seq<string>, topic: string, n: nat)
    ensures Ensured(Ensured(before, names, n), [topic], n) == Ensured(before, names + [topic], n)
  {
  }
}
