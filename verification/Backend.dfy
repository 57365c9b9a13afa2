/** src/topic.rs and src/broker_backend.rs: the topics of the in-memory backend. */
module Backend {
  import opened Common
  import opened PartitionLog
  import opened Clusters
  import opened Partition

  /** A topic is fixed once created; only the partitions it refers to change. */
  datatype Topic = Topic(name: string, partitions: seq<Partition>)

  datatype PartitionMetadata = PartitionMetadata(id: int, oldestOffset: int, newestOffset: int, messageCount: int)

  datatype TopicMetadata = TopicMetadata(name: string, partitions: seq<PartitionMetadata>)

  /** Resolving a missing timestamp before the append changes nothing. */
  lemma ResolvingTimestampEarly(l: Log, config: Config, r: Record, clock: Clock)
    requires l.lo <= |l.all|
    ensures var ts := if r.timestamp.Some? then r.timestamp.value else clock.wall;
            l.Appended(config, r.(timestamp := Some(ts)), clock) == l.Appended(config, r, clock)
  {
    var ts := if r.timestamp.Some? then r.timestamp.value else clock.wall;
    assert l.Stamped(r.(timestamp := Some(ts)), clock) == l.Stamped(r, clock);
  }

  ghost function Describe(l: Log): PartitionMetadata
    requires l.lo <= |l.all|
  {
    PartitionMetadata(l.id, l.Oldest(), l.Newest(), |l.Retained()|)
  }

  /** The metadata counts what its own watermarks span, unless nothing is retained. */
  lemma MetadataSpansRetained(l: Log)
    requires l.Valid()
    ensures var meta := Describe(l);
            && meta.id == l.id && meta.messageCount == |l.Retained()|
            && meta.newestOffset + 1 == |l.all|
            && if meta.messageCount == 0 then meta.oldestOffset == 0
               else
                 && meta.oldestOffset == l.Retained()[0].offset
                 && meta.messageCount == meta.newestOffset - meta.oldestOffset + 1
  {
  }

  method NewTopic(name: string, numPartitions: nat, config: Config) returns (topic: Topic)
    ensures topic.name == name && |topic.partitions| == numPartitions
    ensures forall i | 0 <= i < numPartitions ::
              var p := topic.partitions[i];
              fresh(p) && p.Valid() && p.config == config && p.topicName == name && p.partitionId == i &&
              p.model == Log(name, i, [], 0)
  {
    var partitions: seq<Partition> := [];
    for id := 0 to numPartitions
      invariant |partitions| == id
      invariant forall i | 0 <= i < id ::
                  var p := partitions[i];
                  fresh(p) && p.Valid() && p.config == config && p.topicName == name && p.partitionId == i &&
                  p.model == Log(name, i, [], 0)
    {
      var p := new Partition(name, id, config);
      partitions := partitions + [p];
    }
    topic := Topic(name, partitions);
  }

  class InMemoryBackend {
    const config: Config
    var topics: map<string, Topic>
    var shutdown: bool
    /** What the partitions stand for. */
    ghost var model: Cluster

    ghost function Partitions(): set<Partition>
      reads this
    {
      set t, i | t in topics && 0 <= i < |topics[t].partitions| :: topics[t].partitions[i]
    }

    /** Partition `i` of topic `t` is where the model says and knows its own coordinates. */
    ghost predicate Holds(t: string, i: int, p: Partition)
      reads this, p
    {
      && HasPartition(model, TopicPartition(t, i))
      && p.Valid() && p.config == config && p.topicName == t && p.partitionId == i
      && p.model == model[t][i]
    }

    ghost predicate Valid()
      reads this, Partitions()
    {
      && model.Keys == topics.Keys && ClusterValid(model)
      && forall t | t in topics ::
           && topics[t].name == t && |topics[t].partitions| == |model[t]|
           && forall i | 0 <= i < |topics[t].partitions| :: Holds(t, i, topics[t].partitions[i])
    }

    constructor (config: Config)
      ensures Valid() && this.config == config && model == map[] && !shutdown && Partitions() == {}
    {
      this.config := config;
      topics := map[];
      shutdown := false;
      model := map[];
    }

    method EnsureTopic(topic: string, numPartitions: nat) returns (r: Result<()>)
      requires Valid()
      modifies this
      ensures Valid() && shutdown == old(shutdown) && fresh(Partitions() - old(Partitions()))
      ensures r == if shutdown then Err(BrokerShutdown) else Ok(())
      ensures model == if shutdown then old(model) else WithTopic(old(model), topic, numPartitions)
    {
      if shutdown {
        return Err(BrokerShutdown);
      }
      if topic in topics {
        return Ok(());
      }
      var created := NewTopic(topic, numPartitions, config);
      topics := topics[topic := created];
      model := model[topic := EmptyLogs(topic, numPartitions)];
      r := Ok(());
    }

    /** Appends to one partition of an existing topic. */
    method ProduceToTopic(topic: string, partition: int, record: Record, clock: Clock)
      returns (r: Result<(int, int)>)
      requires Valid() && topic in topics
      requires HasPartition(model, TopicPartition(topic, partition)) ==> model[topic][partition].Precedes(clock)
      modifies `model, Partitions()
      ensures Valid() && Partitions() == old(Partitions())
      ensures match Lookup(false, old(model), TopicPartition(topic, partition))
              case Ok(l) =>
                && r == Ok((partition, |l.all|))
                && model == AppendedTo(old(model), config, TopicPartition(topic, partition), record, clock)
              case Err(e) => r == Err(e) && model == old(model)
    {
      var partitions := topics[topic].partitions;
      if partition < 0 || partition >= |partitions| {
        return Err(PartitionOutOfRange(topic, partition));
      }
      var p := partitions[partition];
      assert Holds(topic, partition, p);
      ghost var before, k := model, TopicPartition(topic, partition);
      ghost var appended := p.model.Appended(config, record, clock);
      AppendedKeepsWindow(p.model, config, record, clock);
      WithLogGrows(before, k, appended);
      WithLogAt(before, k, appended);
      assert AppendedTo(before, config, k, record, clock) == WithLog(before, k, appended);
      hide Log.Appended, Log.Valid, Log.Precedes, ClusterValid, Grows, WithLog, AppendedTo;
      r := p.Append(record, clock);
      model := WithLog(before, k, appended);
      forall t, i | t in topics && 0 <= i < |topics[t].partitions|
        ensures Holds(t, i, topics[t].partitions[i])
      {
        assert old(Holds(t, i, topics[t].partitions[i]));
        assert t != topic || i != partition ==> topics[t].partitions[i] != p;
      }
    }

    method Produce(topic: string, partition: int, record: Record, clock: Clock)
      returns (r: Result<(int, int, int)>)
      requires Valid()
      requires HasPartition(model, TopicPartition(topic, partition)) ==> model[topic][partition].Precedes(clock)
      modifies `model, Partitions()
      ensures Valid() && Partitions() == old(Partitions())
      ensures match Lookup(shutdown, old(model), TopicPartition(topic, partition))
              case Ok(l) =>
                && r == Ok((partition, |l.all|, l.Stamped(record, clock).timestamp))
                && model == AppendedTo(old(model), config, TopicPartition(topic, partition), record, clock)
              case Err(e) => r == Err(e) && model == old(model)
    {
      hide Log.Appended, Log.Precedes, Holds;
      if shutdown {
        return Err(BrokerShutdown);
      }
      var ts := if record.timestamp.Some? then record.timestamp.value else clock.wall;
      if topic !in topics {
        return Err(TopicNotFound(topic));
      }
      if HasPartition(model, TopicPartition(topic, partition)) {
        ResolvingTimestampEarly(model[topic][partition], config, record, clock);
      }
      var result := ProduceToTopic(topic, partition, record.(timestamp := Some(ts)), clock);
      r := match result
        case Ok((id, offset)) => Ok((id, offset, ts))
        case Err(e) => Err(e);
    }

    method FetchOne(topic: string, partition: int, offset: int) returns (r: Result<Option<Message>>)
      requires Valid()
      ensures match Lookup(shutdown, model, TopicPartition(topic, partition))
              case Ok(l) => r == l.ReadOne(offset)
              case Err(e) => r == Err(e)
    {
      if shutdown {
        return Err(BrokerShutdown);
      }
      if topic !in topics {
        return Err(TopicNotFound(topic));
      }
      var partitions := topics[topic].partitions;
      if partition < 0 || partition >= |partitions| {
        return Err(PartitionOutOfRange(topic, partition));
      }
      assert Holds(topic, partition, partitions[partition]);
      r := partitions[partition].ReadOne(offset);
    }

    method Fetch(topic: string, partition: int, offset: int, maxCount: nat) returns (r: Result<seq<Message>>)
      requires Valid()
      ensures match Lookup(shutdown, model, TopicPartition(topic, partition))
              case Ok(l) => r == l.Read(offset, maxCount)
              case Err(e) => r == Err(e)
    {
      if shutdown {
        return Err(BrokerShutdown);
      }
      if topic !in topics {
        return Err(TopicNotFound(topic));
      }
      var partitions := topics[topic].partitions;
      if partition < 0 || partition >= |partitions| {
        return Err(PartitionOutOfRange(topic, partition));
      }
      assert Holds(topic, partition, partitions[partition]);
      r := partitions[partition].Read(offset, maxCount);
    }

    method Watermarks(topic: string, partition: int) returns (r: Result<(int, int)>)
      requires Valid()
      ensures match Lookup(shutdown, model, TopicPartition(topic, partition))
              case Ok(l) => r == Ok((l.Oldest(), l.Newest()))
              case Err(e) => r == Err(e)
    {
      if shutdown {
        return Err(BrokerShutdown);
      }
      if topic !in topics {
        return Err(TopicNotFound(topic));
      }
      var partitions := topics[topic].partitions;
      if partition < 0 || partition >= |partitions| {
        return Err(PartitionOutOfRange(topic, partition));
      }
      assert Holds(topic, partition, partitions[partition]);
      var oldest, newest := partitions[partition].Watermarks();
      r := Ok((oldest, newest));
    }

    method DescribeTopic(topic: Topic) returns (meta: TopicMetadata)
      requires Valid() && topic.name in topics && topics[topic.name] == topic
      ensures meta.name == topic.name && |meta.partitions| == |model[topic.name]|
      ensures forall i | 0 <= i < |meta.partitions| ::
                model[topic.name][i].Valid() && meta.partitions[i] == Describe(model[topic.name][i])
    {
      var partitions: seq<PartitionMetadata> := [];
      for i := 0 to |topic.partitions|
        invariant |partitions| == i
        invariant forall j | 0 <= j < i ::
                    model[topic.name][j].Valid() && partitions[j] == Describe(model[topic.name][j])
      {
        var p := topic.partitions[i];
        assert Holds(topic.name, i, p);
        var oldest, newest := p.Watermarks();
        var count := p.MessageCount();
        partitions := partitions + [PartitionMetadata(i, oldest, newest, count)];
      }
      meta := TopicMetadata(topic.name, partitions);
    }

    /** Metadata of one named topic. */
    method Metadata(topic: string) returns (r: Result<TopicMetadata>)
      requires Valid()
      ensures shutdown ==> r == Err(BrokerShutdown)
      ensures !shutdown && topic !in model ==> r == Err(TopicNotFound(topic))
      ensures !shutdown && topic in model ==>
                && r.Ok? && r.value.name == topic && |r.value.partitions| == |model[topic]|
                && forall i | 0 <= i < |model[topic]| ::
                     model[topic][i].Valid() && r.value.partitions[i] == Describe(model[topic][i])
    {
      if shutdown {
        return Err(BrokerShutdown);
      }
      if topic !in topics {
        return Err(TopicNotFound(topic));
      }
      var meta := DescribeTopic(topics[topic]);
      r := Ok(meta);
    }

    /** The name and partition count of every topic, as read off the metadata of all topics. */
    method PartitionCounts() returns (r: Result<map<string, nat>>)
      requires Valid()
      ensures r == if shutdown then Err(BrokerShutdown) else Ok(map t | t in model :: |model[t]|)
    {
      if shutdown {
        return Err(BrokerShutdown);
      }
      var counts := map t | t in topics :: |topics[t].partitions|;
      assert counts == map t | t in model :: |model[t]|;
      r := Ok(counts);
    }

    method Shutdown()
      requires Valid()
      modifies `shutdown
      ensures Valid() && shutdown
    {
      shutdown := true;
    }
  }
}
