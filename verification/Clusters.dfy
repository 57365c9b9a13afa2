/** All topics of the backend as a value: lookups, and what the operations do to the logs. */
module Clusters {
  import opened Common
  import opened PartitionLog

  type Cluster = map<string, seq<Log>>

  ghost predicate HasPartition(c: Cluster, k: TopicPartition) {
    k.topic in c && 0 <= k.partition < |c[k.topic]|
  }

  ghost function LogAt(c: Cluster, k: TopicPartition): Log
    requires HasPartition(c, k)
  {
    c[k.topic][k.partition]
  }

  ghost predicate ClusterValid(c: Cluster) {
    forall t, p | t in c && 0 <= p < |c[t]| :: c[t][p].Valid() && c[t][p].topic == t && c[t][p].id == p
  }

  /** The partition behind a key, or the error that looking it up reports. */
  ghost function Lookup(down: bool, c: Cluster, k: TopicPartition): Result<Log> {
    if down then Err(BrokerShutdown)
    else if k.topic !in c then Err(TopicNotFound(k.topic))
    else if k.partition < 0 || k.partition >= |c[k.topic]| then Err(PartitionOutOfRange(k.topic, k.partition))
    else Ok(c[k.topic][k.partition])
  }

  /** Lookups succeed exactly on existing partitions of a live backend, and say what is missing. */
  lemma LookupOutcome(down: bool, c: Cluster, k: TopicPartition)
    ensures match Lookup(down, c, k)
            case Ok(l) => !down && HasPartition(c, k) && l == LogAt(c, k)
            case Err(e) =>
              || (down && e == BrokerShutdown)
              || (!down && k.topic !in c && e == TopicNotFound(k.topic))
              || (!down && k.topic in c && !HasPartition(c, k) && e == PartitionOutOfRange(k.topic, k.partition))
  {
  }

  /** The clock does not run behind any partition. */
  ghost predicate AllPrecede(c: Cluster, clock: Clock) {
    clock.Monotone() && forall t, p | t in c && 0 <= p < |c[t]| :: c[t][p].Precedes(clock)
  }

  /** A later state of the same backend: topics stay, and every partition only extends. */
  ghost predicate Grows(c: Cluster, c': Cluster) {
    && ClusterValid(c')
    && forall k | HasPartition(c, k) :: HasPartition(c', k) && Extends(LogAt(c, k), LogAt(c', k))
  }

  lemma WindowsAreWithin(c: Cluster)
    requires ClusterValid(c)
    ensures forall t, p | t in c && 0 <= p < |c[t]| :: c[t][p].lo <= |c[t][p].all|
  {
  }

  // ---------------------------------------------------------------------------
  // Operations
  // ---------------------------------------------------------------------------

  ghost function EmptyLogs(topic: string, n: nat): seq<Log> {
    seq(n, i => Log(topic, i, [], 0))
  }

  /** An absent topic is created with `n` empty partitions, an existing one is left alone. */
  ghost function WithTopic(c: Cluster, topic: string, n: nat): Cluster {
    if topic in c then c else c[topic := EmptyLogs(topic, n)]
  }

  ghost function WithTopics(c: Cluster, topics: seq<string>, n: nat): Cluster {
    if topics == [] then c
    else WithTopic(WithTopics(c, topics[..|topics| - 1], n), topics[|topics| - 1], n)
  }

  ghost function WithLog(c: Cluster, k: TopicPartition, l: Log): Cluster
    requires HasPartition(c, k)
  {
    c[k.topic := c[k.topic][k.partition := l]]
  }

  /** One message was appended to an existing partition. */
  ghost function AppendedTo(c: Cluster, config: Config, k: TopicPartition, r: Record, clock: Clock): Cluster
    requires HasPartition(c, k) && LogAt(c, k).lo <= |LogAt(c, k).all|
  {
    WithLog(c, k, LogAt(c, k).Appended(config, r, clock))
  }

  /** The eviction policies were applied to an existing partition. */
  ghost function EvictedFrom(c: Cluster, config: Config, k: TopicPartition, clock: Clock): Cluster
    requires HasPartition(c, k) && LogAt(c, k).lo <= |LogAt(c, k).all|
  {
    WithLog(c, k, LogAt(c, k).Evicted(config, clock))
  }

  // ---------------------------------------------------------------------------
  // Every operation lets the cluster grow
  // ---------------------------------------------------------------------------

  lemma WithTopicKeeps(c: Cluster, topic: string, n: nat, clock: Clock)
    requires ClusterValid(c) && AllPrecede(c, clock)
    ensures ClusterValid(WithTopic(c, topic, n)) && AllPrecede(WithTopic(c, topic, n), clock)
  {
  }

  lemma SameGrows(c: Cluster)
    requires ClusterValid(c)
    ensures Grows(c, c)
  {
  }

  lemma GrowsTransitive(a: Cluster, b: Cluster, c: Cluster)
    requires Grows(a, b) && Grows(b, c)
    ensures Grows(a, c)
  {
    forall k | HasPartition(a, k) ensures HasPartition(c, k) && Extends(LogAt(a, k), LogAt(c, k)) {
      assert HasPartition(b, k) && Extends(LogAt(b, k), LogAt(c, k));
    }
  }

  lemma CreationGrows(c: Cluster, topic: string, n: nat)
    requires ClusterValid(c)
    ensures Grows(c, WithTopic(c, topic, n))
  {
  }

  lemma {:induction false} CreationsGrow(c: Cluster, topics: seq<string>, n: nat)
    requires ClusterValid(c)
    ensures Grows(c, WithTopics(c, topics, n))
    decreases |topics|
  {
    SameGrows(c);
    if topics != [] {
      var rest := topics[..|topics| - 1];
      CreationsGrow(c, rest, n);
      CreationGrows(WithTopics(c, rest, n), topics[|topics| - 1], n);
      GrowsTransitive(c, WithTopics(c, rest, n), WithTopics(c, topics, n));
    }
  }

  /** Creating topics adds the missing ones, each once, with `n` empty partitions, and touches no other. */
  lemma {:induction false} CreationsAddEmpty(c: Cluster, topics: seq<string>, n: nat, t: string)
    ensures var c' := WithTopics(c, topics, n);
            && (t in c' <==> t in c || t in topics)
            && (t in c ==> c'[t] == c[t])
            && (t in topics && t !in c ==> |c'[t]| == n && forall p | 0 <= p < n :: c'[t][p] == Log(t, p, [], 0))
    decreases |topics|
  {
    if topics != [] {
      var rest := topics[..|topics| - 1];
      CreationsAddEmpty(c, rest, n, t);
      assert topics == rest + [topics[|topics| - 1]];
    }
  }

  lemma WithLogGrows(c: Cluster, k: TopicPartition, l: Log)
    requires ClusterValid(c) && HasPartition(c, k) && l.Valid() && Extends(LogAt(c, k), l)
    ensures Grows(c, WithLog(c, k, l))
  {
    hide Log.Valid;
  }

  lemma WithLogAt(c: Cluster, k: TopicPartition, l: Log)
    requires HasPartition(c, k)
    ensures var c' := WithLog(c, k, l);
            && c'.Keys == c.Keys && (forall t | t in c :: |c'[t]| == |c[t]|)
            && forall t, p | t in c && 0 <= p < |c[t]| ::
                 c'[t][p] == if t == k.topic && p == k.partition then l else c[t][p]
  {
  }

  lemma ProduceGrows(c: Cluster, config: Config, k: TopicPartition, r: Record, clock: Clock)
    requires ClusterValid(c) && AllPrecede(c, clock) && HasPartition(c, k)
    ensures Grows(c, AppendedTo(c, config, k, r, clock))
  {
    AppendedKeepsWindow(LogAt(c, k), config, r, clock);
    WithLogGrows(c, k, LogAt(c, k).Appended(config, r, clock));
  }

  lemma EvictionGrows(c: Cluster, config: Config, k: TopicPartition, clock: Clock)
    requires ClusterValid(c) && HasPartition(c, k)
    ensures Grows(c, EvictedFrom(c, config, k, clock))
  {
    var l := LogAt(c, k);
    EvictingKeepsWindow(l, l.Evicted(config, clock).lo);
    WithLogGrows(c, k, l.Evicted(config, clock));
  }
}
