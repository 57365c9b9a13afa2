/** src/base_consumer.rs: the consumer's state, updated in place, over a broker. */
module BaseConsumer {
  import opened Common
  import opened PartitionLog
  import opened BrokerState
  import opened Polling
  import opened Draining
  import opened Clusters
  import opened Backend
  import opened Broker
  import opened ConsumerGroup
  import opened Assignor

  /** All partitions of the topics that exist, in the order the topics are named. */
  ghost function AllPartitions(s: State, topics: seq<string>): seq<TopicPartition> {
    if topics == [] then []
    else
      var last := topics[|topics| - 1];
      AllPartitions(s, topics[..|topics| - 1]) +
      if s.Live() && last in s.topics then seq(|s.topics[last]|, p => TopicPartition(last, p)) else []
  }

  /** It holds each partition of each existing named topic as often as the topic is named, and no other. */
  lemma {:induction false} AllPartitionsOfNamed(s: State, topics: seq<string>, k: TopicPartition)
    ensures multiset(AllPartitions(s, topics))[k] ==
            if s.Live() && HasPartition(s.topics, k) then multiset(topics)[k.topic] else 0
    decreases |topics|
  {
    if topics != [] {
      var rest, last := topics[..|topics| - 1], topics[|topics| - 1];
      AllPartitionsOfNamed(s, rest, k);
      assert topics == rest + [last];
      if s.Live() && last in s.topics {
        var part := seq(|s.topics[last]|, p => TopicPartition(last, p));
        assert AllPartitions(s, topics) == AllPartitions(s, rest) + part;
        OccursOnce(part, k);
        assert HasPartition(s.topics, k) && k.topic == last ==> part[k.partition] == k;
      }
    }
  }

  /** With distinct names, a partition is assigned exactly when it exists and is named, and then once. */
  lemma AllPartitionsIff(s: State, topics: seq<string>, k: TopicPartition)
    ensures k in AllPartitions(s, topics) <==> s.Live() && HasPartition(s.topics, k) && k.topic in topics
    ensures NoDuplicates(topics) && k in AllPartitions(s, topics) ==> multiset(AllPartitions(s, topics))[k] == 1
  {
    AllPartitionsOfNamed(s, topics, k);
    if NoDuplicates(topics) {
      OccursOnce(topics, k.topic);
    }
    assert k in AllPartitions(s, topics) <==> k in multiset(AllPartitions(s, topics));
    assert k.topic in topics <==> k.topic in multiset(topics);
  }

  /** The broker after committing a list in order; entries without a plain offset are skipped. */
  ghost function CommitAll(s: State, group: string, entries: seq<(TopicPartition, Offset)>): State {
    if entries == [] then s
    else
      var rest := CommitAll(s, group, entries[..|entries| - 1]);
      var (k, o) := entries[|entries| - 1];
      if o.At? then AfterCommit(rest, group, k, o.offset) else rest
  }

  /** Entry `i` is the last one with a plain offset for `k`. */
  ghost predicate LastPlain(entries: seq<(TopicPartition, Offset)>, k: TopicPartition, i: int) {
    && 0 <= i < |entries| && entries[i].0 == k && entries[i].1.At?
    && forall j | i < j < |entries| && entries[j].0 == k :: !entries[j].1.At?
  }

  /** Each partition's committed offset becomes its last plain entry, and stays if it has none. */
  lemma {:induction false} CommitAllKeepsLast(s: State, group: string, entries: seq<(TopicPartition, Offset)>,
                                              g: string, k: TopicPartition)
    ensures var s' := CommitAll(s, group, entries);
            && s' == s.(offsets := s'.offsets)
            && (forall i | LastPlain(entries, k, i) ::
                  (group, k) in s'.offsets && s'.offsets[(group, k)] == entries[i].1.offset)
            && (g != group || (forall i | 0 <= i < |entries| && entries[i].0 == k :: !entries[i].1.At?) ==>
                  ((g, k) in s'.offsets <==> (g, k) in s.offsets) &&
                  ((g, k) in s.offsets ==> s'.offsets[(g, k)] == s.offsets[(g, k)]))
    decreases |entries|
  {
    if entries != [] {
      var n := |entries| - 1;
      CommitAllKeepsLast(s, group, entries[..n], g, k);
      forall i | LastPlain(entries, k, i) && i < n
        ensures LastPlain(entries[..n], k, i) && !(entries[n].0 == k && entries[n].1.At?)
      {
      }
    }
  }

  class BaseConsumer {
    const broker: Broker
    const groupId: Option<string>
    const memberId: string
    var subscribedTopics: seq<string>
    var assignment: seq<TopicPartition>
    var position: map<TopicPartition, int>
    var paused: set<TopicPartition>
    var pollStart: nat

    /** The consumer as the value that Polling reasons about. */
    ghost function View(): Consumer
      reads this
    {
      Consumer(groupId, assignment, position, paused, pollStart)
    }

    constructor (broker: Broker, groupId: Option<string>, memberId: string)
      ensures this.broker == broker && this.groupId == groupId && this.memberId == memberId
      ensures View() == Consumer(groupId, [], map[], {}, 0) && subscribedTopics == []
    {
      this.broker := broker;
      this.groupId := groupId;
      this.memberId := memberId;
      subscribedTopics := [];
      assignment := [];
      position := map[];
      paused := {};
      pollStart := 0;
    }

    /** One rotating scan over the assignment, while nobody else changes the broker. */
    method PollOnce() returns (r: Outcome)
      requires broker.Valid()
      modifies `position, `pollStart
      ensures (r, View()) == Polling.PollOnce(Frozen(broker.State()), old(View()))
    {
      hide Visit.Fetch, State.Find, Log.Valid, InMemoryBackend.Holds, ClusterValid;
      var n := |assignment|;
      var start := if n > 0 then pollStart % n else 0;
      if n == 0 {
        return None;
      }
      ghost var bs := Frozen(broker.State());
      for i := 0 to n
        invariant assignment == old(assignment) && pollStart == old(pollStart)
        invariant Scan(bs, View(), start, i) == Scan(bs, old(View()), start, 0)
      {
        var idx := ScanIndex(start, i, n);
        var k := assignment[idx];
        if k in paused {
          continue;
        }
        var fetched := broker.FetchOneFromPosition(k, if k in position then Some(position[k]) else None, groupId);
        match fetched {
          case Ok(Some(msg)) =>
            position := position[k := msg.offset + 1];
            pollStart := idx + 1;
            return Some(Ok(msg));
          case Ok(None) =>
          case Err(OffsetOutOfRange(_, _, offset)) =>
            position := position[k := offset];
          case Err(TopicNotFound(_)) =>
          case Err(PartitionOutOfRange(_, _)) =>
          case Err(e) =>
            return Some(Err(e));
        }
      }
      r := None;
    }

    method Seek(k: TopicPartition, to: Offset) returns (r: Result<()>)
      requires broker.Valid()
      modifies `position
      ensures match SeekTarget(broker.State(), groupId, k, to)
              case Ok(v) => r == Ok(()) && View() == MoveTo(old(View()), k, v)
              case Err(e) => r == Err(e) && View() == old(View())
    {
      var target;
      match to {
        case Beginning =>
          var marks := broker.Watermarks(k);
          if marks.Err? {
            return Err(marks.error);
          }
          target := marks.value.0;
        case End =>
          var marks := broker.Watermarks(k);
          if marks.Err? {
            return Err(marks.error);
          }
          target := marks.value.1 + 1;
        case At(o) => target := o;
        case Stored =>
          target := 0;
          if groupId.Some? {
            var committed := broker.CommittedOffset(groupId.value, k);
            if committed.Err? {
              return Err(committed.error);
            }
            target := if committed.value.Some? then committed.value.value else 0;
          }
        case Tail(n) =>
          var marks := broker.Watermarks(k);
          if marks.Err? {
            return Err(marks.error);
          }
          target := marks.value.1 + 1 - n;
          if target < 0 {
            target := 0;
          }
      }
      position := position[k := target];
      r := Ok(());
    }

    method Assign(partitions: seq<TopicPartition>)
      modifies `assignment, `position
      ensures View() == old(View()).(assignment := partitions, position := map[])
    {
      assignment := partitions;
      position := map[];
    }

    method StoreOffset(k: TopicPartition, offset: int)
      modifies `position
      ensures View() == MoveTo(old(View()), k, offset)
    {
      position := position[k := offset];
    }

    method Pause(partitions: seq<TopicPartition>)
      modifies `paused
      ensures View() == old(View()).(paused := old(paused) + set k | k in partitions)
    {
      for i := 0 to |partitions|
        invariant paused == old(paused) + set k | k in partitions[..i]
      {
        paused := paused + {partitions[i]};
      }
    }

    method Resume(partitions: seq<TopicPartition>)
      modifies `paused
      ensures View() == old(View()).(paused := old(paused) - set k | k in partitions)
    {
      for i := 0 to |partitions|
        invariant paused == old(paused) - set k | k in partitions[..i]
      {
        paused := paused - {partitions[i]};
      }
    }

    /** Without a group every partition of the existing topics is assigned. */
    method PartitionsOf(topics: seq<string>) returns (r: seq<TopicPartition>)
      requires broker.Valid()
      ensures r == AllPartitions(broker.State(), topics)
    {
      r := [];
      for i := 0 to |topics|
        invariant r == AllPartitions(broker.State(), topics[..i])
      {
        assert topics[..i + 1][..i] == topics[..i];
        var meta := broker.Metadata(topics[i]);
        if meta.Ok? {
          ghost var before := r;
          for p := 0 to |meta.value.partitions|
            invariant r == before + seq(p, q => TopicPartition(topics[i], q))
          {
            r := r + [TopicPartition(meta.value.name, meta.value.partitions[p].id)];
          }
        }
      }
      assert topics[..|topics|] == topics;
    }

    /** The new assignment: the group's for this member, or all partitions of existing topics. */
    method NewAssignment(topics: seq<string>) returns (r: Result<seq<TopicPartition>>)
      requires broker.Valid()
      modifies broker`groups
      modifies if groupId.Some? then {broker.backend} + broker.GroupObject(groupId.value) else {}
      ensures broker.Valid()
      ensures BrokerAfter(old(broker.State()), topics, r.Ok?)
      ensures r.Err? ==> r.error == BrokerShutdown
      ensures groupId.None? ==> r == Ok(AllPartitions(old(broker.State()), topics))
      ensures groupId.Some? ==> (r.Ok? <==> !broker.shutdown && !old(broker.backend.shutdown))
      ensures groupId.Some? && r.Ok? ==> JoinedAs(old(broker.WorldOf(groupId.value)), topics, r.value)
    {
      SameGrows(broker.backend.model);
      hide Step, AllPartitions, Log.Valid, InMemoryBackend.Valid, Grows, WithTopics, CountsOf, OnlyCreates;
      if groupId.Some? {
        r := broker.JoinGroup(groupId.value, memberId, topics);
      } else {
        var partitions := PartitionsOf(topics);
        r := Ok(partitions);
      }
    }

    /** What subscribing did to the broker: a group consumer that joined created missing topics. */
    ghost predicate BrokerAfter(before: State, topics: seq<string>, joined: bool)
      reads broker, broker.backend
    {
      && broker.State() == before.(topics := broker.backend.model, groups := broker.groups.Keys)
      && Grows(before.topics, broker.backend.model)
      && broker.backend.model ==
         (if groupId.Some? && joined then WithTopics(before.topics, topics, broker.defaultNumPartitions)
          else before.topics)
      && (groupId.None? ==> broker.groups.Keys == before.groups)
    }

    /** This member joined its group, and `partitions` is the list the group holds for it. */
    ghost predicate JoinedAs(before: World, topics: seq<string>, partitions: seq<TopicPartition>)
      reads broker, broker.backend, broker.GroupObjects()
      requires groupId.Some?
    {
      var w := broker.WorldOf(groupId.value);
      && Step(broker.defaultNumPartitions, before, Joined(memberId, topics), w)
      && memberId in w.assignments && partitions == w.assignments[memberId]
    }

    /** Positions and pauses survive a new subscription. */
    method Subscribe(topics: seq<string>) returns (r: Result<()>)
      requires broker.Valid()
      modifies `subscribedTopics, `assignment, broker`groups
      modifies if groupId.Some? then {broker.backend} + broker.GroupObject(groupId.value) else {}
      ensures broker.Valid()
      ensures BrokerAfter(old(broker.State()), topics, r.Ok?)
      ensures r.Err? ==> r.error == BrokerShutdown
      ensures r.Err? ==> View() == old(View()) && subscribedTopics == old(subscribedTopics)
      ensures r.Ok? ==> View() == old(View()).(assignment := assignment) && subscribedTopics == topics
      ensures groupId.None? ==> r.Ok? && assignment == AllPartitions(old(broker.State()), topics)
      ensures groupId.Some? ==> (r.Ok? <==> !broker.shutdown && !old(broker.backend.shutdown))
      ensures groupId.Some? && r.Ok? ==> JoinedAs(old(broker.WorldOf(groupId.value)), topics, assignment)
    {
      hide AllPartitions, Log.Valid, BrokerAfter, Step;
      var result := NewAssignment(topics);
      if result.Err? {
        return Err(result.error);
      }
      TakeOver(topics, result.value);
      r := Ok(());
    }

    method TakeOver(topics: seq<string>, partitions: seq<TopicPartition>)
      modifies `subscribedTopics, `assignment
      ensures subscribedTopics == topics && View() == old(View()).(assignment := partitions)
    {
      subscribedTopics := topics;
      assignment := partitions;
    }

    method Unsubscribe() returns (r: Result<()>)
      requires broker.Valid()
      modifies `subscribedTopics, `assignment, `position, `paused
      modifies if groupId.Some? then broker.GroupObject(groupId.value) else {}
      ensures broker.Valid()
      ensures r.Ok? ==> subscribedTopics == [] && View() == Consumer(groupId, [], map[], {}, old(pollStart))
      ensures r.Err? ==> View() == old(View()) && subscribedTopics == old(subscribedTopics)
      ensures groupId.None? ==> r.Ok?
      ensures groupId.Some? ==>
                r == if broker.shutdown then Err(BrokerShutdown)
                     else if groupId.value !in broker.groups then Err(GroupNotFound(groupId.value))
                     else if broker.backend.shutdown then Err(BrokerShutdown)
                     else Ok(())
      ensures groupId.Some? && r.Ok? ==>
                Step(broker.defaultNumPartitions, old(broker.WorldOf(groupId.value)), Left(memberId),
                     broker.WorldOf(groupId.value))
      ensures groupId.Some? && r.Err? ==> broker.WorldOf(groupId.value) == old(broker.WorldOf(groupId.value))
    {
      hide Step;
      if groupId.Some? {
        var left := broker.LeaveGroup(groupId.value, memberId);
        if left.Err? {
          return left;
        }
      }
      Clear();
      r := Ok(());
    }

    /** Forgets the subscription, the assignment, all positions and all pauses. */
    method Clear()
      modifies `subscribedTopics, `assignment, `position, `paused
      ensures subscribedTopics == [] && View() == Consumer(groupId, [], map[], {}, pollStart)
    {
      subscribedTopics := [];
      assignment := [];
      position := map[];
      paused := {};
    }

    /** Whether the broker accepts this group's commits, or the error it reports. */
    ghost function MayCommit(): Result<()>
      reads broker
      requires groupId.Some?
    {
      if broker.shutdown then Err(BrokerShutdown)
      else if groupId.value !in broker.groups then Err(GroupNotFound(groupId.value))
      else Ok(())
    }

    /** Commits nothing without a group. */
    method Commit(entries: seq<(TopicPartition, Offset)>) returns (r: Result<()>)
      requires broker.Valid()
      modifies broker`offsets
      ensures broker.Valid()
      ensures r == if groupId.None? || forall e | e in entries :: !e.1.At? then Ok(()) else MayCommit()
      ensures broker.State() ==
              if r.Ok? && groupId.Some? then CommitAll(old(broker.State()), groupId.value, entries)
              else old(broker.State())
    {
      if groupId.Some? {
        for i := 0 to |entries|
          invariant broker.Valid()
          invariant broker.State() == CommitAll(old(broker.State()), groupId.value, entries[..i])
          invariant (forall e | e in entries[..i] :: !e.1.At?) || MayCommit().Ok?
          invariant (forall e | e in entries[..i] :: !e.1.At?) ==> broker.State() == old(broker.State())
        {
          assert entries[..i + 1] == entries[..i] + [entries[i]];
          assert entries[..i + 1][..i] == entries[..i];
          if entries[i].1.At? {
            assert entries[i] in entries;
            var committed := broker.CommitOffset(groupId.value, entries[i].0, entries[i].1.offset);
            if committed.Err? {
              return committed;
            }
          }
        }
        assert entries[..|entries|] == entries;
      }
      r := Ok(());
    }

    /** Commits the offset after the message's own. */
    method CommitMessage(m: Message) returns (r: Result<()>)
      requires broker.Valid()
      modifies broker`offsets
      ensures broker.Valid()
      ensures r == if groupId.None? then Ok(()) else MayCommit()
      ensures broker.State() ==
              if r.Ok? && groupId.Some? then
                AfterCommit(old(broker.State()), groupId.value, TopicPartition(m.topic, m.partition), m.offset + 1)
              else old(broker.State())
    {
      ghost var entry := (TopicPartition(m.topic, m.partition), At(m.offset + 1));
      assert entry in [entry] && [entry][..0] == [];
      r := Commit([(TopicPartition(m.topic, m.partition), At(m.offset + 1))]);
    }
  }
}
