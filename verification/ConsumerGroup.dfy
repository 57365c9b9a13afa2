/** src/consumer_group.rs: the members of a group and their assignments, and whole runs of a group. */
module ConsumerGroup {
  import opened Common
  import opened Assignor

  class ConsumerGroup {
    const groupId: string
    var members: map<string, seq<string>>
    var memberTopics: Subscriptions
    var assignments: Assignment

    ghost predicate Valid()
      reads this
    {
      members == memberTopics && memberTopics.Keys == assignments.Keys
    }

    constructor (groupId: string)
      ensures Valid() && this.groupId == groupId && memberTopics == map[]
    {
      this.groupId := groupId;
      members := map[];
      memberTopics := map[];
      assignments := map[];
    }

    method Join(memberId: string, topics: seq<string>, counts: Counts) returns (r: Result<seq<TopicPartition>>)
      requires Valid()
      modifies this
      ensures Valid()
      ensures memberTopics == old(memberTopics)[memberId := topics]
      ensures IsAssignment(memberTopics, counts, assignments)
      ensures memberId in assignments && r == Ok(assignments[memberId])
    {
      members := members[memberId := topics];
      memberTopics := memberTopics[memberId := topics];
      Rebalance(counts);
      r := if memberId in assignments then Ok(assignments[memberId]) else Err(Custom("no assignment for member"));
    }

    method Leave(memberId: string, counts: Counts) returns (r: Result<()>)
      requires Valid()
      modifies this
      ensures Valid() && r.Ok?
      ensures memberTopics == old(memberTopics) - {memberId}
      ensures memberTopics != map[] ==> IsAssignment(memberTopics, counts, assignments)
    {
      members := members - {memberId};
      memberTopics := memberTopics - {memberId};
      assignments := assignments - {memberId};
      if |members| != 0 {
        Rebalance(counts);
      }
      r := Ok(());
    }

    method Rebalance(counts: Counts)
      requires members == memberTopics
      modifies `assignments
      ensures Valid()
      ensures memberTopics != map[] ==> IsAssignment(memberTopics, counts, assignments)
    {
      if |members| == 0 {
        assignments := map[];
        return;
      }
      var result := Assign(memberTopics, counts);
      match result {
        case Ok(newAssignments) => assignments := newAssignments;
        case Err(_) =>
      }
    }
  }

  // ---------------------------------------------------------------------------
  // Whole runs of a group behind the broker
  // ---------------------------------------------------------------------------

  /** The partition counts of the broker's topics, and one group's subscriptions and assignments. */
  datatype World = World(topics: Counts, subs: Subscriptions, assignments: Assignment)

  datatype Event =
    | Joined(member: string, topics: seq<string>)
    | Left(member: string)
    | TopicsCreated(topics: seq<string>, numPartitions: nat)

  /** The topics after every one of `names` was ensured with `n` partitions. */
  function Ensured(topics: Counts, names: seq<string>, n: nat): Counts {
    topics + (map t | t in names && t !in topics :: n)
  }

  function Restrict(counts: Counts, names: seq<string>): Counts {
    map t | t in counts && t in names :: counts[t]
  }

  /**
    One call through the broker: joining rebalances with the counts of the joiner's topics only,
    leaving with those of all topics. Calls for other groups, and produces, only create topics.
    Leaving is one step although the counts are read before the group is locked: leave_group holds
    the broker's read lock throughout (src/broker.rs:420-432), a joiner needs the write lock after it
    ensured its topics, and so every topic a member joined with is among the counts.
  */
  ghost predicate Step(n: nat, w: World, e: Event, w': World) {
    match e
    case Joined(m, topics) =>
      && w'.topics == Ensured(w.topics, topics, n)
      && w'.subs == w.subs[m := topics]
      && IsAssignment(w'.subs, Restrict(w'.topics, topics), w'.assignments)
    case Left(m) =>
      && w'.topics == w.topics && w'.subs == w.subs - {m}
      && if w'.subs == map[] then w'.assignments.Keys == {}
         else IsAssignment(w'.subs, w'.topics, w'.assignments)
    case TopicsCreated(topics, k) =>
      && w'.topics == Ensured(w.topics, topics, k) && w'.subs == w.subs && w'.assignments == w.assignments
  }

  /** A call for someone else created topics, and changed nothing else this group can see. */
  ghost predicate OnlyCreates(w: World, topics: seq<string>, n: nat, w': World) {
    Step(n, w, TopicsCreated(topics, n), w')
  }

  lemma CreationOnly(w: World, topics: seq<string>, n: nat, w': World)
    requires w' == w.(topics := Ensured(w.topics, topics, n))
    ensures OnlyCreates(w, topics, n, w')
  {
  }

  ghost predicate IsRun(n: nat, worlds: seq<World>, events: seq<Event>) {
    && |worlds| == |events| + 1
    && worlds[0] == World(worlds[0].topics, map[], map[])
    && forall i, j | 0 <= i < |events| && j == i + 1 :: Step(n, worlds[i], events[i], worlds[j])
  }

  ghost predicate Consistent(w: World) {
    && w.subs.Keys == w.assignments.Keys
    && forall m, t | m in w.subs && t in w.subs[m] :: t in w.topics
  }

  /** `topic` is subscribed to by some member. */
  ghost predicate Subscribed(w: World, topic: string) {
    exists m | m in w.subs :: topic in w.subs[m]
  }

  /** Every partition of the topic is assigned to exactly one member, once. */
  ghost predicate Covered(w: World, topic: string) {
    topic in w.topics && forall p | 0 <= p < w.topics[topic] :: AssignedOnce(w.assignments, TopicPartition(topic, p))
  }

  lemma SubscribedHasSubscribers(w: World, topic: string)
    ensures Subscribed(w, topic) <==> Subscribers(w.subs, topic) != []
  {
    var s := Subscribers(w.subs, topic);
    if Subscribed(w, topic) {
      var m :| m in w.subs && topic in w.subs[m];
      assert m in s;
    }
    if s != [] {
      assert s[0] in s;
    }
  }

  lemma {:induction false} RunStaysConsistent(n: nat, worlds: seq<World>, events: seq<Event>, i: nat)
    requires IsRun(n, worlds, events) && i < |worlds|
    ensures Consistent(worlds[i])
  {
    if i > 0 {
      RunStaysConsistent(n, worlds, events, i - 1);
      var w, w' := worlds[i - 1], worlds[i];
      assert Step(n, w, events[i - 1], w');
      hide IsAssignment;
      if events[i - 1].Joined? || (w'.subs != map[] && events[i - 1].Left?) {
        AssignmentKeys(w', if events[i - 1].Joined? then Restrict(w'.topics, events[i - 1].topics) else w'.topics);
      }
    }
  }

  lemma AssignmentKeys(w: World, counts: Counts)
    requires IsAssignment(w.subs, counts, w.assignments)
    ensures w.subs.Keys == w.assignments.Keys
  {
  }

  /** After a leave that leaves members, every subscribed topic is exactly covered. */
  lemma LeaveCoversEverything(n: nat, worlds: seq<World>, events: seq<Event>, i: nat, topic: string)
    requires IsRun(n, worlds, events) && i < |events| && events[i].Left?
    requires Subscribed(worlds[i + 1], topic)
    ensures Covered(worlds[i + 1], topic)
  {
    var w' := worlds[i + 1];
    RunStaysConsistent(n, worlds, events, i + 1);
    assert Step(n, worlds[i], events[i], w');
    SubscribedHasSubscribers(w', topic);
    forall p | 0 <= p < w'.topics[topic] ensures AssignedOnce(w'.assignments, TopicPartition(topic, p)) {
      ExactCover(w'.subs, w'.topics, w'.assignments, TopicPartition(topic, p));
    }
  }

  /**
    After a join a subscribed topic is exactly covered if and only if the joiner named it or it has
    no partitions; the others lose their assignments, since their counts were not passed.
  */
  lemma JoinCoversIff(n: nat, worlds: seq<World>, events: seq<Event>, i: nat, topic: string)
    requires IsRun(n, worlds, events) && i < |events| && events[i].Joined?
    requires Subscribed(worlds[i + 1], topic)
    ensures var w' := worlds[i + 1];
            && topic in w'.topics
            && (Covered(w', topic) <==> topic in events[i].topics || w'.topics[topic] == 0)
            && (topic !in events[i].topics ==>
                  forall m, p | m in w'.assignments :: TopicPartition(topic, p) !in w'.assignments[m])
  {
    var w' := worlds[i + 1];
    var counts := Restrict(w'.topics, events[i].topics);
    RunStaysConsistent(n, worlds, events, i + 1);
    assert Step(n, worlds[i], events[i], w');
    SubscribedHasSubscribers(w', topic);
    forall p: int
      ensures AssignedOnce(w'.assignments, TopicPartition(topic, p)) <==>
              topic in events[i].topics && 0 <= p < w'.topics[topic]
      ensures topic !in events[i].topics ==>
                forall m | m in w'.assignments :: TopicPartition(topic, p) !in w'.assignments[m]
    {
      ExactCover(w'.subs, counts, w'.assignments, TopicPartition(topic, p));
    }
    if topic !in events[i].topics && w'.topics[topic] > 0 {
      assert !AssignedOnce(w'.assignments, TopicPartition(topic, 0));
    }
  }

  /**
    A join covers every subscribed topic if and only if no other member subscribes to a topic with
    partitions that the joiner does not name; so it does when all subscribe to the same topics.
  */
  lemma JoinCoversEverythingIff(n: nat, worlds: seq<World>, events: seq<Event>, i: nat)
    requires IsRun(n, worlds, events) && i < |events| && events[i].Joined?
    ensures var w', named := worlds[i + 1], events[i].topics;
            (forall t | Subscribed(w', t) :: Covered(w', t)) <==>
            (forall m, t | m in w'.subs && t in w'.subs[m] && t !in named :: t in w'.topics && w'.topics[t] == 0)
  {
    var w', named := worlds[i + 1], events[i].topics;
    forall t | Subscribed(w', t)
      ensures t in w'.topics && (Covered(w', t) <==> t in named || w'.topics[t] == 0)
    {
      JoinCoversIff(n, worlds, events, i, t);
    }
    assert forall m, t | m in w'.subs && t in w'.subs[m] :: Subscribed(w', t);
    hide Covered;
  }
}
