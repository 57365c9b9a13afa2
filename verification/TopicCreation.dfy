/**
  ensure_topic and produce of src/broker_backend.rs run by any number of threads. A step is one
  acquisition of the backend's lock or of a partition's lock; threads interleave freely.
*/
module TopicCreation {
  import opened Common
  import opened PartitionLog
  import opened Clusters

  /** A topic object: the history of each of its partitions. */
  datatype Topic = Topic(name: string, parts: seq<seq<Message>>)

  /** Where a thread is: `id` names the topic object it holds a reference to. */
  datatype Pc =
    | Idle
    | ReadCheck(topic: string)
    | WriteCheck(topic: string)
    | Ensured(topic: string)
    | Holding(topic: string, id: nat)

  /** A produce call that returned successfully. */
  datatype Ack = Ack(topic: string, partition: nat, offset: nat, message: Message)

  datatype Machine = Machine(
    down: bool, topics: map<string, nat>, objects: seq<Topic>, pcs: map<nat, Pc>, acks: seq<Ack>)

  datatype Action =
    | Ensure(topic: string)
    | Produce(topic: string)
    | CheckUnderReadLock
    | CheckAndInsert(numPartitions: nat)
    | Return
    | GetTopic
    | AppendMessage(partition: int, message: Message)
    | Shutdown

  function PcOf(m: Machine, t: nat): Pc { if t in m.pcs then m.pcs[t] else Idle }

  predicate Enabled(m: Machine, t: nat, a: Action) {
    match a
    case Ensure(_) => PcOf(m, t).Idle?
    case Produce(_) => PcOf(m, t).Idle?
    case CheckUnderReadLock => PcOf(m, t).ReadCheck?
    case CheckAndInsert(_) => PcOf(m, t).WriteCheck?
    case Return => PcOf(m, t).Ensured?
    case GetTopic => PcOf(m, t).Ensured?
    case AppendMessage(_, _) => PcOf(m, t).Holding?
    case Shutdown => PcOf(m, t).Idle?
  }

  function Goto(m: Machine, t: nat, pc: Pc): Machine { m.(pcs := m.pcs[t := pc]) }

  /**
    Produce on its own starts behind the creation, as produce of the backend does; the broker's
    produce is Ensure followed by the same steps.
  */
  function Next(m: Machine, t: nat, a: Action): Machine
    requires Enabled(m, t, a)
  {
    var pc := PcOf(m, t);
    match a
    case Ensure(topic) => if m.down then m else Goto(m, t, ReadCheck(topic))
    case Produce(topic) => if m.down then m else Goto(m, t, Ensured(topic))
    case CheckUnderReadLock =>
      Goto(m, t, if pc.topic in m.topics then Ensured(pc.topic) else WriteCheck(pc.topic))
    case CheckAndInsert(n) =>
      if pc.topic in m.topics then Goto(m, t, Ensured(pc.topic))
      else
        var created := Topic(pc.topic, seq(n, _ => []));
        Goto(m, t, Ensured(pc.topic)).(
          topics := m.topics[pc.topic := |m.objects|], objects := m.objects + [created])
    case Return => Goto(m, t, Idle)
    case GetTopic =>
      Goto(m, t, if pc.topic in m.topics then Holding(pc.topic, m.topics[pc.topic]) else Idle)
    case AppendMessage(p, message) =>
      if pc.id >= |m.objects| || p < 0 || p >= |m.objects[pc.id].parts| then Goto(m, t, Idle)
      else
        var target := m.objects[pc.id];
        var parts := target.parts[p := target.parts[p] + [message]];
        Goto(m, t, Idle).(
          objects := m.objects[pc.id := target.(parts := parts)],
          acks := m.acks + [Ack(pc.topic, p, |target.parts[p]|, message)])
    case Shutdown => m.(down := true)
  }

  ghost predicate Runs(m: Machine, run: seq<(nat, Action)>)
    decreases |run|
  {
    run != [] ==> Enabled(m, run[0].0, run[0].1) && Runs(Next(m, run[0].0, run[0].1), run[1..])
  }

  ghost function Run(m: Machine, run: seq<(nat, Action)>): Machine
    requires Runs(m, run)
    decreases |run|
  {
    if run == [] then m else Run(Next(m, run[0].0, run[0].1), run[1..])
  }

  const INITIAL: Machine := Machine(false, map[], [], map[], [])

  function Acked(acks: seq<Ack>, topic: string, partition: nat): nat {
    if acks == [] then 0
    else
      var last := acks[|acks| - 1];
      Acked(acks[..|acks| - 1], topic, partition) +
      if last.topic == topic && last.partition == partition then 1 else 0
  }

  /** Every object ever created is the one published under its name: no name was created twice. */
  ghost predicate EachCreatedOnce(m: Machine) {
    && (forall t | t in m.topics :: m.topics[t] < |m.objects| && m.objects[m.topics[t]].name == t)
    && (forall id | 0 <= id < |m.objects| ::
          m.objects[id].name in m.topics && m.topics[m.objects[id].name] == id)
  }

  ghost predicate ReferencesPublished(m: Machine) {
    forall t | t in m.pcs && m.pcs[t].Holding? ::
      m.pcs[t].topic in m.topics && m.topics[m.pcs[t].topic] == m.pcs[t].id
  }

  /** An acknowledged message is stored at its offset in the published topic. */
  ghost predicate Stored(m: Machine, a: Ack) {
    && a.topic in m.topics && m.topics[a.topic] < |m.objects|
    && var parts := m.objects[m.topics[a.topic]].parts;
       a.partition < |parts| && a.offset < |parts[a.partition]| && parts[a.partition][a.offset] == a.message
  }

  /** Every partition's history is as long as the number of its acknowledged produces. */
  ghost predicate Conserved(m: Machine) {
    forall t, p: nat | t in m.topics && m.topics[t] < |m.objects| ::
      Acked(m.acks, t, p) ==
      if p < |m.objects[m.topics[t]].parts| then |m.objects[m.topics[t]].parts[p]| else 0
  }

  ghost predicate OnlyKnownAcked(m: Machine) {
    forall a | a in m.acks :: a.topic in m.topics
  }

  ghost predicate AcksHold(m: Machine) {
    OnlyKnownAcked(m) && (forall a | a in m.acks :: Stored(m, a)) && Conserved(m)
  }

  ghost predicate Inv(m: Machine) {
    EachCreatedOnce(m) && ReferencesPublished(m) && AcksHold(m)
  }

  /** `b` publishes every object `a` publishes, under the same name. */
  ghost predicate KeepsTopics(a: Machine, b: Machine) {
    forall t | t in a.topics :: t in b.topics && b.topics[t] == a.topics[t]
  }

  lemma {:induction false} NoAcksForUnknown(acks: seq<Ack>, topic: string, partition: nat)
    requires forall a | a in acks :: a.topic != topic
    ensures Acked(acks, topic, partition) == 0
    decreases |acks|
  {
    if acks != [] {
      NoAcksForUnknown(acks[..|acks| - 1], topic, partition);
    }
  }

  /** What a step can do to the published objects: nothing, or publish one new name. */
  ghost predicate Publishes(m: Machine, m': Machine) {
    && |m.objects| <= |m'.objects|
    && (forall id | 0 <= id < |m.objects| :: m'.objects[id].name == m.objects[id].name)
    && (if |m'.objects| == |m.objects| then m'.topics == m.topics
        else
          && |m'.objects| == |m.objects| + 1 && m'.objects[|m.objects|].name !in m.topics
          && m'.topics == m.topics[m'.objects[|m.objects|].name := |m.objects|])
  }

  lemma StepPublishes(m: Machine, t: nat, a: Action)
    requires Enabled(m, t, a)
    ensures Publishes(m, Next(m, t, a))
  {
  }

  lemma StepKeepsPublished(m: Machine, t: nat, a: Action)
    requires EachCreatedOnce(m) && ReferencesPublished(m) && Enabled(m, t, a)
    ensures var m' := Next(m, t, a); EachCreatedOnce(m') && ReferencesPublished(m') && KeepsTopics(m, m')
  {
    StepPublishes(m, t, a);
    StepTakesPublished(m, t, a);
    hide Next, Enabled;
  }

  /** A reference is only ever taken from the published topics. */
  lemma StepTakesPublished(m: Machine, t: nat, a: Action)
    requires Enabled(m, t, a)
    ensures var m' := Next(m, t, a);
            forall x | x in m'.pcs && m'.pcs[x].Holding? ::
              var pc := m'.pcs[x];
              (x in m.pcs && pc == m.pcs[x]) || (pc.topic in m.topics && m.topics[pc.topic] == pc.id)
  {
  }

  lemma InsertKeepsAcks(m: Machine, t: nat, n: nat)
    requires Inv(m) && PcOf(m, t).WriteCheck?
    ensures AcksHold(Next(m, t, CheckAndInsert(n)))
  {
    var topic := PcOf(m, t).topic;
    var m' := Next(m, t, CheckAndInsert(n));
    if topic !in m.topics {
      forall p: nat ensures Acked(m.acks, topic, p) == 0 {
        NoAcksForUnknown(m.acks, topic, p);
      }
      hide Acked, ReferencesPublished, Next;
      assert m'.acks == m.acks && m'.topics == m.topics[topic := |m.objects|];
      assert m'.objects[..|m.objects|] == m.objects;
      assert forall x | x in m.topics :: m'.objects[m'.topics[x]] == m.objects[m.topics[x]];
    }
  }

  /** What a successful append changes. */
  ghost predicate Appends(m: Machine, m': Machine, a: Ack) {
    && a.topic in m.topics && m.topics[a.topic] < |m.objects|
    && var id := m.topics[a.topic];
       var parts := m.objects[id].parts;
       && a.partition < |parts| && a.offset == |parts[a.partition]|
       && m'.topics == m.topics && m'.acks == m.acks + [a]
       && m'.objects == m.objects[id := m.objects[id].(
                          parts := parts[a.partition := parts[a.partition] + [a.message]])]
  }

  lemma AppendKeepsStored(m: Machine, m': Machine, ack: Ack)
    requires Appends(m, m', ack) && forall a | a in m.acks :: Stored(m, a)
    ensures forall a | a in m'.acks :: Stored(m', a)
  {
    forall a | a in m'.acks ensures Stored(m', a) {
      assert a in m.acks || a == ack;
      assert a in m.acks ==> Stored(m, a);
    }
  }

  lemma AppendKeepsConserved(m: Machine, m': Machine, ack: Ack)
    requires Appends(m, m', ack) && EachCreatedOnce(m) && Conserved(m)
    ensures Conserved(m')
  {
    assert m'.acks[..|m'.acks| - 1] == m.acks;
    forall x, q: nat
      ensures Acked(m'.acks, x, q) == Acked(m.acks, x, q) + (if x == ack.topic && q == ack.partition then 1 else 0)
    {
    }
    hide Acked;
    forall x | x in m.topics && x != ack.topic ensures m.topics[x] != m.topics[ack.topic] {
    }
  }

  lemma AppendKeepsAcks(m: Machine, t: nat, p: int, message: Message)
    requires Inv(m) && PcOf(m, t).Holding?
    ensures AcksHold(Next(m, t, AppendMessage(p, message)))
  {
    var pc := PcOf(m, t);
    var m' := Next(m, t, AppendMessage(p, message));
    assert m.topics[pc.topic] == pc.id;
    if 0 <= p < |m.objects[pc.id].parts| {
      var ack := Ack(pc.topic, p, |m.objects[pc.id].parts[p]|, message);
      assert Appends(m, m', ack);
      hide Appends, Next, Acked;
      AppendKeepsStored(m, m', ack);
      AppendKeepsConserved(m, m', ack);
      assert OnlyKnownAcked(m') by { AppendKeepsKnown(m, m', ack); }
    }
  }

  lemma AppendKeepsKnown(m: Machine, m': Machine, ack: Ack)
    requires Appends(m, m', ack) && OnlyKnownAcked(m)
    ensures OnlyKnownAcked(m')
  {
  }

  lemma StepKeepsInv(m: Machine, t: nat, a: Action)
    requires Inv(m) && Enabled(m, t, a)
    ensures Inv(Next(m, t, a)) && KeepsTopics(m, Next(m, t, a))
  {
    StepKeepsPublished(m, t, a);
    if a.CheckAndInsert? {
      InsertKeepsAcks(m, t, a.numPartitions);
    } else if a.AppendMessage? {
      AppendKeepsAcks(m, t, a.partition, a.message);
    } else {
      var m' := Next(m, t, a);
      assert m'.topics == m.topics && m'.objects == m.objects && m'.acks == m.acks;
      hide Acked, Next, EachCreatedOnce, ReferencesPublished;
      assert forall x | x in m.acks :: Stored(m, x) ==> Stored(m', x);
    }
  }

  lemma {:induction false} RunKeepsInv(m: Machine, run: seq<(nat, Action)>)
    requires Inv(m) && Runs(m, run)
    ensures Inv(Run(m, run)) && KeepsTopics(m, Run(m, run))
    ensures m.acks <= Run(m, run).acks
    decreases |run|
  {
    if run != [] {
      hide Enabled, Next, Inv;
      StepKeepsInv(m, run[0].0, run[0].1);
      RunKeepsInv(Next(m, run[0].0, run[0].1), run[1..]);
    }
  }

  // ---------------------------------------------------------------------------
  // Conservation over the whole backend
  // ---------------------------------------------------------------------------

  function Messages(parts: seq<seq<Message>>): nat {
    if parts == [] then 0 else Messages(parts[..|parts| - 1]) + |parts[|parts| - 1]|
  }

  /** The sum of all partitions' next offsets. */
  function Total(objects: seq<Topic>): nat {
    if objects == [] then 0 else Total(objects[..|objects| - 1]) + Messages(objects[|objects| - 1].parts)
  }

  lemma {:induction false} OneMoreMessage(parts: seq<seq<Message>>, p: nat, x: Message)
    requires p < |parts|
    ensures Messages(parts[p := parts[p] + [x]]) == Messages(parts) + 1
    decreases |parts|
  {
    var last := |parts| - 1;
    var parts' := parts[p := parts[p] + [x]];
    if p == last {
      assert parts'[..last] == parts[..last];
    } else {
      OneMoreMessage(parts[..last], p, x);
      assert parts'[..last] == parts[..last][p := parts[p] + [x]];
    }
  }

  lemma {:induction false} OneMoreInTotal(objects: seq<Topic>, id: nat, t: Topic)
    requires id < |objects| && Messages(t.parts) == Messages(objects[id].parts) + 1
    ensures Total(objects[id := t]) == Total(objects) + 1
    decreases |objects|
  {
    var last := |objects| - 1;
    if id == last {
      assert objects[id := t][..last] == objects[..last];
    } else {
      OneMoreInTotal(objects[..last], id, t);
      assert objects[id := t][..last] == objects[..last][id := t];
    }
  }

  lemma {:induction false} NoMessages(n: nat)
    ensures Messages(seq(n, _ => [])) == 0
  {
    if n > 0 {
      NoMessages(n - 1);
      assert seq<seq<Message>>(n, _ => [])[..n - 1] == seq<seq<Message>>(n - 1, _ => []);
    }
  }

  lemma StepKeepsTotal(m: Machine, t: nat, a: Action)
    requires Enabled(m, t, a) && Total(m.objects) == |m.acks|
    ensures Total(Next(m, t, a).objects) == |Next(m, t, a).acks|
  {
    var m' := Next(m, t, a);
    if a.AppendMessage? && m' != Goto(m, t, Idle) {
      var id := PcOf(m, t).id;
      OneMoreMessage(m.objects[id].parts, a.partition, a.message);
      OneMoreInTotal(m.objects, id, m'.objects[id]);
    } else if a.CheckAndInsert? && |m'.objects| > |m.objects| {
      NoMessages(a.numPartitions);
      assert m'.objects[..|m.objects|] == m.objects;
    }
  }

  /** In every interleaving the sum of all next offsets is the number of successful produces. */
  lemma {:induction false} TotalIsProduced(m: Machine, run: seq<(nat, Action)>)
    requires Runs(m, run) && Total(m.objects) == |m.acks|
    ensures Total(Run(m, run).objects) == |Run(m, run).acks|
    decreases |run|
  {
    if run != [] {
      hide Enabled, Next, Total;
      StepKeepsTotal(m, run[0].0, run[0].1);
      TotalIsProduced(Next(m, run[0].0, run[0].1), run[1..]);
    }
  }

  /**
    However threads interleave, each topic is created at most once, a published topic is never
    replaced, every acknowledged message stays stored at its offset in the published topic, each
    partition holds exactly as many messages as were acknowledged for it, and all together as many
    as produces succeeded.
  */
  lemma NoMessageLostToRecreation(before: seq<(nat, Action)>, after: seq<(nat, Action)>)
    requires Runs(INITIAL, before) && Runs(Run(INITIAL, before), after)
    ensures var m, m' := Run(INITIAL, before), Run(Run(INITIAL, before), after);
            && EachCreatedOnce(m') && KeepsTopics(m, m')
            && (forall a | a in m.acks :: Stored(m', a))
            && Conserved(m') && Total(m'.objects) == |m'.acks|
  {
    RunKeepsInv(INITIAL, before);
    RunKeepsInv(Run(INITIAL, before), after);
    TotalIsProduced(INITIAL, before);
    TotalIsProduced(Run(INITIAL, before), after);
  }

  // ---------------------------------------------------------------------------
  // Shutdown
  // ---------------------------------------------------------------------------

  /** The threads that are in the middle of a call. */
  ghost function Busy(m: Machine): set<nat> {
    set t | t in m.pcs && !m.pcs[t].Idle?
  }

  lemma StepAfterShutdown(m: Machine, t: nat, a: Action)
    requires m.down && Enabled(m, t, a)
    ensures var m' := Next(m, t, a);
            m'.down && Busy(m') <= Busy(m) && |m'.acks| + |Busy(m')| <= |m.acks| + |Busy(m)|
  {
    var m' := Next(m, t, a);
    var idle := PcOf(m', t).Idle?;
    assert Busy(m') == if idle then Busy(m) - {t} else Busy(m);
    assert |m'.acks| > |m.acks| ==> idle && t in Busy(m);
  }

  /** After a shutdown only the calls already under way can still succeed, each once. */
  lemma {:induction false} ShutdownStopsNewCalls(m: Machine, run: seq<(nat, Action)>)
    requires m.down && Runs(m, run)
    ensures var m' := Run(m, run);
            m'.down && Busy(m') <= Busy(m) && |m'.acks| + |Busy(m')| <= |m.acks| + |Busy(m)|
    decreases |run|
  {
    if run != [] {
      hide Enabled, Next, Busy;
      StepAfterShutdown(m, run[0].0, run[0].1);
      ShutdownStopsNewCalls(Next(m, run[0].0, run[0].1), run[1..]);
    }
  }

  // ---------------------------------------------------------------------------
  // Without interference the steps are the broker's produce
  // ---------------------------------------------------------------------------

  type Histories = map<string, seq<seq<Message>>>

  ghost function Published(m: Machine): Histories
    requires EachCreatedOnce(m)
  {
    map t | t in m.topics :: m.objects[m.topics[t]].parts
  }

  /** Everything ever appended to each partition of a cluster. */
  ghost function HistoriesOf(c: Cluster): Histories {
    map t | t in c :: seq(|c[t]|, p requires 0 <= p < |c[t]| => c[t][p].all)
  }

  lemma {:induction false} RunConcat(m: Machine, a: seq<(nat, Action)>, b: seq<(nat, Action)>)
    requires Runs(m, a) && Runs(Run(m, a), b)
    ensures Runs(m, a + b) && Run(m, a + b) == Run(Run(m, a), b)
    decreases |a|
  {
    if a == [] {
      assert a + b == b;
    } else {
      assert (a + b)[1..] == a[1..] + b && (a + b)[0] == a[0];
      hide Enabled, Next;
      RunConcat(Next(m, a[0].0, a[0].1), a[1..], b);
    }
  }

  lemma RunOne(m: Machine, t: nat, a: Action)
    requires Enabled(m, t, a)
    ensures Runs(m, [(t, a)]) && Run(m, [(t, a)]) == Next(m, t, a)
  {
    hide Enabled, Next;
    var rest := [(t, a)][1..];
    assert rest == [];
    assert Run(Next(m, t, a), rest) == Next(m, t, a);
  }

  lemma RunTwo(m: Machine, t: nat, a: Action, b: Action)
    requires Enabled(m, t, a) && Enabled(Next(m, t, a), t, b)
    ensures Runs(m, [(t, a), (t, b)]) && Run(m, [(t, a), (t, b)]) == Next(Next(m, t, a), t, b)
  {
    hide Enabled, Next;
    RunOne(m, t, a);
    RunOne(Next(m, t, a), t, b);
    RunConcat(m, [(t, a)], [(t, b)]);
    assert [(t, a)] + [(t, b)] == [(t, a), (t, b)];
  }

  function EnsureSteps(m: Machine, t: nat, topic: string, n: nat): seq<(nat, Action)> {
    [(t, Ensure(topic)), (t, CheckUnderReadLock)] + if topic in m.topics then [] else [(t, CheckAndInsert(n))]
  }

  lemma UndisturbedEnsure(m: Machine, t: nat, c: Cluster, topic: string, n: nat)
    requires EachCreatedOnce(m) && Published(m) == HistoriesOf(c) && PcOf(m, t).Idle? && !m.down
    ensures var steps := EnsureSteps(m, t, topic, n);
            Runs(m, steps) &&
            var m' := Run(m, steps);
            && EachCreatedOnce(m') && Published(m') == HistoriesOf(WithTopic(c, topic, n))
            && PcOf(m', t) == Ensured(topic) && m'.acks == m.acks
  {
    SameTopics(m, c);
    RunTwo(m, t, Ensure(topic), CheckUnderReadLock);
    var m2 := Next(Next(m, t, Ensure(topic)), t, CheckUnderReadLock);
    assert m2.topics == m.topics && m2.objects == m.objects && m2.acks == m.acks;
    assert EachCreatedOnce(m2) && Published(m2) == Published(m);
    var two := [(t, Ensure(topic)), (t, CheckUnderReadLock)];
    if topic in m.topics {
      assert EnsureSteps(m, t, topic, n) == two;
    } else {
      var m3 := Next(m2, t, CheckAndInsert(n));
      RunOne(m2, t, CheckAndInsert(n));
      RunConcat(m, two, [(t, CheckAndInsert(n))]);
      assert PcOf(m3, t) == Ensured(topic) && m3.acks == m.acks;
      InsertPublishesEmpty(m2, m3, c, topic, n);
    }
  }

  lemma SameTopics(m: Machine, c: Cluster)
    requires EachCreatedOnce(m) && Published(m) == HistoriesOf(c)
    ensures m.topics.Keys == c.Keys
  {
    assert Published(m).Keys == m.topics.Keys && HistoriesOf(c).Keys == c.Keys;
  }

  lemma InsertPublishesEmpty(m: Machine, m': Machine, c: Cluster, topic: string, n: nat)
    requires EachCreatedOnce(m) && Published(m) == HistoriesOf(c) && topic !in m.topics
    requires m'.topics == m.topics[topic := |m.objects|]
    requires m'.objects == m.objects + [Topic(topic, seq(n, _ => []))]
    ensures EachCreatedOnce(m') && Published(m') == HistoriesOf(WithTopic(c, topic, n))
  {
    SameTopics(m, c);
    CreationAddsEmptyHistories(c, topic, n);
    hide HistoriesOf, WithTopic;
    assert EachCreatedOnce(m');
    assert Published(m') == Published(m)[topic := seq(n, _ => [])];
  }

  lemma CreationAddsEmptyHistories(c: Cluster, topic: string, n: nat)
    requires topic !in c
    ensures HistoriesOf(WithTopic(c, topic, n)) == HistoriesOf(c)[topic := seq(n, _ => [])]
  {
    assert HistoriesOf(WithTopic(c, topic, n))[topic] == seq<seq<Message>>(n, _ => []);
  }

  lemma UndisturbedAppend(m: Machine, t: nat, c: Cluster, config: Config, k: TopicPartition, r: Record, clock: Clock)
    requires EachCreatedOnce(m) && Published(m) == HistoriesOf(c) && PcOf(m, t) == Ensured(k.topic)
    requires HasPartition(c, k) && LogAt(c, k).lo <= |LogAt(c, k).all|
    ensures var l := LogAt(c, k);
            var steps := [(t, GetTopic), (t, AppendMessage(k.partition, l.Stamped(r, clock)))];
            Runs(m, steps) &&
            var m' := Run(m, steps);
            && EachCreatedOnce(m') && Published(m') == HistoriesOf(AppendedTo(c, config, k, r, clock))
            && PcOf(m', t).Idle? && m'.acks == m.acks + [Ack(k.topic, k.partition, |l.all|, l.Stamped(r, clock))]
  {
    var l := LogAt(c, k);
    var message := l.Stamped(r, clock);
    assert k.topic in HistoriesOf(c) && HistoriesOf(c)[k.topic][k.partition] == l.all;
    assert k.topic in Published(m);
    RunTwo(m, t, GetTopic, AppendMessage(k.partition, message));
    var m1 := Next(m, t, GetTopic);
    var m' := Next(m1, t, AppendMessage(k.partition, message));
    assert Appends(m1, m', Ack(k.topic, k.partition, |l.all|, message));
    assert m1.topics == m.topics && m1.objects == m.objects && PcOf(m', t).Idle?;
    hide Next, HistoriesOf, AppendedTo, Log.Stamped;
    AppendPublishes(m1, m', Ack(k.topic, k.partition, |l.all|, message));
    AppendExtendsHistory(c, config, k, r, clock);
  }

  lemma AppendPublishes(m: Machine, m': Machine, a: Ack)
    requires EachCreatedOnce(m) && Appends(m, m', a)
    ensures EachCreatedOnce(m')
    ensures var parts := Published(m)[a.topic];
            Published(m') == Published(m)[a.topic := parts[a.partition := parts[a.partition] + [a.message]]]
  {
    assert forall x | x in m.topics && x != a.topic :: m.topics[x] != m.topics[a.topic];
  }

  lemma AppendExtendsHistory(c: Cluster, config: Config, k: TopicPartition, r: Record, clock: Clock)
    requires HasPartition(c, k) && LogAt(c, k).lo <= |LogAt(c, k).all|
    ensures var before, after := HistoriesOf(c), HistoriesOf(AppendedTo(c, config, k, r, clock));
            var parts := before[k.topic];
            after == before[k.topic := parts[k.partition := parts[k.partition] + [LogAt(c, k).Stamped(r, clock)]]]
  {
    var l' := LogAt(c, k).Appended(config, r, clock);
    assert l'.all == LogAt(c, k).all + [LogAt(c, k).Stamped(r, clock)];
    hide Log.Appended, Log.Stamped;
    var before, after := HistoriesOf(c), HistoriesOf(AppendedTo(c, config, k, r, clock));
    var parts := before[k.topic];
    assert after[k.topic] == parts[k.partition := l'.all];
  }

  /**
    One thread producing without interference has the effect of the broker's produce on all
    histories: the topic is created if absent and the stamped message goes to the end of its
    partition; so the sum of next offsets grows by one exactly as the broker's does.
  */
  lemma UndisturbedProduceIsBrokers(m: Machine, t: nat, c: Cluster, config: Config, n: nat,
                                    k: TopicPartition, r: Record, clock: Clock)
    requires EachCreatedOnce(m) && Published(m) == HistoriesOf(c) && PcOf(m, t).Idle? && !m.down
    requires HasPartition(WithTopic(c, k.topic, n), k)
    requires var l := LogAt(WithTopic(c, k.topic, n), k); l.lo <= |l.all|
    ensures var c1 := WithTopic(c, k.topic, n);
            var message := LogAt(c1, k).Stamped(r, clock);
            var steps := EnsureSteps(m, t, k.topic, n) + [(t, GetTopic), (t, AppendMessage(k.partition, message))];
            Runs(m, steps) &&
            var m' := Run(m, steps);
            && EachCreatedOnce(m') && Published(m') == HistoriesOf(AppendedTo(c1, config, k, r, clock))
            && m'.acks == m.acks + [Ack(k.topic, k.partition, |LogAt(c1, k).all|, message)]
            && (Total(m.objects) == |m.acks| ==> Total(m'.objects) == Total(m.objects) + 1)
  {
    var c1 := WithTopic(c, k.topic, n);
    var ensure := EnsureSteps(m, t, k.topic, n);
    var append := [(t, GetTopic), (t, AppendMessage(k.partition, LogAt(c1, k).Stamped(r, clock)))];
    hide Enabled, Next, EachCreatedOnce, Published, HistoriesOf, WithTopic, AppendedTo, Log.Stamped, EnsureSteps, Total;
    UndisturbedEnsure(m, t, c, k.topic, n);
    UndisturbedAppend(Run(m, ensure), t, c1, config, k, r, clock);
    RunConcat(m, ensure, append);
    if Total(m.objects) == |m.acks| {
      TotalIsProduced(m, ensure + append);
    }
  }
}
