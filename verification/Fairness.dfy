/**
  Fairness of poll_once (src/base_consumer.rs): the scan resumes after the entry served last, so
  no entry that can be served waits longer than one round of polls. The broker may change between
  any two locks a visit takes.
*/
module Fairness {
  import opened Arithmetic
  import opened Common
  import opened PartitionLog
  import opened Clusters
  import opened BrokerState
  import opened Polling

  /** One call of poll_once: the broker during each visit of the scan, and the consumer before it. */
  datatype Call = Call(bs: nat -> Visit, before: Consumer) {
    ghost function Result(): Outcome { PollOnce(bs, before).0 }
    ghost function After(): Consumer { PollOnce(bs, before).1 }

    /** This call returns a message of `k`. */
    ghost predicate Serves(k: TopicPartition) {
      var r := Result();
      r.Some? && r.value.Ok? && TopicPartition(r.value.value.topic, r.value.value.partition) == k
    }

    /** `k` is unpaused and every visit of this call would fetch a message of it. */
    ghost predicate KeepsReady(k: TopicPartition) {
      && k !in before.paused && AlwaysLive(bs)
      && forall i: nat :: Ready(bs(i), k, before.Position(k), before.group)
    }

    /** `k` is unpaused, has a position, and that position is in range whenever a message is read. */
    ghost predicate KeepsInRange(k: TopicPartition) {
      && k !in before.paused && AlwaysLive(bs) && k in before.position
      && forall i: nat :: InRange(bs(i).read, k, before.position[k])
    }

    /** `k` is unpaused, has no position, and no visit of this call would find nothing to read. */
    ghost predicate KeepsDeciding(k: TopicPartition) {
      && k !in before.paused && AlwaysLive(bs) && k !in before.position
      && forall i: nat :: Decides(bs(i), k, before.group)
    }
  }

  ghost predicate AlwaysLive(bs: nat -> Visit) {
    forall i: nat :: bs(i).Valid() && bs(i).Live()
  }

  /** `offset` is an offset the partition retains. */
  ghost predicate InRange(s: State, k: TopicPartition, offset: int) {
    HasPartition(s.topics, k) && LogAt(s.topics, k).lo <= offset < |LogAt(s.topics, k).all|
  }

  /** This visit fetches a message. */
  ghost predicate Ready(v: Visit, k: TopicPartition, position: Option<int>, group: Option<string>) {
    var r := v.Fetch(k, position, group);
    r.Ok? && r.value.Some?
  }

  /** Without a position, this visit fetches a message or finds its offset out of range. */
  ghost predicate Decides(v: Visit, k: TopicPartition, group: Option<string>) {
    Ready(v, k, None, group) || var r := v.Fetch(k, None, group); r.Err? && r.error.OffsetOutOfRange?
  }

  // ---------------------------------------------------------------------------
  // One visit
  // ---------------------------------------------------------------------------

  /** A visit fetches a message exactly when the offset it settled on first is retained when it reads. */
  lemma ReadyIff(v: Visit, k: TopicPartition, position: Option<int>, group: Option<string>)
    requires v.Valid() && v.Live()
    ensures Ready(v, k, position, group) <==>
            var start := v.StartOffset(k, position, group); start.Ok? && InRange(v.read, k, start.value)
  {
  }

  /** Without a position it is undecided exactly when it reads at the end of the log, or of an empty one. */
  lemma DecidesIff(v: Visit, k: TopicPartition, group: Option<string>)
    requires v.Valid() && v.Live()
    ensures Decides(v, k, group) <==>
            var start := v.StartOffset(k, None, group);
            && start.Ok? && HasPartition(v.read.topics, k)
            && var l := LogAt(v.read.topics, k);
               && start.value != |l.all| && !(l.Empty() && start.value == 0)
               && (HasPartition(v.recover.topics, k) || InRange(v.read, k, start.value))
  {
  }

  /** Whatever happens between its locks, a visit ends in one of the ways the scan continues from. */
  lemma VisitOutcome(v: Visit, k: TopicPartition, position: Option<int>, group: Option<string>)
    requires v.Valid() && v.Live()
    ensures match v.Fetch(k, position, group)
            case Ok(Some(m)) => TopicPartition(m.topic, m.partition) == k
            case Ok(None) => true
            case Err(e) => e.OffsetOutOfRange? || e.TopicNotFound? || e.PartitionOutOfRange?
  {
  }

  /**
    Being ready in every single state is not enough for an entry without a position: when the
    first message is evicted after the watermarks were read, the only entry's only visit resets.
  */
  lemma EvictionBetweenLocksDefers(m0: Message, m1: Message)
    requires m0.topic == m1.topic && m0.partition == m1.partition == 0
    requires m0.offset == 0 && m1.offset == 1 && m0.createdAt <= m1.createdAt
    ensures var k := TopicPartition(m0.topic, 0);
            var l := Log(m0.topic, 0, [m0, m1], 0);
            var s := State(false, false, map[m0.topic := [l]], {}, map[]);
            var s' := State(false, false, map[m0.topic := [l.(lo := 1)]], {}, map[]);
            var c := Consumer(None, [k], map[], {}, 0);
            && Grows(s.topics, s'.topics)
            && Ready(Still(s), k, None, None) && Ready(Still(s'), k, None, None)
            && PollOnce((_: nat) => Visit(s, s, s', s'), c) == (None, c.(position := map[k := 1]))
  {
    var k := TopicPartition(m0.topic, 0);
    var l := Log(m0.topic, 0, [m0, m1], 0);
    var s := State(false, false, map[m0.topic := [l]], {}, map[]);
    var s' := State(false, false, map[m0.topic := [l.(lo := 1)]], {}, map[]);
    var c := Consumer(None, [k], map[], {}, 0);
    var v := Visit(s, s, s', s');
    assert l.Valid() && l.(lo := 1).Valid();
    assert v.Fetch(k, None, None) == Err(OffsetOutOfRange(m0.topic, 0, 1));
    var bs := (_: nat) => v;
    assert Scan(bs, c.(position := map[k := 1]), 0, 1) == (None, c.(position := map[k := 1]));
    assert Scan(bs, c, 0, 0) == (None, c.(position := map[k := 1]));
  }

  // ---------------------------------------------------------------------------
  // One scan
  // ---------------------------------------------------------------------------

  /** The scan returned a message of the entry it visited `v` steps after `start`, and resumes after it. */
  ghost predicate StoppedAt(c: Consumer, start: nat, v: nat, r: Outcome, c': Consumer)
    requires start < |c.assignment| && v < |c.assignment|
  {
    var idx := ScanIndex(start, v, |c.assignment|);
    && r.Some? && r.value.Ok? && c'.pollStart == idx + 1
    && TopicPartition(r.value.value.topic, r.value.value.partition) == c.assignment[idx]
  }

  /** A scan that has a ready entry `d` visits ahead stops at or before it, with a message. */
  lemma {:induction false} ScanStopsBy(bs: nat -> Visit, c: Consumer, start: nat, i: nat, d: nat) returns (v: nat)
    requires start < |c.assignment| && i <= d < |c.assignment| && AlwaysLive(bs)
    requires var k := c.assignment[ScanIndex(start, d, |c.assignment|)];
             k !in c.paused && forall j: nat :: Ready(bs(j), k, c.Position(k), c.group)
    ensures var (r, c') := Scan(bs, c, start, i); i <= v <= d && StoppedAt(c, start, v, r, c')
    decreases d - i
  {
    hide Visit.Fetch, Visit.Valid, Visit.Live;
    var visited := c.assignment[ScanIndex(start, i, |c.assignment|)];
    VisitOutcome(bs(i), visited, c.Position(visited), c.group);
    var fetch := bs(i).Fetch(visited, c.Position(visited), c.group);
    if visited in c.paused {
      v := ScanStopsBy(bs, c, start, i + 1, d);
    } else if fetch.Ok? && fetch.value.Some? {
      v := i;
    } else if fetch.Err? && fetch.error.OffsetOutOfRange? {
      v := ScanStopsBy(bs, c.(position := c.position[visited := fetch.error.offset]), start, i + 1, d);
    } else {
      v := ScanStopsBy(bs, c, start, i + 1, d);
    }
  }

  lemma {:induction false} ScanKeepsPositions(bs: nat -> Visit, c: Consumer, start: nat, i: nat)
    requires start < |c.assignment|
    ensures c.position.Keys <= Scan(bs, c, start, i).1.position.Keys
    decreases |c.assignment| - i
  {
    hide Visit.Fetch;
    if i < |c.assignment| {
      var visited := c.assignment[ScanIndex(start, i, |c.assignment|)];
      var fetch := bs(i).Fetch(visited, c.Position(visited), c.group);
      if visited !in c.paused && fetch.Err? && fetch.error.OffsetOutOfRange? {
        ScanKeepsPositions(bs, c.(position := c.position[visited := fetch.error.offset]), start, i + 1);
      } else {
        ScanKeepsPositions(bs, c, start, i + 1);
      }
    }
  }

  /** A scan that reaches a deciding entry leaves it with a position; otherwise it stops before it. */
  lemma {:induction false} ScanPlacesBy(bs: nat -> Visit, c: Consumer, start: nat, i: nat, d: nat) returns (v: nat)
    requires start < |c.assignment| && i <= d < |c.assignment| && AlwaysLive(bs)
    requires var k := c.assignment[ScanIndex(start, d, |c.assignment|)];
             k !in c.paused && (k !in c.position ==> forall j: nat :: Decides(bs(j), k, c.group))
    ensures var (r, c') := Scan(bs, c, start, i);
            || c.assignment[ScanIndex(start, d, |c.assignment|)] in c'.position
            || (i <= v < d && StoppedAt(c, start, v, r, c'))
    decreases d - i
  {
    hide Visit.Fetch, Visit.Valid, Visit.Live;
    v := i;
    var k := c.assignment[ScanIndex(start, d, |c.assignment|)];
    var visited := c.assignment[ScanIndex(start, i, |c.assignment|)];
    VisitOutcome(bs(i), visited, c.Position(visited), c.group);
    var fetch := bs(i).Fetch(visited, c.Position(visited), c.group);
    ScanKeepsPositions(bs, c, start, i);
    if k in c.position {
    } else if visited in c.paused {
      v := ScanPlacesBy(bs, c, start, i + 1, d);
    } else if fetch.Ok? && fetch.value.Some? {
    } else if fetch.Err? && fetch.error.OffsetOutOfRange? {
      var c1 := c.(position := c.position[visited := fetch.error.offset]);
      ScanKeepsPositions(bs, c1, start, i + 1);
      if i < d {
        v := ScanPlacesBy(bs, c1, start, i + 1, d);
      }
    } else {
      v := ScanPlacesBy(bs, c, start, i + 1, d);
    }
  }

  // ---------------------------------------------------------------------------
  // Consecutive calls
  // ---------------------------------------------------------------------------

  /**
    Consecutive calls over the same assignment entries. Between the calls, and between any two
    locks within one, the broker, the pauses, the commits and other positions may change in any way.
  */
  ghost predicate Consecutive(calls: seq<Call>, assignment: seq<TopicPartition>) {
    && (forall j | 0 <= j < |calls| :: calls[j].before.assignment == assignment)
    && (forall j, j' | 0 <= j && j' == j + 1 < |calls| ::
          calls[j'].before.pollStart == calls[j].After().pollStart)
  }

  /** Nobody takes away the position of `k` between calls. */
  ghost predicate KeepsPlace(calls: seq<Call>, k: TopicPartition) {
    forall j, j' | 0 <= j && j' == j + 1 < |calls| ::
      k in calls[j].After().position ==> k in calls[j'].before.position
  }

  /** The entry that call `j` visits `d` steps after its start. */
  ghost function EntryAt(calls: seq<Call>, assignment: seq<TopicPartition>, j: nat, d: nat): TopicPartition
    requires j < |calls| && d < |assignment|
  {
    assignment[ScanIndex(calls[j].before.pollStart % |assignment|, d, |assignment|)]
  }

  lemma NextRoundStart(start: nat, v: nat, d: nat, n: nat)
    requires start < n && v < d < n
    ensures var next := (ScanIndex(start, v, n) + 1) % n;
            ScanIndex(next, d - v - 1, n) == ScanIndex(start, d, n)
  {
    hide ScanIndex;
    var after := ScanIndex(start, v, n) + 1;
    assert after % n == if after == n then 0 else after by {
      if after == n { WrapOnce(n, n); }
    }
  }

  /** A call that stops before the entry brings it strictly closer to the next call's start. */
  lemma StoppingBringsCloser(calls: seq<Call>, assignment: seq<TopicPartition>, j: nat, d: nat, v: nat)
    requires Consecutive(calls, assignment) && v < d < |assignment| && j + 1 < |calls|
    requires StoppedAt(calls[j].before, calls[j].before.pollStart % |assignment|, v,
                       calls[j].Result(), calls[j].After())
    ensures EntryAt(calls, assignment, j + 1, d - v - 1) == EntryAt(calls, assignment, j, d)
  {
    hide ScanIndex, PollOnce;
    assert calls[j + 1].before.pollStart == calls[j].After().pollStart;
    NextRoundStart(calls[j].before.pollStart % |assignment|, v, d, |assignment|);
  }

  lemma ReadyThroughout(call: Call, k: TopicPartition)
    requires call.KeepsReady(k)
    ensures k !in call.before.paused && AlwaysLive(call.bs)
    ensures forall i: nat :: Ready(call.bs(i), k, call.before.Position(k), call.before.group)
  {
  }

  lemma {:induction false} ServedWithin(calls: seq<Call>, assignment: seq<TopicPartition>, j: nat, d: nat)
    requires Consecutive(calls, assignment) && d < |assignment| && j + d < |calls|
    requires forall i | j <= i < |calls| :: calls[i].KeepsReady(EntryAt(calls, assignment, j, d))
    ensures exists i | j <= i <= j + d :: calls[i].Serves(EntryAt(calls, assignment, j, d))
    decreases d
  {
    hide ScanIndex, Scan, Call.KeepsReady;
    var k := EntryAt(calls, assignment, j, d);
    ReadyThroughout(calls[j], k);
    var v := ScanStopsBy(calls[j].bs, calls[j].before, calls[j].before.pollStart % |assignment|, 0, d);
    if v < d {
      StoppingBringsCloser(calls, assignment, j, d, v);
      ServedWithin(calls, assignment, j + 1, d - v - 1);
    } else {
      assert calls[j].Serves(k);
    }
  }

  /** How many visits ahead of call `j`'s start entry `e` lies. */
  lemma DistanceTo(calls: seq<Call>, assignment: seq<TopicPartition>, j: nat, e: nat) returns (d: nat)
    requires j < |calls| && e < |assignment|
    ensures d < |assignment| && EntryAt(calls, assignment, j, d) == assignment[e]
  {
    var n := |assignment|;
    var start := calls[j].before.pollStart % n;
    d := if start <= e then e - start else e - start + n;
    assert ScanIndex(start, d, n) == e;
  }

  /**
    Whatever happens elsewhere, an entry that every visit of `n` consecutive calls over `n` entries
    would fetch a message of is served by one of them. By ReadyIff that is: the offset the visit
    settles on first, its position if it has one, is still retained when the message is read.
  */
  lemma ReadyEntryIsServedWithinOneRound(calls: seq<Call>, assignment: seq<TopicPartition>, e: nat)
    requires Consecutive(calls, assignment) && |calls| == |assignment| && e < |assignment|
    requires forall i | 0 <= i < |calls| :: calls[i].KeepsReady(assignment[e])
    ensures exists i | 0 <= i < |calls| :: calls[i].Serves(assignment[e])
  {
    var d := DistanceTo(calls, assignment, 0, e);
    ServedWithin(calls, assignment, 0, d);
  }

  /** For an entry with a position, only the moments at which messages are read matter. */
  lemma InRangeIsReady(call: Call, k: TopicPartition)
    requires call.KeepsInRange(k)
    ensures call.KeepsReady(k)
  {
    forall i: nat ensures Ready(call.bs(i), k, call.before.Position(k), call.before.group) {
      ReadyIff(call.bs(i), k, call.before.Position(k), call.before.group);
    }
  }

  lemma {:induction false} PlacedWithin(calls: seq<Call>, assignment: seq<TopicPartition>, j: nat, d: nat)
    requires Consecutive(calls, assignment) && d < |assignment| && j + d < |calls|
    requires forall i | j <= i < |calls| ::
               var k := EntryAt(calls, assignment, j, d); calls[i].KeepsInRange(k) || calls[i].KeepsDeciding(k)
    ensures exists i | j <= i <= j + d :: EntryAt(calls, assignment, j, d) in calls[i].After().position
    decreases d
  {
    hide ScanIndex, Scan;
    var k := EntryAt(calls, assignment, j, d);
    assert calls[j].KeepsInRange(k) || calls[j].KeepsDeciding(k);
    var v := ScanPlacesBy(calls[j].bs, calls[j].before, calls[j].before.pollStart % |assignment|, 0, d);
    if k in calls[j].After().position {
    } else {
      StoppingBringsCloser(calls, assignment, j, d, v);
      PlacedWithin(calls, assignment, j + 1, d - v - 1);
    }
  }

  lemma {:induction false} StaysPlaced(calls: seq<Call>, assignment: seq<TopicPartition>, k: TopicPartition, i: nat, j: nat)
    requires Consecutive(calls, assignment) && KeepsPlace(calls, k) && i < j < |calls|
    requires k in calls[i].After().position
    ensures k in calls[j].before.position
    decreases j
  {
    if j > i + 1 {
      StaysPlaced(calls, assignment, k, i, j - 1);
      var c := calls[j - 1].before;
      if |c.assignment| > 0 {
        ScanKeepsPositions(calls[j - 1].bs, c, c.pollStart % |c.assignment|, 0);
      }
    }
    assert k in calls[j - 1].After().position ==> k in calls[j].before.position;
  }

  /**
    An entry that may start without a position is served within two rounds: each visit before it has
    one reads at an offset other than the end, so that it is served or reset, and afterwards its
    position stays retained whenever messages are read.
  */
  lemma UnplacedEntryIsServedWithinTwoRounds(calls: seq<Call>, assignment: seq<TopicPartition>, e: nat)
    requires Consecutive(calls, assignment) && |calls| == 2 * |assignment| && e < |assignment|
    requires KeepsPlace(calls, assignment[e])
    requires forall i | 0 <= i < |calls| ::
               calls[i].KeepsInRange(assignment[e]) || calls[i].KeepsDeciding(assignment[e])
    ensures exists i | 0 <= i < |calls| :: calls[i].Serves(assignment[e])
  {
    var n, k := |assignment|, assignment[e];
    var d := DistanceTo(calls, assignment, 0, e);
    PlacedWithin(calls, assignment, 0, d);
    var i :| 0 <= i <= d && k in calls[i].After().position;
    var d' := DistanceTo(calls, assignment, i + 1, e);
    forall j | i + 1 <= j < |calls| ensures calls[j].KeepsReady(k) {
      StaysPlaced(calls, assignment, k, i, j);
      InRangeIsReady(calls[j], k);
    }
    ServedWithin(calls, assignment, i + 1, d');
  }
}
