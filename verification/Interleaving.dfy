/**
  One polling thread against a broker that other threads change at any moment: between two steps
  any number of appends, evictions, topic creations, commits and joins may happen. A step spans the
  locks (src/base_consumer.rs, src/broker.rs, src/partition.rs) up to the one whose content it uses.
  FetchOne, for one, uses the partition's log, and the topic it is looked up in is never replaced.
  Begin merges the position lookup with the read of the committed offset or of the watermarks: only
  the polling thread itself stores positions, so the lookup sees the same position at either
  moment, and which of the two reads happens is left open (`fromCommit`), so that a commit slipping
  in between is covered. Shutdown checks come earlier than the reads they guard, so reads ignore the
  flags, and GiveUp abandons a visit at any moment, as a failed check does.
*/
module Interleaving {
  import opened Common
  import opened PartitionLog
  import opened Clusters
  import opened BrokerState
  import opened Polling

  /** Where the polling thread is between two lock acquisitions. */
  datatype Pc =
    | Idle
    | Fetching(k: TopicPartition, offset: int)
    | Recovering(k: TopicPartition)
    | Resetting(k: TopicPartition, oldest: int)
    | Delivering(k: TopicPartition, offset: int, floor: nat)

  /**
    What the application sees. Placed: reading of `k` starts at `offset`, by seek, store_offset or
    for lack of a position; `reachable` says that the offset did not lie past the log's end.
    Received: a message arrived that was fetched when `floor` was the oldest retained offset.
  */
  datatype Event =
    | Placed(k: TopicPartition, offset: int, reachable: bool)
    | Received(k: TopicPartition, offset: int, floor: nat)

  datatype Machine = Machine(s: State, position: map<TopicPartition, int>, pc: Pc, trace: seq<Event>)

  datatype Step =
    | Others(s': State)
    | Begin(k: TopicPartition, fromCommit: bool)
    | FetchOne
    | ReadOldest
    | StoreReset
    | Deliver
    | GiveUp
    | Place(k: TopicPartition, offset: int)
    | ClearPositions

  ghost predicate Reachable(s: State, k: TopicPartition, offset: int) {
    HasPartition(s.topics, k) && offset <= |LogAt(s.topics, k).all|
  }

  /** The same broker with the shutdown flags down. */
  ghost function Awake(s: State): State { s.(down := false, backendDown := false) }

  ghost predicate CanCommitted(s: State, group: Option<string>, k: TopicPartition) {
    group.Some? && group.value in s.groups && (group.value, k) in s.offsets
  }

  ghost predicate Enabled(group: Option<string>, m: Machine, step: Step) {
    match step
    case Others(s') => Grows(m.s.topics, s'.topics)
    case Begin(k, fromCommit) =>
      m.pc.Idle? && (k !in m.position && fromCommit ==> CanCommitted(m.s, group, k))
    case FetchOne => m.pc.Fetching?
    case ReadOldest => m.pc.Recovering?
    case StoreReset => m.pc.Resetting?
    case Deliver => m.pc.Delivering?
    case GiveUp => m.pc.Fetching? || m.pc.Recovering?
    case Place(_, _) => m.pc.Idle?
    case ClearPositions => m.pc.Idle?
  }

  ghost function Next(group: Option<string>, m: Machine, step: Step): Machine
    requires Enabled(group, m, step)
  {
    match step
    case Others(s') => m.(s := s')
    case Begin(k, fromCommit) =>
      if k in m.position then m.(pc := Fetching(k, m.position[k]))
      else
        var start := if fromCommit then Ok(m.s.offsets[(group.value, k)] + 1) else Awake(m.s).Oldest(k);
        if start.Err? then m
        else m.(pc := Fetching(k, start.value),
                trace := m.trace + [Placed(k, start.value, Reachable(m.s, k, start.value))])
    case FetchOne =>
      (match Awake(m.s).FetchOne(m.pc.k, m.pc.offset)
       case Ok(Some(msg)) => m.(pc := Delivering(m.pc.k, msg.offset, LogAt(m.s.topics, m.pc.k).lo))
       case Err(OffsetOutOfRange(_, _, _)) => m.(pc := Recovering(m.pc.k))
       case _ => m.(pc := Idle))
    case ReadOldest =>
      (match Awake(m.s).Oldest(m.pc.k)
       case Ok(oldest) => m.(pc := Resetting(m.pc.k, oldest))
       case Err(_) => m.(pc := Idle))
    case StoreReset => m.(position := m.position[m.pc.k := m.pc.oldest], pc := Idle)
    case Deliver =>
      m.(position := m.position[m.pc.k := m.pc.offset + 1], pc := Idle,
         trace := m.trace + [Received(m.pc.k, m.pc.offset, m.pc.floor)])
    case GiveUp => m.(pc := Idle)
    case Place(k, offset) =>
      m.(position := m.position[k := offset],
         trace := m.trace + [Placed(k, offset, Reachable(m.s, k, offset))])
    case ClearPositions => m.(position := map[])
  }

  ghost predicate Runs(group: Option<string>, m: Machine, steps: seq<Step>)
    decreases |steps|
  {
    steps != [] ==> Enabled(group, m, steps[0]) && Runs(group, Next(group, m, steps[0]), steps[1..])
  }

  ghost function Run(group: Option<string>, m: Machine, steps: seq<Step>): Machine
    requires Runs(group, m, steps)
    decreases |steps|
  {
    if steps == [] then m else Run(group, Next(group, m, steps[0]), steps[1..])
  }

  // ---------------------------------------------------------------------------
  // The invariant
  // ---------------------------------------------------------------------------

  function Max(a: int, b: int): int { if a < b then b else a }

  /** The next offset owed for `k` by the last event about it, if that event made a promise. */
  ghost function Debt(trace: seq<Event>, k: TopicPartition): Option<int> {
    if trace == [] then None
    else
      var last := trace[|trace| - 1];
      if last.k != k then Debt(trace[..|trace| - 1], k)
      else if last.Received? then Some(last.offset + 1)
      else if last.reachable then Some(last.offset)
      else None
  }

  /** `p` and the owed offset `w` select the same retained messages. */
  ghost predicate Anchored(l: Log, w: int, p: int) {
    w <= |l.all| && w <= Max(p, l.lo) && p <= Max(w, l.lo)
  }

  ghost predicate PcInv(m: Machine) {
    match m.pc
    case Idle => true
    case Fetching(k, o) =>
      Debt(m.trace, k).Some? ==> HasPartition(m.s.topics, k) && Anchored(LogAt(m.s.topics, k), Debt(m.trace, k).value, o)
    case Recovering(k) =>
      Debt(m.trace, k).Some? ==> HasPartition(m.s.topics, k) && Debt(m.trace, k).value <= LogAt(m.s.topics, k).lo
    case Resetting(k, oldest) =>
      HasPartition(m.s.topics, k) && oldest <= LogAt(m.s.topics, k).lo &&
      (Debt(m.trace, k).Some? ==> Debt(m.trace, k).value <= LogAt(m.s.topics, k).lo)
    case Delivering(k, offset, floor) =>
      && HasPartition(m.s.topics, k) && offset < |LogAt(m.s.topics, k).all|
      && (Debt(m.trace, k).Some? ==> offset == Max(Debt(m.trace, k).value, floor))
  }

  ghost predicate PositionInv(m: Machine, k: TopicPartition) {
    k in m.position && Debt(m.trace, k).Some? ==>
      HasPartition(m.s.topics, k) && Anchored(LogAt(m.s.topics, k), Debt(m.trace, k).value, m.position[k])
  }

  /** Every delivery is the owed offset, or the oldest retained one if that is already evicted. */
  ghost predicate TraceInv(trace: seq<Event>) {
    forall j | 0 <= j < |trace| && trace[j].Received? ::
      var w := Debt(trace[..j], trace[j].k);
      w.Some? ==> trace[j].offset == Max(w.value, trace[j].floor)
  }

  ghost predicate Inv(m: Machine) {
    m.s.Valid() && PcInv(m) && (forall k :: PositionInv(m, k)) && TraceInv(m.trace)
  }

  lemma DebtAfter(trace: seq<Event>, e: Event, k: TopicPartition)
    ensures Debt(trace + [e], k) ==
            if e.k != k then Debt(trace, k)
            else if e.Received? then Some(e.offset + 1)
            else if e.reachable then Some(e.offset)
            else None
  {
    assert (trace + [e])[..|trace|] == trace;
  }

  lemma TraceInvAfter(trace: seq<Event>, e: Event)
    requires TraceInv(trace)
    requires e.Received? && Debt(trace, e.k).Some? ==> e.offset == Max(Debt(trace, e.k).value, e.floor)
    ensures TraceInv(trace + [e])
  {
    var t := trace + [e];
    forall j | 0 <= j < |t| && t[j].Received? && Debt(t[..j], t[j].k).Some?
      ensures t[j].offset == Max(Debt(t[..j], t[j].k).value, t[j].floor)
    {
      if j < |trace| {
        assert t[..j] == trace[..j] && t[j] == trace[j];
      } else {
        assert t[..j] == trace;
      }
    }
  }

  lemma OthersKeepInv(m: Machine, s': State)
    requires Inv(m) && Grows(m.s.topics, s'.topics)
    ensures Inv(m.(s := s'))
  {
    var m' := m.(s := s');
    forall k ensures PositionInv(m', k) {
      assert PositionInv(m, k);
    }
  }

  lemma EventKeepsOtherPositions(m: Machine, e: Event)
    requires Inv(m)
    ensures forall k | k != e.k :: PositionInv(m.(trace := m.trace + [e]), k)
  {
    forall k | k != e.k ensures PositionInv(m.(trace := m.trace + [e]), k) {
      DebtAfter(m.trace, e, k);
      assert PositionInv(m, k);
    }
  }

  lemma PlacedKeepsInv(m: Machine, k: TopicPartition, offset: int, position': map<TopicPartition, int>, pc': Pc)
    requires Inv(m) && (pc' == Idle || pc' == Fetching(k, offset))
    requires position' == m.position[k := offset] || (k !in m.position && position' == m.position)
    ensures var e := Placed(k, offset, Reachable(m.s, k, offset));
            Inv(Machine(m.s, position', pc', m.trace + [e]))
  {
    var e := Placed(k, offset, Reachable(m.s, k, offset));
    var m' := Machine(m.s, position', pc', m.trace + [e]);
    DebtAfter(m.trace, e, k);
    TraceInvAfter(m.trace, e);
    EventKeepsOtherPositions(m, e);
    hide Debt;
    forall x ensures PositionInv(m', x) {
      assert x != k ==> PositionInv(m.(trace := m.trace + [e]), x);
    }
  }

  lemma DeliverKeepsInv(group: Option<string>, m: Machine)
    requires Inv(m) && m.pc.Delivering?
    ensures Inv(Next(group, m, Deliver))
  {
    var e := Received(m.pc.k, m.pc.offset, m.pc.floor);
    var m' := Next(group, m, Deliver);
    DebtAfter(m.trace, e, e.k);
    TraceInvAfter(m.trace, e);
    EventKeepsOtherPositions(m, e);
    hide Debt;
    forall x ensures PositionInv(m', x) {
      assert x != e.k ==> PositionInv(m.(trace := m.trace + [e]), x);
    }
  }

  lemma StepKeepsInv(group: Option<string>, m: Machine, step: Step)
    requires Inv(m) && Enabled(group, m, step)
    ensures Inv(Next(group, m, step))
  {
    var m' := Next(group, m, step);
    hide Debt;
    match step
    case Others(s') => OthersKeepInv(m, s');
    case Begin(k, fromCommit) =>
      if k in m.position {
        assert PositionInv(m, k);
      } else if m' != m {
        PlacedKeepsInv(m, k, m'.pc.offset, m.position, m'.pc);
      }
      assert forall x :: PositionInv(m, x) ==> m'.trace == m.trace ==> PositionInv(m', x);
    case FetchOne =>
      assert forall x :: PositionInv(m, x) ==> PositionInv(m', x);
    case ReadOldest =>
      assert forall x :: PositionInv(m, x) ==> PositionInv(m', x);
    case StoreReset =>
      assert forall x :: PositionInv(m, x) ==> PositionInv(m', x);
    case GiveUp =>
      assert forall x :: PositionInv(m, x) ==> PositionInv(m', x);
    case Deliver => DeliverKeepsInv(group, m);
    case Place(k, offset) => PlacedKeepsInv(m, k, offset, m'.position, Idle);
    case ClearPositions =>
  }

  lemma {:induction false} RunKeepsInv(group: Option<string>, m: Machine, steps: seq<Step>)
    requires Inv(m) && Runs(group, m, steps)
    ensures Inv(Run(group, m, steps))
    decreases |steps|
  {
    if steps != [] {
      StepKeepsInv(group, m, steps[0]);
      RunKeepsInv(group, Next(group, m, steps[0]), steps[1..]);
    }
  }

  // ---------------------------------------------------------------------------
  // Order, and no silent loss
  // ---------------------------------------------------------------------------

  ghost predicate Initial(m: Machine) {
    m.s.Valid() && m.position == map[] && m.pc.Idle? && m.trace == []
  }

  /** The first offset an event leaves to be received. */
  function From(e: Event): int { if e.Received? then e.offset + 1 else e.offset }

  /** `k` is not placed anew strictly between events `i` and `j`. */
  ghost predicate Undisturbed(trace: seq<Event>, k: TopicPartition, i: nat, j: nat)
    requires j <= |trace|
  {
    forall p | i < p < j && trace[p].k == k :: trace[p].Received?
  }

  /** Offset `x` of `k` was received, or its eviction was known when a later offset was fetched. */
  ghost predicate AccountedFor(trace: seq<Event>, k: TopicPartition, x: int, i: nat, j: nat)
    requires j < |trace|
  {
    exists p | i < p <= j ::
      trace[p].k == k && trace[p].Received? && (trace[p].offset == x || x < trace[p].floor)
  }

  /** The last event about `k` before `j`, which decides the debt at `j`. */
  lemma {:induction false} LastEvent(trace: seq<Event>, k: TopicPartition, i: nat, j: nat) returns (p: nat)
    requires i < j <= |trace| && trace[i].k == k
    ensures i <= p < j && trace[p].k == k
    ensures trace[p].Received? || trace[p].reachable ==> Debt(trace[..j], k) == Some(From(trace[p]))
    decreases j
  {
    assert trace[..j][..j - 1] == trace[..j - 1];
    if trace[j - 1].k == k {
      p := j - 1;
    } else {
      p := LastEvent(trace, k, i, j - 1);
    }
  }

  lemma {:induction false} DeliveriesFollow(trace: seq<Event>, i: nat, j: nat)
    requires TraceInv(trace) && i < j < |trace| && trace[i].k == trace[j].k
    requires trace[i].Received? || trace[i].reachable
    requires trace[j].Received? && Undisturbed(trace, trace[i].k, i, j)
    ensures From(trace[i]) <= trace[j].offset
    ensures forall x | From(trace[i]) <= x < trace[j].offset :: AccountedFor(trace, trace[i].k, x, i, j)
    decreases j
  {
    var k := trace[i].k;
    var p := LastEvent(trace, k, i, j);
    assert trace[j].offset == Max(From(trace[p]), trace[j].floor);
    if p > i {
      DeliveriesFollow(trace, i, p);
    }
    forall x | From(trace[i]) <= x < trace[j].offset ensures AccountedFor(trace, k, x, i, j) {
      if x >= From(trace[p]) {
        assert x < trace[j].floor;
      } else if x == trace[p].offset {
      } else {
        assert AccountedFor(trace, k, x, i, p);
      }
    }
  }

  /** Any two events of a run, as long as no other Placed event of the partition lies between them. */
  lemma DeliveriesFollowInEveryRun(group: Option<string>, m: Machine, steps: seq<Step>, i: nat, j: nat)
    requires Initial(m) && Runs(group, m, steps)
    requires var trace := Run(group, m, steps).trace;
             && i < j < |trace| && trace[i].k == trace[j].k
             && (trace[i].Received? || trace[i].reachable)
             && trace[j].Received? && Undisturbed(trace, trace[i].k, i, j)
    ensures var trace := Run(group, m, steps).trace;
            && From(trace[i]) <= trace[j].offset
            && forall x | From(trace[i]) <= x < trace[j].offset :: AccountedFor(trace, trace[i].k, x, i, j)
  {
    RunKeepsInv(group, m, steps);
    DeliveriesFollow(Run(group, m, steps).trace, i, j);
  }

  /** The caller neither moves the position of `k` nor replaces the assignment. */
  ghost predicate LeavesAlone(steps: seq<Step>, k: TopicPartition) {
    forall i | 0 <= i < |steps| :: !steps[i].ClearPositions? && (steps[i].Place? ==> steps[i].k != k)
  }

  /** Once `k` has a position, polling only ever adds deliveries of `k`, and keeps the position. */
  lemma {:induction false} PollingOnlyReceives(group: Option<string>, m: Machine, steps: seq<Step>, k: TopicPartition)
    requires Runs(group, m, steps) && LeavesAlone(steps, k) && k in m.position
    ensures var m' := Run(group, m, steps);
            && k in m'.position && m.trace <= m'.trace
            && forall p | |m.trace| <= p < |m'.trace| && m'.trace[p].k == k :: m'.trace[p].Received?
    decreases |steps|
  {
    if steps != [] {
      var m1 := Next(group, m, steps[0]);
      assert !steps[0].ClearPositions? && (steps[0].Place? ==> steps[0].k != k);
      assert k in m1.position && m.trace <= m1.trace;
      assert forall p | |m.trace| <= p < |m1.trace| && m1.trace[p].k == k :: m1.trace[p].Received?;
      assert LeavesAlone(steps[1..], k);
      hide Next, Enabled;
      PollingOnlyReceives(group, m1, steps[1..], k);
      var m' := Run(group, m1, steps[1..]);
      forall p | |m.trace| <= p < |m'.trace| && m'.trace[p].k == k ensures m'.trace[p].Received? {
        if p < |m1.trace| {
          assert m'.trace[p] == m1.trace[p];
        }
      }
    }
  }

  /** `step` delivers a message of `k`, or moves its position to an offset not past the log's end. */
  ghost predicate Anchors(m: Machine, step: Step, k: TopicPartition) {
    || (step.Deliver? && m.pc.Delivering? && m.pc.k == k)
    || (step.Place? && step.k == k && Reachable(m.s, k, step.offset))
  }

  /**
    In every interleaving: after a delivery of a partition, or after a seek or store_offset that does
    not point past the end, and as long as the caller does not move its position or replace the
    assignment, the offsets received from it strictly increase, and every offset in between was received
    too or was already evicted when a later one was fetched.
  */
  lemma OrderedAndNothingLostSilently(group: Option<string>, m: Machine, before: seq<Step>, step: Step,
                                      after: seq<Step>, k: TopicPartition, j: nat)
    requires Initial(m) && Runs(group, m, before)
    requires var m1 := Run(group, m, before);
             && Enabled(group, m1, step) && Anchors(m1, step, k)
             && Runs(group, Next(group, m1, step), after) && LeavesAlone(after, k)
             && var trace := Run(group, Next(group, m1, step), after).trace;
                |m1.trace| < j < |trace| && trace[j].Received? && trace[j].k == k
    ensures var m1 := Run(group, m, before);
            var trace, i := Run(group, Next(group, m1, step), after).trace, |m1.trace|;
            && From(trace[i]) <= trace[j].offset
            && forall x | From(trace[i]) <= x < trace[j].offset :: AccountedFor(trace, k, x, i, j)
  {
    var m1 := Run(group, m, before);
    var m2 := Next(group, m1, step);
    var m' := Run(group, m2, after);
    RunKeepsInv(group, m, before);
    StepKeepsInv(group, m1, step);
    RunKeepsInv(group, m2, after);
    var i := |m1.trace|;
    assert k in m2.position && |m2.trace| == i + 1 && m2.trace[i].k == k;
    assert m2.trace[i].Received? || m2.trace[i].reachable;
    PollingOnlyReceives(group, m2, after, k);
    assert m'.trace[i] == m2.trace[i];
    hide Next, Run, Runs, Enabled, PcInv, PositionInv;
    DeliveriesFollow(m'.trace, i, j);
  }

  // ---------------------------------------------------------------------------
  // A visit of poll_once is a run of this machine
  // ---------------------------------------------------------------------------

  /** The steps one visit of `k` takes when nobody interferes. */
  ghost function VisitSteps(s: State, c: Consumer, k: TopicPartition): seq<Step> {
    var begin := Begin(k, CanCommitted(s, c.group, k));
    if s.StartOffset(k, c.Position(k), c.group).Err? then [begin]
    else
      match s.Fetch(k, c.Position(k), c.group)
      case Ok(Some(_)) => [begin, FetchOne, Deliver]
      case Err(OffsetOutOfRange(_, _, _)) => [begin, FetchOne, ReadOldest, StoreReset]
      case _ => [begin, FetchOne]
  }

  /** Undisturbed, the machine's steps leave the position a visit of the scan leaves. */
  lemma VisitIsRun(s: State, c: Consumer, k: TopicPartition, trace: seq<Event>)
    requires s.Valid() && s.Live()
    ensures var m, steps := Machine(s, c.position, Idle, trace), VisitSteps(s, c, k);
            Runs(c.group, m, steps) &&
            var m' := Run(c.group, m, steps);
            && m'.s == s && m'.pc == Idle
            && match s.Fetch(k, c.Position(k), c.group)
               case Ok(Some(msg)) =>
                 && m'.position == c.position[k := msg.offset + 1]
                 && m'.trace != [] && var e := m'.trace[|m'.trace| - 1];
                    e.Received? && e.k == k && e.offset == msg.offset
               case Err(OffsetOutOfRange(_, _, o)) => m'.position == c.position[k := o]
               case _ => m'.position == c.position
  {
    hide Runs, Run, State.Owed, Log.ReadOne;
    var g := c.group;
    assert Awake(s) == s;
    var m := Machine(s, c.position, Idle, trace);
    var begin := Begin(k, CanCommitted(s, g, k));
    var m1 := Next(g, m, begin);
    FetchServesOwed(s, k, c.Position(k), g);
    if s.StartOffset(k, c.Position(k), g).Err? {
      Last(g, m, begin);
    } else {
      var m2 := Next(g, m1, FetchOne);
      var fetch := s.Fetch(k, c.Position(k), g);
      if fetch.Ok? && fetch.value.Some? {
        Last(g, m2, Deliver);
        assert [FetchOne] + [Deliver] == [FetchOne, Deliver];
        assert [begin] + [FetchOne, Deliver] == [begin, FetchOne, Deliver];
        Prepend(g, m1, FetchOne, [Deliver]);
        Prepend(g, m, begin, [FetchOne, Deliver]);
      } else if fetch.Err? && fetch.error.OffsetOutOfRange? {
        var m3 := Next(g, m2, ReadOldest);
        Last(g, m3, StoreReset);
        assert [ReadOldest] + [StoreReset] == [ReadOldest, StoreReset];
        assert [FetchOne] + [ReadOldest, StoreReset] == [FetchOne, ReadOldest, StoreReset];
        assert [begin] + [FetchOne, ReadOldest, StoreReset] == [begin, FetchOne, ReadOldest, StoreReset];
        Prepend(g, m2, ReadOldest, [StoreReset]);
        Prepend(g, m1, FetchOne, [ReadOldest, StoreReset]);
        Prepend(g, m, begin, [FetchOne, ReadOldest, StoreReset]);
      } else {
        Last(g, m1, FetchOne);
        assert [begin] + [FetchOne] == [begin, FetchOne];
        Prepend(g, m, begin, [FetchOne]);
      }
    }
  }

  lemma Last(group: Option<string>, m: Machine, step: Step)
    requires Enabled(group, m, step)
    ensures Runs(group, m, [step]) && Run(group, m, [step]) == Next(group, m, step)
  {
  }

  lemma Prepend(group: Option<string>, m: Machine, step: Step, rest: seq<Step>)
    requires Enabled(group, m, step) && Runs(group, Next(group, m, step), rest)
    ensures Runs(group, m, [step] + rest)
    ensures Run(group, m, [step] + rest) == Run(group, Next(group, m, step), rest)
  {
    hide Next, Enabled;
    assert ([step] + rest)[1..] == rest;
  }
}
