/**
  poll_once of src/base_consumer.rs as a function of the states the broker is in while the scan
  runs, and what repeated polls deliver.
*/
module Polling {
  import opened Arithmetic
  import opened Common
  import opened PartitionLog
  import opened BrokerState

  type Outcome = Option<Result<Message>>

  datatype Consumer = Consumer(
    group: Option<string>, assignment: seq<TopicPartition>,
    position: map<TopicPartition, int>, paused: set<TopicPartition>, pollStart: nat)
  {
    function Position(k: TopicPartition): Option<int> {
      if k in position then Some(position[k]) else None
    }

    predicate Active(k: TopicPartition) { k in assignment && k !in paused }

    ghost predicate AnyActive() { exists k :: Active(k) }

    ghost predicate SameSetup(other: Consumer) {
      group == other.group && assignment == other.assignment && paused == other.paused
    }
  }

  /** The i-th index visited by a scan that starts at `start`. */
  function ScanIndex(start: nat, i: nat, n: nat): (r: nat)
    requires start < n && i < n
    ensures r == if start + i < n then start + i else start + i - n
  {
    assert start + i >= n ==> (start + i) % n == start + i - n by {
      if start + i >= n { WrapOnce(start + i, n); }
    }
    (start + i) % n
  }

  /**
    The scan from its i-th visit on, `bs(i)` being the broker at that visit: skip paused entries
    and entries with nothing to read, reset out-of-range positions, stop at a message or an error.
  */
  ghost function Scan(bs: nat -> Visit, c: Consumer, start: nat, i: nat): (Outcome, Consumer)
    requires start < |c.assignment|
    decreases |c.assignment| - i
  {
    if i >= |c.assignment| then (None, c)
    else
      var idx := ScanIndex(start, i, |c.assignment|);
      var k := c.assignment[idx];
      if k in c.paused then Scan(bs, c, start, i + 1)
      else
        match bs(i).Fetch(k, c.Position(k), c.group)
        case Ok(Some(m)) =>
          (Some(Ok(m)), c.(position := c.position[k := m.offset + 1], pollStart := idx + 1))
        case Ok(None) => Scan(bs, c, start, i + 1)
        case Err(OffsetOutOfRange(_, _, o)) =>
          Scan(bs, c.(position := c.position[k := o]), start, i + 1)
        case Err(TopicNotFound(_)) => Scan(bs, c, start, i + 1)
        case Err(PartitionOutOfRange(_, _)) => Scan(bs, c, start, i + 1)
        case Err(e) => (Some(Err(e)), c)
  }

  /** A broker that nobody changes during the scan. */
  function Frozen(s: State): nat -> Visit { (_: nat) => Still(s) }

  ghost function PollOnce(bs: nat -> Visit, c: Consumer): (Outcome, Consumer) {
    if |c.assignment| == 0 then (None, c) else Scan(bs, c, c.pollStart % |c.assignment|, 0)
  }

  // ---------------------------------------------------------------------------
  // One poll against a quiescent broker
  // ---------------------------------------------------------------------------

  ghost function OwedTo(s: State, c: Consumer, k: TopicPartition): seq<Message>
    requires s.Valid()
  {
    s.Owed(k, c.Position(k), c.group)
  }

  /** The next fetch of `k` will not find its position out of range. */
  ghost predicate Settled(s: State, c: Consumer, k: TopicPartition) {
    var r := s.Fetch(k, c.Position(k), c.group);
    r.Err? ==> !r.error.OffsetOutOfRange?
  }

  /** From `c` to `c'` the consumer received `m`: its partition owes one less, the others the same. */
  ghost predicate Received(s: State, c: Consumer, c': Consumer, m: Message)
    requires s.Valid()
  {
    var k := TopicPartition(m.topic, m.partition);
    && c.Active(k)
    && OwedTo(s, c, k) == [m] + OwedTo(s, c', k)
    && (forall other | other != k :: OwedTo(s, c', other) == OwedTo(s, c, other))
  }

  ghost predicate NothingLost(s: State, c: Consumer, c': Consumer)
    requires s.Valid()
  {
    && (forall k :: OwedTo(s, c', k) == OwedTo(s, c, k))
    && (forall k | Settled(s, c, k) :: Settled(s, c', k))
  }

  /** What an unsuccessful visit of `k` shows: it is settled now, and if it already was, owes nothing. */
  ghost predicate Visited(s: State, c: Consumer, c': Consumer, k: TopicPartition)
    requires s.Valid()
  {
    k !in c.paused ==> Settled(s, c', k) && (Settled(s, c, k) ==> OwedTo(s, c, k) == [])
  }

  ghost predicate ScanResult(s: State, c: Consumer, start: nat, i: nat, r: Outcome, c': Consumer)
    requires s.Valid() && start < |c.assignment|
  {
    && c.SameSetup(c')
    && match r
       case Some(Ok(m)) => Received(s, c, c', m)
       case Some(Err(_)) => false
       case None =>
         && NothingLost(s, c, c') && c'.pollStart == c.pollStart
         && (forall j | i <= j < |c.assignment| ::
               Visited(s, c, c', c.assignment[ScanIndex(start, j, |c.assignment|)]))
  }

  lemma QuietVisit(s: State, c: Consumer, start: nat, i: nat, r: Outcome, c': Consumer)
    requires s.Valid() && start < |c.assignment| && i < |c.assignment|
    requires ScanResult(s, c, start, i + 1, r, c')
    requires var k := c.assignment[ScanIndex(start, i, |c.assignment|)];
             k !in c.paused ==> Settled(s, c, k) && OwedTo(s, c, k) == []
    ensures ScanResult(s, c, start, i, r, c')
  {
    hide Settled, OwedTo;
  }

  lemma ResetVisit(s: State, c: Consumer, o: int, start: nat, i: nat, r: Outcome, c': Consumer)
    requires s.Valid() && start < |c.assignment| && i < |c.assignment|
    requires var k := c.assignment[ScanIndex(start, i, |c.assignment|)];
             var c1 := c.(position := c.position[k := o]);
             && !Settled(s, c, k) && Settled(s, c1, k) && OwedTo(s, c1, k) == OwedTo(s, c, k)
             && ScanResult(s, c1, start, i + 1, r, c')
    ensures ScanResult(s, c, start, i, r, c')
  {
    hide Visit.Fetch, State.Owed;
    var k := c.assignment[ScanIndex(start, i, |c.assignment|)];
    var c1 := c.(position := c.position[k := o]);
    assert forall other | other != k :: c1.Position(other) == c.Position(other);
    assert forall other :: OwedTo(s, c1, other) == OwedTo(s, c, other);
    assert forall other | Settled(s, c, other) :: Settled(s, c1, other);
    if r == None {
      forall j | i <= j < |c.assignment|
        ensures Visited(s, c, c', c.assignment[ScanIndex(start, j, |c.assignment|)])
      {
        var kj := c.assignment[ScanIndex(start, j, |c.assignment|)];
        assert j > i ==> Visited(s, c1, c', kj);
      }
    }
  }

  lemma {:induction false} ScanOnQuiescentBroker(s: State, bs: nat -> Visit, c: Consumer, start: nat, i: nat)
    requires s.Valid() && s.Live() && start < |c.assignment| && forall j: nat :: bs(j) == Still(s)
    ensures var (r, c') := Scan(bs, c, start, i); ScanResult(s, c, start, i, r, c')
    decreases |c.assignment| - i
  {
    hide Visit.Fetch, State.Owed, ScanResult;
    if i >= |c.assignment| {
      assert ScanResult(s, c, start, i, None, c) by { NoVisit(s, c, start, i); }
    } else {
      var k := c.assignment[ScanIndex(start, i, |c.assignment|)];
      var (r, c') := Scan(bs, c, start, i);
      if k in c.paused {
        ScanOnQuiescentBroker(s, bs, c, start, i + 1);
        QuietVisit(s, c, start, i, r, c');
      } else {
        FetchServesOwed(s, k, c.Position(k), c.group);
        var fetch := s.Fetch(k, c.Position(k), c.group);
        if fetch.Ok? && fetch.value.Some? {
          DeliveringVisit(s, c, start, i, fetch.value.value);
        } else if fetch.Err? && fetch.error.OffsetOutOfRange? {
          var o := fetch.error.offset;
          ScanOnQuiescentBroker(s, bs, c.(position := c.position[k := o]), start, i + 1);
          ResetVisit(s, c, o, start, i, r, c');
        } else {
          ScanOnQuiescentBroker(s, bs, c, start, i + 1);
          QuietVisit(s, c, start, i, r, c');
        }
      }
    }
  }

  lemma NoVisit(s: State, c: Consumer, start: nat, i: nat)
    requires s.Valid() && start < |c.assignment| <= i
    ensures ScanResult(s, c, start, i, None, c)
  {
  }

  lemma DeliveringVisit(s: State, c: Consumer, start: nat, i: nat, m: Message)
    requires s.Valid() && s.Live() && start < |c.assignment| && i < |c.assignment|
    requires var k := c.assignment[ScanIndex(start, i, |c.assignment|)];
             k !in c.paused && s.Fetch(k, c.Position(k), c.group) == Ok(Some(m))
    ensures var idx := ScanIndex(start, i, |c.assignment|);
            var c' := c.(position := c.position[c.assignment[idx] := m.offset + 1], pollStart := idx + 1);
            ScanResult(s, c, start, i, Some(Ok(m)), c')
  {
    hide Visit.Fetch, State.Owed;
    var k := c.assignment[ScanIndex(start, i, |c.assignment|)];
    FetchServesOwed(s, k, c.Position(k), c.group);
  }

  // ---------------------------------------------------------------------------
  // Errors
  // ---------------------------------------------------------------------------

  /** The errors after which the scan goes on. */
  predicate Skippable(e: RmqError) {
    e.OffsetOutOfRange? || e.TopicNotFound? || e.PartitionOutOfRange?
  }

  /** Any other error of an unpaused entry ends the scan there and is returned, and nothing changes. */
  lemma OtherErrorsEndScan(bs: nat -> Visit, c: Consumer, start: nat, i: nat)
    requires start < |c.assignment| && i < |c.assignment|
    requires var k := c.assignment[ScanIndex(start, i, |c.assignment|)];
             var fetch := bs(i).Fetch(k, c.Position(k), c.group);
             k !in c.paused && fetch.Err? && !Skippable(fetch.error)
    ensures var k := c.assignment[ScanIndex(start, i, |c.assignment|)];
            Scan(bs, c, start, i) == (Some(Err(bs(i).Fetch(k, c.Position(k), c.group).error)), c)
  {
    hide Visit.Fetch;
  }

  /** And no error the scan goes on after is ever returned. */
  lemma {:induction false} SkippableErrorsAreNotReturned(bs: nat -> Visit, c: Consumer, start: nat, i: nat)
    requires start < |c.assignment|
    ensures var (r, c') := Scan(bs, c, start, i);
            r.Some? && r.value.Err? ==> !Skippable(r.value.error) && c'.pollStart == c.pollStart
    decreases |c.assignment| - i
  {
    hide Visit.Fetch;
    if i < |c.assignment| {
      var k := c.assignment[ScanIndex(start, i, |c.assignment|)];
      var fetch := bs(i).Fetch(k, c.Position(k), c.group);
      if k !in c.paused && fetch.Err? && fetch.error.OffsetOutOfRange? {
        SkippableErrorsAreNotReturned(bs, c.(position := c.position[k := fetch.error.offset]), start, i + 1);
      } else {
        SkippableErrorsAreNotReturned(bs, c, start, i + 1);
      }
    }
  }

  /** The broker, or its backend, is shut down during the whole visit. */
  ghost predicate ShutDown(v: Visit) {
    v.first.down || (v.marks.backendDown && v.read.backendDown)
  }

  lemma FetchAfterShutdown(v: Visit, k: TopicPartition, position: Option<int>, group: Option<string>)
    requires ShutDown(v)
    ensures v.Fetch(k, position, group) == Err(BrokerShutdown)
  {
  }

  /** Some entry from the i-th visit on is not paused. */
  ghost predicate Unpaused(c: Consumer, start: nat, i: nat)
    requires start < |c.assignment|
  {
    exists j | i <= j < |c.assignment| :: c.assignment[ScanIndex(start, j, |c.assignment|)] !in c.paused
  }

  lemma {:induction false} ScanAfterShutdown(bs: nat -> Visit, c: Consumer, start: nat, i: nat)
    requires start < |c.assignment| && forall j: nat :: ShutDown(bs(j))
    ensures Scan(bs, c, start, i) == (if Unpaused(c, start, i) then Some(Err(BrokerShutdown)) else None, c)
    decreases |c.assignment| - i
  {
    hide Visit.Fetch, ShutDown;
    if i < |c.assignment| {
      var k := c.assignment[ScanIndex(start, i, |c.assignment|)];
      if k in c.paused {
        ScanAfterShutdown(bs, c, start, i + 1);
        assert Unpaused(c, start, i) <==> Unpaused(c, start, i + 1) by {
          forall j | i <= j < |c.assignment| && c.assignment[ScanIndex(start, j, |c.assignment|)] !in c.paused
            ensures j >= i + 1
          {
          }
        }
      } else {
        FetchAfterShutdown(bs(i), k, c.Position(k), c.group);
        OtherErrorsEndScan(bs, c, start, i);
        assert Unpaused(c, start, i);
      }
    }
  }

  /** After a shutdown a poll reports it exactly when some entry is not paused, and changes nothing. */
  lemma PollAfterShutdown(bs: nat -> Visit, c: Consumer)
    requires forall j: nat :: ShutDown(bs(j))
    ensures PollOnce(bs, c) ==
            (if c.AnyActive() then Some(Err(BrokerShutdown)) else None, c)
  {
    hide ShutDown;
    var n := |c.assignment|;
    if n > 0 {
      var start := c.pollStart % n;
      ScanAfterShutdown(bs, c, start, 0);
      hide Scan;
      if k :| c.Active(k) {
        var idx :| 0 <= idx < n && c.assignment[idx] == k;
        var j := if start <= idx then idx - start else idx - start + n;
        assert ScanIndex(start, j, n) == idx;
        assert Unpaused(c, start, 0);
      }
      if Unpaused(c, start, 0) {
        var j :| 0 <= j < n && c.assignment[ScanIndex(start, j, n)] !in c.paused;
        assert c.Active(c.assignment[ScanIndex(start, j, n)]);
      }
    }
  }

  // ---------------------------------------------------------------------------
  // Draining a quiescent broker
  // ---------------------------------------------------------------------------

  /** Everything owed over the first `n` assignment entries. */
  ghost function Pending(s: State, c: Consumer, n: nat): nat
    requires s.Valid() && n <= |c.assignment|
  {
    if n == 0 then 0
    else
      var k := c.assignment[n - 1];
      Pending(s, c, n - 1) + if k in c.paused then 0 else |OwedTo(s, c, k)|
  }

  lemma {:induction false} ReceivingLowersPending(s: State, c: Consumer, c': Consumer, m: Message, n: nat)
    requires s.Valid() && n <= |c.assignment| && c.SameSetup(c') && Received(s, c, c', m)
    ensures Pending(s, c', n) <= Pending(s, c, n)
    ensures TopicPartition(m.topic, m.partition) in c.assignment[..n] ==> Pending(s, c', n) < Pending(s, c, n)
  {
    hide OwedTo;
    if n > 0 {
      ReceivingLowersPending(s, c, c', m, n - 1);
      var k := c.assignment[n - 1];
      var key := TopicPartition(m.topic, m.partition);
      assert c.assignment[..n] == c.assignment[..n - 1] + [k];
      assert k != key ==> OwedTo(s, c', k) == OwedTo(s, c, k);
    }
  }

  lemma {:induction false} SameOwedSamePending(s: State, c: Consumer, c': Consumer, n: nat)
    requires s.Valid() && n <= |c.assignment| && c.SameSetup(c') && NothingLost(s, c, c')
    ensures Pending(s, c', n) == Pending(s, c, n)
  {
    hide OwedTo;
    if n > 0 {
      SameOwedSamePending(s, c, c', n - 1);
      assert OwedTo(s, c', c.assignment[n - 1]) == OwedTo(s, c, c.assignment[n - 1]);
    }
  }

  ghost predicate AllSettled(s: State, c: Consumer) {
    forall k | c.Active(k) :: Settled(s, c, k)
  }

  /** What one poll of a quiescent, live broker does. */
  lemma PollOnQuiescentBroker(s: State, bs: nat -> Visit, c: Consumer)
    requires s.Valid() && s.Live() && forall j: nat :: bs(j) == Still(s)
    ensures var (r, c') := PollOnce(bs, c);
            && c.SameSetup(c')
            && match r
               case Some(Ok(m)) =>
                 Received(s, c, c', m) && Pending(s, c', |c.assignment|) < Pending(s, c, |c.assignment|)
               case Some(Err(_)) => false
               case None =>
                 && NothingLost(s, c, c') && c'.pollStart == c.pollStart
                 && Pending(s, c', |c.assignment|) == Pending(s, c, |c.assignment|)
                 && AllSettled(s, c')
                 && (AllSettled(s, c) ==> forall k | c.Active(k) :: OwedTo(s, c, k) == [])
  {
    hide Settled, OwedTo, Scan;
    var n := |c.assignment|;
    var (r, c') := PollOnce(bs, c);
    if n == 0 {
      assert NothingLost(s, c, c);
    } else {
      var start := c.pollStart % n;
      ScanOnQuiescentBroker(s, bs, c, start, 0);
      match r
      case Some(Ok(m)) =>
        assert c.assignment[..n] == c.assignment;
        ReceivingLowersPending(s, c, c', m, n);
      case Some(Err(_)) =>
      case None =>
        SameOwedSamePending(s, c, c', n);
        forall k | c.Active(k) ensures Visited(s, c, c', k) {
          var idx :| 0 <= idx < n && c.assignment[idx] == k;
          var j := if start <= idx then idx - start else idx - start + n;
          assert ScanIndex(start, j, n) == idx;
        }
        forall k | c'.Active(k) ensures Settled(s, c', k) {
          assert c.Active(k) && Visited(s, c, c', k);
        }
    }
  }
}
