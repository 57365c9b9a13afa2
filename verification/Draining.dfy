/**
  Repeated polls of a quiescent broker, and what seek and commit (src/base_consumer.rs,
  src/consumer.rs) make them deliver.
*/
module Draining {
  import opened Common
  import opened PartitionLog
  import opened BrokerState
  import opened Polling

  /** The messages of one partition, in the order received. */
  function Of(ms: seq<Message>, k: TopicPartition): seq<Message> {
    if ms == [] then []
    else (if TopicPartition(ms[0].topic, ms[0].partition) == k then [ms[0]] else []) + Of(ms[1..], k)
  }

  /** Polls until two consecutive polls return nothing; `quiet` says the previous one did. */
  ghost function Drain(s: State, c: Consumer, quiet: bool): (seq<Message>, Consumer)
    requires s.Valid() && s.Live()
    decreases Pending(s, c, |c.assignment|), if quiet then 0 else 1
  {
    var bs := Frozen(s);
    PollOnQuiescentBroker(s, bs, c);
    var (r, c') := PollOnce(bs, c);
    if r.Some? && r.value.Ok? then
      var (rest, end) := Drain(s, c', false);
      ([r.value.value] + rest, end)
    else if quiet then ([], c')
    else Drain(s, c', true)
  }

  /**
    Draining delivers, for every active partition, exactly what is owed to the consumer, once each
    and in order, delivers nothing else, and leaves nothing owed.
  */
  lemma {:induction false} DrainDeliversOwed(s: State, c: Consumer, quiet: bool)
    requires s.Valid() && s.Live() && (quiet ==> AllSettled(s, c))
    ensures var (ms, end) := Drain(s, c, quiet);
            && c.SameSetup(end)
            && forall k :: Of(ms, k) == (if c.Active(k) then OwedTo(s, c, k) else [])
                           && (c.Active(k) ==> OwedTo(s, end, k) == [])
    decreases Pending(s, c, |c.assignment|), if quiet then 0 else 1
  {
    hide OwedTo, PollOnce, Settled;
    var bs := Frozen(s);
    PollOnQuiescentBroker(s, bs, c);
    var (r, c') := PollOnce(bs, c);
    var (ms, end) := Drain(s, c, quiet);
    if r.Some? && r.value.Ok? {
      DrainDeliversOwed(s, c', false);
      var m := r.value.value;
      var key := TopicPartition(m.topic, m.partition);
      assert ms[0] == m && ms[1..] == Drain(s, c', false).0;
      forall k
        ensures Of(ms, k) == (if c.Active(k) then OwedTo(s, c, k) else [])
                && (c.Active(k) ==> OwedTo(s, end, k) == [])
      {
        assert Of(ms, k) == (if key == k then [m] else []) + Of(ms[1..], k);
        assert c'.Active(k) == c.Active(k);
      }
    } else if quiet {
    } else {
      DrainDeliversOwed(s, c', true);
      forall k
        ensures Of(ms, k) == (if c.Active(k) then OwedTo(s, c, k) else [])
                && (c.Active(k) ==> OwedTo(s, end, k) == [])
      {
        assert c'.Active(k) == c.Active(k);
      }
    }
  }

  // ---------------------------------------------------------------------------
  // Seek
  // ---------------------------------------------------------------------------

  datatype Offset = Beginning | End | Stored | At(offset: int) | Tail(count: int)

  /** The offset a group has committed for a partition. */
  ghost function Committed(s: State, group: string, k: TopicPartition): Result<Option<int>> {
    if s.down then Err(BrokerShutdown)
    else if group !in s.groups then Err(GroupNotFound(group))
    else Ok(if (group, k) in s.offsets then Some(s.offsets[(group, k)]) else None)
  }

  /** The position a seek stores. */
  ghost function SeekTarget(s: State, group: Option<string>, k: TopicPartition, to: Offset): Result<int> {
    match to
    case At(o) => Ok(o)
    case Stored =>
      if group.None? then Ok(0)
      else
        (match Committed(s, group.value, k)
         case Ok(Some(o)) => Ok(o)
         case Ok(None) => Ok(0)
         case Err(e) => Err(e))
    case _ =>
      match s.Find(k)
      case Err(e) => Err(e)
      case Ok(l) =>
        Ok(match to
           case Beginning => l.Oldest()
           case End => |l.all|
           case Tail(n) => if |l.all| - n > 0 then |l.all| - n else 0
           case _ => 0)
  }

  function MoveTo(c: Consumer, k: TopicPartition, offset: int): Consumer {
    c.(position := c.position[k := offset])
  }

  /** The last `n` messages of a sequence, or all of them if there are fewer. */
  function Last<T>(ms: seq<T>, n: nat): seq<T> {
    if |ms| <= n then ms else ms[|ms| - n..]
  }

  /**
    Seeking to a tail of `t` and draining yields exactly the last `t` retained messages, or all
    of them if fewer are retained; a negative tail points past the end and replays everything.
  */
  lemma SeekTailThenDrain(s: State, c: Consumer, k: TopicPartition, t: int)
    requires s.Valid() && s.Live() && c.Active(k) && s.Find(k).Ok?
    ensures var l, target := s.Find(k).value, SeekTarget(s, c.group, k, Tail(t));
            target.Ok? &&
            Of(Drain(s, MoveTo(c, k, target.value), false).0, k) ==
            if t >= 0 then Last(l.Retained(), t) else l.Retained()
  {
    var l, target := s.Find(k).value, SeekTarget(s, c.group, k, Tail(t)).value;
    var c' := MoveTo(c, k, target);
    DrainDeliversOwed(s, c', false);
    assert Of(Drain(s, c', false).0, k) == l.Owed(target);
    if 0 <= t < |l.Retained()| {
      assert l.Retained()[|l.Retained()| - t..] == l.all[target..];
    }
  }

  /** Seeking to the beginning replays everything retained; seeking to the end skips all of it. */
  lemma SeekEndsThenDrain(s: State, c: Consumer, k: TopicPartition)
    requires s.Valid() && s.Live() && c.Active(k) && s.Find(k).Ok?
    ensures var l := s.Find(k).value;
            var first, last := SeekTarget(s, c.group, k, Beginning), SeekTarget(s, c.group, k, End);
            && first.Ok? && Of(Drain(s, MoveTo(c, k, first.value), false).0, k) == l.Retained()
            && last.Ok? && Of(Drain(s, MoveTo(c, k, last.value), false).0, k) == []
  {
    DrainDeliversOwed(s, MoveTo(c, k, SeekTarget(s, c.group, k, Beginning).value), false);
    DrainDeliversOwed(s, MoveTo(c, k, SeekTarget(s, c.group, k, End).value), false);
  }

  /**
    Seeking to an offset and draining yields exactly the retained messages from that offset on when
    it is within the log, its end included, and everything retained otherwise.
  */
  lemma SeekAtThenDrain(s: State, c: Consumer, k: TopicPartition, o: int)
    requires s.Valid() && s.Live() && c.Active(k) && s.Find(k).Ok?
    ensures var l, target := s.Find(k).value, SeekTarget(s, c.group, k, At(o));
            target.Ok? &&
            var got := Of(Drain(s, MoveTo(c, k, target.value), false).0, k);
            && (if l.lo <= o <= |l.all| then got == l.all[o..] else got == l.Retained())
            && (l.lo <= o <= |l.all| ==> forall m :: m in got <==> m in l.Retained() && m.offset >= o)
  {
    var l := s.Find(k).value;
    DrainDeliversOwed(s, MoveTo(c, k, o), false);
    if l.lo <= o <= |l.all| {
      assert l.Retained()[o - l.lo..] == l.all[o..];
      forall m ensures m in l.all[o..] <==> m in l.Retained() && m.offset >= o {
        if m in l.Retained() {
          var i :| 0 <= i < |l.Retained()| && l.Retained()[i] == m;
          assert m == l.all[l.lo + i] && m.offset == l.lo + i;
          assert m.offset >= o ==> l.all[o..][l.lo + i - o] == m;
        }
      }
    }
  }

  /** Without a group or without a commit the stored offset is 0. */
  lemma SeekStoredWithoutCommit(s: State, c: Consumer, k: TopicPartition)
    requires s.Valid() && s.Live() && c.Active(k) && s.Find(k).Ok?
    requires c.group.None? || (c.group.value in s.groups && (c.group.value, k) !in s.offsets)
    ensures var target := SeekTarget(s, c.group, k, Stored);
            && target == SeekTarget(s, c.group, k, At(0))
            && Of(Drain(s, MoveTo(c, k, 0), false).0, k) == s.Find(k).value.Retained()
  {
    SeekAtThenDrain(s, c, k, 0);
  }

  /** A seek fails exactly when it needs a missing partition, or the commits of a missing group. */
  lemma SeekFailsIff(s: State, group: Option<string>, k: TopicPartition, to: Offset)
    ensures var target := SeekTarget(s, group, k, to);
            match to
            case At(_) => target.Ok?
            case Stored =>
              if group.None? then target.Ok?
              else if s.down then target == Err(BrokerShutdown)
              else if group.value !in s.groups then target == Err(GroupNotFound(group.value))
              else target.Ok?
            case _ =>
              if s.backendDown then target == Err(BrokerShutdown)
              else if k.topic !in s.topics then target == Err(TopicNotFound(k.topic))
              else if 0 <= k.partition < |s.topics[k.topic]| then target.Ok?
              else target == Err(PartitionOutOfRange(k.topic, k.partition))
  {
  }

  /** A consumer without a position or a commit to resume from receives everything retained. */
  lemma FirstContactReplaysRetained(s: State, c: Consumer, k: TopicPartition)
    requires s.Valid() && s.Live() && c.Active(k) && s.Find(k).Ok? && k !in c.position
    requires c.group.None? || c.group.value !in s.groups || (c.group.value, k) !in s.offsets
    ensures Of(Drain(s, c, false).0, k) == s.Find(k).value.Retained()
  {
    DrainDeliversOwed(s, c, false);
  }

  // ---------------------------------------------------------------------------
  // Commit and resume
  // ---------------------------------------------------------------------------

  /** The broker after a group committed `o` for `k`. */
  ghost function AfterCommit(s: State, group: string, k: TopicPartition, o: int): (s': State)
    ensures s.Valid() ==> s'.Valid()
    ensures s.Live() ==> s'.Live()
  {
    s.(offsets := s.offsets[(group, k) := o])
  }

  /** The retained messages with an offset above `last`. */
  ghost function After(l: Log, last: int): seq<Message>
    requires l.lo <= |l.all| && last < |l.all|
  {
    if last < l.lo then l.Retained() else l.all[last + 1..]
  }

  /** What a consumer of the group that has no position yet receives for `k`. */
  ghost function Resumed(s: State, c: Consumer, k: TopicPartition): seq<Message>
    requires s.Valid() && s.Live()
  {
    Of(Drain(s, c, false).0, k)
  }

  ghost predicate Fresh(s: State, c: Consumer, group: string, k: TopicPartition) {
    c.group == Some(group) && group in s.groups && c.Active(k) && k !in c.position && s.Find(k).Ok?
  }

  lemma ResumeOffset(s: State, c: Consumer, group: string, k: TopicPartition, o: int)
    requires s.Valid() && s.Live() && Fresh(s, c, group, k)
    ensures Resumed(AfterCommit(s, group, k, o), c, k) == s.Find(k).value.Owed(o + 1)
  {
    var s' := AfterCommit(s, group, k, o);
    DrainDeliversOwed(s', c, false);
    assert s'.Find(k) == s.Find(k) && (group, k) in s'.offsets;
  }

  /**
    Committing the offset of the last processed message resumes a fresh consumer with exactly the
    retained messages after it: no gap, no repeat.
  */
  lemma CommittedOffsetResumes(s: State, c: Consumer, group: string, k: TopicPartition, last: nat)
    requires s.Valid() && s.Live() && Fresh(s, c, group, k) && last < |s.Find(k).value.all|
    ensures Resumed(AfterCommit(s, group, k, last), c, k) == After(s.Find(k).value, last)
  {
    ResumeOffset(s, c, group, k, last);
  }

  /**
    commit_message stores the offset plus one, which resuming increments again. It resumes
    correctly if and only if the next message is already evicted or nothing is retained.
  */
  lemma CommitMessageResumesIff(s: State, c: Consumer, group: string, k: TopicPartition, last: nat)
    requires s.Valid() && s.Live() && Fresh(s, c, group, k) && last < |s.Find(k).value.all|
    ensures var l := s.Find(k).value;
            Resumed(AfterCommit(s, group, k, last + 1), c, k) == After(l, last)
            <==> last + 1 < l.lo || l.Empty()
    ensures var l, got := s.Find(k).value, Resumed(AfterCommit(s, group, k, last + 1), c, k);
            if last + 1 < |l.all| then got == After(l, last + 1) else got == l.Retained()
  {
    ResumeOffset(s, c, group, k, last + 1);
    var l := s.Find(k).value;
    if l.lo <= last + 1 < |l.all| {
      assert |l.Owed(last + 2)| < |After(l, last)|;
    }
  }

  /** With two retained messages, committing the first skips the second and the second replays both. */
  lemma CommitMessageSkipsAndReplays(m0: Message, m1: Message, group: string)
    requires m0.topic == m1.topic && m0.partition == m1.partition == 0
    requires m0.offset == 0 && m1.offset == 1 && m0.createdAt <= m1.createdAt
    ensures var k := TopicPartition(m0.topic, 0);
            var s := State(false, false, map[m0.topic := [Log(m0.topic, 0, [m0, m1], 0)]], {group}, map[]);
            var c := Consumer(Some(group), [k], map[], {}, 0);
            && s.Valid()
            && Resumed(AfterCommit(s, group, k, 0 + 1), c, k) == []
            && Resumed(AfterCommit(s, group, k, 1 + 1), c, k) == [m0, m1]
  {
    var k := TopicPartition(m0.topic, 0);
    var s := State(false, false, map[m0.topic := [Log(m0.topic, 0, [m0, m1], 0)]], {group}, map[]);
    var c := Consumer(Some(group), [k], map[], {}, 0);
    CommitMessageResumesIff(s, c, group, k, 0);
    CommitMessageResumesIff(s, c, group, k, 1);
  }

  /** Seeking to the stored offset adds nothing, so it is commit_message that pairs with it. */
  lemma SeekStoredAfterCommitMessage(s: State, c: Consumer, group: string, k: TopicPartition, last: nat)
    requires s.Valid() && s.Live() && c.group == Some(group) && group in s.groups
    requires c.Active(k) && s.Find(k).Ok? && last < |s.Find(k).value.all|
    ensures var s' := AfterCommit(s, group, k, last + 1);
            var target := SeekTarget(s', c.group, k, Stored);
            target.Ok? && Of(Drain(s', MoveTo(c, k, target.value), false).0, k) == After(s.Find(k).value, last)
  {
    var s' := AfterCommit(s, group, k, last + 1);
    assert s'.Find(k) == s.Find(k);
    assert SeekTarget(s', c.group, k, Stored) == Ok(last + 1);
    hide AfterCommit, Committed;
    SeekAtThenDrain(s', c, k, last + 1);
  }
}
