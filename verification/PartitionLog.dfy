/**
  The meaning of a partition: an append-only history of which a suffix is retained.
  src/partition.rs keeps only the suffix and a counter; class Partition ties the two.
*/
module PartitionLog {
  import opened Common

  /** What a producer hands over; the partition adds offset, timestamp and creation time. */
  datatype Record = Record(key: Option<Bytes>, payload: Option<Bytes>, timestamp: Option<int>)

  /** A stored message; createdAt is a monotonic clock reading in nanoseconds. */
  datatype Message = Message(
    topic: string, partition: int, offset: int,
    key: Option<Bytes>, payload: Option<Bytes>, timestamp: int, createdAt: nat)

  datatype Policy = TimeEviction(retentionMs: nat) | CapacityEviction(retentionCapacity: nat)

  datatype Config = Config(maxCapacity: nat, retentionMs: Option<nat>, retentionCapacity: Option<nat>) {
    function Policies(): seq<Policy> {
      (if retentionMs.Some? then [TimeEviction(retentionMs.value)] else []) +
      (if retentionCapacity.Some? then [CapacityEviction(retentionCapacity.value)] else [])
    }
  }

  /**
    The clock readings of one operation: `wall` is the system time in milliseconds, `at(0)` the
    monotonic reading stamped on an appended message, `at(k)` the one taken by a later check.
  */
  datatype Clock = Clock(wall: int, at: nat -> nat) {
    ghost predicate Monotone() {
      forall i: nat, j: nat :: i <= j ==> at(i) <= at(j)
    }
  }

  /** Whole milliseconds between two readings; zero when `since` lies after `now`. */
  function ElapsedMs(since: nat, now: nat): nat {
    if now < since then 0 else (now - since) / 1_000_000
  }

  predicate ShouldEvict(p: Policy, bufferLen: nat, front: Message, now: nat) {
    match p
    case TimeEviction(ms) => ElapsedMs(front.createdAt, now) > ms
    case CapacityEviction(cap) => bufferLen > cap
  }

  /** Message `i` meets the age limit at `now` and the count limit, seen from the log's end. */
  predicate Keeps(c: Config, all: seq<Message>, i: nat, now: nat)
    requires i < |all|
  {
    && (c.retentionMs.Some? ==> ElapsedMs(all[i].createdAt, now) <= c.retentionMs.value)
    && (c.retentionCapacity.Some? ==> |all| - i <= c.retentionCapacity.value)
  }

  /** Where popping from the front stops when the k-th check reads the clock at `at(k)`. */
  ghost function EvictTo(c: Config, all: seq<Message>, lo: nat, at: nat -> nat, k: nat): (r: nat)
    requires lo <= |all|
    ensures lo <= r <= |all|
    decreases |all| - lo
  {
    if lo == |all| || Keeps(c, all, lo, at(k)) then lo else EvictTo(c, all, lo + 1, at, k + 1)
  }

  /** Everything ever appended to one partition, and the first offset still retained. */
  datatype Log = Log(topic: string, id: int, all: seq<Message>, lo: nat) {

    ghost predicate Valid() {
      && lo <= |all|
      && (forall i | 0 <= i < |all| ::
            all[i].topic == topic && all[i].partition == id && all[i].offset == i)
      && Sorted(all)
    }

    ghost function Retained(): seq<Message>
      requires lo <= |all|
    {
      all[lo..]
    }

    ghost predicate Empty() { lo == |all| }

    ghost function ReadOne(offset: int): Result<Option<Message>> {
      if lo <= offset < |all| then Ok(Some(all[offset]))
      else if offset == |all| || (lo == |all| && offset == 0) then Ok(None)
      else Err(OffsetOutOfRange(topic, id, offset))
    }

    ghost function Read(offset: int, maxCount: nat): Result<seq<Message>> {
      if lo <= offset < |all| then
        Ok(all[offset..if offset + maxCount < |all| then offset + maxCount else |all|])
      else if offset == |all| || (lo == |all| && offset == 0) then Ok([])
      else Err(OffsetOutOfRange(topic, id, offset))
    }

    /** The oldest watermark: 0 for an empty log, whatever was evicted from it. */
    ghost function Oldest(): int { if Empty() then 0 else lo }

    ghost function Newest(): int { |all| - 1 }

    /** What a reader at `offset` still has to receive: all that is retained if it is out of range. */
    ghost function Owed(offset: int): seq<Message>
      requires lo <= |all|
    {
      if lo <= offset <= |all| then all[offset..] else all[lo..]
    }

    /** The message an append stores. */
    function Stamped(r: Record, clock: Clock): Message {
      Message(topic, id, |all|, r.key, r.payload,
              if r.timestamp.Some? then r.timestamp.value else clock.wall, clock.at(0))
    }

    /** The log after the push and the capacity test that follows it. */
    ghost function Pushed(c: Config, r: Record, clock: Clock): (l: Log)
      requires lo <= |all|
      ensures l.lo <= |l.all|
    {
      Log(topic, id, all + [Stamped(r, clock)], if 0 < c.maxCapacity <= |all| + 1 - lo then lo + 1 else lo)
    }

    ghost function Appended(c: Config, r: Record, clock: Clock): Log
      requires lo <= |all|
    {
      var l := Pushed(c, r, clock);
      l.(lo := EvictTo(c, l.all, l.lo, clock.at, 1))
    }

    ghost function Evicted(c: Config, clock: Clock): Log
      requires lo <= |all|
    {
      Log(topic, id, all, EvictTo(c, all, lo, clock.at, 0))
    }

    /** The clock does not run behind the last stamped message. */
    ghost predicate Precedes(clock: Clock) {
      clock.Monotone() && (all != [] ==> all[|all| - 1].createdAt <= clock.at(0))
    }
  }

  ghost predicate Sorted(all: seq<Message>) {
    forall i, j | 0 <= i <= j < |all| :: all[i].createdAt <= all[j].createdAt
  }

  /** `b` is a later state of the same partition: history grows, the retained window moves up. */
  ghost predicate Extends(a: Log, b: Log) {
    a.topic == b.topic && a.id == b.id && a.all <= b.all && a.lo <= b.lo
  }

  // ---------------------------------------------------------------------------
  // Eviction
  // ---------------------------------------------------------------------------

  lemma KeepsMonotone(c: Config, all: seq<Message>, i: nat, j: nat, early: nat, late: nat)
    requires Sorted(all) && i <= j < |all| && early <= late
    ensures Keeps(c, all, i, late) ==> Keeps(c, all, j, early)
  {
    assert all[i].createdAt <= all[j].createdAt;
    assert ElapsedMs(all[j].createdAt, early) <= ElapsedMs(all[i].createdAt, late);
  }

  ghost predicate AllKeep(c: Config, all: seq<Message>, from: nat, now: nat) {
    forall i | from <= i < |all| :: Keeps(c, all, i, now)
  }

  ghost predicate NoneKeeps(c: Config, all: seq<Message>, from: nat, to: nat, now: nat)
    requires to <= |all|
  {
    forall i | from <= i < to :: !Keeps(c, all, i, now)
  }

  /**
    Popping only from the front, while the clock moves, leaves only messages that met both limits
    at the first check, and drops only messages that violate one at the last check.
  */
  lemma {:induction false} EvictionBetweenClocks(c: Config, all: seq<Message>, lo: nat, at: nat -> nat, k: nat)
    requires lo <= |all| && Sorted(all)
    requires forall i: nat, j: nat :: i <= j ==> at(i) <= at(j)
    ensures var r := EvictTo(c, all, lo, at, k);
            AllKeep(c, all, r, at(k)) && NoneKeeps(c, all, lo, r, at(k + r - lo))
    decreases |all| - lo
  {
    var r := EvictTo(c, all, lo, at, k);
    if lo == |all| {
    } else if Keeps(c, all, lo, at(k)) {
      forall i | lo <= i < |all| ensures Keeps(c, all, i, at(k)) {
        KeepsMonotone(c, all, lo, i, at(k), at(k));
      }
    } else {
      EvictionBetweenClocks(c, all, lo + 1, at, k + 1);
      var last := k + r - lo;
      assert NoneKeeps(c, all, lo + 1, r, at(last));
      assert at(k) <= at(last);
      KeepsMonotone(c, all, lo, lo, at(k), at(last));
      forall i | r <= i < |all| ensures Keeps(c, all, i, at(k)) {
        KeepsMonotone(c, all, i, i, at(k), at(k + 1));
      }
    }
  }

  /** With the clock standing still, what remains is exactly what a filter of the whole log keeps. */
  lemma EvictionIsFilter(c: Config, all: seq<Message>, lo: nat, at: nat -> nat, k: nat, now: nat)
    requires lo <= |all| && Sorted(all)
    requires forall i: nat :: at(i) == now
    ensures forall i | lo <= i < |all| :: EvictTo(c, all, lo, at, k) <= i <==> Keeps(c, all, i, now)
  {
    EvictionBetweenClocks(c, all, lo, at, k);
    assert at(k) == now && at(k + EvictTo(c, all, lo, at, k) - lo) == now;
  }

  // ---------------------------------------------------------------------------
  // Append
  // ---------------------------------------------------------------------------

  lemma PushedKeepsWindow(l: Log, c: Config, r: Record, clock: Clock)
    requires l.Valid() && l.Precedes(clock)
    ensures var l' := l.Pushed(c, r, clock);
            && l'.Valid() && Extends(l, l')
            && l'.Retained() == (l.Retained() + [l.Stamped(r, clock)])[l'.lo - l.lo..]
  {
    var m, l' := l.Stamped(r, clock), l.Pushed(c, r, clock);
    assert l'.all == l.all + [m];
    assert m.topic == l.topic && m.partition == l.id && m.offset == |l.all| && m.createdAt == clock.at(0);
    hide Log.Stamped;
    assert Sorted(l'.all);
    PushedRetains(l, c, r, clock);
  }

  lemma PushedRetains(l: Log, c: Config, r: Record, clock: Clock)
    requires l.lo <= |l.all|
    ensures var l' := l.Pushed(c, r, clock);
            l.lo <= l'.lo <= |l'.all| && l'.Retained() == (l.Retained() + [l.Stamped(r, clock)])[l'.lo - l.lo..]
  {
    SlicePushed(l.all, l.Stamped(r, clock), l.lo, l.Pushed(c, r, clock).lo);
  }

  lemma SlicePushed(ms: seq<Message>, m: Message, lo: nat, lo': nat)
    requires lo <= lo' <= |ms| + 1 && lo <= |ms|
    ensures (ms + [m])[lo'..] == (ms[lo..] + [m])[lo' - lo..]
  {
    assert (ms + [m])[lo..] == ms[lo..] + [m];
    assert (ms + [m])[lo..][lo' - lo..] == (ms + [m])[lo'..];
  }

  lemma EvictingKeepsWindow(l: Log, to: nat)
    requires l.Valid() && l.lo <= to <= |l.all|
    ensures l.(lo := to).Valid() && Extends(l, l.(lo := to))
  {
  }

  lemma AppendedKeepsWindow(l: Log, c: Config, r: Record, clock: Clock)
    requires l.Valid() && l.Precedes(clock)
    ensures var l' := l.Appended(c, r, clock);
            && l'.Valid() && Extends(l, l')
            && |l'.all| == |l.all| + 1
            && (0 < c.maxCapacity && |l.Retained()| < c.maxCapacity ==> |l'.Retained()| < c.maxCapacity)
  {
    PushedKeepsWindow(l, c, r, clock);
    var pushed := l.Pushed(c, r, clock);
    hide EvictTo, Log.Stamped;
    EvictingKeepsWindow(pushed, l.Appended(c, r, clock).lo);
  }

  /** One step of a partition's life. */
  datatype LogOp = Append(rec: Record, clock: Clock) | Evict(clock: Clock)

  ghost function Apply(l: Log, c: Config, op: LogOp): Log
    requires l.lo <= |l.all|
    ensures Apply(l, c, op).lo <= |Apply(l, c, op).all|
  {
    match op
    case Append(r, clock) => l.Appended(c, r, clock)
    case Evict(clock) => l.Evicted(c, clock)
  }

  ghost function ApplyAll(l: Log, c: Config, ops: seq<LogOp>): (r: Log)
    requires l.lo <= |l.all|
    ensures r.lo <= |r.all|
    decreases |ops|
  {
    if ops == [] then l else ApplyAll(Apply(l, c, ops[0]), c, ops[1..])
  }

  /** Every operation's clock continues where the stamped messages left off. */
  ghost predicate ClocksFlow(l: Log, c: Config, ops: seq<LogOp>)
    requires l.lo <= |l.all|
    decreases |ops|
  {
    ops != [] ==> l.Precedes(ops[0].clock) && ClocksFlow(Apply(l, c, ops[0]), c, ops[1..])
  }

  ghost function Appends(ops: seq<LogOp>): nat {
    if ops == [] then 0 else (if ops[0].Append? then 1 else 0) + Appends(ops[1..])
  }

  /**
    Over every run the retained log stays a suffix window of the history whose offsets are the
    positions, the history only grows, the oldest retained offset never decreases, and a bounded
    log never holds as many as `maxCapacity` messages.
  */
  lemma {:induction false} RunKeepsWindow(l: Log, c: Config, ops: seq<LogOp>)
    requires l.Valid() && ClocksFlow(l, c, ops)
    requires 0 < c.maxCapacity ==> |l.Retained()| < c.maxCapacity
    ensures var l' := ApplyAll(l, c, ops);
            && l'.Valid() && Extends(l, l')
            && |l'.all| == |l.all| + Appends(ops)
            && (0 < c.maxCapacity ==> |l'.Retained()| < c.maxCapacity)
            && (forall i | 0 <= i < |l'.Retained()| ::
                  l'.Retained()[i].offset == |l'.all| - |l'.Retained()| + i)
    decreases |ops|
  {
    if ops == [] {
    } else {
      var next := Apply(l, c, ops[0]);
      if ops[0].Append? {
        AppendedKeepsWindow(l, c, ops[0].rec, ops[0].clock);
      }
      RunKeepsWindow(next, c, ops[1..]);
    }
  }

  // ---------------------------------------------------------------------------
  // Reads
  // ---------------------------------------------------------------------------

  /** What a reader collects by calling ReadOne at most `k` times, moving past each message. */
  ghost function Iterate(l: Log, offset: int, k: nat): seq<Message>
    decreases k
  {
    if k == 0 then []
    else
      match l.ReadOne(offset)
      case Ok(Some(m)) => [m] + Iterate(l, m.offset + 1, k - 1)
      case _ => []
  }

  /** A batch read fails exactly when a single read does, and otherwise is the iterated single read. */
  lemma {:induction false} ReadIsIteratedReadOne(l: Log, offset: int, k: nat)
    requires l.Valid()
    ensures var batch, single := l.Read(offset, k), l.ReadOne(offset);
            if single.Err? then batch == Err(single.error) else batch == Ok(Iterate(l, offset, k))
    decreases k
  {
    if l.lo <= offset < |l.all| {
      if k == 0 {
        assert l.Read(offset, k).value == [];
      } else {
        ReadIsIteratedReadOne(l, offset + 1, k - 1);
        assert l.Read(offset, k).value == [l.all[offset]] + l.Read(offset + 1, k - 1).value;
      }
    }
  }

  /** Consecutive chunks concatenate to the batch that reads them together. */
  lemma ReadSplits(l: Log, offset: int, j: nat, k: nat)
    requires l.Valid() && l.Read(offset, j).Ok?
    ensures var first := l.Read(offset, j).value;
            var rest := l.Read(offset + |first|, k);
            rest.Ok? && l.Read(offset, j + k) == Ok(first + rest.value)
  {
    if l.lo <= offset < |l.all| {
      var first := l.Read(offset, j).value;
      var mid := offset + |first|;
      var end := if offset + j + k < |l.all| then offset + j + k else |l.all|;
      assert first == l.all[offset..mid] && l.lo <= mid <= end;
      assert l.Read(mid, k) == Ok(l.all[mid..end]) by {
        if mid == |l.all| { assert l.all[mid..end] == []; }
      }
      assert l.all[offset..end] == l.all[offset..mid] + l.all[mid..end];
    } else {
      var none := l.Read(offset, j).value;
      assert none + l.Read(offset, k).value == [];
    }
  }

  /** The watermarks are 0 and the last offset of an empty log, else the ends of what is retained. */
  lemma WatermarksSpanRetained(l: Log)
    requires l.Valid()
    ensures var kept, oldest, newest := l.Retained(), l.Oldest(), l.Newest();
            if kept == [] then (oldest, newest) == (0, |l.all| - 1)
            else kept[0].offset == oldest && kept[|kept| - 1].offset == newest && newest - oldest + 1 == |kept|
  {
  }

  /**
    One read decides everything about a reader's position: it yields the first owed message, or
    nothing is owed, or the position is out of range and the oldest watermark is not.
  */
  lemma ReadOneServesOwed(l: Log, offset: int)
    requires l.Valid()
    ensures var owed := l.Owed(offset);
            match l.ReadOne(offset)
            case Ok(Some(m)) =>
              owed != [] && m == owed[0] && l.Owed(m.offset + 1) == owed[1..] &&
              m.topic == l.topic && m.partition == l.id
            case Ok(None) => owed == []
            case Err(e) =>
              e.OffsetOutOfRange? && l.Owed(l.Oldest()) == owed &&
              l.ReadOne(l.Oldest()) == Ok(if l.Empty() then None else Some(l.all[l.lo]))
  {
    if l.lo <= offset < |l.all| {
      assert l.Owed(offset + 1) == l.all[offset..][1..];
    }
  }

  /**
    A message reads back under its own offset in every later state until the window has moved
    past it, and never again after that.
  */
  lemma AppendedReadsBack(l: Log, c: Config, r: Record, clock: Clock, later: Log)
    requires l.Valid() && l.Precedes(clock) && later.Valid()
    requires Extends(l.Appended(c, r, clock), later)
    ensures var read := later.ReadOne(|l.all|);
            if later.lo <= |l.all| then
              read.Ok? && read.value.Some? && read.value.value.offset == |l.all| &&
              read.value.value.key == r.key && read.value.value.payload == r.payload &&
              read.value.value.createdAt == clock.at(0) &&
              read.value.value.timestamp == (if r.timestamp.None? then clock.wall else r.timestamp.value)
            else
              read.Err? || (read == Ok(None) && |l.all| == 0 && later.Empty())
  {
    var l' := l.Appended(c, r, clock);
    assert l'.all[|l.all|] == later.all[|l.all|];
  }
}
