/** What retention leaves in a partition (src/partition.rs), in counts and raw clock readings. */
module Retention {
  import opened Common
  import opened PartitionLog

  /**
    Message `i` is younger than retentionMs + 1 milliseconds at `now`, and among the last
    retentionCapacity messages.
  */
  ghost predicate WithinLimits(c: Config, l: Log, i: nat, now: nat)
    requires i < |l.all|
  {
    && (c.retentionMs.Some? ==> now < l.all[i].createdAt + (c.retentionMs.value + 1) * 1_000_000)
    && (c.retentionCapacity.Some? ==> |l.all| - i <= c.retentionCapacity.value)
  }

  lemma KeepsIffWithinLimits(c: Config, l: Log, i: nat, now: nat)
    requires i < |l.all|
    ensures Keeps(c, l.all, i, now) <==> WithinLimits(c, l, i, now)
  {
  }

  ghost predicate AllWithin(c: Config, l: Log, from: nat, now: nat) {
    forall i | from <= i < |l.all| :: WithinLimits(c, l, i, now)
  }

  ghost predicate NoneWithin(c: Config, l: Log, from: nat, to: nat, now: nat)
    requires to <= |l.all|
  {
    forall i | from <= i < to :: !WithinLimits(c, l, i, now)
  }

  /** Eviction from `before` at readings `at(k)`, `at(k + 1)`, ... left `after`. */
  ghost predicate Enforced(c: Config, before: Log, after: Log, at: nat -> nat, k: nat) {
    && before.lo <= after.lo <= |after.all| && before.all == after.all
    && AllWithin(c, after, after.lo, at(k))
    && NoneWithin(c, after, before.lo, after.lo, at(k + after.lo - before.lo))
  }

  lemma EvictToEnforces(c: Config, l: Log, at: nat -> nat, k: nat)
    requires l.Valid() && forall i: nat, j: nat :: i <= j ==> at(i) <= at(j)
    ensures Enforced(c, l, l.(lo := EvictTo(c, l.all, l.lo, at, k)), at, k)
  {
    var r := EvictTo(c, l.all, l.lo, at, k);
    EvictionBetweenClocks(c, l.all, l.lo, at, k);
    var last := at(k + r - l.lo);
    forall i, now: nat | l.lo <= i < |l.all| ensures Keeps(c, l.all, i, now) <==> WithinLimits(c, l, i, now) {
      KeepsIffWithinLimits(c, l, i, now);
    }
    var after := l.(lo := r);
    hide EvictTo, Keeps;
    forall i | l.lo <= i < r ensures !WithinLimits(c, after, i, last) {
      assert !Keeps(c, l.all, i, last);
      assert WithinLimits(c, after, i, last) <==> WithinLimits(c, l, i, last);
    }
    forall i | r <= i < |l.all| ensures WithinLimits(c, after, i, at(k)) {
      assert Keeps(c, l.all, i, at(k));
      assert WithinLimits(c, after, i, at(k)) <==> WithinLimits(c, l, i, at(k));
    }
  }

  /** An eviction keeps only what meets both limits, and drops only what breaks one. */
  lemma EvictEnforcesRetention(l: Log, c: Config, clock: Clock)
    requires l.Valid() && clock.Monotone()
    ensures Enforced(c, l, l.Evicted(c, clock), clock.at, 0)
    ensures c.retentionCapacity.Some? ==> |l.Evicted(c, clock).Retained()| <= c.retentionCapacity.value
  {
    EvictToEnforces(c, l, clock.at, 0);
    EnforcedBoundsCount(c, l, l.Evicted(c, clock), clock.at, 0);
  }

  /** Message `i` is the one the capacity test pops after the push. */
  ghost predicate CapacityVictim(l: Log, c: Config, i: nat) {
    i == l.lo && c.maxCapacity > 0 && |l.all| + 1 - l.lo >= c.maxCapacity
  }

  /**
    After an append every retained message meets both limits at the first check, and every message
    it dropped is the capacity victim or breaks a limit at the last check.
  */
  lemma AppendEnforcesRetention(l: Log, c: Config, r: Record, clock: Clock)
    requires l.Valid() && l.Precedes(clock)
    ensures var l' := l.Appended(c, r, clock);
            && AllWithin(c, l', l'.lo, clock.at(1)) && !CapacityVictim(l, c, l'.lo)
            && exists last: nat | 1 <= last <= 1 + l'.lo - l.lo ::
                 forall i | l.lo <= i < l'.lo :: CapacityVictim(l, c, i) || !WithinLimits(c, l', i, clock.at(last))
    ensures c.retentionCapacity.Some? ==> |l.Appended(c, r, clock).Retained()| <= c.retentionCapacity.value
  {
    var pushed, l' := l.Pushed(c, r, clock), l.Appended(c, r, clock);
    PushedKeepsWindow(l, c, r, clock);
    EvictToEnforces(c, pushed, clock.at, 1);
    EnforcedBoundsCount(c, pushed, l', clock.at, 1);
    var last := 1 + l'.lo - pushed.lo;
    assert pushed.lo == if CapacityVictim(l, c, l.lo) then l.lo + 1 else l.lo;
    hide WithinLimits, Log.Appended, Log.Pushed;
    assert forall i | l.lo <= i < l'.lo :: CapacityVictim(l, c, i) || !WithinLimits(c, l', i, clock.at(last));
  }

  lemma EnforcedBoundsCount(c: Config, before: Log, after: Log, at: nat -> nat, k: nat)
    requires Enforced(c, before, after, at, k)
    ensures c.retentionCapacity.Some? ==> |after.Retained()| <= c.retentionCapacity.value
  {
    if after.lo < |after.all| {
      assert WithinLimits(c, after, after.lo, at(k));
    }
  }

  /** While the clock stands still an append retains exactly what meets both limits and is not the victim. */
  lemma AppendRetainsExactly(l: Log, c: Config, r: Record, clock: Clock, now: nat)
    requires l.Valid() && l.Precedes(clock) && forall k: nat | k >= 1 :: clock.at(k) == now
    ensures var l' := l.Appended(c, r, clock);
            forall i | l.lo <= i < |l'.all| ::
              l'.lo <= i <==> WithinLimits(c, l', i, now) && !CapacityVictim(l, c, i)
  {
    AppendEnforcesRetention(l, c, r, clock);
  }

  // ---------------------------------------------------------------------------
  // Whole runs
  // ---------------------------------------------------------------------------

  /** The reading at which the first eviction check of an operation is made. */
  function FirstCheck(op: LogOp): nat {
    if op.Append? then op.clock.at(1) else op.clock.at(0)
  }

  /** Whenever operations were applied, what is retained met both limits when the last one checked. */
  lemma {:induction false} RunEnforcesRetention(l: Log, c: Config, ops: seq<LogOp>)
    requires l.Valid() && ClocksFlow(l, c, ops) && ops != []
    ensures var l' := ApplyAll(l, c, ops);
            && AllWithin(c, l', l'.lo, FirstCheck(ops[|ops| - 1]))
            && (c.retentionCapacity.Some? ==> |l'.Retained()| <= c.retentionCapacity.value)
    decreases |ops|
  {
    var next := Apply(l, c, ops[0]);
    match ops[0] {
      case Append(r, clock) =>
        AppendEnforcesRetention(l, c, r, clock);
        AppendedKeepsWindow(l, c, r, clock);
      case Evict(clock) =>
        EvictEnforcesRetention(l, c, clock);
        EvictingKeepsWindow(l, next.lo);
    }
    hide Apply;
    if |ops| == 1 {
      assert ApplyAll(next, c, ops[1..]) == next;
    } else {
      assert ops[1..][|ops| - 2] == ops[|ops| - 1];
      RunEnforcesRetention(next, c, ops[1..]);
    }
  }

  function Min(a: int, b: int): int { if a < b then a else b }

  /** The most messages that capacity and count limit leave of `n` appended ones. */
  function Capped(c: Config, n: nat): int {
    var byCount := if c.retentionCapacity.Some? then Min(n, c.retentionCapacity.value) else n;
    if c.maxCapacity > 0 then Min(byCount, c.maxCapacity - 1) else byCount
  }

  lemma {:induction false} CountLimitEvictsTo(c: Config, all: seq<Message>, lo: nat, at: nat -> nat, k: nat)
    requires lo <= |all| && c.retentionMs.None?
    ensures var left := |all| - EvictTo(c, all, lo, at, k);
            left == if c.retentionCapacity.Some? then Min(|all| - lo, c.retentionCapacity.value) else |all| - lo
    decreases |all| - lo
  {
    if lo < |all| && !Keeps(c, all, lo, at(k)) {
      CountLimitEvictsTo(c, all, lo + 1, at, k + 1);
    }
  }

  /** Without an age limit the retained count is exactly what capacity and count limit leave. */
  lemma {:induction false} RetainedWithoutAgeLimit(l: Log, c: Config, ops: seq<LogOp>)
    requires l.lo <= |l.all| && c.retentionMs.None? && |l.Retained()| == Capped(c, |l.all|)
    ensures var l' := ApplyAll(l, c, ops);
            |l'.all| == |l.all| + Appends(ops) && |l'.Retained()| == Capped(c, |l'.all|)
    decreases |ops|
  {
    if ops != [] {
      match ops[0] {
        case Append(r, clock) =>
          var pushed := l.Pushed(c, r, clock);
          CountLimitEvictsTo(c, pushed.all, pushed.lo, clock.at, 1);
        case Evict(clock) =>
          CountLimitEvictsTo(c, l.all, l.lo, clock.at, 0);
      }
      hide EvictTo;
      RetainedWithoutAgeLimit(Apply(l, c, ops[0]), c, ops[1..]);
    }
  }

  /** Without policies, n appends to a fresh log retain the last min(n, maxCapacity - 1), or all if unbounded. */
  lemma RetainedWithoutPolicies(topic: string, id: int, c: Config, ops: seq<LogOp>)
    requires c.retentionMs.None? && c.retentionCapacity.None?
    ensures var l, n := ApplyAll(Log(topic, id, [], 0), c, ops), Appends(ops);
            && |l.all| == n
            && |l.Retained()| == if c.maxCapacity == 0 || n < c.maxCapacity then n else c.maxCapacity - 1
  {
    RetainedWithoutAgeLimit(Log(topic, id, [], 0), c, ops);
  }
}
