/** src/partition.rs: the bounded buffer of one partition, updated in place. */
module Partition {
  import opened Common
  import opened PartitionLog

  class Partition {
    const topicName: string
    const partitionId: int
    const config: Config
    const policies: seq<Policy>
    var log: seq<Message>
    var nextOffset: int
    /** The full history the buffer stands for. */
    ghost var model: Log

    ghost predicate Valid()
      reads this
    {
      && model.Valid()
      && model.topic == topicName && model.id == partitionId
      && policies == config.Policies()
      && nextOffset == |model.all|
      && log == model.Retained()
    }

    constructor (topicName: string, partitionId: int, config: Config)
      ensures Valid()
      ensures model == Log(topicName, partitionId, [], 0)
      ensures this.config == config && this.topicName == topicName && this.partitionId == partitionId
    {
      this.topicName := topicName;
      this.partitionId := partitionId;
      this.config := config;
      policies := config.Policies();
      log := [];
      nextOffset := 0;
      model := Log(topicName, partitionId, [], 0);
    }

    method Append(r: Record, clock: Clock) returns (result: Result<(int, int)>)
      requires Valid() && model.Precedes(clock)
      modifies this
      ensures Valid()
      ensures model == old(model).Appended(config, r, clock)
      ensures result == Ok((partitionId, |old(model).all|))
    {
      PushedKeepsWindow(model, config, r, clock);
      ghost var pushed := model.Pushed(config, r, clock);
      var ts := if r.timestamp.Some? then r.timestamp.value else clock.wall;
      var offset := nextOffset;
      nextOffset := nextOffset + 1;
      var msg := Message(topicName, partitionId, offset, r.key, r.payload, ts, clock.at(0));
      assert msg == model.Stamped(r, clock);
      hide EvictTo, Log.Stamped;
      log := log + [msg];
      if config.maxCapacity > 0 && |log| >= config.maxCapacity {
        log := log[1..];
      }
      model := pushed;
      EvictBuffer(clock, 1);
      result := Ok((partitionId, offset));
    }

    method Evict(clock: Clock)
      requires Valid() && clock.Monotone()
      modifies this
      ensures Valid()
      ensures model == old(model).Evicted(config, clock)
    {
      EvictBuffer(clock, 0);
    }

    method EvictBuffer(clock: Clock, k: nat)
      requires Valid()
      modifies `log, `model
      ensures Valid()
      ensures model == old(model).(lo := EvictTo(config, old(model).all, old(model).lo, clock.at, k))
    {
      hide Keeps, ShouldEvict, Sorted;
      var check := k;
      while |log| > 0
        invariant Valid()
        invariant model == old(model).(lo := model.lo)
        invariant EvictTo(config, model.all, model.lo, clock.at, check) ==
                  EvictTo(config, model.all, old(model).lo, clock.at, k)
        decreases |log|
      {
        var front := log[0];
        var now := clock.at(check);
        PoliciesAreLimits(config, model.all, model.lo, now);
        var shouldEvict := exists p | p in policies :: ShouldEvict(p, |log|, front, now);
        if !shouldEvict {
          break;
        }
        EvictingKeepsWindow(model, model.lo + 1);
        log := log[1..];
        model := model.(lo := model.lo + 1);
        check := check + 1;
      }
    }

    method ReadOne(offset: int) returns (r: Result<Option<Message>>)
      requires Valid()
      ensures r == model.ReadOne(offset)
    {
      if |log| == 0 {
        if offset == 0 || offset == nextOffset {
          return Ok(None);
        }
        return Err(OffsetOutOfRange(topicName, partitionId, offset));
      }
      var oldest := nextOffset - |log|;
      if offset < oldest || offset > nextOffset {
        return Err(OffsetOutOfRange(topicName, partitionId, offset));
      }
      if offset == nextOffset {
        return Ok(None);
      }
      var idx := offset - oldest;
      r := Ok(Some(log[idx]));
    }

    method Read(offset: int, maxCount: nat) returns (r: Result<seq<Message>>)
      requires Valid()
      ensures r == model.Read(offset, maxCount)
    {
      if |log| == 0 {
        if offset == 0 || offset == nextOffset {
          return Ok([]);
        }
        return Err(OffsetOutOfRange(topicName, partitionId, offset));
      }
      var oldest := nextOffset - |log|;
      if offset < oldest || offset > nextOffset {
        return Err(OffsetOutOfRange(topicName, partitionId, offset));
      }
      if offset == nextOffset {
        return Ok([]);
      }
      var start := offset - oldest;
      var end := if start + maxCount < |log| then start + maxCount else |log|;
      assert end + oldest == if offset + maxCount < |model.all| then offset + maxCount else |model.all|;
      assert log[start..end] == model.all[offset..end + oldest];
      r := Ok(log[start..end]);
    }

    method Watermarks() returns (oldest: int, newest: int)
      requires Valid()
      ensures oldest == model.Oldest() && newest == model.Newest()
    {
      newest := nextOffset - 1;
      oldest := if |log| == 0 then 0 else nextOffset - |log|;
    }

    method MessageCount() returns (n: int)
      requires Valid()
      ensures n == |model.Retained()|
    {
      n := |log|;
    }
  }

  /** The policies built from a configuration fire on the front exactly when it breaks a limit. */
  lemma PoliciesAreLimits(c: Config, all: seq<Message>, lo: nat, now: nat)
    requires lo < |all|
    ensures (exists p | p in c.Policies() :: ShouldEvict(p, |all| - lo, all[lo], now)) <==>
            !Keeps(c, all, lo, now)
  {
    if c.retentionMs.Some? {
      assert TimeEviction(c.retentionMs.value) in c.Policies();
    }
    if c.retentionCapacity.Some? {
      assert CapacityEviction(c.retentionCapacity.value) in c.Policies();
    }
  }
}
