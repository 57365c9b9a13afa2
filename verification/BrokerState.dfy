/**
  The broker as a value: what src/broker.rs and src/broker_backend.rs answer in a given state.
  The classes of Broker.dfy refine these functions.
*/
module BrokerState {
  import opened Common
  import opened PartitionLog
  import opened Clusters

  datatype State = State(
    down: bool, backendDown: bool,
    topics: Cluster,
    groups: set<string>,
    offsets: map<(string, TopicPartition), int>)
  {
    ghost predicate Valid() { ClusterValid(topics) }

    ghost predicate Live() { !down && !backendDown }

    ghost function Find(k: TopicPartition): Result<Log> { Lookup(backendDown, topics, k) }

    ghost function FetchOne(k: TopicPartition, offset: int): Result<Option<Message>> {
      match Find(k)
      case Ok(l) => l.ReadOne(offset)
      case Err(e) => Err(e)
    }

    ghost function Oldest(k: TopicPartition): Result<int> {
      match Find(k)
      case Ok(l) => Ok(l.Oldest())
      case Err(e) => Err(e)
    }

    /** The offset a fetch reads at while nobody else changes the broker. */
    ghost function StartOffset(k: TopicPartition, position: Option<int>, group: Option<string>): Result<int> {
      Still(this).StartOffset(k, position, group)
    }

    /** One fetch while nobody else changes the broker. */
    ghost function Fetch(k: TopicPartition, position: Option<int>, group: Option<string>): Result<Option<Message>> {
      Still(this).Fetch(k, position, group)
    }

    // -------------------------------------------------------------------------
    // What a consumer of one partition still has to receive
    // -------------------------------------------------------------------------

    /** The retained messages from the start offset on, or all of them when it is out of range. */
    ghost function Owed(k: TopicPartition, position: Option<int>, group: Option<string>): seq<Message>
      requires Valid()
    {
      match (Find(k), StartOffset(k, position, group))
      case (Ok(l), Ok(offset)) => l.Owed(offset)
      case _ => []
    }
  }

  /**
    The broker during one fetch, which takes several locks in turn: when the shutdown flag and the
    committed offset are read, when the watermarks are read for lack of one, when the message is
    read, and when the watermarks are read again because the offset was out of range.
  */
  datatype Visit = Visit(first: State, marks: State, read: State, recover: State) {

    ghost predicate Valid() { first.Valid() && marks.Valid() && read.Valid() && recover.Valid() }

    ghost predicate Live() { first.Live() && marks.Live() && read.Live() && recover.Live() }

    /** The offset the message is read at. */
    ghost function StartOffset(k: TopicPartition, position: Option<int>, group: Option<string>): Result<int> {
      if position.Some? then Ok(position.value)
      else if group.Some? && group.value in first.groups && (group.value, k) in first.offsets then
        Ok(first.offsets[(group.value, k)] + 1)
      else marks.Oldest(k)
    }

    /** An out-of-range offset comes back as an error carrying the offset to retry from. */
    ghost function Fetch(k: TopicPartition, position: Option<int>, group: Option<string>): Result<Option<Message>> {
      if first.down then Err(BrokerShutdown)
      else
        match StartOffset(k, position, group)
        case Err(e) => Err(e)
        case Ok(offset) =>
          match read.FetchOne(k, offset)
          case Err(OffsetOutOfRange(_, _, _)) =>
            (match recover.Oldest(k)
             case Ok(oldest) => Err(OffsetOutOfRange(k.topic, k.partition, oldest))
             case Err(e) => Err(e))
          case r => r
    }
  }

  function Still(s: State): Visit { Visit(s, s, s, s) }

  /** On a live broker a fetch of an existing partition is one read of its log. */
  lemma FetchReadsLog(s: State, k: TopicPartition, position: Option<int>, group: Option<string>)
    requires s.Valid() && s.Live() && s.Find(k).Ok?
    ensures var l, start := s.Find(k).value, s.StartOffset(k, position, group);
            && l.Valid() && l.topic == k.topic && l.id == k.partition
            && start.Ok? && s.Owed(k, position, group) == l.Owed(start.value)
            && s.Fetch(k, position, group) ==
               match l.ReadOne(start.value)
               case Err(_) => Err(OffsetOutOfRange(k.topic, k.partition, l.Oldest()))
               case r => r
  {
    hide Log.Owed;
  }

  /** A fetch of a missing partition owes nothing and starts at a committed offset, if anywhere. */
  lemma FetchWithoutLog(s: State, k: TopicPartition, position: Option<int>, group: Option<string>)
    requires s.Valid() && s.Live() && s.Find(k).Err?
    ensures s.Owed(k, position, group) == []
    ensures s.Fetch(k, position, group) == Err(s.Find(k).error)
    ensures s.Find(k).error.TopicNotFound? || s.Find(k).error.PartitionOutOfRange?
  {
  }

  /**
    One fetch decides everything about one partition: it hands over the first owed message, or
    nothing is owed, or it asks for one reset after which the next fetch cannot be out of range
    and the same messages are owed.
  */
  lemma FetchServesOwed(s: State, k: TopicPartition, position: Option<int>, group: Option<string>)
    requires s.Valid() && s.Live()
    ensures var owed := s.Owed(k, position, group);
            match s.Fetch(k, position, group)
            case Ok(Some(m)) =>
              owed != [] && m == owed[0] && s.Owed(k, Some(m.offset + 1), group) == owed[1..] &&
              TopicPartition(m.topic, m.partition) == k
            case Ok(None) => owed == []
            case Err(OffsetOutOfRange(_, _, o)) =>
              s.Owed(k, Some(o), group) == owed && s.Fetch(k, Some(o), group).Ok?
            case Err(e) => owed == [] && (e.TopicNotFound? || e.PartitionOutOfRange?)
  {
    hide Log.ReadOne, Log.Owed, Log.Oldest, State.Fetch, State.Owed;
    var start := s.StartOffset(k, position, group);
    if s.Find(k).Ok? {
      var l := s.Find(k).value;
      FetchReadsLog(s, k, position, group);
      ReadOneServesOwed(l, start.value);
      match l.ReadOne(start.value)
      case Ok(Some(m)) => FetchReadsLog(s, k, Some(m.offset + 1), group);
      case Ok(None) =>
      case Err(_) => FetchReadsLog(s, k, Some(l.Oldest()), group);
    } else {
      FetchWithoutLog(s, k, position, group);
    }
  }
}
