/** src/partition_assignor.rs: dealing each topic's partitions to its subscribers in turn. */
module Assignor {
  import opened Arithmetic
  import opened Common

  // ---------------------------------------------------------------------------
  // Sorted member ids
  // ---------------------------------------------------------------------------

  predicate LexLe(a: string, b: string) {
    a == [] || (b != [] && (a[0] < b[0] || (a[0] == b[0] && LexLe(a[1..], b[1..]))))
  }

  /** That is the usual order: a prefix comes first, else the smaller character at the first difference. */
  lemma {:induction false} LexLeIsStringOrder(a: string, b: string)
    ensures LexLe(a, b) <==>
            a <= b || exists i :: 0 <= i < |a| && i < |b| && a[..i] == b[..i] && a[i] < b[i]
    decreases |a|
  {
    if a != [] && b != [] && a[0] == b[0] {
      LexLeIsStringOrder(a[1..], b[1..]);
      assert a == [a[0]] + a[1..] && b == [b[0]] + b[1..];
      if i :| 0 <= i < |a| && i < |b| && a[..i] == b[..i] && a[i] < b[i] {
        assert i > 0 && a[1..][..i - 1] == a[..i][1..] == b[..i][1..] == b[1..][..i - 1];
        assert a[1..][i - 1] < b[1..][i - 1];
      }
      if j :| 0 <= j < |a[1..]| && j < |b[1..]| && a[1..][..j] == b[1..][..j] && a[1..][j] < b[1..][j] {
        assert a[..j + 1] == [a[0]] + a[1..][..j] == [b[0]] + b[1..][..j] == b[..j + 1];
        assert a[j + 1] < b[j + 1];
      }
    } else if a != [] && b != [] && a[0] < b[0] {
      assert a[..0] == b[..0];
    } else if a != [] && b != [] {
      forall i | 0 < i < |a| && i < |b| ensures a[..i] != b[..i] {
        assert a[..i][0] != b[..i][0];
      }
    }
  }

  lemma LexTotal(a: string, b: string)
    ensures LexLe(a, b) || LexLe(b, a)
    ensures LexLe(a, b) && LexLe(b, a) ==> a == b
  {
    if a != [] && b != [] && a[0] == b[0] {
      LexTotal(a[1..], b[1..]);
      assert a == [a[0]] + a[1..] && b == [b[0]] + b[1..];
    }
  }

  lemma LexTransitive(a: string, b: string, c: string)
    requires LexLe(a, b) && LexLe(b, c)
    ensures LexLe(a, c)
  {
  }

  predicate Least(m: string, s: set<string>) {
    m in s && forall x | x in s :: LexLe(m, x)
  }

  lemma {:induction false} LeastExists(s: set<string>)
    requires s != {}
    ensures exists m :: Least(m, s)
    ensures forall x, y | Least(x, s) && Least(y, s) :: x == y
    decreases |s|
  {
    var e :| e in s;
    LexTotal(e, e);
    if s == {e} {
      assert Least(e, s);
    } else {
      assert s - {e} != {};
      LeastExists(s - {e});
      var rest :| Least(rest, s - {e});
      LexTotal(e, rest);
      var m := if LexLe(e, rest) then e else rest;
      forall x | x in s ensures LexLe(m, x) {
        if x != e && LexLe(e, rest) {
          LexTransitive(e, rest, x);
        }
      }
      assert Least(m, s);
    }
    forall x, y | Least(x, s) && Least(y, s) ensures x == y {
      LexTotal(x, y);
    }
  }

  /** The ids in ascending order. */
  function Sort(s: set<string>): (r: seq<string>)
    ensures forall x :: x in r <==> x in s
    ensures forall i, j | 0 <= i < j < |r| :: LexLe(r[i], r[j]) && r[i] != r[j]
    decreases |s|
  {
    if s == {} then []
    else
      LeastExists(s);
      var m :| Least(m, s);
      [m] + Sort(s - {m})
  }

  // ---------------------------------------------------------------------------
  // What an assignment must be
  // ---------------------------------------------------------------------------

  type Subscriptions = map<string, seq<string>>
  type Counts = map<string, nat>
  type Assignment = map<string, seq<TopicPartition>>

  function Filter(members: seq<string>, subs: Subscriptions, topic: string): (r: seq<string>)
    requires forall m | m in members :: m in subs
    ensures forall m :: m in r <==> m in members && topic in subs[m]
    ensures (forall i, j | 0 <= i < j < |members| :: members[i] != members[j]) ==>
              forall i, j | 0 <= i < j < |r| :: r[i] != r[j]
  {
    if members == [] then []
    else
      (if topic in subs[members[0]] then [members[0]] else []) + Filter(members[1..], subs, topic)
  }

  /** The subscribers of a topic in ascending order of their ids. */
  function Subscribers(subs: Subscriptions, topic: string): (r: seq<string>)
    ensures forall m :: m in r <==> m in subs && topic in subs[m]
    ensures forall i, j | 0 <= i < j < |r| :: r[i] != r[j]
  {
    Filter(Sort(subs.Keys), subs, topic)
  }

  /** `k` exists and its topic has a subscriber. */
  predicate Assignable(subs: Subscriptions, counts: Counts, k: TopicPartition) {
    k.topic in counts && 0 <= k.partition < counts[k.topic] && Subscribers(subs, k.topic) != []
  }

  /** Partition p of a topic with n sorted subscribers belongs to the one at index p mod n. */
  predicate Owns(subs: Subscriptions, counts: Counts, m: string, k: TopicPartition) {
    && Assignable(subs, counts, k)
    && var s := Subscribers(subs, k.topic); s[k.partition % |s|] == m
  }

  ghost predicate NoDuplicates<T>(s: seq<T>) {
    forall i, j | 0 <= i < j < |s| :: s[i] != s[j]
  }

  /** Every member has a list, holding each partition it owns once and nothing else. */
  ghost predicate IsAssignment(subs: Subscriptions, counts: Counts, a: Assignment) {
    && a.Keys == subs.Keys
    && forall m | m in a ::
         NoDuplicates(a[m]) && forall k :: k in a[m] <==> Owns(subs, counts, m, k)
  }

  function AllTopics(subs: Subscriptions): set<string> {
    set m, t | m in subs && t in subs[m] :: t
  }

  /** The list of `m` after the topics `done`, and the first `p` partitions of `topic`. */
  ghost predicate ListDealt(subs: Subscriptions, counts: Counts, m: string, list: seq<TopicPartition>,
                            done: set<string>, topic: string, p: nat)
  {
    && NoDuplicates(list)
    && forall k :: k in list <==>
                   Owns(subs, counts, m, k) && (k.topic in done || (k.topic == topic && k.partition < p))
  }

  /** The state of Assign after the topics `done`, and the first `p` partitions of `topic`. */
  ghost predicate Dealt(subs: Subscriptions, counts: Counts, a: Assignment,
                        done: set<string>, topic: string, p: nat)
  {
    a.Keys == subs.Keys && forall m | m in a :: ListDealt(subs, counts, m, a[m], done, topic, p)
  }

  /** The topics are visited in an arbitrary order, as the iteration over a hash set is. */
  method Assign(subs: Subscriptions, counts: Counts) returns (r: Result<Assignment>)
    ensures r.Ok? && IsAssignment(subs, counts, r.value)
  {
    hide *;
    var sortedMembers := Sort(subs.Keys);
    var assignments: Assignment := map m | m in subs :: [];
    NothingDealt(subs, counts, assignments);
    var remaining := AllTopics(subs);
    ghost var done := {};
    while remaining != {}
      invariant done + remaining == AllTopics(subs) && done !! remaining
      invariant Dealt(subs, counts, assignments, done, "", 0)
      decreases remaining
    {
      var topic :| topic in remaining;
      remaining := remaining - {topic};
      ghost var before := done;
      done := done + {topic};
      if topic !in counts {
        SkipTopic(subs, counts, assignments, before, topic);
        continue;
      }
      var numPartitions := counts[topic];
      var subscribed := Filter(sortedMembers, subs, topic);
      assert subscribed == Subscribers(subs, topic) by { SubscribersAreFiltered(subs, topic); }
      var subCount := |subscribed|;
      if subCount == 0 || numPartitions == 0 {
        SkipTopic(subs, counts, assignments, before, topic);
        continue;
      }
      StartTopic(subs, counts, assignments, before, topic);
      for p := 0 to numPartitions
        invariant Dealt(subs, counts, assignments, before, topic, p)
      {
        var memberId := subscribed[p % subCount];
        Deal(subs, counts, assignments, before, topic, p);
        assignments := assignments[memberId := assignments[memberId] + [TopicPartition(topic, p)]];
      }
      FinishTopic(subs, counts, assignments, before, topic);
    }
    r := Ok(assignments);
    AllDealt(subs, counts, assignments);
  }

  lemma SubscribersAreFiltered(subs: Subscriptions, topic: string)
    ensures Subscribers(subs, topic) == Filter(Sort(subs.Keys), subs, topic)
  {
  }

  lemma NothingDealt(subs: Subscriptions, counts: Counts, a: Assignment)
    requires a.Keys == subs.Keys && forall m | m in a :: a[m] == []
    ensures Dealt(subs, counts, a, {}, "", 0)
  {
    assert forall m, k | Owns(subs, counts, m, k) :: k.partition >= 0;
  }

  lemma Deal(subs: Subscriptions, counts: Counts, a: Assignment, done: set<string>, topic: string, p: nat)
    requires topic in counts && p < counts[topic] && topic !in done && Subscribers(subs, topic) != []
    requires Dealt(subs, counts, a, done, topic, p)
    ensures var s := Subscribers(subs, topic);
            var m := s[p % |s|];
            m in a && Dealt(subs, counts, a[m := a[m] + [TopicPartition(topic, p)]], done, topic, p + 1)
  {
    OwnerIsUnique(subs, counts, topic, p);
    var s := Subscribers(subs, topic);
    DealTo(subs, counts, a, done, topic, p, s[p % |s|]);
  }

  lemma DealTo(subs: Subscriptions, counts: Counts, a: Assignment, done: set<string>, topic: string, p: nat, m: string)
    requires topic !in done && Dealt(subs, counts, a, done, topic, p) && m in a
    requires forall x :: Owns(subs, counts, x, TopicPartition(topic, p)) <==> x == m
    ensures Dealt(subs, counts, a[m := a[m] + [TopicPartition(topic, p)]], done, topic, p + 1)
  {
    hide Owns, ListDealt;
    var a' := a[m := a[m] + [TopicPartition(topic, p)]];
    forall x | x in a' ensures ListDealt(subs, counts, x, a'[x], done, topic, p + 1) {
      DealOne(subs, counts, x, a[x], done, topic, p);
    }
  }

  lemma OwnerIsUnique(subs: Subscriptions, counts: Counts, topic: string, p: nat)
    requires topic in counts && p < counts[topic] && Subscribers(subs, topic) != []
    ensures var s := Subscribers(subs, topic);
            var m := s[p % |s|];
            m in subs && forall x :: Owns(subs, counts, x, TopicPartition(topic, p)) <==> x == m
  {
    var s := Subscribers(subs, topic);
    assert s[p % |s|] in s;
  }

  lemma DealOne(subs: Subscriptions, counts: Counts, m: string, list: seq<TopicPartition>,
                done: set<string>, topic: string, p: nat)
    requires topic !in done && ListDealt(subs, counts, m, list, done, topic, p)
    ensures var dealt := TopicPartition(topic, p);
            var list' := if Owns(subs, counts, m, dealt) then list + [dealt] else list;
            ListDealt(subs, counts, m, list', done, topic, p + 1)
  {
    hide Owns;
    assert TopicPartition(topic, p) !in list;
  }

  lemma FinishTopic(subs: Subscriptions, counts: Counts, a: Assignment, done: set<string>, topic: string)
    requires topic in counts && Dealt(subs, counts, a, done, topic, counts[topic])
    ensures Dealt(subs, counts, a, done + {topic}, "", 0)
  {
    assert forall m, k | Owns(subs, counts, m, k) && k.topic == topic :: k.partition < counts[topic];
    hide Owns;
  }

  lemma SkipTopic(subs: Subscriptions, counts: Counts, a: Assignment, done: set<string>, topic: string)
    requires topic !in counts || counts[topic] == 0 || Subscribers(subs, topic) == []
    requires Dealt(subs, counts, a, done, "", 0)
    ensures Dealt(subs, counts, a, done + {topic}, "", 0)
  {
    forall m, k | Owns(subs, counts, m, k) ensures k.topic != topic {
    }
    hide Owns, Subscribers;
    forall m | m in a ensures ListDealt(subs, counts, m, a[m], done + {topic}, "", 0) {
      assert ListDealt(subs, counts, m, a[m], done, "", 0);
    }
  }

  lemma StartTopic(subs: Subscriptions, counts: Counts, a: Assignment, done: set<string>, topic: string)
    requires Dealt(subs, counts, a, done, "", 0)
    ensures Dealt(subs, counts, a, done, topic, 0)
  {
    assert forall m, k | Owns(subs, counts, m, k) :: k.partition >= 0;
    hide Owns;
  }

  lemma AllDealt(subs: Subscriptions, counts: Counts, a: Assignment)
    requires Dealt(subs, counts, a, AllTopics(subs), "", 0)
    ensures IsAssignment(subs, counts, a)
  {
    forall m, k | Owns(subs, counts, m, k) ensures k.topic in AllTopics(subs) {
      var s := Subscribers(subs, k.topic);
      assert s[0] in s;
    }
  }

  // ---------------------------------------------------------------------------
  // Exact cover
  // ---------------------------------------------------------------------------

  /** Exactly one member's list holds `k`, and holds it once. */
  ghost predicate AssignedOnce(a: Assignment, k: TopicPartition) {
    exists m | m in a ::
      multiset(a[m])[k] == 1 && forall other | other in a && other != m :: k !in a[other]
  }

  lemma {:induction false} OccursOnce<T>(s: seq<T>, x: T)
    requires NoDuplicates(s)
    ensures multiset(s)[x] == if x in s then 1 else 0
  {
    if s != [] {
      OccursOnce(s[1..], x);
      assert s == [s[0]] + s[1..];
      assert x == s[0] ==> x !in s[1..];
    }
  }

  /** Every assignable partition goes to exactly one member, once, which subscribes to its topic. */
  lemma ExactCover(subs: Subscriptions, counts: Counts, a: Assignment, k: TopicPartition)
    requires IsAssignment(subs, counts, a)
    ensures Assignable(subs, counts, k) <==> AssignedOnce(a, k)
    ensures !Assignable(subs, counts, k) ==> forall m | m in a :: k !in a[m]
    ensures forall m | m in a && k in a[m] :: k.topic in subs[m]
  {
    if Assignable(subs, counts, k) {
      var s := Subscribers(subs, k.topic);
      var m := s[k.partition % |s|];
      assert m in s && Owns(subs, counts, m, k);
      OccursOnce(a[m], k);
      assert AssignedOnce(a, k);
    }
    forall m | m in a && k in a[m] ensures k.topic in subs[m] && Assignable(subs, counts, k) {
      var s := Subscribers(subs, k.topic);
      assert s[k.partition % |s|] in s;
    }
  }

  /** The order in which topics are visited does not matter: each member gets the same partitions. */
  lemma OrderIndependent(subs: Subscriptions, counts: Counts, a: Assignment, b: Assignment)
    requires IsAssignment(subs, counts, a) && IsAssignment(subs, counts, b)
    ensures a.Keys == b.Keys && forall m | m in a :: multiset(a[m]) == multiset(b[m])
  {
    forall m | m in a ensures multiset(a[m]) == multiset(b[m]) {
      forall k ensures multiset(a[m])[k] == multiset(b[m])[k] {
        OccursOnce(a[m], k);
        OccursOnce(b[m], k);
        assert k in a[m] <==> Owns(subs, counts, m, k);
        assert k in b[m] <==> Owns(subs, counts, m, k);
      }
    }
  }

  // ---------------------------------------------------------------------------
  // Ranks
  // ---------------------------------------------------------------------------

  ghost predicate Ascending(s: seq<string>) {
    forall i, j | 0 <= i < j < |s| :: LexLe(s[i], s[j]) && s[i] != s[j]
  }

  lemma {:induction false} FilterAscends(members: seq<string>, subs: Subscriptions, topic: string)
    requires (forall m | m in members :: m in subs) && Ascending(members)
    ensures Ascending(Filter(members, subs, topic))
    decreases |members|
  {
    if members != [] {
      var rest := Filter(members[1..], subs, topic);
      FilterAscends(members[1..], subs, topic);
      forall x | x in rest ensures LexLe(members[0], x) && members[0] != x {
        assert x in members[1..];
      }
    }
  }

  /** The members that subscribe to a topic. */
  ghost function SubscriberSet(subs: Subscriptions, topic: string): set<string> {
    set x | x in subs && topic in subs[x]
  }

  /** The subscribers of a topic whose ids come before `m` in the string order. */
  ghost function Before(subs: Subscriptions, topic: string, m: string): set<string> {
    set x | x in subs && topic in subs[x] && x != m && LexLe(x, m)
  }

  ghost function Elements(s: seq<string>): set<string> { set x | x in s }

  lemma {:induction false} ElementCount(s: seq<string>)
    requires NoDuplicates(s)
    ensures |Elements(s)| == |s|
    decreases |s|
  {
    if s != [] {
      var rest, last := s[..|s| - 1], s[|s| - 1];
      ElementCount(rest);
      assert s == rest + [last] && last !in rest;
      assert Elements(s) == Elements(rest) + {last};
    }
  }

  lemma RankIn(s: seq<string>, i: nat, below: set<string>)
    requires Ascending(s) && i < |s|
    requires forall x :: x in below <==> x in s && x != s[i] && LexLe(x, s[i])
    ensures |below| == i
  {
    hide LexLe;
    forall x ensures x in below <==> x in Elements(s[..i]) {
      if x in s {
        var j :| 0 <= j < |s| && s[j] == x;
        LexTotal(x, s[i]);
        assert j < i ==> s[..i][j] == x;
      }
    }
    assert below == Elements(s[..i]);
    ElementCount(s[..i]);
  }

  lemma RankOf(subs: Subscriptions, topic: string, i: nat)
    requires i < |Subscribers(subs, topic)|
    ensures |Before(subs, topic, Subscribers(subs, topic)[i])| == i
    ensures |SubscriberSet(subs, topic)| == |Subscribers(subs, topic)|
  {
    var s := Subscribers(subs, topic);
    FilterAscends(Sort(subs.Keys), subs, topic);
    hide Sort, LexLe, Filter;
    RankIn(s, i, Before(subs, topic, s[i]));
    ElementCount(s);
    assert SubscriberSet(subs, topic) == Elements(s);
  }

  /**
    A member's list holds partition p of a topic exactly when the partition exists, the member
    subscribes, and p mod k of the k subscribers come before it in the string order.
  */
  lemma AssignedByRank(subs: Subscriptions, counts: Counts, a: Assignment, m: string, k: TopicPartition)
    requires IsAssignment(subs, counts, a) && m in a
    ensures k in a[m] <==>
            && k.topic in counts && 0 <= k.partition < counts[k.topic]
            && m in SubscriberSet(subs, k.topic)
            && |SubscriberSet(subs, k.topic)| > 0
            && |Before(subs, k.topic, m)| == k.partition % |SubscriberSet(subs, k.topic)|
  {
    var s := Subscribers(subs, k.topic);
    assert k in a[m] <==> Owns(subs, counts, m, k);
    hide IsAssignment, Subscribers, LexLe;
    if m in s {
      var i :| 0 <= i < |s| && s[i] == m;
      RankOf(subs, k.topic, i);
      if k.topic in counts && 0 <= k.partition < counts[k.topic] {
        var o := k.partition % |s|;
        assert s[o] == s[i] <==> o == i;
      }
    }
  }

  // ---------------------------------------------------------------------------
  // Balance
  // ---------------------------------------------------------------------------

  /** The partitions below `n` that go to index `i` of `k` subscribers. */
  ghost function Dealing(topic: string, n: nat, k: nat, i: nat): set<TopicPartition>
    requires k > 0
  {
    set p | 0 <= p < n && p % k == i :: TopicPartition(topic, p)
  }

  lemma {:induction false} DealingSize(topic: string, n: nat, k: nat, i: nat)
    requires i < k
    ensures |Dealing(topic, n, k, i)| == n / k + if i < n % k then 1 else 0
  {
    if n == 0 {
      ModUnique(0, 0, 0, k);
    } else {
      DealingSize(topic, n - 1, k, i);
      EuclideanStep(n - 1, k);
      EuclideanStepQuotient(n - 1, k);
      var last := TopicPartition(topic, n - 1);
      assert last !in Dealing(topic, n - 1, k, i);
      assert Dealing(topic, n, k, i) ==
             Dealing(topic, n - 1, k, i) + if (n - 1) % k == i then {last} else {};
    }
  }

  /** What a member's list holds of the given topics. */
  ghost function Part(list: seq<TopicPartition>, topics: set<string>): set<TopicPartition> {
    set k | k in list && k.topic in topics
  }

  lemma TopicLoad(subs: Subscriptions, counts: Counts, a: Assignment, topic: string, i: nat)
    requires IsAssignment(subs, counts, a) && topic in counts && i < |Subscribers(subs, topic)|
    ensures var s := Subscribers(subs, topic);
            s[i] in a && |Part(a[s[i]], {topic})| == counts[topic] / |s| + if i < counts[topic] % |s| then 1 else 0
  {
    var s := Subscribers(subs, topic);
    var m := s[i];
    assert m in s;
    DealingSize(topic, counts[topic], |s|, i);
    assert Part(a[m], {topic}) == Dealing(topic, counts[topic], |s|, i) by {
      forall k ensures k in Part(a[m], {topic}) <==> k in Dealing(topic, counts[topic], |s|, i) {
        assert k in a[m] <==> Owns(subs, counts, m, k);
        if k.topic == topic && 0 <= k.partition < counts[topic] {
          assert s[k.partition % |s|] == s[i] <==> k.partition % |s| == i;
        }
      }
    }
  }

  /** Two subscribers of a topic never differ by more than one of its partitions. */
  lemma TopicBalanced(subs: Subscriptions, counts: Counts, a: Assignment, topic: string, m: string, m': string)
    requires IsAssignment(subs, counts, a)
    requires m in subs && m' in subs && topic in subs[m] && topic in subs[m']
    ensures |Part(a[m], {topic})| <= |Part(a[m'], {topic})| + 1
  {
    var s := Subscribers(subs, topic);
    assert m in s && m' in s;
    var i :| 0 <= i < |s| && s[i] == m;
    var j :| 0 <= j < |s| && s[j] == m';
    if topic in counts {
      TopicLoad(subs, counts, a, topic, i);
      TopicLoad(subs, counts, a, topic, j);
    } else {
      assert forall k :: k in a[m] ==> k.topic != topic;
      assert Part(a[m], {topic}) == {};
    }
  }

  lemma {:induction false} PartBalanced(subs: Subscriptions, counts: Counts, a: Assignment,
                                        topics: set<string>, m: string, m': string)
    requires IsAssignment(subs, counts, a) && m in subs && m' in subs
    requires forall t | t in topics :: t in subs[m] && t in subs[m']
    ensures |Part(a[m], topics)| <= |Part(a[m'], topics)| + |topics|
    decreases |topics|
  {
    if topics == {} {
      assert Part(a[m], topics) == {};
    } else {
      hide *;
      var t :| t in topics;
      var rest := topics - {t};
      PartBalanced(subs, counts, a, rest, m, m');
      TopicBalanced(subs, counts, a, t, m, m');
      SplitPart(a[m], topics, t);
      SplitPart(a[m'], topics, t);
    }
  }

  lemma SplitPart(list: seq<TopicPartition>, topics: set<string>, t: string)
    requires t in topics
    ensures |Part(list, topics)| == |Part(list, topics - {t})| + |Part(list, {t})|
  {
    assert Part(list, topics) == Part(list, topics - {t}) + Part(list, {t});
  }

  lemma {:induction false} ListSize(list: seq<TopicPartition>, topics: set<string>)
    requires NoDuplicates(list) && forall k | k in list :: k.topic in topics
    ensures |list| == |Part(list, topics)|
  {
    if list != [] {
      ListSize(list[1..], topics);
      assert list[0] !in list[1..];
      assert Part(list, topics) == {list[0]} + Part(list[1..], topics);
    }
  }

  /** When all members subscribe to the same topics, their total loads differ by at most one per topic. */
  lemma TotalBalanced(subs: Subscriptions, counts: Counts, a: Assignment, topics: set<string>, m: string, m': string)
    requires IsAssignment(subs, counts, a) && m in subs && m' in subs
    requires forall x | x in subs :: (set t | t in subs[x]) == topics
    ensures |a[m]| <= |a[m']| + |topics|
  {
    forall x, k | x in a && k in a[x] ensures k.topic in topics {
      ExactCover(subs, counts, a, k);
    }
    assert forall t | t in topics :: t in (set x | x in subs[m]) && t in (set x | x in subs[m']);
    PartBalanced(subs, counts, a, topics, m, m');
    ListSize(a[m], topics);
    ListSize(a[m'], topics);
  }
}
