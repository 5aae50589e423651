/** The recency list: which pointers stay valid, when the eviction loop is safe,
    and when eviction really is least-recently-used. */
module Lru {
  import opened Text
  import opened Keyspace
  import opened Commands

  // ----- the pointer invariant -----

  predicate UniqueNodes(s: State) {
    && (forall i, j :: 0 <= i < j < |s.order| ==> s.order[i].id != s.order[j].id)
    && (forall i :: 0 <= i < |s.order| ==> s.order[i].id < s.nextNode)
  }

  /** The iterator stored for `key` is live and points at the front-most node holding `key`. */
  predicate PointsAtFrontMost(s: State, key: string)
    requires key in s.position
  {
    var i := KeyIndex(s.order, key);
    i < |s.order| && s.order[i].id == s.position[key]
  }

  /** `del` and `evict_expired` leave nodes and iterators behind, so `order` can hold keys that
      are gone, and the same key twice. What survives is that every string key has an iterator,
      and every iterator is live and points at the front-most node of its key. */
  predicate PointerInv(s: State) {
    && UniqueNodes(s)
    && s.strings.Keys <= s.position.Keys
    && forall k :: k in s.position ==> PointsAtFrontMost(s, k)
  }

  lemma KeyIndexIs(order: seq<Node>, key: string, i: nat)
    requires i <= |order| && (i < |order| ==> order[i].key == key)
    requires forall j :: 0 <= j < i ==> order[j].key != key
    ensures KeyIndex(order, key) == i
  {
  }

  /** Erasing through a stored iterator hits a live node: the front-most one of the key. */
  lemma StoredIteratorLive(s: State, key: string)
    requires PointerInv(s) && key in s.position
    ensures NodeIndex(s.order, s.position[key]) == KeyIndex(s.order, key) < |s.order|
    ensures EraseNode(s, s.position[key]).undefined == s.undefined
  {
    assert PointsAtFrontMost(s, key);
  }

  lemma IteratorsLive(s: State)
    requires PointerInv(s)
    ensures forall k :: k in s.position ==> KeyIndex(s.order, k) < |s.order|
  {
    forall k | k in s.position
      ensures KeyIndex(s.order, k) < |s.order|
    {
      assert PointsAtFrontMost(s, k);
    }
  }

  /** Taking the front-most node of `key` out of the list leaves every other key's front-most node. */
  lemma KeyIndexAfterErase(order: seq<Node>, i: nat, other: string)
    requires i < |order| && order[i].key != other
    ensures var rest := order[..i] + order[i + 1..];
            var k := KeyIndex(order, other);
            k != i && KeyIndex(rest, other) == if k < i then k else k - 1
  {
    var rest, k := order[..i] + order[i + 1..], KeyIndex(order, other);
    assert forall j :: 0 <= j < |rest| ==> rest[j] == if j < i then order[j] else order[j + 1];
    KeyIndexIs(rest, other, if k < i then k else k - 1);
  }

  lemma KeyIndexAfterPush(order: seq<Node>, n: Node, other: string)
    ensures KeyIndex([n] + order, other) == if n.key == other then 0 else 1 + KeyIndex(order, other)
  {
    var t := [n] + order;
    assert forall j :: 0 < j < |t| ==> t[j] == order[j - 1];
    KeyIndexIs(t, other, if n.key == other then 0 else 1 + KeyIndex(order, other));
  }

  /** Nothing but the stores changed, and no string was added. */
  predicate SameRecency(s: State, t: State) {
    t.order == s.order && t.position == s.position && t.nextNode == s.nextNode && t.strings.Keys <= s.strings.Keys
  }

  lemma SameRecencyKeeps(s: State, t: State)
    requires PointerInv(s) && SameRecency(s, t)
    ensures PointerInv(t)
  {
    forall k | k in t.position
      ensures PointsAtFrontMost(t, k)
    {
      assert PointsAtFrontMost(s, k);
    }
  }

  lemma UniqueAfterErase(s: State, i: nat)
    requires UniqueNodes(s) && i < |s.order|
    ensures UniqueNodes(s.(order := s.order[..i] + s.order[i + 1..]))
  {
    var rest := s.order[..i] + s.order[i + 1..];
    assert forall j :: 0 <= j < |rest| ==> rest[j] == if j < i then s.order[j] else s.order[j + 1];
  }

  /** Erasing a key's front-most node does not disturb the other keys' iterators. */
  lemma EraseKeepsOthers(s: State, key: string)
    requires PointerInv(s) && key in s.position
    ensures var t := EraseNode(s, s.position[key]);
            && t == s.(order := t.order)
            && UniqueNodes(t)
            && forall k :: k in t.position && k != key ==> PointsAtFrontMost(t, k)
  {
    hide KeyIndex, NodeIndex;
    StoredIteratorLive(s, key);
    var t, i := EraseNode(s, s.position[key]), KeyIndex(s.order, key);
    UniqueAfterErase(s, i);
    forall k | k in t.position && k != key
      ensures PointsAtFrontMost(t, k)
    {
      assert PointsAtFrontMost(s, k);
      KeyIndexAfterErase(s.order, i, k);
    }
  }

  /** Erasing a key's front-most node together with its iterator, as lazy expiry does. */
  lemma ForgetKeeps(s: State, key: string)
    requires PointerInv(s) && key in s.position && key !in s.strings
    ensures var t := EraseNode(s, s.position[key]).(position := s.position - {key});
            PointerInv(t) && t.undefined == s.undefined
  {
    hide KeyIndex, EraseNode;
    EraseKeepsOthers(s, key);
    var e := EraseNode(s, s.position[key]);
    var t := e.(position := s.position - {key});
    forall k | k in t.position
      ensures PointsAtFrontMost(t, k)
    {
      assert PointsAtFrontMost(e, k);
    }
  }

  lemma UniqueAfterPush(s: State, key: string)
    requires UniqueNodes(s)
    ensures UniqueNodes(PushFront(s, key))
  {
  }

  lemma PushFrontKeeps(s: State, key: string)
    requires UniqueNodes(s) && s.strings.Keys <= s.position.Keys + {key}
    requires forall k :: k in s.position && k != key ==> PointsAtFrontMost(s, k)
    ensures PointerInv(PushFront(s, key))
  {
    hide UniqueNodes, KeyIndex;
    UniqueAfterPush(s, key);
    var t := PushFront(s, key);
    forall k | k in t.position
      ensures PointsAtFrontMost(t, k)
    {
      assert k != key ==> PointsAtFrontMost(s, k);
      KeyIndexAfterPush(s.order, t.order[0], k);
    }
  }

  lemma TouchKeeps(s: State, key: string)
    requires PointerInv(s) && key in s.position
    ensures PointerInv(Touch(s, key)) && Touch(s, key).undefined == s.undefined
  {
    hide KeyIndex, EraseNode;
    EraseKeepsOthers(s, key);
    PushFrontKeeps(EraseNode(s, s.position[key]), key);
  }

  lemma PopBackKeeps(s: State)
    requires PointerInv(s) && s.order != []
    ensures PointerInv(PopBack(s))
  {
    var t, n := PopBack(s), |s.order| - 1;
    assert t.order + s.order[n..] == s.order;
    forall k | k in t.position
      ensures PointsAtFrontMost(t, k)
    {
      assert PointsAtFrontMost(s, k);
      KeyIndexIs(t.order, k, KeyIndex(s.order, k));
    }
  }

  lemma {:induction false} EvictKeeps(s: State)
    requires PointerInv(s)
    ensures PointerInv(Evict(s))
    decreases |s.order|
  {
    if Over(s) {
      if s.order == [] {
        SameRecencyKeeps(s, s.(undefined := true));
      } else {
        PopBackKeeps(s);
        EvictKeeps(PopBack(s));
      }
    }
  }

  // ----- the eviction loop -----

  /** Lists other than `key` that no node names: the only keys the loop cannot evict.
      A list can be named by a node that its key left behind when it was a deleted string. */
  function Untracked(s: State): set<string> {
    set k | k in s.lists && KeyIndex(s.order, k) == |s.order|
  }

  lemma {:induction false} EvictDefinedIff(s: State)
    requires PointerInv(s)
    ensures Evict(s).undefined <==> s.undefined || |Untracked(s)| >= s.capacity
    ensures !Evict(s).undefined ==> |Evict(s).strings| + |Evict(s).lists| < s.capacity
    decreases |s.order|
  {
    hide KeyIndex;
    if !Over(s) {
      SubsetSize(Untracked(s), s.lists.Keys);
    } else if s.order == [] {
      IteratorsLive(s);
      assert s.strings == map[];
      assert Untracked(s) == s.lists.Keys;
    } else {
      PopBackKeeps(s);
      PopBackUntracked(s);
      EvictDefinedIff(PopBack(s));
    }
  }

  lemma PopBackUntracked(s: State)
    requires s.order != []
    ensures Untracked(PopBack(s)) == Untracked(s)
  {
    var t, n := PopBack(s), |s.order| - 1;
    assert t.order + s.order[n..] == s.order;
    forall k | k in s.lists
      ensures k in Untracked(t) <==> k in Untracked(s)
    {
      if k in t.lists {
        KeyIndexIs(t.order, k, if KeyIndex(s.order, k) < n then KeyIndex(s.order, k) else n);
      }
    }
  }

  lemma SubsetSize(a: set<string>, b: set<string>)
    requires a <= b
    ensures |a| <= |b|
  {
    assert |b| == |a| + |b - a| by {
      assert b == a + (b - a);
    }
  }

  lemma WriteKeeps(s: State, key: string, value: string)
    requires PointerInv(s) && key in s.position
    ensures PointerInv(s.(strings := s.strings[key := value]))
  {
    hide KeyIndex;
    var t := s.(strings := s.strings[key := value]);
    forall k | k in t.position
      ensures PointsAtFrontMost(t, k)
    {
      assert PointsAtFrontMost(s, k);
    }
  }

  lemma PrepareUntracked(s: State, key: string)
    ensures Untracked(SetPrepare(s, key)) == Untracked(s) - {key}
  {
    hide KeyIndex;
  }

  lemma SetNewDefinedIff(s: State, key: string)
    requires PointerInv(s) && key !in s.strings
    ensures var t := PushFront(Evict(s), key);
            && PointerInv(t)
            && (t.undefined <==> s.undefined || |Untracked(s)| >= s.capacity)
            && (!t.undefined ==> |t.strings| + |t.lists| < s.capacity)
  {
    hide KeyIndex, Evict, Untracked;
    EvictDefinedIff(s);
    EvictKeeps(s);
    PushFrontKeeps(Evict(s), key);
  }

  /** `set` keeps the pointers valid, and it runs into undefined behaviour exactly when a new
      string meets a store that stays full after everything evictable is gone. Otherwise it
      leaves at most `capacity` keys. */
  lemma SetDefinedIff(s: State, key: string, value: string)
    requires PointerInv(s)
    ensures PointerInv(Set(s, key, value))
    ensures Set(s, key, value).undefined
       <==> s.undefined || (key !in s.strings && |Untracked(s) - {key}| >= s.capacity)
    ensures key !in s.strings && !Set(s, key, value).undefined ==>
              |Set(s, key, value).strings| + |Set(s, key, value).lists| <= s.capacity
  {
    hide PointsAtFrontMost, UniqueNodes, Evict, Untracked, EraseNode;
    var p := SetPrepare(s, key);
    SameRecencyKeeps(s, p);
    PrepareUntracked(s, key);
    if key in s.strings {
      TouchKeeps(p, key);
      WriteKeeps(Touch(p, key), key, value);
    } else {
      SetNewDefinedIff(p, key);
      WriteKeeps(PushFront(Evict(p), key), key, value);
    }
  }

  lemma {:induction false} EvictShrinks(s: State)
    ensures Evict(s).strings.Keys <= s.strings.Keys && Evict(s).lists.Keys <= s.lists.Keys
    ensures Evict(s).capacity == s.capacity
    decreases |s.order|
  {
    if Over(s) && s.order != [] {
      EvictShrinks(PopBack(s));
    }
  }

  lemma PurgeKeeps(s: State, now: nat, key: string)
    requires PointerInv(s)
    ensures PointerInv(Purge(s, now, key)) && Purge(s, now, key).undefined == s.undefined
  {
    hide KeyIndex, EraseNode;
    if IsExpired(s, now, key) {
      SameRecencyKeeps(s, Drop(s, key));
      if key in s.position {
        ForgetKeeps(Drop(s, key), key);
      }
    }
  }

  // ----- every command, every run -----

  /** The eviction loop of a SET of a new string finds room. */
  predicate FindsRoom(s: State, key: string) {
    |Untracked(s) - {key}| < s.capacity
  }

  predicate UnsafeSet(s: State, key: string) {
    key !in s.strings && !FindsRoom(s, key)
  }

  /** The commands whose C++ behaviour is undefined in state `s`: a SET that the eviction loop
      cannot make room for, and an EXPIRE whose deadline does not fit 64 bits. */
  predicate Unsafe(s: State, now: nat, req: Request) {
    match req
    case SetReq(key, _) => UnsafeSet(s, key)
    case ExpireReq(key, seconds) =>
      || seconds * 1000 > LLONG_MAX
      || (Has(s, key) && !IsExpired(s, now, key) && now + seconds * 1000 > LLONG_MAX)
    case _ => false
  }

  lemma GetKeeps(s: State, now: nat, key: string)
    requires PointerInv(s)
    ensures PointerInv(Get(s, now, key).0) && Get(s, now, key).0.undefined == s.undefined
  {
    hide PointsAtFrontMost, UniqueNodes, Touch, Purge;
    PurgeKeeps(s, now, key);
    var p := Purge(s, now, key);
    if key in p.position {
      TouchKeeps(p, key);
    }
  }

  /** The operations that do not look at the recency list once the key is purged. */
  lemma QuietKeeps(s: State, now: nat, key: string, t: State)
    requires PointerInv(s) && SameRecency(Purge(s, now, key), t)
    ensures PointerInv(t)
  {
    hide PointerInv, Purge;
    PurgeKeeps(s, now, key);
    SameRecencyKeeps(Purge(s, now, key), t);
  }

  lemma ExpireKeeps(s: State, now: nat, key: string, seconds: nat)
    requires PointerInv(s)
    ensures var t := Exec(s, now, ExpireReq(key, seconds)).0;
            PointerInv(t) && (t.undefined <==> s.undefined || Unsafe(s, now, ExpireReq(key, seconds)))
  {
    hide PointerInv, EraseNode;
    var u := s.(undefined := s.undefined || seconds * 1000 > LLONG_MAX);
    SameRecencyKeeps(s, u);
    PurgeKeeps(u, now, key);
    QuietKeeps(u, now, key, Exec(s, now, ExpireReq(key, seconds)).0);
  }

  lemma ExecKeepsPointers(s: State, now: nat, req: Request)
    requires PointerInv(s)
    ensures PointerInv(Exec(s, now, req).0)
    ensures Exec(s, now, req).0.undefined <==> s.undefined || Unsafe(s, now, req)
  {
    hide PointerInv, Get, Set, Expire, Purge, Untracked;
    if !req.SetReq? && !req.DelReq? && !req.Immediate? {
      PurgeKeeps(s, now, req.key);
      PurgeTwice(s, now, req.key);
    }
    var t := Exec(s, now, req).0;
    match req {
      case SetReq(key, value) => SetDefinedIff(s, key, value);
      case GetReq(key) => GetKeeps(Purge(s, now, key), now, key);
      case DelReq(key) => SameRecencyKeeps(s, t);
      case ExpireReq(key, seconds) => ExpireKeeps(s, now, key, seconds);
      case PushReq(key, _, _) => QuietKeeps(s, now, key, t);
      case PopReq(key, _) => QuietKeeps(s, now, key, t);
      case _ =>
    }
  }

  /** The handlers' type check already purged the key: the database's own check finds nothing. */
  lemma PurgeTwice(s: State, now: nat, key: string)
    ensures Purge(Purge(s, now, key), now, key) == Purge(s, now, key)
    ensures !IsExpired(Purge(s, now, key), now, key)
  {
  }

  predicate UnsafeEvent(s: State, e: Event) {
    e.action.Do? && e.action.cmd != [] && Unsafe(s, e.now, Classify(e.action.cmd))
  }

  predicate SafeRun(s: State, es: seq<Event>)
    decreases |es|
  {
    es != [] ==> !UnsafeEvent(s, es[0]) && SafeRun(Step(s, es[0]).0, es[1..])
  }

  lemma StepKeepsPointers(s: State, e: Event)
    requires PointerInv(s)
    ensures PointerInv(Step(s, e).0)
    ensures Step(s, e).0.undefined <==> s.undefined || UnsafeEvent(s, e)
  {
    hide Exec, PointsAtFrontMost, UniqueNodes, Classify, Unsafe;
    match e.action {
      case Do(cmd) =>
        if cmd != [] {
          ExecKeepsPointers(s, e.now, Classify(cmd));
        }
      case SweepTick => SameRecencyKeeps(s, Sweep(s, e.now));
    }
  }

  /** Over every run: the pointers stay valid, and behaviour becomes undefined exactly at an
      unsafe SET or EXPIRE. */
  lemma {:induction false} RunKeepsPointers(s: State, es: seq<Event>)
    requires PointerInv(s)
    ensures PointerInv(Run(s, es))
    ensures Run(s, es).undefined <==> s.undefined || !SafeRun(s, es)
    decreases |es|
  {
    hide Step, PointerInv, UnsafeEvent;
    if es != [] {
      StepKeepsPointers(s, es[0]);
      RunKeepsPointers(Step(s, es[0]).0, es[1..]);
    }
  }
}
