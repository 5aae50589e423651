/** What every operation keeps about the two stores and the expiry index. */
module Stores {
  import opened Text
  import opened Keyspace
  import opened Commands
  import opened Lru

  /** No key is in both stores, no stored list is empty, every deadline belongs to a stored key. */
  predicate Consistent(s: State) {
    && s.strings.Keys !! s.lists.Keys
    && (forall k :: k in s.lists ==> s.lists[k] != [])
    && s.expiry.Keys <= s.strings.Keys + s.lists.Keys
  }

  // ----- the effect of the recency machinery on the stores -----

  lemma TouchFrame(s: State, key: string)
    ensures var t := Touch(s, key);
            t == s.(order := t.order, position := t.position, nextNode := t.nextNode, undefined := t.undefined)
  {
  }

  lemma PurgeFrame(s: State, now: nat, key: string)
    ensures var t, d := Purge(s, now, key), if IsExpired(s, now, key) then Drop(s, key) else s;
            t == d.(order := t.order, position := t.position, undefined := t.undefined)
  {
  }

  /** The keys the eviction loop removes. */
  function Evicted(s: State): set<string>
    decreases |s.order|
  {
    if !Over(s) || s.order == [] then {} else {s.order[|s.order| - 1].key} + Evicted(PopBack(s))
  }

  lemma MinusMinus<V>(m: map<string, V>, a: set<string>, b: set<string>)
    ensures m - {} == m
    ensures m - a - b == m - (a + b)
  {
  }

  /** The loop removes the same keys from both stores and from the expiry index. */
  lemma {:induction false} EvictFrame(s: State)
    ensures Evict(s).strings == s.strings - Evicted(s)
    ensures Evict(s).lists == s.lists - Evicted(s)
    ensures Evict(s).expiry == s.expiry - Evicted(s)
    ensures Evict(s).capacity == s.capacity
    decreases |s.order|
  {
    if Over(s) && s.order != [] {
      var p, key := PopBack(s), s.order[|s.order| - 1].key;
      assert Evict(s) == Evict(p) && Evicted(s) == {key} + Evicted(p);
      hide Evict, Evicted, Over;
      EvictFrame(p);
      MinusMinus(s.strings, {key}, Evicted(p));
      MinusMinus(s.lists, {key}, Evicted(p));
      MinusMinus(s.expiry, {key}, Evicted(p));
    } else {
      hide Over;
      MinusMinus(s.strings, {}, {});
      MinusMinus(s.lists, {}, {});
      MinusMinus(s.expiry, {}, {});
    }
  }

  /** The keys that a SET of `key` evicts. */
  function Victims(s: State, key: string): set<string> {
    if key in s.strings then {} else Evicted(SetPrepare(s, key))
  }

  lemma SetFrame(s: State, key: string, value: string)
    ensures var t, gone := Set(s, key, value), Victims(s, key);
            && t.strings == (s.strings - gone)[key := value]
            && t.lists == s.lists - {key} - gone
            && t.expiry == s.expiry - {key} - gone
            && t.capacity == s.capacity
  {
    hide Evict, Touch, Evicted;
    var p := SetPrepare(s, key);
    if key in s.strings {
      TouchFrame(p, key);
      assert s.strings - {} == s.strings && p.lists - {} == p.lists && p.expiry - {} == p.expiry;
    } else {
      EvictFrame(p);
    }
  }

  // ----- consistency over every run -----

  lemma DropConsistent(s: State, keys: set<string>)
    requires Consistent(s)
    ensures Consistent(DropAll(s, keys))
  {
  }

  lemma PurgeConsistent(s: State, now: nat, key: string)
    requires Consistent(s)
    ensures Consistent(Purge(s, now, key))
  {
    hide Purge;
    PurgeFrame(s, now, key);
  }

  lemma GetFrame(s: State, now: nat, key: string)
    ensures var t, p := Get(s, now, key).0, Purge(s, now, key);
            t == p.(order := t.order, position := t.position, nextNode := t.nextNode, undefined := t.undefined)
  {
    hide Touch, Purge;
    TouchFrame(Purge(s, now, key), key);
  }

  lemma PopConsistent(s: State, now: nat, key: string, front: bool)
    requires Consistent(s)
    ensures Consistent(Pop(s, now, key, front).0)
  {
    hide Purge;
    PurgeConsistent(s, now, key);
  }

  lemma ExpireConsistent(s: State, now: nat, key: string, ttlMs: int)
    requires Consistent(s)
    ensures Consistent(Expire(s, now, key, ttlMs).0)
  {
    hide Purge;
    PurgeConsistent(s, now, key);
  }

  lemma SetConsistent(s: State, key: string, value: string)
    requires Consistent(s)
    ensures Consistent(Set(s, key, value))
  {
    hide Set, Victims;
    SetFrame(s, key, value);
  }

  lemma ExecConsistent(s: State, now: nat, req: Request)
    requires Consistent(s)
    ensures Consistent(Exec(s, now, req).0)
  {
    hide Set, Purge, Get, Pop, Expire;
    if !req.SetReq? && !req.DelReq? && !req.Immediate? {
      PurgeConsistent(s, now, req.key);
      PurgeTwice(s, now, req.key);
    }
    match req {
      case SetReq(key, value) => SetConsistent(s, key, value);
      case GetReq(key) => GetFrame(Purge(s, now, key), now, key);
      case ExpireReq(key, seconds) =>
        ExpireConsistent(s.(undefined := s.undefined || seconds * 1000 > LLONG_MAX), now, key, seconds * 1000);
      case PushReq(key, _, _) => PurgeFrame(s, now, key);
      case PopReq(key, front) => PopConsistent(Purge(s, now, key), now, key, front);
      case _ =>
    }
  }

  lemma StepConsistent(s: State, e: Event)
    requires Consistent(s)
    ensures Consistent(Step(s, e).0)
  {
    hide Exec, Classify;
    match e.action {
      case Do(cmd) => if cmd != [] { ExecConsistent(s, e.now, Classify(cmd)); }
      case SweepTick => DropConsistent(s, ExpiredKeys(s, e.now));
    }
  }

  lemma {:induction false} RunConsistent(s: State, es: seq<Event>)
    requires Consistent(s)
    ensures Consistent(Run(s, es))
    decreases |es|
  {
    hide Step, Consistent;
    if es != [] {
      StepConsistent(s, es[0]);
      RunConsistent(Step(s, es[0]).0, es[1..]);
    }
  }

  // ----- deadlines -----

  predicate DeadlinesFit(s: State) {
    forall k :: k in s.expiry ==> LLONG_MIN <= s.expiry[k] <= LLONG_MAX
  }

  /** An EXPIRE that does not overflow stores a deadline of 64 bits; nothing else stores one. */
  lemma ExecDeadlinesFit(s: State, now: nat, req: Request)
    requires DeadlinesFit(s) && !s.undefined && !Unsafe(s, now, req)
    ensures DeadlinesFit(Exec(s, now, req).0)
  {
    hide Set, Purge, Get, Victims;
    if !req.SetReq? && !req.DelReq? && !req.Immediate? {
      PurgeFrame(s, now, req.key);
      PurgeTwice(s, now, req.key);
    }
    match req {
      case SetReq(key, value) => SetFrame(s, key, value);
      case GetReq(key) => GetFrame(Purge(s, now, key), now, key);
      case _ =>
    }
  }

  // ----- the capacity bound -----

  /** Only a SET adds a string. */
  lemma OthersAddNoString(s: State, now: nat, req: Request)
    requires !req.SetReq?
    ensures Exec(s, now, req).0.strings.Keys <= s.strings.Keys
    ensures Exec(s, now, req).0.capacity == s.capacity
  {
    hide Set, Purge, Get;
    if !req.DelReq? && !req.Immediate? {
      PurgeFrame(s, now, req.key);
      PurgeTwice(s, now, req.key);
    }
    match req {
      case GetReq(key) => GetFrame(Purge(s, now, key), now, key);
      case ExpireReq(key, seconds) =>
        PurgeFrame(s.(undefined := s.undefined || seconds * 1000 > LLONG_MAX), now, key);
      case _ =>
    }
  }

  lemma ExecWithinCapacity(s: State, now: nat, req: Request)
    requires PointerInv(s) && |s.strings| <= s.capacity && !s.undefined && !Unsafe(s, now, req)
    ensures |Exec(s, now, req).0.strings| <= s.capacity && Exec(s, now, req).0.capacity == s.capacity
  {
    hide PointerInv, Set, Untracked;
    var t := Exec(s, now, req).0;
    if req.SetReq? {
      SetFrame(s, req.key, req.value);
      SetDefinedIff(s, req.key, req.value);
      if req.key in s.strings {
        assert t.strings.Keys == s.strings.Keys;
      }
    } else {
      OthersAddNoString(s, now, req);
      SubsetSize(t.strings.Keys, s.strings.Keys);
    }
  }

  lemma StepWithinCapacity(s: State, e: Event)
    requires PointerInv(s) && |s.strings| <= s.capacity && !s.undefined && !UnsafeEvent(s, e)
    ensures |Step(s, e).0.strings| <= s.capacity && Step(s, e).0.capacity == s.capacity
  {
    hide PointerInv, Exec, Classify, Unsafe;
    match e.action {
      case Do(cmd) => if cmd != [] { ExecWithinCapacity(s, e.now, Classify(cmd)); }
      case SweepTick => SubsetSize(Sweep(s, e.now).strings.Keys, s.strings.Keys);
    }
  }

  lemma StepDeadlinesFit(s: State, e: Event)
    requires DeadlinesFit(s) && !s.undefined && !UnsafeEvent(s, e)
    ensures DeadlinesFit(Step(s, e).0)
  {
    hide Exec, Classify, Unsafe;
    if e.action.Do? && e.action.cmd != [] {
      ExecDeadlinesFit(s, e.now, Classify(e.action.cmd));
    }
  }

  predicate StoreInv(s: State) {
    Consistent(s) && |s.strings| <= s.capacity && DeadlinesFit(s)
  }

  /** Over every run without an unsafe SET or EXPIRE: the stores stay consistent, the strings stay
      within capacity, the deadlines fit 64 bits, and the pointers stay valid. */
  lemma {:induction false} RunKeepsStores(s: State, es: seq<Event>)
    requires StoreInv(s) && PointerInv(s) && !s.undefined
    requires SafeRun(s, es)
    ensures StoreInv(Run(s, es)) && PointerInv(Run(s, es))
    ensures !Run(s, es).undefined && Run(s, es).capacity == s.capacity
    decreases |es|
  {
    hide Step, Consistent, DeadlinesFit, PointerInv, UnsafeEvent;
    if es != [] {
      StepConsistent(s, es[0]);
      StepDeadlinesFit(s, es[0]);
      StepKeepsPointers(s, es[0]);
      StepWithinCapacity(s, es[0]);
      RunKeepsStores(Step(s, es[0]).0, es[1..]);
    }
  }
}
