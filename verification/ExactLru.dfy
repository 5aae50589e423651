/** What the recency list says about uses over every run, and which evictions are least-recently-used. */
module ExactLru {
  import opened Text
  import opened Keyspace
  import opened Commands
  import opened Lru
  import opened Stores

  // ----- recency -----

  /** Index of the last use of `key` in the history `h`, -1 for none. */
  function LastUse(h: seq<string>, key: string): (i: int)
    ensures -1 <= i < |h|
    ensures i >= 0 ==> h[i] == key
    ensures forall j :: i < j < |h| ==> h[j] != key
  {
    if h == [] then -1 else if h[|h| - 1] == key then |h| - 1 else LastUse(h[..|h| - 1], key)
  }

  lemma LastUseAppend(h: seq<string>, key: string, other: string)
    ensures LastUse(h + [key], other) == if key == other then |h| else LastUse(h, other)
  {
    assert (h + [key])[..|h|] == h;
  }

  /** The keys an event uses: every SET, every GET that finds a string, every push that is accepted,
      every pop that finds an element, and every LLEN of a list. */
  function Uses(s: State, e: Event): seq<string> {
    if e.action.SweepTick? || e.action.cmd == [] then []
    else match Classify(e.action.cmd)
      case SetReq(key, _) => [key]
      case GetReq(key) => if Step(s, e).1.Bulk? then [key] else []
      case PushReq(key, _, _) => if Step(s, e).1.Integer? then [key] else []
      case PopReq(key, _) => if Step(s, e).1.Bulk? then [key] else []
      case LLenReq(key) => if Step(s, e).1.Integer? && Step(s, e).1.n > 0 then [key] else []
      case _ => []
  }

  function History(s: State, es: seq<Event>): seq<string>
    decreases |es|
  {
    if es == [] then [] else Uses(s, es[0]) + History(Step(s, es[0]).0, es[1..])
  }

  /** The front-most nodes of `keys` come in the order of last use, most recent first. */
  predicate Ranked(order: seq<Node>, keys: set<string>, h: seq<string>) {
    forall a, b :: a in keys && b in keys && KeyIndex(order, a) < KeyIndex(order, b) ==> LastUse(h, a) > LastUse(h, b)
  }

  lemma RankedFewer(order: seq<Node>, keys: set<string>, fewer: set<string>, h: seq<string>)
    requires Ranked(order, keys, h) && fewer <= keys
    ensures Ranked(order, fewer, h)
  {
    hide KeyIndex, LastUse;
  }

  /** A use of another key leaves the ranking. */
  lemma RankedOther(order: seq<Node>, keys: set<string>, h: seq<string>, key: string)
    requires Ranked(order, keys, h) && key !in keys
    ensures Ranked(order, keys, h + [key])
  {
    hide KeyIndex, LastUse;
    forall a | a in keys {
      LastUseAppend(h, key, a);
    }
  }

  lemma RankedErase(order: seq<Node>, i: nat, keys: set<string>, h: seq<string>)
    requires i < |order| && order[i].key !in keys && Ranked(order, keys, h)
    ensures Ranked(order[..i] + order[i + 1..], keys, h)
  {
    hide KeyIndex, LastUse;
    var rest := order[..i] + order[i + 1..];
    forall a, b | a in keys && b in keys && KeyIndex(rest, a) < KeyIndex(rest, b)
      ensures LastUse(h, a) > LastUse(h, b)
    {
      KeyIndexAfterErase(order, i, a);
      KeyIndexAfterErase(order, i, b);
    }
  }

  lemma RankedPush(order: seq<Node>, n: Node, keys: set<string>, h: seq<string>)
    requires Ranked(order, keys - {n.key}, h)
    ensures Ranked([n] + order, keys, h + [n.key])
  {
    hide KeyIndex, LastUse;
    forall a, b | a in keys && b in keys && KeyIndex([n] + order, a) < KeyIndex([n] + order, b)
      ensures LastUse(h + [n.key], a) > LastUse(h + [n.key], b)
    {
      KeyIndexAfterPush(order, n, a);
      KeyIndexAfterPush(order, n, b);
      LastUseAppend(h, n.key, a);
      LastUseAppend(h, n.key, b);
    }
  }

  lemma KeyIndexAfterPop(order: seq<Node>, key: string)
    requires order != [] && order[|order| - 1].key != key
    ensures var n := |order| - 1;
            KeyIndex(order[..n], key) == if KeyIndex(order, key) < n then KeyIndex(order, key) else n
  {
    var n := |order| - 1;
    KeyIndexIs(order[..n], key, if KeyIndex(order, key) < n then KeyIndex(order, key) else n);
  }

  lemma RankedPop(order: seq<Node>, keys: set<string>, h: seq<string>)
    requires order != [] && order[|order| - 1].key !in keys && Ranked(order, keys, h)
    ensures Ranked(order[..|order| - 1], keys, h)
  {
    hide KeyIndex, LastUse;
    var rest := order[..|order| - 1];
    forall a, b | a in keys && b in keys && KeyIndex(rest, a) < KeyIndex(rest, b)
      ensures LastUse(h, a) > LastUse(h, b)
    {
      KeyIndexAfterPop(order, a);
      KeyIndexAfterPop(order, b);
    }
  }

  // ----- every operation keeps the ranking -----

  predicate RankedState(s: State, h: seq<string>) {
    Ranked(s.order, s.strings.Keys, h)
  }

  lemma SameRanked(s: State, t: State, h: seq<string>)
    requires RankedState(s, h) && t.order == s.order && t.strings.Keys <= s.strings.Keys
    ensures RankedState(t, h)
  {
    hide Ranked;
    RankedFewer(s.order, s.strings.Keys, t.strings.Keys, h);
  }

  lemma EraseOrder(s: State, d: State, key: string)
    requires PointerInv(s) && key in s.position && d.order == s.order
    ensures var i := KeyIndex(s.order, key);
            && i < |s.order|
            && EraseNode(d, s.position[key]).order == s.order[..i] + s.order[i + 1..]
  {
    hide KeyIndex, NodeIndex, PointerInv;
    StoredIteratorLive(s, key);
  }

  lemma EraseFrame(s: State, id: nat)
    ensures var t := EraseNode(s, id); t == s.(order := t.order, undefined := t.undefined)
  {
  }

  lemma PurgeRanked(s: State, now: nat, key: string, h: seq<string>)
    requires PointerInv(s) && RankedState(s, h)
    ensures RankedState(Purge(s, now, key), h)
  {
    hide PointerInv, Ranked, EraseNode, KeyIndex;
    if IsExpired(s, now, key) {
      var d := Drop(s, key);
      RankedFewer(s.order, s.strings.Keys, d.strings.Keys, h);
      if key in s.position {
        EraseOrder(s, d, key);
        EraseFrame(d, s.position[key]);
        RankedErase(s.order, KeyIndex(s.order, key), d.strings.Keys, h);
      }
    }
  }

  lemma TouchRanked(s: State, key: string, h: seq<string>)
    requires PointerInv(s) && RankedState(s, h) && key in s.position
    ensures RankedState(Touch(s, key), h + [key])
  {
    hide PointerInv, Ranked, EraseNode, KeyIndex;
    var i, rest := KeyIndex(s.order, key), s.strings.Keys - {key};
    EraseOrder(s, s, key);
    EraseFrame(s, s.position[key]);
    RankedFewer(s.order, s.strings.Keys, rest, h);
    RankedErase(s.order, i, rest, h);
    RankedPush(s.order[..i] + s.order[i + 1..], Node(s.nextNode, key), s.strings.Keys, h);
  }

  lemma {:induction false} EvictRanked(s: State, h: seq<string>)
    requires RankedState(s, h)
    ensures RankedState(Evict(s), h)
    decreases |s.order|
  {
    if Over(s) && s.order != [] {
      hide Ranked;
      var p := PopBack(s);
      RankedFewer(s.order, s.strings.Keys, p.strings.Keys, h);
      RankedPop(s.order, p.strings.Keys, h);
      EvictRanked(p, h);
    }
  }

  lemma SetRanked(s: State, key: string, value: string, h: seq<string>)
    requires PointerInv(s) && RankedState(s, h)
    ensures RankedState(Set(s, key, value), h + [key])
  {
    hide PointsAtFrontMost, UniqueNodes, Ranked, Evict, Touch;
    var p, t := SetPrepare(s, key), Set(s, key, value);
    SameRecencyKeeps(s, p);
    if key in s.strings {
      TouchRanked(p, key, h);
      TouchFrame(p, key);
      assert t.strings.Keys == s.strings.Keys;
    } else {
      EvictRanked(p, h);
      var e := Evict(p);
      RankedFewer(e.order, e.strings.Keys, t.strings.Keys - {key}, h);
      RankedPush(e.order, Node(e.nextNode, key), t.strings.Keys, h);
    }
  }

  lemma GetRanked(s: State, now: nat, key: string, h: seq<string>)
    requires PointerInv(s) && RankedState(s, h)
    ensures var g := Get(s, now, key); RankedState(g.0, h + if g.1.Some? then [key] else [])
  {
    hide PointsAtFrontMost, UniqueNodes, Ranked, Touch, Purge;
    assert h + [] == h;
    PurgeKeeps(s, now, key);
    PurgeRanked(s, now, key, h);
    var p := Purge(s, now, key);
    if Get(s, now, key).1.Some? {
      TouchRanked(p, key, h);
      TouchFrame(p, key);
    }
  }

  lemma ExpireRanked(s: State, now: nat, key: string, seconds: nat, h: seq<string>)
    requires PointerInv(s) && RankedState(s, h)
    ensures RankedState(Exec(s, now, ExpireReq(key, seconds)).0, h)
  {
    hide PointerInv, Ranked, Purge;
    var u := s.(undefined := s.undefined || seconds * 1000 > LLONG_MAX);
    SameRecencyKeeps(s, u);
    PurgeRanked(u, now, key, h);
  }

  predicate Quiet(req: Request) {
    req.ExistsReq? || req.TtlReq? || req.PushReq? || req.PopReq? || req.LLenReq?
  }

  /** After lazy expiry these requests look at neither the strings nor the recency list. */
  lemma QuietExec(s: State, now: nat, req: Request)
    requires Quiet(req)
    ensures var p, t := Purge(s, now, req.key), Exec(s, now, req).0; SameRecency(p, t) && t.strings == p.strings
  {
    hide Purge, Set, Get, Expire, Drop;
    PurgeTwice(s, now, req.key);
    match req {
      case PopReq(key, front) => PopQuiet(Purge(s, now, key), now, key, front);
      case _ =>
    }
  }

  lemma PopQuiet(s: State, now: nat, key: string, front: bool)
    requires Purge(s, now, key) == s
    ensures var t := Pop(s, now, key, front).0; SameRecency(s, t) && t.strings == s.strings
  {
    hide Purge;
  }

  lemma QuietRanked(s: State, now: nat, req: Request, h: seq<string>)
    requires PointerInv(s) && RankedState(s, h) && Quiet(req)
    ensures RankedState(Exec(s, now, req).0, h)
    ensures req.key !in Exec(s, now, req).0.strings ==> RankedState(Exec(s, now, req).0, h + [req.key])
  {
    hide PointerInv, Ranked, Purge, Exec;
    QuietExec(s, now, req);
    PurgeRanked(s, now, req.key, h);
    var t := Exec(s, now, req).0;
    SameRanked(Purge(s, now, req.key), t, h);
    if req.key !in t.strings {
      RankedOther(t.order, t.strings.Keys, h, req.key);
    }
  }

  /** A list request that does not answer with an error is not about a string. */
  lemma ListUse(s: State, now: nat, req: Request)
    requires req.PushReq? || req.PopReq? || req.LLenReq?
    ensures Exec(s, now, req).1 == WRONG_TYPE || req.key !in Exec(s, now, req).0.strings
  {
    hide Purge, Push, Pop;
    QuietExec(s, now, req);
    PurgeFrame(s, now, req.key);
  }

  lemma ReadRanked(s: State, now: nat, key: string, h: seq<string>)
    requires PointerInv(s) && RankedState(s, h)
    ensures var x := Exec(s, now, GetReq(key)); RankedState(x.0, h + if x.1.Bulk? then [key] else [])
  {
    hide PointerInv, RankedState, Purge, Get;
    assert h + [] == h;
    PurgeRanked(s, now, key, h);
    PurgeKeeps(s, now, key);
    GetRanked(Purge(s, now, key), now, key, h);
  }

  lemma StepRanked(s: State, e: Event, h: seq<string>)
    requires PointerInv(s) && RankedState(s, h)
    ensures RankedState(Step(s, e).0, h + Uses(s, e))
  {
    hide PointerInv, RankedState, Set, Get, Expire, Purge, Push, Pop, Classify;
    assert h + [] == h;
    if e.action.SweepTick? {
      SameRanked(s, Sweep(s, e.now), h);
    } else if e.action.cmd != [] {
      var req, t := Classify(e.action.cmd), Step(s, e).0;
      match req {
        case SetReq(key, value) => SetRanked(s, key, value, h);
        case GetReq(key) => ReadRanked(s, e.now, key, h);
        case DelReq(key) => SameRanked(s, t, h);
        case ExpireReq(key, seconds) => ExpireRanked(s, e.now, key, seconds, h);
        case Immediate(_) =>
        case ExistsReq(_) => QuietRanked(s, e.now, req, h);
        case TtlReq(_) => QuietRanked(s, e.now, req, h);
        case _ =>
          ListUse(s, e.now, req);
          QuietRanked(s, e.now, req, h);
      }
    }
  }

  /** Over every run, stale and duplicate nodes included: the front-most nodes of the strings are
      in the order of last use. */
  lemma {:induction false} RunRanked(s: State, es: seq<Event>, h: seq<string>)
    requires PointerInv(s) && RankedState(s, h)
    ensures RankedState(Run(s, es), h + History(s, es)) && PointerInv(Run(s, es))
    decreases |es|
  {
    hide PointerInv, RankedState, Step, Uses;
    if es == [] {
      assert h + [] == h;
    } else {
      StepRanked(s, es[0], h);
      StepKeepsPointers(s, es[0]);
      var t := Step(s, es[0]).0;
      RunRanked(t, es[1..], h + Uses(s, es[0]));
      assert h + Uses(s, es[0]) + History(t, es[1..]) == h + (Uses(s, es[0]) + History(t, es[1..]));
    }
  }

  /** Different keys have different front-most nodes, so the list tells which was used last. */
  lemma RankIff(s: State, h: seq<string>, a: string, b: string)
    requires PointerInv(s) && RankedState(s, h) && a in s.strings && b in s.strings && a != b
    ensures KeyIndex(s.order, a) < KeyIndex(s.order, b) <==> LastUse(h, a) > LastUse(h, b)
  {
    hide PointsAtFrontMost, UniqueNodes, LastUse;
    StoredIteratorLive(s, a);
    StoredIteratorLive(s, b);
  }

  // ----- which evictions are least-recently-used -----

  /** The keys that the last `n` nodes name. */
  function TailKeys(order: seq<Node>, n: nat): set<string>
    requires n <= |order|
  {
    set i | |order| - n <= i < |order| :: order[i].key
  }

  /** How many nodes the eviction loop pops. */
  function Pops(s: State): (n: nat)
    ensures n <= |s.order|
    decreases |s.order|
  {
    if !Over(s) || s.order == [] then 0 else 1 + Pops(PopBack(s))
  }

  lemma TailGrows(order: seq<Node>, n: nat)
    requires 0 < n <= |order|
    ensures TailKeys(order, n) == {order[|order| - 1].key} + TailKeys(order[..|order| - 1], n - 1)
  {
    var front, last := order[..|order| - 1], order[|order| - 1].key;
    forall k | k in {last} + TailKeys(front, n - 1)
      ensures k in TailKeys(order, n)
    {
      if k == last {
        assert order[|order| - 1].key == k;
      } else {
        var i :| |front| - (n - 1) <= i < |front| && front[i].key == k;
        assert order[i].key == k;
      }
    }
    forall k | k in TailKeys(order, n)
      ensures k in {last} + TailKeys(front, n - 1)
    {
      var i :| |order| - n <= i < |order| && order[i].key == k;
      if i < |front| {
        assert front[i].key == k;
      }
    }
  }

  lemma {:induction false} EvictedIsTail(s: State)
    ensures Evicted(s) == TailKeys(s.order, Pops(s))
    decreases |s.order|
  {
    if Over(s) && s.order != [] {
      var p := PopBack(s);
      assert Evicted(s) == {s.order[|s.order| - 1].key} + Evicted(p) && Pops(s) == 1 + Pops(p);
      hide Over, Evicted, Pops, TailKeys;
      EvictedIsTail(p);
      TailGrows(s.order, 1 + Pops(p));
    }
  }

  /** Room for one more key once the last `n` nodes and their keys are gone. */
  predicate RoomAfter(s: State, n: nat)
    requires n <= |s.order|
  {
    var gone := TailKeys(s.order, n);
    |s.strings - gone| + |s.lists - gone| < s.capacity
  }

  lemma RoomAfterPop(s: State, n: nat)
    requires 0 < n <= |s.order|
    ensures RoomAfter(s, n) == RoomAfter(PopBack(s), n - 1)
  {
    hide TailKeys;
    var p, last := PopBack(s), s.order[|s.order| - 1].key;
    TailGrows(s.order, n);
    MinusMinus(s.strings, {last}, TailKeys(p.order, n - 1));
    MinusMinus(s.lists, {last}, TailKeys(p.order, n - 1));
  }

  lemma RoomAfterNone(s: State)
    ensures RoomAfter(s, 0) <==> !Over(s)
  {
    assert TailKeys(s.order, 0) == {};
    assert s.strings - {} == s.strings && s.lists - {} == s.lists;
  }

  /** The loop pops no node more than it has to. */
  lemma {:induction false} PopsIsLeast(s: State)
    ensures forall n: nat :: n < Pops(s) ==> !RoomAfter(s, n)
    ensures RoomAfter(s, Pops(s)) || Pops(s) == |s.order|
    decreases |s.order|
  {
    hide RoomAfter, Over;
    RoomAfterNone(s);
    if Over(s) && s.order != [] {
      var p := PopBack(s);
      PopsIsLeast(p);
      forall n: nat | n < Pops(s)
        ensures !RoomAfter(s, n)
      {
        if n > 0 {
          RoomAfterPop(s, n);
        }
      }
      RoomAfterPop(s, Pops(s));
    }
  }

  /** What a least-recently-used eviction may do to a state. */
  predicate EvictsOldest(s: State, t: State, h: seq<string>) {
    && t.strings.Keys <= s.strings.Keys && t.lists == s.lists
    && (forall k :: k in t.strings ==> t.strings[k] == s.strings[k])
    && (forall victim, kept :: victim in s.strings && victim !in t.strings && kept in t.strings
          ==> LastUse(h, victim) < LastUse(h, kept))
  }

  /** No list is named in the last `n` nodes, and the strings named there have their front-most
      nodes behind those of all other strings. */
  predicate OldestAtTail(s: State, n: nat)
    requires n <= |s.order|
  {
    var tail := TailKeys(s.order, n);
    && tail !! s.lists.Keys
    && forall victim, kept :: victim in tail && victim in s.strings && kept in s.strings && kept !in tail
         ==> KeyIndex(s.order, kept) < KeyIndex(s.order, victim)
  }

  /** One turn of the loop evicts the string used longest ago exactly when no other string's
      front-most node lies further back. */
  lemma PopIsOldestIff(s: State, h: seq<string>)
    requires PointerInv(s) && RankedState(s, h) && s.order != []
    requires s.order[|s.order| - 1].key in s.strings
    ensures var victim := s.order[|s.order| - 1].key;
            (forall kept :: kept in s.strings && kept != victim ==> LastUse(h, victim) < LastUse(h, kept)) <==>
            (forall kept :: kept in s.strings ==> KeyIndex(s.order, kept) <= KeyIndex(s.order, victim))
  {
    hide PointerInv, RankedState, LastUse, KeyIndex;
    var victim := s.order[|s.order| - 1].key;
    forall kept | kept in s.strings && kept != victim
      ensures LastUse(h, victim) < LastUse(h, kept) <==> KeyIndex(s.order, kept) < KeyIndex(s.order, victim)
      ensures KeyIndex(s.order, kept) != KeyIndex(s.order, victim)
    {
      RankIff(s, h, kept, victim);
      KeysApart(s, kept, victim);
    }
  }

  lemma KeysApart(s: State, a: string, b: string)
    requires PointerInv(s) && a in s.strings && b in s.strings && a != b
    ensures KeyIndex(s.order, a) != KeyIndex(s.order, b)
  {
    hide PointsAtFrontMost, UniqueNodes;
    StoredIteratorLive(s, a);
    StoredIteratorLive(s, b);
  }

  /** The loop is least-recently-used exactly when the oldest strings, and no list, are named by what it pops. */
  lemma EvictIsLruIff(s: State, h: seq<string>)
    requires PointerInv(s) && RankedState(s, h)
    ensures EvictsOldest(s, Evict(s), h) <==> OldestAtTail(s, Pops(s))
  {
    hide PointerInv, RankedState, LastUse, KeyIndex, Evict, Evicted, Pops, TailKeys;
    var t, tail := Evict(s), TailKeys(s.order, Pops(s));
    EvictFrame(s);
    EvictedIsTail(s);
    DisjointIff(s.lists, tail);
    forall victim, kept | victim in tail && victim in s.strings && kept in s.strings && kept !in tail
      ensures LastUse(h, victim) < LastUse(h, kept) <==> KeyIndex(s.order, kept) < KeyIndex(s.order, victim)
    {
      RankIff(s, h, kept, victim);
    }
  }

  lemma DisjointIff<V>(m: map<string, V>, keys: set<string>)
    ensures m - keys == m <==> keys !! m.Keys
  {
    if m - keys == m {
      assert forall k :: k in m ==> k in (m - keys);
    }
  }

  /** Among the strings, a SET is least-recently-used when it is defined, evicts no list, and no string
      used after one that it keeps. */
  predicate SetIsLru(s: State, key: string, value: string, h: seq<string>) {
    var t := Set(s, key, value);
    && !t.undefined
    && t.lists == s.lists - {key}
    && forall victim, kept :: victim in s.strings && victim !in t.strings && kept in t.strings && kept != key
         ==> LastUse(h, victim) < LastUse(h, kept)
  }

  /** Among all keys, it is so when it is defined and evicts no key, string or list, used after one that it keeps. */
  ghost predicate SetEvictsOldest(s: State, key: string, value: string, h: seq<string>) {
    var t := Set(s, key, value);
    && !t.undefined
    && forall victim, kept :: Has(s, victim) && victim != key && !Has(t, victim) && Has(t, kept) && kept != key
         ==> LastUse(h, victim) < LastUse(h, kept)
  }

  /** Whether a SET is least-recently-used among the strings can be read off the state before it: exactly when it
      overwrites a string, or its eviction loop finds room and pops nodes that name no list and only the oldest strings. */
  lemma SetIsLruIff(s: State, h: seq<string>, key: string, value: string)
    requires PointerInv(s) && RankedState(s, h)
    ensures SetIsLru(s, key, value, h) <==>
            !s.undefined &&
            (key in s.strings || (FindsRoom(s, key) && OldestAtTail(SetPrepare(s, key), Pops(SetPrepare(s, key)))))
  {
    hide PointerInv, RankedState, LastUse, Evict, Touch, Pops, OldestAtTail, EvictsOldest, Untracked;
    var p, t := SetPrepare(s, key), Set(s, key, value);
    SetDefinedIff(s, key, value);
    if key in s.strings {
      TouchFrame(p, key);
      assert t.strings.Keys == s.strings.Keys;
    } else {
      SameRecencyKeeps(s, p);
      SameRanked(s, p, h);
      EvictIsLruIff(p, h);
      WrittenAfterEvict(s, key, value, h);
    }
  }

  lemma WrittenAfterEvict(s: State, key: string, value: string, h: seq<string>)
    requires key !in s.strings
    ensures SetIsLru(s, key, value, h) <==>
            !Set(s, key, value).undefined && EvictsOldest(SetPrepare(s, key), Evict(SetPrepare(s, key)), h)
  {
    hide Evict, LastUse, Evicted;
    var p, t := SetPrepare(s, key), Set(s, key, value);
    var e := Evict(p);
    EvictFrame(p);
    assert t.strings == e.strings[key := value] && t.lists == e.lists && p.strings == s.strings;
    assert e.strings.Keys <= s.strings.Keys;
    assert forall k :: k in e.strings ==> e.strings[k] == s.strings[k];
    hide Set, SetPrepare;
  }

  // ----- strings and lists together -----

  /** The strings named in the last `n` nodes have their front-most nodes behind those of the strings that stay,
      and wherever a list is involved the history says that what is named there is older than what stays.
      Lists have no nodes of their own, so the order says nothing about them. */
  predicate OldestKeysAtTail(s: State, n: nat, h: seq<string>)
    requires n <= |s.order|
  {
    var tail := TailKeys(s.order, n);
    && (forall victim, kept :: victim in tail && victim in s.strings && kept in s.strings && kept !in tail
          ==> KeyIndex(s.order, kept) < KeyIndex(s.order, victim))
    && (forall victim, kept :: victim in tail && Has(s, victim) && kept in s.lists && kept !in tail
          ==> LastUse(h, victim) < LastUse(h, kept))
    && (forall victim, kept :: victim in tail && victim in s.lists && kept in s.strings && kept !in tail
          ==> LastUse(h, victim) < LastUse(h, kept))
  }

  /** Every key that the eviction loop takes was used before every key that it leaves. */
  ghost predicate TakesOldest(s: State, gone: set<string>, h: seq<string>) {
    forall victim, kept :: Has(s, victim) && victim in gone && Has(s, kept) && kept !in gone
      ==> LastUse(h, victim) < LastUse(h, kept)
  }

  lemma TakesOldestIff(s: State, h: seq<string>)
    requires PointerInv(s) && RankedState(s, h)
    ensures TakesOldest(s, Evicted(s), h) <==> OldestKeysAtTail(s, Pops(s), h)
  {
    hide PointerInv, RankedState, LastUse, KeyIndex, Evicted, Pops, TailKeys;
    var tail := TailKeys(s.order, Pops(s));
    EvictedIsTail(s);
    forall victim, kept | victim in tail && victim in s.strings && kept in s.strings && kept !in tail
      ensures LastUse(h, victim) < LastUse(h, kept) <==> KeyIndex(s.order, kept) < KeyIndex(s.order, victim)
    {
      RankIff(s, h, kept, victim);
    }
  }

  lemma SetTakes(s: State, key: string, value: string, h: seq<string>)
    ensures SetEvictsOldest(s, key, value, h) <==>
            !Set(s, key, value).undefined &&
            (key in s.strings || TakesOldest(SetPrepare(s, key), Evicted(SetPrepare(s, key)), h))
  {
    hide Set, Evicted, LastUse;
    SetFrame(s, key, value);
    var p, t, gone := SetPrepare(s, key), Set(s, key, value), Victims(s, key);
    forall k | k != key
      ensures Has(p, k) <==> Has(s, k)
      ensures Has(t, k) <==> Has(s, k) && k !in gone
    {
    }
    if key !in s.strings {
      assert !Has(p, key);
    }
  }

  /** The exact condition under which a SET evicts no key used after one that it keeps. */
  lemma SetEvictsOldestIff(s: State, h: seq<string>, key: string, value: string)
    requires PointerInv(s) && RankedState(s, h)
    ensures SetEvictsOldest(s, key, value, h) <==>
            !s.undefined &&
            (key in s.strings || (FindsRoom(s, key) && OldestKeysAtTail(SetPrepare(s, key), Pops(SetPrepare(s, key)), h)))
  {
    hide PointerInv, RankedState, LastUse, Evicted, Set, Pops, OldestKeysAtTail, TakesOldest, SetEvictsOldest, Untracked;
    var p := SetPrepare(s, key);
    SetDefinedIff(s, key, value);
    SetTakes(s, key, value, h);
    SameRecencyKeeps(s, p);
    SameRanked(s, p, h);
    TakesOldestIff(p, h);
  }

  // ----- no more than has to go -----

  lemma MinusSize<V>(m: map<string, V>, key: string)
    ensures |m - {key}| == if key in m then |m| - 1 else |m|
  {
    assert (m - {key}).Keys == m.Keys - {key};
    if key !in m {
      assert m - {key} == m;
    }
  }

  lemma PopBackSize(s: State)
    requires s.order != [] && s.strings.Keys !! s.lists.Keys
    ensures var p := PopBack(s);
            && p.strings.Keys !! p.lists.Keys
            && |p.strings| + |p.lists| >= |s.strings| + |s.lists| - 1
  {
    var last := s.order[|s.order| - 1].key;
    MinusSize(s.strings, last);
    MinusSize(s.lists, last);
  }

  lemma {:induction false} EvictSize(s: State)
    requires s.strings.Keys !! s.lists.Keys
    ensures Over(s) && !Evict(s).undefined ==> |Evict(s).strings| + |Evict(s).lists| == s.capacity - 1
    decreases |s.order|
  {
    if Over(s) && s.order != [] {
      PopBackSize(s);
      EvictSize(PopBack(s));
    }
  }

  lemma OneMoreString(s: State, key: string, value: string)
    requires key !in s.strings
    ensures |s.strings[key := value]| == |s.strings| + 1
  {
  }

  lemma NothingEvicted(s: State)
    ensures !Over(s) ==> Evicted(s) == {}
  {
  }

  /** A SET that evicts leaves the database exactly full, so it evicted only as many keys as it had to. */
  lemma SetSize(s: State, key: string, value: string)
    requires Consistent(s)
    ensures var t := Set(s, key, value);
            !t.undefined && Victims(s, key) != {} ==> |t.strings| + |t.lists| == s.capacity
  {
    hide Evict, Touch, Evicted, Over;
    var p := SetPrepare(s, key);
    if key !in s.strings {
      EvictSize(p);
      EvictShrinks(p);
      NothingEvicted(p);
      OneMoreString(Evict(p), key, value);
    }
  }

  lemma EmptyRanked(capacity: nat)
    ensures RankedState(Empty(capacity), []) && PointerInv(Empty(capacity)) && Consistent(Empty(capacity))
  {
  }

  /** The promise of an LRU cache over every run of commands and sweeps: the exact conditions under which the
      next SET keeps it, among the strings and among all keys; and in any case no more is evicted than has to be. */
  lemma EvictionIsLruIff(capacity: nat, es: seq<Event>, key: string, value: string)
    ensures var s := Run(Empty(capacity), es);
            var h, p := History(Empty(capacity), es), SetPrepare(Run(Empty(capacity), es), key);
            && (SetIsLru(s, key, value, h) <==>
                !s.undefined && (key in s.strings || (FindsRoom(s, key) && OldestAtTail(p, Pops(p)))))
            && (SetEvictsOldest(s, key, value, h) <==>
                !s.undefined && (key in s.strings || (FindsRoom(s, key) && OldestKeysAtTail(p, Pops(p), h))))
            && var t := Set(s, key, value);
               (!t.undefined && Victims(s, key) != {} ==> |t.strings| + |t.lists| == s.capacity)
  {
    hide Run, History, PointerInv, RankedState, Consistent, SetIsLru, SetEvictsOldest, OldestAtTail, OldestKeysAtTail,
      Set, Victims, Pops, FindsRoom;
    var s, h := Run(Empty(capacity), es), History(Empty(capacity), es);
    EmptyRanked(capacity);
    RunRanked(Empty(capacity), es, []);
    RunConsistent(Empty(capacity), es);
    assert [] + h == h;
    SetIsLruIff(s, h, key, value);
    SetEvictsOldestIff(s, h, key, value);
    SetSize(s, key, value);
  }

  // ----- runs that leave no stale node -----

  /** `order` holds each string key once and nothing else. */
  predicate Clean(s: State) {
    && PointerInv(s)
    && s.position.Keys == s.strings.Keys
    && (forall i :: 0 <= i < |s.order| ==> s.order[i].key in s.strings)
    && (forall i, j :: 0 <= i < j < |s.order| ==> s.order[i].key != s.order[j].key)
  }

  /** `del` of a stored string and a sweep that removes a string leave stale nodes behind. */
  predicate LeavesStale(s: State, e: Event) {
    match e.action
    case Do(cmd) => cmd != [] && Classify(cmd).DelReq? && Classify(cmd).key in s.strings
    case SweepTick => exists k :: k in ExpiredKeys(s, e.now) && k in s.strings
  }

  /** `order` lists its keys by last use, most recent first. */
  predicate ByLastUse(s: State, h: seq<string>) {
    forall i, j :: 0 <= i < j < |s.order| ==> LastUse(h, s.order[i].key) > LastUse(h, s.order[j].key)
  }

  /** Taking one node out of a clean order. */
  lemma EraseStaysClean(s: State, i: nat)
    requires Clean(s) && i < |s.order|
    ensures var rest := s.order[..i] + s.order[i + 1..];
            && (forall j :: 0 <= j < |rest| ==> rest[j].key in s.strings && rest[j].key != s.order[i].key)
            && (forall j, k :: 0 <= j < k < |rest| ==> rest[j].key != rest[k].key)
  {
    hide PointerInv;
    var rest := s.order[..i] + s.order[i + 1..];
    assert forall j :: 0 <= j < |rest| ==> rest[j] == if j < i then s.order[j] else s.order[j + 1];
  }

  lemma PurgeStaysClean(s: State, now: nat, key: string)
    requires Clean(s)
    ensures Clean(Purge(s, now, key))
  {
    hide PointerInv, EraseNode, KeyIndex;
    PurgeKeeps(s, now, key);
    if IsExpired(s, now, key) && key in s.position {
      EraseOrder(s, Drop(s, key), key);
      EraseStaysClean(s, KeyIndex(s.order, key));
      EraseFrame(Drop(s, key), s.position[key]);
    }
  }

  lemma TouchStaysClean(s: State, key: string)
    requires Clean(s) && key in s.strings
    ensures Clean(Touch(s, key))
  {
    hide PointsAtFrontMost, UniqueNodes, EraseNode, KeyIndex;
    TouchKeeps(s, key);
    EraseOrder(s, s, key);
    EraseStaysClean(s, KeyIndex(s.order, key));
    EraseFrame(s, s.position[key]);
  }

  lemma PushStaysClean(s: State, key: string, value: string)
    requires Clean(s) && key !in s.strings
    ensures var t := PushFront(s, key); Clean(t.(strings := t.strings[key := value]))
  {
    hide PointsAtFrontMost, UniqueNodes;
    PushFrontKeeps(s, key);
    WriteKeeps(PushFront(s, key), key, value);
  }

  lemma PopBackStaysClean(s: State)
    requires Clean(s) && s.order != []
    ensures Clean(PopBack(s))
  {
    hide PointerInv;
    PopBackKeeps(s);
  }

  lemma {:induction false} EvictStaysClean(s: State)
    requires Clean(s)
    ensures Clean(Evict(s))
    decreases |s.order|
  {
    if Over(s) && s.order == [] {
      SameStaysClean(s, s.(undefined := true));
    } else if Over(s) {
      hide Clean, Over;
      PopBackStaysClean(s);
      EvictStaysClean(PopBack(s));
    }
  }

  lemma OverwriteStaysClean(s: State, key: string, value: string)
    requires Clean(s) && key in s.strings
    ensures Clean(s.(strings := s.strings[key := value]))
  {
    hide PointerInv;
    WriteKeeps(s, key, value);
    assert s.strings[key := value].Keys == s.strings.Keys;
  }

  lemma SameStaysClean(s: State, t: State)
    requires Clean(s) && SameRecency(s, t) && t.strings.Keys == s.strings.Keys
    ensures Clean(t)
  {
    hide PointerInv;
    SameRecencyKeeps(s, t);
  }

  lemma SetStaysClean(s: State, key: string, value: string)
    requires Clean(s)
    ensures Clean(Set(s, key, value))
  {
    hide Clean, Evict, Touch;
    var p := SetPrepare(s, key);
    SameStaysClean(s, p);
    if key in s.strings {
      TouchStaysClean(p, key);
      TouchFrame(p, key);
      OverwriteStaysClean(Touch(p, key), key, value);
    } else {
      EvictStaysClean(p);
      EvictShrinks(p);
      PushStaysClean(Evict(p), key, value);
    }
  }

  lemma GetStaysClean(s: State, now: nat, key: string)
    requires Clean(s)
    ensures Clean(Get(s, now, key).0)
  {
    hide PointerInv, Touch, Purge;
    PurgeStaysClean(s, now, key);
    if Get(s, now, key).1.Some? {
      TouchStaysClean(Purge(s, now, key), key);
    }
  }

  lemma ExpireStaysClean(s: State, now: nat, key: string, seconds: nat)
    requires Clean(s)
    ensures Clean(Exec(s, now, ExpireReq(key, seconds)).0)
  {
    hide Clean, Purge;
    var u := s.(undefined := s.undefined || seconds * 1000 > LLONG_MAX);
    SameStaysClean(s, u);
    PurgeStaysClean(u, now, key);
    SameStaysClean(Purge(u, now, key), Exec(s, now, ExpireReq(key, seconds)).0);
  }

  lemma QuietStaysClean(s: State, now: nat, req: Request)
    requires Clean(s) && Quiet(req)
    ensures Clean(Exec(s, now, req).0)
  {
    hide Clean, Purge, Exec;
    QuietExec(s, now, req);
    PurgeStaysClean(s, now, req.key);
    SameStaysClean(Purge(s, now, req.key), Exec(s, now, req).0);
  }

  lemma ReadStaysClean(s: State, now: nat, key: string)
    requires Clean(s)
    ensures Clean(Exec(s, now, GetReq(key)).0)
  {
    hide Clean, Purge, Get;
    PurgeStaysClean(s, now, key);
    GetStaysClean(Purge(s, now, key), now, key);
  }

  lemma ExecStaysClean(s: State, now: nat, req: Request)
    requires Clean(s) && !(req.DelReq? && req.key in s.strings)
    ensures Clean(Exec(s, now, req).0)
  {
    hide Clean, Set, Get, Expire, Purge, Push, Pop;
    match req {
      case SetReq(key, value) => SetStaysClean(s, key, value);
      case GetReq(key) => ReadStaysClean(s, now, key);
      case DelReq(key) => SameStaysClean(s, Drop(s, key));
      case ExpireReq(key, seconds) => ExpireStaysClean(s, now, key, seconds);
      case Immediate(_) =>
      case _ => QuietStaysClean(s, now, req);
    }
  }

  lemma StepStaysClean(s: State, e: Event)
    requires Clean(s) && !LeavesStale(s, e)
    ensures Clean(Step(s, e).0)
  {
    hide Clean, Exec, Classify;
    if e.action.SweepTick? {
      SameStaysClean(s, Sweep(s, e.now));
    } else if e.action.cmd != [] {
      ExecStaysClean(s, e.now, Classify(e.action.cmd));
    }
  }

  /** A string with a node is gone: the order is no longer clean. */
  lemma StaleIsNotClean(s: State, t: State, key: string)
    requires Clean(s) && key in s.strings
    requires t.order == s.order && key !in t.strings
    ensures !Clean(t)
  {
    hide PointsAtFrontMost, UniqueNodes, KeyIndex;
    StoredIteratorLive(s, key);
    assert t.order[KeyIndex(s.order, key)].key == key;
  }

  /** An event keeps a clean order clean exactly when it does not remove a string by DEL or sweep. */
  lemma StepCleanIff(s: State, e: Event)
    requires Clean(s)
    ensures Clean(Step(s, e).0) <==> !LeavesStale(s, e)
  {
    hide Clean, Exec, Classify;
    if !LeavesStale(s, e) {
      StepStaysClean(s, e);
    } else if e.action.SweepTick? {
      var key :| key in ExpiredKeys(s, e.now) && key in s.strings;
      StaleIsNotClean(s, Sweep(s, e.now), key);
    } else {
      DelIsStale(s, e.now, Classify(e.action.cmd));
    }
  }

  lemma DelIsStale(s: State, now: nat, req: Request)
    requires Clean(s) && req.DelReq? && req.key in s.strings
    ensures !Clean(Exec(s, now, req).0)
  {
    hide Clean;
    StaleIsNotClean(s, Drop(s, req.key), req.key);
  }

  predicate CleanRun(s: State, es: seq<Event>)
    decreases |es|
  {
    es != [] ==> !LeavesStale(s, es[0]) && CleanRun(Step(s, es[0]).0, es[1..])
  }

  lemma {:induction false} RunStaysClean(s: State, es: seq<Event>)
    requires Clean(s) && CleanRun(s, es)
    ensures Clean(Run(s, es))
    decreases |es|
  {
    hide Clean, Step, LeavesStale;
    if es != [] {
      StepStaysClean(s, es[0]);
      RunStaysClean(Step(s, es[0]).0, es[1..]);
    }
  }

  /** In a clean order every node is the front-most one of its key. */
  lemma CleanIndex(s: State, i: nat)
    requires Clean(s) && i < |s.order|
    ensures KeyIndex(s.order, s.order[i].key) == i
  {
    hide PointerInv;
    KeyIndexIs(s.order, s.order[i].key, i);
  }

  lemma CleanRankedIff(s: State, h: seq<string>)
    requires Clean(s)
    ensures ByLastUse(s, h) <==> RankedState(s, h)
  {
    hide PointsAtFrontMost, UniqueNodes, LastUse, KeyIndex;
    forall i | 0 <= i < |s.order|
      ensures KeyIndex(s.order, s.order[i].key) == i
    {
      CleanIndex(s, i);
    }
    IteratorsLive(s);
    if ByLastUse(s, h) {
      forall a, b | a in s.strings && b in s.strings && KeyIndex(s.order, a) < KeyIndex(s.order, b)
        ensures LastUse(h, a) > LastUse(h, b)
      {
        assert s.order[KeyIndex(s.order, a)].key == a && s.order[KeyIndex(s.order, b)].key == b;
      }
    }
  }

  /** Over every clean run, lazy expiry included, the order is the strings by last use. */
  lemma RunIsExactLru(s: State, es: seq<Event>, h: seq<string>)
    requires Clean(s) && ByLastUse(s, h) && CleanRun(s, es)
    ensures var t := Run(s, es);
            && Clean(t) && ByLastUse(t, h + History(s, es))
            && (Consistent(s) ==> Consistent(t))
  {
    CleanPointers(s);
    hide Clean, ByLastUse, RankedState, Run, CleanRun, PointerInv, Consistent;
    if Consistent(s) {
      RunConsistent(s, es);
    }
    CleanRankedIff(s, h);
    RunStaysClean(s, es);
    RunRanked(s, es, h);
    CleanRankedIff(Run(s, es), h + History(s, es));
  }

  lemma CleanPointers(s: State)
    requires Clean(s)
    ensures PointerInv(s)
  {
  }

  /** A clean order always has its oldest strings, and nothing else, at the tail. */
  lemma CleanIsOldest(s: State, n: nat)
    requires Clean(s) && s.strings.Keys !! s.lists.Keys && n <= |s.order|
    ensures OldestAtTail(s, n)
  {
    hide PointsAtFrontMost, UniqueNodes, KeyIndex;
    IteratorsLive(s);
    var tail := TailKeys(s.order, n);
    forall victim, kept | victim in tail && victim in s.strings && kept in s.strings && kept !in tail
      ensures KeyIndex(s.order, kept) < KeyIndex(s.order, victim)
    {
      var i :| |s.order| - n <= i < |s.order| && s.order[i].key == victim;
      CleanIndex(s, i);
      assert s.order[KeyIndex(s.order, kept)].key == kept;
    }
  }

  /** In a clean state every victim was last used before every survivor, nothing but strings goes,
      and no more goes than has to. */
  lemma EvictsLeastRecent(s: State, h: seq<string>)
    requires Clean(s) && ByLastUse(s, h) && s.strings.Keys !! s.lists.Keys
    ensures Clean(Evict(s)) && ByLastUse(Evict(s), h) && EvictsOldest(s, Evict(s), h)
    ensures Over(s) && !Evict(s).undefined ==> |Evict(s).strings| + |Evict(s).lists| == s.capacity - 1
  {
    CleanPointers(s);
    hide Clean, ByLastUse, RankedState, Evict, EvictsOldest, OldestAtTail, PointerInv, Over, Pops;
    CleanRankedIff(s, h);
    EvictStaysClean(s);
    EvictRanked(s, h);
    CleanRankedIff(Evict(s), h);
    CleanIsOldest(s, Pops(s));
    EvictIsLruIff(s, h);
    EvictSize(s);
  }

  /** In a clean state no list has a node. */
  lemma CleanUntracked(s: State)
    requires Clean(s) && Consistent(s)
    ensures Untracked(s) == s.lists.Keys
  {
    hide PointerInv;
  }

  /** In a clean state the popped nodes name strings, and only a list that stays can be older than what they name. */
  predicate ListsAreNewer(s: State, h: seq<string>) {
    forall victim, kept :: victim in Evicted(s) && kept in s.lists ==> LastUse(h, victim) < LastUse(h, kept)
  }

  lemma CleanKeysAtTail(s: State, h: seq<string>)
    requires Clean(s) && s.strings.Keys !! s.lists.Keys
    ensures OldestKeysAtTail(s, Pops(s), h) <==> ListsAreNewer(s, h)
  {
    hide PointerInv, LastUse, KeyIndex, Evicted, Pops;
    CleanIsOldest(s, Pops(s));
    EvictedIsTail(s);
    var tail := TailKeys(s.order, Pops(s));
    assert forall k :: k in tail ==> k in s.strings;
    hide TailKeys;
  }

  /** After a clean run a SET is least-recently-used among the strings exactly when the lists leave room, and among
      all keys exactly when, besides, every list that stays was used after every string that goes.
      It evicts only as many keys as it needs to. */
  lemma VictimsAreLeastRecent(capacity: nat, es: seq<Event>, key: string, value: string)
    requires CleanRun(Empty(capacity), es)
    ensures var s := Run(Empty(capacity), es);
            var h := History(Empty(capacity), es);
            var t := Set(s, key, value);
            var roomy := !s.undefined && (key in s.strings || |s.lists.Keys - {key}| < s.capacity);
            && (SetIsLru(s, key, value, h) <==> roomy)
            && (SetEvictsOldest(s, key, value, h) <==> roomy && (key in s.strings || ListsAreNewer(SetPrepare(s, key), h)))
            && (!t.undefined && Victims(s, key) != {} ==> |t.strings| + |t.lists| == s.capacity)
  {
    hide Run, History, Clean, CleanRun, SetIsLru, SetEvictsOldest, OldestAtTail, OldestKeysAtTail, Pops, Set, Victims,
      Consistent, Untracked, ListsAreNewer;
    EmptyClean(capacity);
    RunStaysClean(Empty(capacity), es);
    EmptyRanked(capacity);
    RunConsistent(Empty(capacity), es);
    EvictionIsLruIff(capacity, es, key, value);
    CleanUntracked(Run(Empty(capacity), es));
    CleanSetIsOldest(Run(Empty(capacity), es), key, History(Empty(capacity), es));
  }

  lemma CleanSetIsOldest(s: State, key: string, h: seq<string>)
    requires Clean(s) && Consistent(s)
    ensures var p := SetPrepare(s, key);
            && OldestAtTail(p, Pops(p))
            && (OldestKeysAtTail(p, Pops(p), h) <==> ListsAreNewer(p, h))
  {
    hide Clean, OldestAtTail, OldestKeysAtTail, ListsAreNewer, Pops;
    SameStaysClean(s, SetPrepare(s, key));
    CleanIsOldest(SetPrepare(s, key), Pops(SetPrepare(s, key)));
    CleanKeysAtTail(SetPrepare(s, key), h);
  }

  lemma EmptyClean(capacity: nat)
    ensures Clean(Empty(capacity))
  {
  }
}
