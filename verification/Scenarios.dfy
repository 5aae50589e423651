/** Concrete runs, from an empty database and by commands, files and lines that the program accepts, in which
    a promise of its documentation fails. */
module Scenarios {
  import opened Text
  import opened Keyspace
  import opened Commands
  import opened ExactLru
  import opened Stores
  import opened Restore
  import opened Persistence
  import opened Wire
  import opened Replica
  import opened FullSync
  import opened Replay
  import opened Replication
  import opened TimedMap
  import opened Client

  // ----- runs -----

  function DoSet(key: string, value: string): Event {
    Event(0, Do(["SET", key, value]))
  }

  lemma SetStep(s: State, key: string, value: string)
    ensures ExecCommand(s, 0, ["SET", key, value]) == (Set(s, key, value), OK)
    ensures Step(s, DoSet(key, value)).0 == Set(s, key, value)
    ensures Uses(s, DoSet(key, value)) == [key]
  {
    hide Set;
    UpperPlain("SET");
  }

  lemma {:induction false} RunAppend(s: State, a: seq<Event>, b: seq<Event>)
    ensures Run(s, a + b) == Run(Run(s, a), b)
    ensures History(s, a + b) == History(s, a) + History(Run(s, a), b)
    decreases |a|
  {
    hide Step, Uses;
    if a == [] {
      assert a + b == b && [] + History(s, b) == History(s, b);
    } else {
      var t := Step(s, a[0]).0;
      RunAppend(t, a[1..], b);
      assert (a + b)[1..] == a[1..] + b;
      assert Uses(s, a[0]) + (History(t, a[1..]) + History(Run(s, a), b))
          == (Uses(s, a[0]) + History(t, a[1..])) + History(Run(s, a), b);
    }
  }

  lemma RunOne(s: State, e: Event)
    ensures Run(s, [e]) == Step(s, e).0 && History(s, [e]) == Uses(s, e)
  {
    hide Step, Uses;
    assert [e][1..] == [];
    assert Run(Step(s, e).0, []) == Step(s, e).0;
    assert Uses(s, e) + [] == Uses(s, e);
  }

  lemma RunSnoc(s: State, es: seq<Event>, e: Event)
    ensures Run(s, es + [e]) == Step(Run(s, es), e).0
    ensures History(s, es + [e]) == History(s, es) + Uses(Run(s, es), e)
  {
    hide Run, Step, History, Uses;
    RunAppend(s, es, [e]);
    RunOne(Run(s, es), e);
  }

  // ----- a SET that has room, and one that has to evict one key -----

  lemma SetWithRoom(s: State, key: string, value: string)
    requires !Has(s, key) && |s.strings| + |s.lists| < s.capacity
    ensures Set(s, key, value) ==
            s.(strings := s.strings[key := value], expiry := s.expiry - {key},
               order := [Node(s.nextNode, key)] + s.order,
               position := s.position[key := s.nextNode], nextNode := s.nextNode + 1)
  {
    assert s.lists - {key} == s.lists;
  }

  lemma EvictOnce(s: State)
    requires |s.strings| + |s.lists| == s.capacity && s.order != []
    requires s.order[|s.order| - 1].key in s.strings && s.order[|s.order| - 1].key !in s.lists
    ensures Evict(s) == PopBack(s) && PopBack(s).lists == s.lists
  {
    var victim := s.order[|s.order| - 1].key;
    MinusSize(s.strings, victim);
    MinusSize(s.lists, victim);
    assert s.lists - {victim} == s.lists;
    assert !Over(PopBack(s));
    assert Evict(PopBack(s)) == PopBack(s);
  }

  lemma NewString(s: State, key: string, value: string)
    requires !Has(s, key)
    ensures var t, e := Set(s, key, value), Evict(SetPrepare(s, key));
            t.strings == e.strings[key := value] && t.lists == e.lists && t.undefined == e.undefined
    ensures SetPrepare(s, key) == s.(expiry := s.expiry - {key})
  {
    hide Evict;
    assert s.lists - {key} == s.lists;
  }

  /** A full database loses the key of the last node, when that is a string. */
  lemma FullSetEvicts(s: State, key: string, victim: string, value: string)
    requires |s.strings| + |s.lists| == s.capacity && !Has(s, key)
    requires victim in s.strings && victim !in s.lists && s.order != [] && s.order[|s.order| - 1].key == victim
    ensures var t := Set(s, key, value);
            && t.strings == (s.strings - {victim})[key := value] && t.lists == s.lists && t.undefined == s.undefined
  {
    hide Evict, Set, Over, SetPrepare;
    NewString(s, key, value);
    EvictOnce(SetPrepare(s, key));
  }

  // ----- a database filled with keys -----

  /** Keys that differ in length. */
  function Filler(i: nat): string {
    seq(i + 1, _ => 'k')
  }

  lemma FillerIs(i: nat)
    ensures |Filler(i)| == i + 1 && forall j :: 0 <= j <= i ==> Filler(i)[j] == 'k'
    ensures Filler(i) != "a" && Filler(i) != "l" && Filler(i) != "z" && CleanToken(Filler(i))
  {
    assert Filler(i)[0] == 'k';
  }

  function FillerKeys(n: nat): set<string> {
    set i | 0 <= i < n :: Filler(i)
  }

  lemma NextFiller(n: nat)
    ensures FillerKeys(n + 1) == FillerKeys(n) + {Filler(n)} && Filler(n) !in FillerKeys(n)
    ensures "a" !in FillerKeys(n) && "z" !in FillerKeys(n)
  {
    forall i: nat { FillerIs(i); }
  }

  function FillEvents(n: nat): seq<Event> {
    if n == 0 then [] else FillEvents(n - 1) + [DoSet(Filler(n - 1), "v")]
  }

  /** The nodes that `n` new keys leave at the front of the list. */
  function FillNodes(base: nat, n: nat): seq<Node> {
    seq(n, i requires 0 <= i < n => Node(base + n - 1 - i, Filler(n - 1 - i)))
  }

  predicate FilledStores(s: State, t: State, n: nat) {
    && t.strings.Keys == FillerKeys(n) && |t.strings| == n
    && t.lists == s.lists && t.expiry == map[] && t.undefined == s.undefined && t.capacity == s.capacity
  }

  predicate FilledOrder(s: State, t: State, n: nat) {
    && t.order == FillNodes(s.nextNode, n) + s.order && t.nextNode == s.nextNode + n
    && forall i :: 0 <= i < n ==> Filler(i) in t.position && t.position[Filler(i)] == s.nextNode + i
  }

  predicate Filled(s: State, t: State, n: nat) {
    FilledStores(s, t, n) && FilledOrder(s, t, n)
  }

  lemma FillNothing(s: State)
    requires s.strings == map[] && s.expiry == map[]
    ensures Filled(s, s, 0)
  {
    assert FillNodes(s.nextNode, 0) + s.order == s.order;
    assert FillerKeys(0) == {};
  }

  lemma FillNodesGrow(base: nat, n: nat, order: seq<Node>)
    ensures FillNodes(base, n + 1) + order == [Node(base + n, Filler(n))] + (FillNodes(base, n) + order)
  {
    hide Filler;
    var a, b := FillNodes(base, n + 1), FillNodes(base, n);
    assert a == [Node(base + n, Filler(n))] + b;
  }

  lemma FillOrder(s: State, t: State, u: State, n: nat)
    requires FilledOrder(s, t, n) && u.order == [Node(t.nextNode, Filler(n))] + t.order
    requires u.position == t.position[Filler(n) := t.nextNode] && u.nextNode == t.nextNode + 1
    ensures FilledOrder(s, u, n + 1)
  {
    hide Filler, FillNodes;
    FillNodesGrow(s.nextNode, n, s.order);
    forall i | 0 <= i < n
      ensures Filler(i) != Filler(n)
    {
      FillerIs(i);
      FillerIs(n);
    }
  }

  lemma FillStores(s: State, t: State, u: State, n: nat)
    requires FilledStores(s, t, n)
    requires u.strings == t.strings[Filler(n) := "v"] && u.expiry == t.expiry - {Filler(n)}
    requires u.lists == t.lists && u.undefined == t.undefined && u.capacity == t.capacity
    ensures FilledStores(s, u, n + 1)
  {
    hide Filler, FillerKeys;
    NextFiller(n);
    KeyAdded(t.strings, Filler(n), "v");
    NothingToRemove(t.expiry, Filler(n));
  }

  lemma KeyAdded(m: map<string, string>, key: string, value: string)
    requires key !in m
    ensures m[key := value].Keys == m.Keys + {key} && |m[key := value]| == |m| + 1
  {
    UpdateSize(m, key, value);
  }

  lemma NothingToRemove(m: map<string, int>, key: string)
    requires m == map[]
    ensures m - {key} == map[]
  {
  }

  lemma NotFilledYet(s: State, t: State, n: nat)
    requires FilledStores(s, t, n) && n + |s.lists| < s.capacity && Filler(n) !in s.lists
    ensures !Has(t, Filler(n)) && |t.strings| + |t.lists| < t.capacity
  {
    hide Filler, FillerKeys;
    NextFiller(n);
  }

  lemma FillOne(s: State, t: State, n: nat)
    requires Filled(s, t, n) && n + |s.lists| < s.capacity && Filler(n) !in s.lists
    ensures Filled(s, Set(t, Filler(n), "v"), n + 1)
  {
    hide Set, Filler, FilledStores, FilledOrder;
    NotFilledYet(s, t, n);
    SetWithRoom(t, Filler(n), "v");
    FillOrder(s, t, Set(t, Filler(n), "v"), n);
    FillStores(s, t, Set(t, Filler(n), "v"), n);
  }

  lemma FillNext(s: State, t: State, n: nat)
    requires Filled(s, t, n) && n + |s.lists| < s.capacity && Filler(n) !in s.lists
    ensures Filled(s, Step(t, DoSet(Filler(n), "v")).0, n + 1)
  {
    hide Step, Filler, Filled, Set, DoSet;
    SetStep(t, Filler(n), "v");
    FillOne(s, t, n);
  }

  lemma {:induction false} FillRun(s: State, n: nat)
    requires s.strings == map[] && s.expiry == map[] && n + |s.lists| <= s.capacity
    requires forall i :: 0 <= i < n ==> Filler(i) !in s.lists
    ensures Filled(s, Run(s, FillEvents(n)), n)
  {
    hide Run, Step, Filler, Filled, DoSet;
    if n == 0 {
      FillNothing(s);
      RunNone(s);
    } else {
      FillRun(s, n - 1);
      RunSnoc(s, FillEvents(n - 1), DoSet(Filler(n - 1), "v"));
      FillNext(s, Run(s, FillEvents(n - 1)), n - 1);
    }
  }

  lemma RunNone(s: State)
    ensures Run(s, []) == s
  {
  }

  // ----- eviction that is not least-recently-used -----

  const SET_DEL: seq<Event> := [DoSet("a", "1"), Event(0, Do(["DEL", "a"]))]

  /** SET a, DEL a, then fresh keys up to one less than the capacity, then SET a again. */
  function DelRun(capacity: nat): seq<Event>
    requires capacity >= 2
  {
    SET_DEL + FillEvents(capacity - 1) + [DoSet("a", "2")]
  }

  lemma DelStep(s: State, key: string)
    ensures Step(s, Event(0, Do(["DEL", key]))).0 == Drop(s, key)
  {
    UpperPlain("DEL");
  }

  /** DEL leaves the node of `a` behind. */
  lemma AfterSetDel(capacity: nat)
    requires capacity >= 2
    ensures Run(Empty(capacity), SET_DEL) ==
            State(map[], map[], map[], [Node(0, "a")], map["a" := 0], 1, capacity, false)
  {
    hide Set, Run;
    var s := Empty(capacity);
    SetStep(s, "a", "1");
    SetWithRoom(s, "a", "1");
    var t := Set(s, "a", "1");
    assert t == State(map["a" := "1"], map[], map[], [Node(0, "a")], map["a" := 0], 1, capacity, false);
    hide Step, Uses, Empty;
    RunOne(s, DoSet("a", "1"));
    RunSnoc(s, [DoSet("a", "1")], Event(0, Do(["DEL", "a"])));
    DelStep(t, "a");
    assert t.strings - {"a"} == map[];
    assert SET_DEL == [DoSet("a", "1")] + [Event(0, Do(["DEL", "a"]))];
  }

  lemma DelRunEnds(capacity: nat)
    requires capacity >= 2
    ensures var s1 := Run(Run(Empty(capacity), SET_DEL), FillEvents(capacity - 1));
            Run(Empty(capacity), DelRun(capacity)) == Set(s1, "a", "2")
  {
    hide Set, Run, Step, SET_DEL, FillEvents;
    var front := SET_DEL + FillEvents(capacity - 1);
    var s1 := Run(Empty(capacity), front);
    RunAppend(Empty(capacity), SET_DEL, FillEvents(capacity - 1));
    RunSnoc(Empty(capacity), front, DoSet("a", "2"));
    SetStep(s1, "a", "2");
  }

  /** The database is then full, and `a` is both the string used last and the key of the last node. */
  lemma DelRunState(capacity: nat)
    requires capacity >= 2
    ensures var s := Run(Empty(capacity), DelRun(capacity));
            && |s.strings| == capacity == s.capacity && s.lists == map[] && !s.undefined
            && "a" in s.strings && Filler(0) in s.strings && "z" !in s.strings
            && s.order != [] && s.order[|s.order| - 1].key == "a"
  {
    hide Set, Run, Filler, SET_DEL, DelRun, FillEvents, FillNodes;
    var s0 := Run(Empty(capacity), SET_DEL);
    var s1 := Run(s0, FillEvents(capacity - 1));
    DelRunEnds(capacity);
    AfterSetDel(capacity);
    FillRun(s0, capacity - 1);
    NextFiller(capacity - 1);
    assert Filler(0) in FillerKeys(capacity - 1);
    hide FillerKeys;
    SetWithRoom(s1, "a", "2");
    UpdateSize(s1.strings, "a", "2");
  }

  /** `a` is the string used last. */
  lemma DelRunHistory(capacity: nat, key: string)
    requires capacity >= 2 && key != "a"
    ensures var h := History(Empty(capacity), DelRun(capacity)); LastUse(h, key) < LastUse(h, "a")
  {
    hide Run, History, LastUse;
    var front := SET_DEL + FillEvents(capacity - 1);
    var s, g := Run(Empty(capacity), front), History(Empty(capacity), front);
    RunSnoc(Empty(capacity), front, DoSet("a", "2"));
    SetStep(s, "a", "2");
    LastUseAppend(g, "a", key);
    LastUseAppend(g, "a", "a");
  }

  /** Whatever the capacity, a SET after that run evicts the key used most recently and keeps all others. */
  lemma DelDefeatsLru(capacity: nat)
    requires capacity >= 2
    ensures var es := DelRun(capacity);
            var s, h := Run(Empty(capacity), es), History(Empty(capacity), es);
            var t := Run(Empty(capacity), es + [DoSet("z", "3")]);
            && "a" in s.strings && (forall k :: k in s.strings && k != "a" ==> LastUse(h, k) < LastUse(h, "a"))
            && t.strings == (s.strings - {"a"})["z" := "3"] && !t.undefined
            && !SetIsLru(s, "z", "3", h)
  {
    hide Run, History, LastUse, Set, Filler, DelRun;
    var es := DelRun(capacity);
    var s, h := Run(Empty(capacity), es), History(Empty(capacity), es);
    DelRunState(capacity);
    forall k | k != "a" { DelRunHistory(capacity, k); }
    FullSetEvicts(s, "z", "a", "3");
    RunSnoc(Empty(capacity), es, DoSet("z", "3"));
    SetStep(s, "z", "3");
    FillerIs(0);
    assert Filler(0) in Set(s, "z", "3").strings && "a" !in Set(s, "z", "3").strings;
  }

  // ----- a list that outlives a string used after it -----

  function Fillers(n: nat): seq<string> {
    if n == 0 then [] else Fillers(n - 1) + [Filler(n - 1)]
  }

  lemma {:induction false} FillersAt(n: nat)
    ensures |Fillers(n)| == n && forall i :: 0 <= i < n ==> Fillers(n)[i] == Filler(i)
  {
    hide Filler;
    if n > 0 {
      FillersAt(n - 1);
    }
  }

  lemma {:induction false} FillHistory(s: State, n: nat)
    ensures History(s, FillEvents(n)) == Fillers(n)
  {
    hide Run, Step, Uses, Filler, DoSet;
    if n > 0 {
      var e := DoSet(Filler(n - 1), "v");
      FillHistory(s, n - 1);
      RunSnoc(s, FillEvents(n - 1), e);
      SetStep(Run(s, FillEvents(n - 1)), Filler(n - 1), "v");
    }
  }

  /** LPUSH l, then fresh strings until the database is full. */
  function ListRun(capacity: nat): seq<Event>
    requires capacity >= 2
  {
    [DoPush("l")] + FillEvents(capacity - 1)
  }

  lemma AfterPush(capacity: nat)
    ensures Run(Empty(capacity), [DoPush("l")]) == Empty(capacity).(lists := map["l" := ["v"]])
    ensures History(Empty(capacity), [DoPush("l")]) == ["l"]
  {
    hide Run, History, Step, Uses, DoPush, Push;
    RunOne(Empty(capacity), DoPush("l"));
    PushStep(Empty(capacity), "l");
    PushUse(Empty(capacity), "l");
    FirstPush(capacity);
  }

  lemma PushUse(s: State, key: string)
    requires s.strings == map[] && s.expiry == map[]
    ensures Uses(s, DoPush(key)) == [key]
  {
    UpperPlain("LPUSH");
  }

  lemma FirstPush(capacity: nat)
    ensures Push(Empty(capacity), "l", "v", true).0 == Empty(capacity).(lists := map["l" := ["v"]])
  {
    assert ["v"] + [] == ["v"];
  }

  lemma FilledFacts(s: State, t: State, n: nat)
    requires Filled(s, t, n) && n >= 1
    ensures |t.strings| == n && t.lists == s.lists && t.undefined == s.undefined && t.capacity == s.capacity
    ensures Filler(0) in t.strings && "l" !in t.strings && "z" !in t.strings
    ensures s.nextNode == 0 && s.order == [] ==> t.order != [] && t.order[|t.order| - 1].key == Filler(0)
  {
    hide Filler, FillNodes;
    forall i: nat { FillerIs(i); }
    assert Filler(0) in FillerKeys(n);
    LastOfFill(n);
  }

  lemma ListRunState(capacity: nat)
    requires capacity >= 2
    ensures var s := Run(Empty(capacity), ListRun(capacity));
            && |s.strings| + |s.lists| == capacity == s.capacity && !s.undefined && !Has(s, "z")
            && s.lists == map["l" := ["v"]] && Filler(0) in s.strings && "l" !in s.strings
            && s.order != [] && s.order[|s.order| - 1].key == Filler(0)
    ensures History(Empty(capacity), ListRun(capacity)) == ["l"] + Fillers(capacity - 1)
  {
    hide Run, Filler, DoPush, FillEvents, Fillers, History, Filled;
    var s0 := Empty(capacity).(lists := map["l" := ["v"]]);
    AfterPush(capacity);
    RunAppend(Empty(capacity), [DoPush("l")], FillEvents(capacity - 1));
    forall i: nat { FillerIs(i); }
    assert s0.lists.Keys == {"l"} && |s0.lists| == 1;
    FillRun(s0, capacity - 1);
    FillHistory(s0, capacity - 1);
    FilledFacts(s0, Run(s0, FillEvents(capacity - 1)), capacity - 1);
  }

  lemma LastOfFill(n: nat)
    requires n >= 1
    ensures |FillNodes(0, n)| == n && FillNodes(0, n)[n - 1].key == Filler(0)
  {
    hide Filler;
  }

  lemma ListIsOlder(n: nat)
    requires n >= 1
    ensures var h := ["l"] + Fillers(n); LastUse(h, "l") < LastUse(h, Filler(0))
  {
    hide Filler, LastUse, Fillers;
    var h := ["l"] + Fillers(n);
    FillersAt(n);
    assert h[1] == Filler(0);
    forall i | 0 <= i < n { FillerIs(i); }
    assert forall j :: 1 <= j < |h| ==> h[j] == Filler(j - 1);
    assert LastUse(h, "l") <= 0;
  }

  lemma NotOldest(s: State, key: string, value: string, h: seq<string>, victim: string, kept: string)
    requires Has(s, victim) && victim != key && !Has(Set(s, key, value), victim)
    requires Has(Set(s, key, value), kept) && kept != key && LastUse(h, victim) >= LastUse(h, kept)
    ensures !SetEvictsOldest(s, key, value, h)
  {
    hide Set, LastUse;
  }

  lemma OlderListStays(s: State, h: seq<string>, victim: string)
    requires |s.strings| + |s.lists| == s.capacity && !Has(s, "z") && !s.undefined
    requires victim in s.strings && victim !in s.lists && s.order != [] && s.order[|s.order| - 1].key == victim
    requires "l" in s.lists && LastUse(h, "l") < LastUse(h, victim)
    ensures var t := Set(s, "z", "3");
            && t.strings == (s.strings - {victim})["z" := "3"] && t.lists == s.lists && !t.undefined
    ensures !SetEvictsOldest(s, "z", "3", h)
  {
    hide Set, LastUse, SetEvictsOldest;
    FullSetEvicts(s, "z", victim, "3");
    NotOldest(s, "z", "3", h, victim, "l");
  }

  lemma ListRunHistory(capacity: nat)
    requires capacity >= 2
    ensures var h := History(Empty(capacity), ListRun(capacity)); LastUse(h, "l") < LastUse(h, Filler(0))
  {
    hide Run, History, LastUse, Filler, ListRun, Fillers;
    ListRunState(capacity);
    ListIsOlder(capacity - 1);
  }

  lemma ListRunFacts(capacity: nat)
    requires capacity >= 2
    ensures var s := Run(Empty(capacity), ListRun(capacity));
            && |s.strings| + |s.lists| == s.capacity && !Has(s, "z") && !s.undefined
            && Filler(0) in s.strings && Filler(0) !in s.lists && s.order != [] && s.order[|s.order| - 1].key == Filler(0)
            && "l" in s.lists
  {
    hide Run, Filler, ListRun, Fillers, History;
    ListRunState(capacity);
    FillerIs(0);
  }

  /** Whatever the capacity, lists escape the recency list: no string is out of order, yet the next SET evicts
      a string and keeps a list that was used before it. */
  lemma ListsDefeatLru(capacity: nat)
    requires capacity >= 2
    ensures var es := ListRun(capacity);
            var s, h := Run(Empty(capacity), es), History(Empty(capacity), es);
            var t := Run(Empty(capacity), es + [DoSet("z", "3")]);
            && t.strings == (s.strings - {Filler(0)})["z" := "3"] && t.lists == s.lists && !t.undefined
            && "l" in t.lists && Filler(0) in s.strings && LastUse(h, "l") < LastUse(h, Filler(0))
            && !SetEvictsOldest(s, "z", "3", h)
  {
    hide Run, History, LastUse, Set, Filler, ListRun, DoSet, Step, SetEvictsOldest;
    var es := ListRun(capacity);
    var s, h := Run(Empty(capacity), es), History(Empty(capacity), es);
    ListRunFacts(capacity);
    ListRunHistory(capacity);
    OlderListStays(s, h, Filler(0));
    RunSnoc(Empty(capacity), es, DoSet("z", "3"));
    SetStep(s, "z", "3");
  }

  // ----- an eviction loop that runs out of nodes -----

  function DoPush(key: string): Event {
    Event(0, Do(["LPUSH", key, "v"]))
  }

  function PushEvents(n: nat): seq<Event> {
    if n == 0 then [] else PushEvents(n - 1) + [DoPush(Filler(n - 1))]
  }

  lemma PushStep(s: State, key: string)
    requires s.strings == map[] && s.expiry == map[]
    ensures Step(s, DoPush(key)).0 == Push(s, key, "v", true).0
  {
    UpperPlain("LPUSH");
  }

  predicate FilledLists(t: State, capacity: nat, n: nat) {
    t == Empty(capacity).(lists := t.lists) && t.lists.Keys == FillerKeys(n) && |t.lists| == n
  }

  lemma PushOne(t: State, capacity: nat, n: nat)
    requires FilledLists(t, capacity, n)
    ensures FilledLists(Push(t, Filler(n), "v", true).0, capacity, n + 1)
  {
    hide Filler, FillerKeys;
    NextFiller(n);
    assert Push(t, Filler(n), "v", true).0.lists.Keys == t.lists.Keys + {Filler(n)};
  }

  lemma PushNothing(capacity: nat)
    ensures FilledLists(Empty(capacity), capacity, 0)
  {
    assert FillerKeys(0) == {};
  }

  lemma PushNext(t: State, capacity: nat, n: nat)
    requires FilledLists(t, capacity, n)
    ensures FilledLists(Step(t, DoPush(Filler(n))).0, capacity, n + 1)
  {
    hide Step, Filler, Push, FilledLists, DoPush;
    OnlyLists(t, capacity, n);
    PushStep(t, Filler(n));
    PushOne(t, capacity, n);
  }

  lemma {:induction false} PushRun(capacity: nat, n: nat)
    ensures FilledLists(Run(Empty(capacity), PushEvents(n)), capacity, n)
  {
    hide Run, Step, Filler, FilledLists, DoPush, Empty;
    if n == 0 {
      RunNone(Empty(capacity));
      PushNothing(capacity);
    } else {
      PushRun(capacity, n - 1);
      RunSnoc(Empty(capacity), PushEvents(n - 1), DoPush(Filler(n - 1)));
      PushNext(Run(Empty(capacity), PushEvents(n - 1)), capacity, n - 1);
    }
  }

  lemma OnlyLists(t: State, capacity: nat, n: nat)
    requires FilledLists(t, capacity, n)
    ensures t.strings == map[] && t.expiry == map[]
  {
  }

  /** LPUSH on as many keys as the capacity allows, then SET of a new key: everything up to the SET is
      defined, and the SET reads the back of an empty list. */
  lemma ListsDefeatEviction(capacity: nat)
    ensures !Run(Empty(capacity), PushEvents(capacity)).undefined
    ensures Run(Empty(capacity), PushEvents(capacity) + [DoSet("z", "1")]).undefined
  {
    hide Run, Step, Set, Filler;
    var s := Run(Empty(capacity), PushEvents(capacity));
    PushRun(capacity, capacity);
    NextFiller(capacity);
    RunSnoc(Empty(capacity), PushEvents(capacity), DoSet("z", "1"));
    SetStep(s, "z", "1");
    NoRoom(s, "z", "1");
  }

  lemma NoRoom(s: State, key: string, value: string)
    requires key !in s.strings && key !in s.lists && |s.lists| >= s.capacity && s.order == []
    ensures Set(s, key, value).undefined
  {
    assert s.lists - {key} == s.lists;
  }

  // ----- a replica that evicts another key than its leader -----

  function FillCommands(n: nat): seq<Command> {
    if n == 0 then [] else FillCommands(n - 1) + [["SET", Filler(n - 1), "v"]]
  }

  lemma ReplicaSet(f: Follower, now: nat, key: string, value: string)
    requires CleanToken(key) && CleanToken(value)
    ensures ApplyLine(f, now, CommandLine(["SET", key, value])) == f.(db := Set(f.db, key, value))
  {
    hide Set, ApplyLive, CommandLine, ApplyLine;
    var cmd := ["SET", key, value];
    UpperPlain("SET");
    ApplyCommandLine(f, now, cmd);
    ApplyLiveByKind(f.db, now, cmd);
  }

  /** A replica that is sent the same SETs as the leader gets is in the same state. */
  lemma {:induction false} ReplicaFill(s: State, now: nat, n: nat)
    ensures ApplyLines(Follower(s, false), now, CommandLines(FillCommands(n)))
         == Follower(Run(s, FillEvents(n)), false)
  {
    hide Run, Set, ApplyLine, ApplyLines, CommandLine, Filler;
    var f := Follower(s, false);
    if n == 0 {
      RunNone(s);
      NoCommandLines();
      ApplyNone(f, now);
    } else {
      var cmd, front := ["SET", Filler(n - 1), "v"], CommandLines(FillCommands(n - 1));
      ReplicaFill(s, now, n - 1);
      assert CommandLines(FillCommands(n)) == front + [CommandLine(cmd)];
      AppliedOne(f, now, front, CommandLine(cmd));
      FillerIs(n - 1);
      ReplicaSet(ApplyLines(f, now, front), now, Filler(n - 1), "v");
      var t := Run(s, FillEvents(n - 1));
      RunSnoc(s, FillEvents(n - 1), DoSet(Filler(n - 1), "v"));
      SetStep(t, Filler(n - 1), "v");
    }
  }

  /** GET of the key at the back moves it to the front. */
  lemma GetMovesBack(s: State, key: string)
    requires s.expiry == map[] && key in s.strings && key in s.position && s.order != []
    requires NodeIndex(s.order, s.position[key]) == |s.order| - 1
    ensures ExecCommand(s, 0, ["GET", key]).0 ==
            s.(order := [Node(s.nextNode, key)] + s.order[..|s.order| - 1],
               position := s.position[key := s.nextNode], nextNode := s.nextNode + 1)
  {
    UpperPlain("GET");
    var n := |s.order| - 1;
    assert s.order[..n] + s.order[n + 1..] == s.order[..n];
  }

  lemma LastFillNode(n: nat)
    requires n >= 2
    ensures var order := FillNodes(0, n);
            && NodeIndex(order, 0) == n - 1
            && order[n - 1] == Node(0, Filler(0)) && order[n - 2] == Node(1, Filler(1))
  {
    hide Filler;
    var order := FillNodes(0, n);
    var i := NodeIndex(order, 0);
    assert i < n ==> order[i].id == n - 1 - i;
    assert order[n - 1].id == 0;
  }

  /** A leader that has been filled up and then been asked for its oldest key. */
  function ReadRun(capacity: nat): seq<Event> {
    FillEvents(capacity) + [Event(0, Do(["GET", Filler(0)]))]
  }

  lemma ReadRunState(capacity: nat)
    requires capacity >= 2
    ensures var s, t := Run(Empty(capacity), FillEvents(capacity)), Run(Empty(capacity), ReadRun(capacity));
            && Filled(Empty(capacity), s, capacity)
            && t == s.(order := t.order, position := t.position, nextNode := t.nextNode)
            && s.order != [] && s.order[|s.order| - 1].key == Filler(0)
            && t.order != [] && t.order[|t.order| - 1].key == Filler(1)
  {
    hide Run, Step, Filler;
    var s, get := Run(Empty(capacity), FillEvents(capacity)), Event(0, Do(["GET", Filler(0)]));
    FillRun(Empty(capacity), capacity);
    assert s.order == FillNodes(0, capacity);
    LastFillNode(capacity);
    assert Filler(0) in FillerKeys(capacity);
    GetMovesBack(s, Filler(0));
    RunSnoc(Empty(capacity), FillEvents(capacity), get);
    StepIsExec(s, get);
  }

  lemma StepIsExec(s: State, e: Event)
    requires e.action.Do?
    ensures Step(s, e).0 == ExecCommand(s, e.now, e.action.cmd).0
  {
  }

  lemma FilledUp(s: State, capacity: nat)
    requires capacity >= 2 && Filled(Empty(capacity), s, capacity)
    ensures s.lists == map[] && |s.strings| == capacity == s.capacity
    ensures "z" !in s.strings && Filler(0) in s.strings && Filler(1) in s.strings && Filler(0) != Filler(1)
    ensures Filler(0) != "z" && Filler(1) != "z"
  {
    hide Filler, FilledOrder;
    NextFiller(capacity);
    FillerIs(0);
    FillerIs(1);
    assert Filler(0) in FillerKeys(capacity) && Filler(1) in FillerKeys(capacity);
  }

  /** GET is not propagated. Whatever the capacity, fill the leader with SETs that a replica follows, read the
      oldest key, and SET another: the leader and the replica, which held the same data, evict different keys. */
  lemma RecencyDiverges(capacity: nat, now: nat)
    requires capacity >= 2
    ensures var leader := Run(Empty(capacity), ReadRun(capacity));
            var replica := ApplyLines(Follower(Empty(capacity), false), now, CommandLines(FillCommands(capacity)));
            var cmd := ["SET", "z", "v"];
            var leader' := ExecCommand(leader, 0, cmd).0;
            var replica' := ApplyLine(replica, now, CommandLine(cmd)).db;
            && DataOf(leader) == DataOf(replica.db)
            && leader'.strings == (leader.strings - {Filler(1)})["z" := "v"]
            && replica'.strings == (leader.strings - {Filler(0)})["z" := "v"]
            && DataOf(leader') != DataOf(replica')
  {
    hide Run, Set, Filler, ApplyLine, ApplyLines, CommandLine, ExecCommand, ReadRun, CommandLines, FillEvents,
      FillCommands, Filled;
    var leader, s := Run(Empty(capacity), ReadRun(capacity)), Run(Empty(capacity), FillEvents(capacity));
    ReadRunState(capacity);
    FilledUp(s, capacity);
    ReplicaFill(Empty(capacity), now, capacity);
    FullSetEvicts(leader, "z", Filler(1), "v");
    FullSetEvicts(s, "z", Filler(0), "v");
    SetStep(leader, "z", "v");
    ReplicaSet(Follower(s, false), now, "z", "v");
    assert Filler(0) in Set(leader, "z", "v").strings && Filler(0) !in Set(s, "z", "v").strings;
  }

  // ----- a rejected command that a replica applies -----

  /** SET k, then LPUSH k: the leader answers WRONGTYPE and changes nothing, yet propagates the command. A replica
      with the same data then differs, and holds the key in both stores. */
  lemma WrongTypeDiverges(capacity: nat, now: nat)
    requires capacity >= 1
    ensures var write, push := ["SET", "k", "v"], ["LPUSH", "k", "x"];
            var leader := ExecCommand(Empty(capacity), 0, write).0;
            var replica := ApplyLine(Follower(Empty(capacity), false), now, CommandLine(write));
            var after := ApplyLine(replica, now, CommandLine(push)).db;
            && DataOf(replica.db) == DataOf(leader) && IsWrite(push)
            && ExecCommand(leader, 0, push) == (leader, WRONG_TYPE)
            && DataOf(after) != DataOf(leader) && !Consistent(after)
  {
    hide Set, Push, ApplyLine, CommandLine, Consistent, ExecCommand;
    var s, f := Set(Empty(capacity), "k", "v"), Follower(Empty(capacity), false);
    SetStep(Empty(capacity), "k", "v");
    SetWithRoom(Empty(capacity), "k", "v");
    ReplicaSet(f, now, "k", "v");
    PushRefused(s);
    ReplicaPush(Follower(s, false), now);
    PushedOver(s, "k", "x");
  }

  lemma PushRefused(s: State)
    requires "k" in s.strings && s.expiry == map[]
    ensures ExecCommand(s, 0, ["LPUSH", "k", "x"]) == (s, WRONG_TYPE) && IsWrite(["LPUSH", "k", "x"])
  {
    UpperPlain("LPUSH");
  }

  lemma ReplicaPush(f: Follower, now: nat)
    ensures ApplyLine(f, now, CommandLine(["LPUSH", "k", "x"])) == f.(db := Push(f.db, "k", "x", true).0)
  {
    hide Push, ApplyLive, CommandLine, ApplyLine;
    UpperPlain("LPUSH");
    ApplyCommandLine(f, now, ["LPUSH", "k", "x"]);
    ApplyLiveByKind(f.db, now, ["LPUSH", "k", "x"]);
  }

  lemma PushedOver(s: State, key: string, value: string)
    requires key in s.strings && key !in s.lists
    ensures var t := Push(s, key, value, true).0; DataOf(t) != DataOf(s) && !Consistent(t)
  {
    var t := Push(s, key, value, true).0;
    assert key in t.lists && key in t.strings;
  }

  /** EXPIRE k -1: the leader answers with an error and propagates; on a replica with the same data the key dies. */
  lemma NegativeExpireDiverges(s: State, now: nat)
    requires Consistent(s) && "k" in Live(Contents(s), now)
    ensures var cmd := ["EXPIRE", "k", "-1"];
            && IsWrite(cmd)
            && ExecCommand(s, now, cmd).0 == s && ExecCommand(s, now, cmd).1.Error?
            && "k" !in Live(Contents(ApplyLine(Follower(s, false), now, CommandLine(cmd)).db), now)
  {
    hide Contents, ApplyLine, CommandLine, Consistent;
    ShowDecimal(1, 1);
    assert Show(-1) == "-1";
    ShowParses(-1);
    SeenExpire("k", -1);
    NegativeRefused(s, now);
    ExpireOnReplica(Follower(s, false), now, "k", -1);
  }

  lemma NegativeRefused(s: State, now: nat)
    requires Stoll("-1") == Some(-1)
    ensures var x := ExecCommand(s, now, ["EXPIRE", "k", "-1"]); x.0 == s && x.1.Error?
  {
    UpperPlain("EXPIRE");
    hide Stoll, Upper;
    ExpireRequest(["EXPIRE", "k", "-1"]);
  }

  lemma ExpireRequest(cmd: Command)
    requires |cmd| == 3 && Upper(cmd[0]) == "EXPIRE"
    ensures Classify(cmd) == ClassifyExpire(cmd[1], cmd[2])
  {
    hide Upper, ClassifyExpire;
  }

  // ----- a reply that cannot be framed -----

  /** The error for an unknown command echoes its name, line breaks included. */
  lemma EchoBreaksFraming(s: State, now: nat, name: string)
    requires WordCount(Upper(name)) == 0 && Upper(name) != "PING" && Upper(name) != "SAVE"
    ensures var reply := ExecCommand(s, now, [name]).1;
            reply.Error? && (Framed(reply) <==> FindCrlf(name + "'" + CRLF) == |name| + 1)
  {
    hide Upper, FindCrlf;
    Unknown(s, now, name);
    var prefix := "ERR unknown command '";
    FramedAfter(prefix, name + "'");
    assert prefix + (name + "'") == prefix + name + "'";
  }

  lemma Unknown(s: State, now: nat, name: string)
    requires WordCount(Upper(name)) == 0 && Upper(name) != "PING" && Upper(name) != "SAVE"
    ensures ExecCommand(s, now, [name]).1 == Error("ERR unknown command '" + name + "'")
  {
    hide Upper, WordCount;
    WordCountIs(Upper(name));
  }

  lemma FramedAfter(prefix: string, text: string)
    requires '\r' !in prefix
    ensures FindCrlf(prefix + text + CRLF) == |prefix + text| <==> FindCrlf(text + CRLF) == |text|
  {
    var t, u, n := text + CRLF, prefix + text + CRLF, |prefix|;
    assert CrlfAt(t, |text|);
    assert forall k :: 0 <= k < |t| ==> u[n + k] == t[k];
    assert forall k :: 0 <= k < n ==> u[k] == prefix[k];
    var i, j := FindCrlf(t), FindCrlf(u);
    assert CrlfAt(u, n + i);
    assert CrlfAt(u, j);
    assert j >= n;
    assert CrlfAt(t, j - n);
  }

  // ----- tokens that do not survive the wire -----

  /** SET k "": the replica sees two words and ignores them. */
  lemma EmptyValueDiverges(capacity: nat, now: nat)
    requires capacity >= 1
    ensures var cmd := ["SET", "k", ""];
            var leader := ExecCommand(Empty(capacity), 0, cmd).0;
            var replica := ApplyLine(Follower(Empty(capacity), false), now, CommandLine(cmd)).db;
            DataOf(leader) == Data(map["k" := ""], map[]) && replica == Empty(capacity)
  {
    hide Set, ApplyLine, ApplyLive, CommandLine, Pieces;
    var cmd := ["SET", "k", ""];
    SetStep(Empty(capacity), "k", "");
    SetWithRoom(Empty(capacity), "k", "");
    UpperPlain("SET");
    CleanIsOnePiece("SET");
    CleanIsOnePiece("k");
    NoPieces();
    ThreePieces("SET", "k", "");
    assert UpperName(cmd) == cmd;
    assert Seen(cmd) == ["SET", "k"];
    ApplyAnyLine(Follower(Empty(capacity), false), now, cmd);
    IsSetting(cmd);
    ShortSet(Empty(capacity), now);
  }

  lemma IsSetting(cmd: Command)
    requires cmd != [] && cmd[0] == "SET"
    ensures Name(cmd) == "SET" && KindOf(cmd) == Setting
  {
    UpperPlain("SET");
  }

  lemma NoPieces()
    ensures Pieces("", "") == []
  {
  }

  lemma ThreePieces(a: string, b: string, c: string)
    ensures AllPieces([a, b, c]) == Pieces(a, "") + (Pieces(b, "") + Pieces(c, ""))
  {
    hide Pieces;
    assert [a, b, c][1..] == [b, c] && [b, c][1..] == [c] && [c][1..] == [];
    assert AllPieces([c]) == Pieces(c, "") + [];
  }

  lemma ShortSet(s: State, now: nat)
    ensures ApplyLive(s, now, "SET", ["SET", "k"]) == s
  {
  }

  lemma TabSplits()
    ensures Pieces("k\tx", "") == ["k", "x"]
  {
    var t := "k\tx";
    CleanIsOnePiece("x");
    assert t[1..] == "\tx" && "\tx"[1..] == "x" && "" + [t[0]] == "k";
    assert Pieces("\tx", "k") == ["k"] + Pieces("x", "");
    assert Pieces(t, "") == Pieces("\tx", "k");
  }

  /** SET k, then DEL of a key that begins with `k` and a tab: the leader deletes nothing, the replica deletes `k`. */
  lemma TabDiverges(capacity: nat, now: nat)
    requires capacity >= 1
    ensures var write, delete := ["SET", "k", "v"], ["DEL", "k\tx"];
            var leader := ExecCommand(Empty(capacity), 0, write).0;
            var replica := ApplyLine(Follower(Empty(capacity), false), now, CommandLine(write));
            && DataOf(replica.db) == DataOf(leader) == Data(map["k" := "v"], map[])
            && DataOf(ExecCommand(leader, 0, delete).0) == DataOf(leader)
            && DataOf(ApplyLine(replica, now, CommandLine(delete)).db) == Data(map[], map[])
  {
    hide Set, ApplyLine, ApplyLive, CommandLine, Pieces;
    var delete := ["DEL", "k\tx"];
    var s, f := Set(Empty(capacity), "k", "v"), Follower(Empty(capacity), false);
    SetStep(Empty(capacity), "k", "v");
    SetWithRoom(Empty(capacity), "k", "v");
    ReplicaSet(f, now, "k", "v");
    UpperPlain("DEL");
    CleanIsOnePiece("DEL");
    TabSplits();
    assert UpperName(delete) == delete && delete[1..] == ["k\tx"] && delete[1..][1..] == [];
    assert AllPieces(["k\tx"]) == ["k", "x"] + [];
    assert Seen(delete) == ["DEL", "k", "x"];
    ApplyAnyLine(Follower(s, false), now, delete);
    LongDelete(s, now);
    DelMisses(s);
    assert s.strings - {"k"} == map[] && s.lists - {"k"} == map[];
  }

  lemma LongDelete(s: State, now: nat)
    ensures ApplyLive(s, now, "DEL", ["DEL", "k", "x"]) == Drop(s, "k")
  {
  }

  lemma DelMisses(s: State)
    requires s.strings == map["k" := "v"] && s.lists == map[]
    ensures DataOf(ExecCommand(s, 0, ["DEL", "k\tx"]).0) == DataOf(s)
  {
    UpperPlain("DEL");
    assert |"k\tx"| == 3 && |"k"| == 1;
    assert s.strings - {"k\tx"} == s.strings && s.lists - {"k\tx"} == s.lists;
  }

  // ----- a file that puts a key in both stores -----

  const TWICE: seq<SnapshotEntry> := [SnapshotEntry("k", Str("v"), -1), SnapshotEntry("k", Lst(["x"]), -1)]

  lemma TwiceRestored(s: State)
    ensures RestoreAll(s, TWICE) == RestoreEntry(RestoreEntry(s, TWICE[0]), TWICE[1])
  {
    hide RestoreEntry;
    assert TWICE[..1] == [TWICE[0]] && TWICE[..1][..0] == [];
    assert RestoreAll(s, TWICE[..1][..0]) == s;
    assert RestoreAll(s, TWICE[..1]) == RestoreEntry(s, TWICE[0]);
  }

  lemma TwiceLive(now: nat)
    ensures StillLive(TWICE, now) == TWICE
  {
    assert TWICE[..1] == [TWICE[0]] && TWICE[..1][..0] == [];
    assert StillLive(TWICE[..1][..0], now) == [];
    assert StillLive(TWICE[..1], now) == [TWICE[0]];
  }

  /** A file with an S record and an L record of the same key loads without an error, and leaves the key in
      both stores. */
  lemma FileBreaksStores(capacity: nat, now: nat)
    ensures var r := Load(Empty(capacity), now, Some(FileText(TWICE)));
            && r.1 == LoadResult(true, 2, NoError)
            && !Consistent(r.0) && "k" in r.0.strings && "k" in r.0.lists
  {
    hide Load, FileText, Set, RestoreAll, StillLive, Victims;
    var s := Set(Empty(capacity), "k", "v");
    LoadSaved(Empty(capacity), now, TWICE);
    TwiceLive(now);
    TwiceRestored(Empty(capacity));
    SetFrame(Empty(capacity), "k", "v");
    PushAllFrame(s, "k", ["x"]);
    assert RestoreEntry(Empty(capacity), TWICE[0]) == s;
    assert RestoreEntry(s, TWICE[1]) == PushAll(s, "k", ["x"]);
  }
}
