/** The five coupled structures of the database as one value, and what each
    operation does to them. The class in `Database.dfy` is proved against these functions. */
module Keyspace {
  import opened Text

  /** A node of `lru_order_`. Nodes have identities, so a stored iterator (an `id`
      in `position`) can be stale, and two nodes can hold the same key. */
  datatype Node = Node(id: nat, key: string)

  datatype KeyType = NoKey | StringKey | ListKey

  /** `undefined` records that a run has left defined C++ behaviour: the back of an empty
      list was read, a dead iterator was erased, or a signed 64-bit sum overflowed.
      It is never reset. */
  datatype State = State(
    strings: map<string, string>,
    lists: map<string, seq<string>>,
    expiry: map<string, int>,
    order: seq<Node>,
    position: map<string, nat>,
    nextNode: nat,
    capacity: nat,
    undefined: bool)

  const MAX_CAPACITY: nat := 31

  function Empty(capacity: nat): State {
    State(map[], map[], map[], [], map[], 0, capacity, false)
  }

  // ----- the recency list -----

  /** Index of the node `id`, or |order| when no such node is left. */
  function NodeIndex(order: seq<Node>, id: nat): (i: nat)
    ensures i <= |order|
    ensures i < |order| ==> order[i].id == id
    ensures forall j :: 0 <= j < i ==> order[j].id != id
  {
    if order == [] || order[0].id == id then 0 else 1 + NodeIndex(order[1..], id)
  }

  /** Index of the front-most node holding `key`, or |order|. */
  function KeyIndex(order: seq<Node>, key: string): (i: nat)
    ensures i <= |order|
    ensures i < |order| ==> order[i].key == key
    ensures forall j :: 0 <= j < i ==> order[j].key != key
  {
    if order == [] || order[0].key == key then 0 else 1 + KeyIndex(order[1..], key)
  }

  /** `lru_order_.erase(it)`. */
  function EraseNode(s: State, id: nat): State {
    var i := NodeIndex(s.order, id);
    if i == |s.order| then s.(undefined := true)
    else s.(order := s.order[..i] + s.order[i + 1..])
  }

  /** `push_front(key)` followed by `lru_position_[key] = begin()`. */
  function PushFront(s: State, key: string): State {
    s.(order := [Node(s.nextNode, key)] + s.order,
       position := s.position[key := s.nextNode],
       nextNode := s.nextNode + 1)
  }

  /** Moves `key` to the front through its stored iterator; `operator[]` on a key
      with no entry would yield a singular iterator. */
  function Touch(s: State, key: string): State {
    if key in s.position then PushFront(EraseNode(s, s.position[key]), key)
    else PushFront(s.(undefined := true), key)
  }

  predicate Over(s: State) {
    |s.strings| + |s.lists| >= s.capacity
  }

  function PopBack(s: State): State
    requires s.order != []
  {
    var key := s.order[|s.order| - 1].key;
    s.(strings := s.strings - {key}, lists := s.lists - {key}, expiry := s.expiry - {key},
       position := s.position - {key}, order := s.order[..|s.order| - 1])
  }

  /** The eviction loop of `set`. */
  function Evict(s: State): State
    decreases |s.order|
  {
    if !Over(s) then s
    else if s.order == [] then s.(undefined := true)
    else Evict(PopBack(s))
  }

  // ----- operations -----

  predicate IsExpired(s: State, now: nat, key: string) {
    key in s.expiry && now >= s.expiry[key]
  }

  /** Removes `key` from both stores and from the expiry index; the recency list stays. */
  function Drop(s: State, key: string): State {
    s.(strings := s.strings - {key}, lists := s.lists - {key}, expiry := s.expiry - {key})
  }

  function DropAll(s: State, keys: set<string>): State {
    s.(strings := s.strings - keys, lists := s.lists - keys, expiry := s.expiry - keys)
  }

  lemma DropOneMore(s: State, keys: set<string>, key: string)
    ensures Drop(DropAll(s, keys), key) == DropAll(s, keys + {key})
  {
    assert s.strings - keys - {key} == s.strings - (keys + {key});
    assert s.lists - keys - {key} == s.lists - (keys + {key});
    assert s.expiry - keys - {key} == s.expiry - (keys + {key});
  }

  /** What `is_expired` leaves behind. */
  function Purge(s: State, now: nat, key: string): State {
    if !IsExpired(s, now, key) then s
    else
      var d := Drop(s, key);
      if key !in s.position then d
      else EraseNode(d, s.position[key]).(position := s.position - {key})
  }

  predicate Has(s: State, key: string) {
    key in s.strings || key in s.lists
  }

  function TypeOf(s: State, now: nat, key: string): KeyType {
    if IsExpired(s, now, key) then NoKey
    else if key in s.strings then StringKey
    else if key in s.lists then ListKey
    else NoKey
  }

  function SetPrepare(s: State, key: string): State {
    s.(lists := s.lists - {key}, expiry := s.expiry - {key})
  }

  function Set(s: State, key: string, value: string): State {
    var s0 := SetPrepare(s, key);
    var s1 := if key in s.strings then Touch(s0, key) else PushFront(Evict(s0), key);
    s1.(strings := s1.strings[key := value])
  }

  function Get(s: State, now: nat, key: string): (State, Option<string>) {
    var p := Purge(s, now, key);
    if IsExpired(s, now, key) || key !in p.strings then (p, None)
    else (if key in p.position then Touch(p, key) else p, Some(p.strings[key]))
  }

  function Del(s: State, key: string): (State, bool) {
    (Drop(s, key), Has(s, key))
  }

  function Exists(s: State, now: nat, key: string): (State, bool) {
    (Purge(s, now, key), !IsExpired(s, now, key) && Has(s, key))
  }

  function Items(s: State, key: string): seq<string> {
    if key in s.lists then s.lists[key] else []
  }

  function Push(s: State, key: string, value: string, front: bool): (State, nat) {
    var xs := if front then [value] + Items(s, key) else Items(s, key) + [value];
    (s.(lists := s.lists[key := xs]), |xs|)
  }

  /** Replaces a list by what a pop left of it; an empty list disappears with its deadline. */
  function Shrink(s: State, key: string, xs: seq<string>): State {
    if xs == [] then s.(lists := s.lists - {key}, expiry := s.expiry - {key})
    else s.(lists := s.lists[key := xs])
  }

  function Pop(s: State, now: nat, key: string, front: bool): (State, Option<string>) {
    var p := Purge(s, now, key);
    var xs := Items(p, key);
    if IsExpired(s, now, key) || xs == [] then (p, None)
    else if front then (Shrink(p, key, xs[1..]), Some(xs[0]))
    else (Shrink(p, key, xs[..|xs| - 1]), Some(xs[|xs| - 1]))
  }

  function LLen(s: State, now: nat, key: string): (State, nat) {
    var p := Purge(s, now, key);
    (p, if IsExpired(s, now, key) then 0 else |Items(p, key)|)
  }

  /** `expire` reads the clock twice: at `now` for the lazy expiry, at `later` for the new deadline. */
  function ExpireBetween(s: State, now: nat, later: nat, key: string, ttlMs: int): (State, bool) {
    var p := Purge(s, now, key);
    if IsExpired(s, now, key) || !Has(p, key) then (p, false)
    else
      var deadline := later + ttlMs;
      (p.(expiry := p.expiry[key := deadline],
          undefined := p.undefined || !(LLONG_MIN <= deadline <= LLONG_MAX)), true)
  }

  function Expire(s: State, now: nat, key: string, ttlMs: int): (State, bool) {
    ExpireBetween(s, now, now, key, ttlMs)
  }

  function ExpireAt(s: State, key: string, deadline: int): State {
    if Has(s, key) then s.(expiry := s.expiry[key := deadline]) else s
  }

  /** `ttl` reads the clock twice too; a key that dies in between has 0 left. */
  function TtlBetween(s: State, now: nat, later: nat, key: string): (State, int) {
    var p := Purge(s, now, key);
    if IsExpired(s, now, key) || !Has(p, key) then (p, -2)
    else if key !in p.expiry then (p, -1)
    else
      var remaining := p.expiry[key] - later;
      (p, if remaining > 0 then remaining else 0)
  }

  function Ttl(s: State, now: nat, key: string): (State, int) {
    TtlBetween(s, now, now, key)
  }

  function ExpiredKeys(s: State, now: nat): set<string> {
    set k | k in s.expiry && now >= s.expiry[k]
  }

  /** `evict_expired`. */
  function Sweep(s: State, now: nat): State {
    DropAll(s, ExpiredKeys(s, now))
  }

  // ----- snapshots -----

  datatype Value = Str(text: string) | Lst(items: seq<string>)

  /** `deadline` is -1 for a key without one. */
  datatype SnapshotEntry = SnapshotEntry(key: string, value: Value, deadline: int)

  function DeadlineOr(s: State, key: string): int {
    if key in s.expiry then s.expiry[key] else -1
  }

  function StringEntry(s: State, key: string): SnapshotEntry
    requires key in s.strings
  {
    SnapshotEntry(key, Str(s.strings[key]), DeadlineOr(s, key))
  }

  function ListEntry(s: State, key: string): SnapshotEntry
    requires key in s.lists
  {
    SnapshotEntry(key, Lst(s.lists[key]), DeadlineOr(s, key))
  }

  function EntryKeys(es: seq<SnapshotEntry>): set<string> {
    set i | 0 <= i < |es| :: es[i].key
  }

  predicate DistinctKeys(es: seq<SnapshotEntry>) {
    forall i, j :: 0 <= i < j < |es| ==> es[i].key != es[j].key
  }

  function LiveStrings(s: State, now: nat): set<string> {
    set k | k in s.strings && !IsExpired(s, now, k)
  }

  function LiveLists(s: State, now: nat): set<string> {
    set k | k in s.lists && !IsExpired(s, now, k) && s.lists[k] != []
  }

  /** `es` lists each of `keys` once, in some order, as the string `s` holds under it. */
  predicate ListsStrings(es: seq<SnapshotEntry>, keys: set<string>, s: State) {
    && EntryKeys(es) == keys
    && DistinctKeys(es)
    && forall i :: 0 <= i < |es| ==> es[i].key in s.strings && es[i] == StringEntry(s, es[i].key)
  }

  predicate ListsLists(es: seq<SnapshotEntry>, keys: set<string>, s: State) {
    && EntryKeys(es) == keys
    && DistinctKeys(es)
    && forall i :: 0 <= i < |es| ==> es[i].key in s.lists && es[i] == ListEntry(s, es[i].key)
  }

  /** What `snapshot` may return: the live strings, then the live lists, each part in
      an arbitrary order. `n` is where the second part starts. */
  predicate SnapshotSplitAt(es: seq<SnapshotEntry>, n: int, s: State, now: nat) {
    && 0 <= n <= |es|
    && ListsStrings(es[..n], LiveStrings(s, now), s)
    && ListsLists(es[n..], LiveLists(s, now), s)
  }

  ghost predicate IsSnapshot(es: seq<SnapshotEntry>, s: State, now: nat) {
    exists n :: SnapshotSplitAt(es, n, s, now)
  }

  lemma EntryKeysAppend(es: seq<SnapshotEntry>, e: SnapshotEntry)
    ensures EntryKeys(es + [e]) == EntryKeys(es) + {e.key}
    ensures DistinctKeys(es) && e.key !in EntryKeys(es) ==> DistinctKeys(es + [e])
  {
    var t := es + [e];
    assert t[|es|] == e;
    forall k | k in EntryKeys(es) + {e.key}
      ensures k in EntryKeys(t)
    {
      if k != e.key {
        var i :| 0 <= i < |es| && es[i].key == k;
        assert t[i].key == k;
      }
    }
  }

  lemma ListsStringsAppend(es: seq<SnapshotEntry>, keys: set<string>, s: State, key: string)
    requires ListsStrings(es, keys, s)
    requires key in s.strings && key !in keys
    ensures ListsStrings(es + [StringEntry(s, key)], keys + {key}, s)
  {
    EntryKeysAppend(es, StringEntry(s, key));
  }

  lemma ListsListsAppend(es: seq<SnapshotEntry>, keys: set<string>, s: State, key: string)
    requires ListsLists(es, keys, s)
    requires key in s.lists && key !in keys
    ensures ListsLists(es + [ListEntry(s, key)], keys + {key}, s)
  {
    EntryKeysAppend(es, ListEntry(s, key));
  }
}
