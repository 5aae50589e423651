/** Rebuilding a database from snapshot entries, which both loading a file and a full sync do. */
module Restore {
  import opened Text
  import opened Keyspace
  import opened Lru
  import opened Stores
  import opened TimedMap

  function PushAll(s: State, key: string, xs: seq<string>): State {
    if xs == [] then s else Push(PushAll(s, key, xs[..|xs| - 1]), key, xs[|xs| - 1], false).0
  }

  function WithDeadline(s: State, key: string, deadline: int): State {
    if deadline != -1 then ExpireAt(s, key, deadline) else s
  }

  function RestoreEntry(s: State, e: SnapshotEntry): State {
    var t := match e.value
      case Str(text) => Set(s, e.key, text)
      case Lst(items) => PushAll(s, e.key, items);
    WithDeadline(t, e.key, e.deadline)
  }

  function RestoreAll(s: State, es: seq<SnapshotEntry>): State {
    if es == [] then s else RestoreEntry(RestoreAll(s, es[..|es| - 1]), es[|es| - 1])
  }

  // ----- one entry -----

  lemma ContentsSize(s: State)
    requires Consistent(s)
    ensures |Contents(s)| == |s.strings| + |s.lists|
  {
    assert Contents(s).Keys == s.strings.Keys + s.lists.Keys;
  }

  /** A SET with room evicts nothing. */
  lemma RoomEvictsNothing(s: State, key: string, value: string)
    requires !Over(SetPrepare(s, key))
    ensures Victims(s, key) == {}
    ensures key !in s.strings ==> Set(s, key, value).undefined == s.undefined
  {
    hide Touch;
  }

  /** Where an absent key finds room. */
  lemma RoomFor(s: State, key: string)
    requires Consistent(s) && key !in Contents(s) && |Contents(s)| < s.capacity
    ensures key !in s.strings && key !in s.lists && s.lists - {key} == s.lists
    ensures |s.strings| + |s.lists| < s.capacity
    ensures !Over(SetPrepare(s, key))
  {
    hide Contents, Consistent;
    ContentsAt(s, key);
    ContentsSize(s);
    assert s.lists - {key} == s.lists;
  }

  lemma SetWithRoomContents(s: State, key: string, value: string)
    requires Consistent(s) && key !in Contents(s) && |Contents(s)| < s.capacity
    ensures var t := Set(s, key, value);
            && Contents(t) == Contents(s)[key := Entry(Str(value), None)]
            && Consistent(t) && t.capacity == s.capacity && t.undefined == s.undefined
  {
    hide Contents, Consistent, Set, Victims, SetPrepare, Over;
    RoomFor(s, key);
    RoomEvictsNothing(s, key, value);
    SetFrame(s, key, value);
    SetContents(s, key, value);
    SetConsistent(s, key, value);
    assert Contents(s) - {} == Contents(s);
  }

  lemma {:induction false} PushAllContents(s: State, key: string, xs: seq<string>)
    requires Consistent(s) && key !in Contents(s)
    ensures var t := PushAll(s, key, xs);
            && Contents(t) == (if xs == [] then Contents(s) else Contents(s)[key := Entry(Lst(xs), None)])
            && Consistent(t) && t.capacity == s.capacity && t.undefined == s.undefined && t.strings == s.strings
  {
    hide Contents, Consistent, Push, RefPut, RefItems;
    if xs != [] {
      var front, last := xs[..|xs| - 1], xs[|xs| - 1];
      var t := PushAll(s, key, front);
      PushAllContents(s, key, front);
      ContentsAt(s, key);
      PushContents(t, key, last, false);
      PushConsistent(t, key, last, false);
      PutAgain(Contents(s), key, front, last);
      assert front + [last] == xs;
    }
  }

  lemma PutAgain(m: Timed, key: string, front: seq<string>, last: string)
    requires key !in m
    ensures var n := if front == [] then m else m[key := Entry(Lst(front), None)];
            RefPut(n, key, RefItems(n, key) + [last]) == m[key := Entry(Lst(front + [last]), None)]
  {
    assert [] + [last] == [last];
  }

  lemma PushConsistent(s: State, key: string, value: string, front: bool)
    requires Consistent(s) && key !in s.strings
    ensures var t := Push(s, key, value, front).0;
            Consistent(t) && t == s.(lists := t.lists)
  {
  }

  lemma DeadlineConsistent(s: State, key: string, deadline: int)
    requires Consistent(s) && Has(s, key)
    ensures Consistent(ExpireAt(s, key, deadline))
  {
  }

  /** Lists are never empty, and the i-th entry is a string only if `capacity` allows i + 1 keys. */
  predicate Restorable(es: seq<SnapshotEntry>, capacity: nat) {
    && DistinctKeys(es)
    && forall i :: 0 <= i < |es| ==>
         if es[i].value.Str? then i < capacity else es[i].value.items != []
  }

  lemma RestoreEntryContents(s: State, e: SnapshotEntry)
    requires Consistent(s) && e.key !in Contents(s)
    requires if e.value.Str? then |Contents(s)| < s.capacity else e.value.items != []
    ensures var t := RestoreEntry(s, e);
            && Contents(t) == Contents(s)[e.key := EntryOf(e)]
            && Consistent(t) && t.capacity == s.capacity && t.undefined == s.undefined
  {
    hide Contents, Consistent, Set, PushAll;
    var t := if e.value.Str? then Set(s, e.key, e.value.text) else PushAll(s, e.key, e.value.items);
    if e.value.Str? {
      SetWithRoomContents(s, e.key, e.value.text);
    } else {
      PushAllContents(s, e.key, e.value.items);
    }
    ContentsAt(t, e.key);
    if e.deadline != -1 {
      DeadlineContents(t, e.key, e.deadline);
      DeadlineConsistent(t, e.key, e.deadline);
    }
  }

  lemma {:induction false} EntriesMapSize(es: seq<SnapshotEntry>)
    ensures |EntriesMap(es)| <= |es|
  {
    if es != [] {
      EntriesMapSize(es[..|es| - 1]);
    }
  }

  /** Entries restored into an empty database come back exactly, and nothing is evicted on the way. */
  lemma {:induction false} RestoreAllContents(s: State, es: seq<SnapshotEntry>)
    requires Consistent(s) && Contents(s) == map[] && Restorable(es, s.capacity)
    ensures var t := RestoreAll(s, es);
            Contents(t) == EntriesMap(es) && Consistent(t) && t.capacity == s.capacity && t.undefined == s.undefined
  {
    hide Contents, Consistent, RestoreEntry;
    if es != [] {
      var front, e := es[..|es| - 1], es[|es| - 1];
      RestoreAllContents(s, front);
      EntriesMapAt(front);
      EntriesMapSize(front);
      RestoreEntryContents(RestoreAll(s, front), e);
    }
  }

  /** A snapshot of a database within its capacity can be restored. */
  lemma SnapshotRestorable(es: seq<SnapshotEntry>, s: State, now: nat)
    requires Consistent(s) && |s.strings| <= s.capacity && IsSnapshot(es, s, now)
    ensures Restorable(es, s.capacity)
  {
    hide Contents, Consistent, DistinctKeys, ListsStrings, ListsLists;
    SnapshotIsLive(es, s, now);
    var n :| SnapshotSplitAt(es, n, s, now);
    SnapshotShape(es, n, s, now);
  }

  lemma SnapshotShape(es: seq<SnapshotEntry>, n: nat, s: State, now: nat)
    requires |s.strings| <= s.capacity && SnapshotSplitAt(es, n, s, now)
    ensures forall i :: 0 <= i < |es| ==> if es[i].value.Str? then i < s.capacity else es[i].value.items != []
  {
    hide LiveStrings, LiveLists, EntryKeys, DistinctKeys;
    DistinctCount(es[..n]);
    LiveStringsCount(s, now);
    forall i | 0 <= i < |es|
      ensures if es[i].value.Str? then i < s.capacity else es[i].value.items != []
    {
      if i < n {
        assert es[..n][i] == es[i];
      } else {
        assert es[n..][i - n] == es[i];
        ListEntryNotEmpty(es[n..], i - n, s, now);
      }
    }
  }

  lemma LiveStringsCount(s: State, now: nat)
    ensures |LiveStrings(s, now)| <= |s.strings|
  {
    SubsetSize(LiveStrings(s, now), s.strings.Keys);
  }

  lemma ListEntryNotEmpty(es: seq<SnapshotEntry>, i: nat, s: State, now: nat)
    requires ListsLists(es, LiveLists(s, now), s) && i < |es|
    ensures es[i].value.items != []
  {
    assert es[i].key in EntryKeys(es);
  }

  lemma {:induction false} DistinctCount(es: seq<SnapshotEntry>)
    requires DistinctKeys(es)
    ensures |EntryKeys(es)| == |es|
  {
    if es != [] {
      var front, e := es[..|es| - 1], es[|es| - 1];
      DistinctCount(front);
      EntryKeysAppend(front, e);
      assert es == front + [e];
      assert e.key !in EntryKeys(front);
    }
  }

  // ----- what restoring can break -----

  lemma {:induction false} PushAllFrame(s: State, key: string, xs: seq<string>)
    ensures var t := PushAll(s, key, xs);
            && t == s.(lists := t.lists)
            && t.lists - {key} == s.lists - {key}
            && (xs != [] ==> key in t.lists && t.lists[key] != [])
  {
    if xs != [] {
      PushAllFrame(s, key, xs[..|xs| - 1]);
    }
  }

  lemma DeadlineKeepsStores(s: State, key: string, deadline: int)
    requires Has(s, key)
    ensures Consistent(WithDeadline(s, key, deadline)) <==> Consistent(s)
  {
  }

  lemma PushAllConsistentIff(s: State, key: string, xs: seq<string>)
    requires Consistent(s) && xs != []
    ensures Consistent(PushAll(s, key, xs)) <==> key !in s.strings
  {
    hide PushAll;
    PushAllFrame(s, key, xs);
    var t := PushAll(s, key, xs);
    forall k | k != key
      ensures k in t.lists <==> k in s.lists
      ensures k in s.lists ==> t.lists[k] == s.lists[k]
    {
      assert k in t.lists - {key} <==> k in s.lists - {key};
      assert k in s.lists ==> (t.lists - {key})[k] == (s.lists - {key})[k];
    }
  }

  /** Nothing checks the type of the key under a restored list: a list entry restored over a string, and
      nothing else, leaves a key in both stores. */
  lemma RestoreConsistentIff(s: State, e: SnapshotEntry)
    requires Consistent(s) && (e.value.Lst? ==> e.value.items != [])
    ensures Consistent(RestoreEntry(s, e)) <==> !(e.value.Lst? && e.key in s.strings)
  {
    hide Consistent, Set, PushAll, WithDeadline;
    match e.value {
      case Str(text) =>
        SetConsistent(s, e.key, text);
        SetFrame(s, e.key, text);
        DeadlineKeepsStores(Set(s, e.key, text), e.key, e.deadline);
      case Lst(items) =>
        PushAllFrame(s, e.key, items);
        PushAllConsistentIff(s, e.key, items);
        DeadlineKeepsStores(PushAll(s, e.key, items), e.key, e.deadline);
    }
  }

  // ----- what restoring keeps -----

  lemma SetKeepsPointers(s: State, key: string, value: string)
    requires PointerInv(s)
    ensures PointerInv(Set(s, key, value))
  {
    SetDefinedIff(s, key, value);
  }

  lemma DeadlineKeepsPointers(s: State, key: string, deadline: int)
    requires PointerInv(s)
    ensures PointerInv(WithDeadline(s, key, deadline))
  {
    hide PointerInv;
    SameRecencyKeeps(s, WithDeadline(s, key, deadline));
  }

  /** A database whose contents are a live view of `s` is one that the results about runs can start from. */
  lemma LiveCopyKeepsStores(s: State, t: State, now: nat)
    requires StoreInv(s) && Consistent(t) && t.capacity == s.capacity
    requires Contents(t) == Live(Contents(s), now)
    ensures StoreInv(t)
  {
    hide Contents, Consistent;
    forall k: string
      ensures k in t.strings ==> k in s.strings
      ensures k in t.expiry ==> k in s.expiry && t.expiry[k] == s.expiry[k]
    {
      ContentsAt(s, k);
      ContentsAt(t, k);
    }
    SubsetSize(t.strings.Keys, s.strings.Keys);
  }
}
