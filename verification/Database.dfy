/** `class Database` of src/db.cpp. */
module Db {
  import opened Text
  import opened Keyspace

  class Database {
    var stringStore: map<string, string>
    var listStore: map<string, seq<string>>
    var expiry: map<string, int>
    var lruOrder: seq<Node>
    var lruPosition: map<string, nat>
    var nextNode: nat
    var undefined: bool
    const maxCapacity: nat

    constructor (capacity: nat := MAX_CAPACITY)
      ensures Abstraction() == Empty(capacity)
    {
      stringStore, listStore, expiry := map[], map[], map[];
      lruOrder, lruPosition, nextNode := [], map[], 0;
      undefined := false;
      maxCapacity := capacity;
    }

    function Abstraction(): State
      reads this
    {
      State(stringStore, listStore, expiry, lruOrder, lruPosition, nextNode, maxCapacity, undefined)
    }

    /** `lru_order_.erase(it)`. */
    method EraseIterator(id: nat)
      modifies this
      ensures Abstraction() == EraseNode(old(Abstraction()), id)
    {
      var i := NodeIndex(lruOrder, id);
      if i == |lruOrder| {
        undefined := true;
      } else {
        lruOrder := lruOrder[..i] + lruOrder[i + 1..];
      }
    }

    method PushKeyFront(key: string)
      modifies this
      ensures Abstraction() == PushFront(old(Abstraction()), key)
    {
      lruOrder := [Node(nextNode, key)] + lruOrder;
      lruPosition := lruPosition[key := nextNode];
      nextNode := nextNode + 1;
    }

    method MoveToFront(key: string)
      modifies this
      ensures Abstraction() == Touch(old(Abstraction()), key)
    {
      if key in lruPosition {
        EraseIterator(lruPosition[key]);
      } else {
        undefined := true;
      }
      PushKeyFront(key);
    }

    /** Erases `key` from both stores and from the expiry index. */
    method EraseEntry(key: string)
      modifies this
      ensures Abstraction() == Drop(old(Abstraction()), key)
    {
      stringStore := stringStore - {key};
      listStore := listStore - {key};
      expiry := expiry - {key};
    }

    method CheckExpired(now: nat, key: string) returns (expired: bool)
      modifies this
      ensures expired == IsExpired(old(Abstraction()), now, key)
      ensures Abstraction() == Purge(old(Abstraction()), now, key)
    {
      if key !in expiry || now < expiry[key] {
        return false;
      }
      EraseEntry(key);
      if key in lruPosition {
        EraseIterator(lruPosition[key]);
        lruPosition := lruPosition - {key};
      }
      return true;
    }

    method KeyTypeOf(now: nat, key: string) returns (t: KeyType)
      modifies this
      ensures t == TypeOf(old(Abstraction()), now, key)
      ensures Abstraction() == Purge(old(Abstraction()), now, key)
    {
      var expired := CheckExpired(now, key);
      if expired {
        return NoKey;
      }
      if key in stringStore {
        return StringKey;
      }
      if key in listStore {
        return ListKey;
      }
      return NoKey;
    }

    /** The body of the eviction loop of `set`. */
    method EvictBack()
      requires lruOrder != []
      modifies this
      ensures Abstraction() == PopBack(old(Abstraction()))
    {
      var evicted := lruOrder[|lruOrder| - 1].key;
      stringStore := stringStore - {evicted};
      listStore := listStore - {evicted};
      expiry := expiry - {evicted};
      lruPosition := lruPosition - {evicted};
      lruOrder := lruOrder[..|lruOrder| - 1];
    }

    method EvictWhileFull()
      modifies this
      ensures Abstraction() == Evict(old(Abstraction()))
    {
      while |stringStore| + |listStore| >= maxCapacity
        invariant Evict(Abstraction()) == Evict(old(Abstraction()))
        decreases |lruOrder|
      {
        if lruOrder == [] {
          undefined := true;
          break;
        }
        EvictBack();
      }
    }

    method SetString(key: string, value: string)
      modifies this
      ensures Abstraction() == Set(old(Abstraction()), key, value)
    {
      listStore := listStore - {key};
      expiry := expiry - {key};
      assert Abstraction() == SetPrepare(old(Abstraction()), key);
      if key !in stringStore {
        EvictWhileFull();
        PushKeyFront(key);
      } else {
        MoveToFront(key);
      }
      stringStore := stringStore[key := value];
    }

    method GetString(now: nat, key: string) returns (r: Option<string>)
      modifies this
      ensures (Abstraction(), r) == Get(old(Abstraction()), now, key)
    {
      var expired := CheckExpired(now, key);
      if expired || key !in stringStore {
        return None;
      }
      r := Some(stringStore[key]);
      if key in lruPosition {
        MoveToFront(key);
      }
    }

    method Delete(key: string) returns (removed: bool)
      modifies this
      ensures (Abstraction(), removed) == Del(old(Abstraction()), key)
    {
      removed := key in stringStore || key in listStore;
      EraseEntry(key);
    }

    method KeyExists(now: nat, key: string) returns (found: bool)
      modifies this
      ensures (Abstraction(), found) == Exists(old(Abstraction()), now, key)
    {
      var expired := CheckExpired(now, key);
      if expired {
        return false;
      }
      return key in stringStore || key in listStore;
    }

    method PushItem(key: string, value: string, front: bool) returns (n: nat)
      modifies this
      ensures (Abstraction(), n) == Push(old(Abstraction()), key, value, front)
    {
      if key !in listStore {
        listStore := listStore[key := []];
      }
      if front {
        listStore := listStore[key := [value] + listStore[key]];
      } else {
        listStore := listStore[key := listStore[key] + [value]];
      }
      assert listStore == old(listStore)[key := listStore[key]];
      return |listStore[key]|;
    }

    method PopItem(now: nat, key: string, front: bool) returns (r: Option<string>)
      modifies this
      ensures (Abstraction(), r) == Pop(old(Abstraction()), now, key, front)
    {
      var expired := CheckExpired(now, key);
      if expired || key !in listStore || listStore[key] == [] {
        return None;
      }
      var xs := listStore[key];
      if front {
        r := Some(xs[0]);
        xs := xs[1..];
      } else {
        r := Some(xs[|xs| - 1]);
        xs := xs[..|xs| - 1];
      }
      if xs == [] {
        listStore := listStore - {key};
        expiry := expiry - {key};
      } else {
        listStore := listStore[key := xs];
      }
    }

    method ListLength(now: nat, key: string) returns (n: nat)
      modifies this
      ensures (Abstraction(), n) == LLen(old(Abstraction()), now, key)
    {
      var expired := CheckExpired(now, key);
      if expired || key !in listStore {
        return 0;
      }
      return |listStore[key]|;
    }

    method SetTtl(now: nat, later: nat, key: string, ttlMs: int) returns (ok: bool)
      modifies this
      ensures (Abstraction(), ok) == ExpireBetween(old(Abstraction()), now, later, key, ttlMs)
    {
      var expired := CheckExpired(now, key);
      if expired || (key !in stringStore && key !in listStore) {
        return false;
      }
      var deadline := later + ttlMs;
      if !(LLONG_MIN <= deadline <= LLONG_MAX) {
        undefined := true;
      }
      expiry := expiry[key := deadline];
      return true;
    }

    method SetDeadline(key: string, deadline: int)
      modifies this
      ensures Abstraction() == ExpireAt(old(Abstraction()), key, deadline)
    {
      if key in stringStore || key in listStore {
        expiry := expiry[key := deadline];
      }
    }

    method TimeToLive(now: nat, later: nat, key: string) returns (ms: int)
      modifies this
      ensures (Abstraction(), ms) == TtlBetween(old(Abstraction()), now, later, key)
    {
      var expired := CheckExpired(now, key);
      if expired || (key !in stringStore && key !in listStore) {
        return -2;
      }
      if key !in expiry {
        return -1;
      }
      var remaining := expiry[key] - later;
      return if remaining > 0 then remaining else 0;
    }

    /** `evict_expired`: collects the keys first, then erases them. */
    method EvictExpired(now: nat)
      modifies this
      ensures Abstraction() == Sweep(old(Abstraction()), now)
    {
      var toEvict: seq<string>, left := [], expiry.Keys;
      while left != {}
        invariant left <= expiry.Keys
        invariant forall k :: k in toEvict <==> k in expiry && k !in left && now >= expiry[k]
        invariant Abstraction() == old(Abstraction())
        decreases |left|
      {
        var k :| k in left;
        if now >= expiry[k] {
          toEvict := toEvict + [k];
        }
        left := left - {k};
      }
      EraseAll(toEvict);
      assert (set k | k in toEvict) == ExpiredKeys(old(Abstraction()), now);
    }

    method EraseAll(keys: seq<string>)
      modifies this
      ensures Abstraction() == DropAll(old(Abstraction()), set k | k in keys)
    {
      ghost var done: set<string> := {};
      for i := 0 to |keys|
        invariant forall k :: k in done <==> k in keys[..i]
        invariant Abstraction() == DropAll(old(Abstraction()), done)
      {
        DropOneMore(old(Abstraction()), done, keys[i]);
        EraseEntry(keys[i]);
        done := done + {keys[i]};
        assert keys[..i + 1] == keys[..i] + [keys[i]];
      }
      assert keys[..|keys|] == keys;
      assert done == set k | k in keys;
    }

    /** The two passes of `snapshot`, each in whatever order the hash map iterates. */
    method SnapshotStrings(now: nat) returns (es: seq<SnapshotEntry>)
      ensures ListsStrings(es, LiveStrings(Abstraction(), now), Abstraction())
    {
      ghost var s, seen: set<string> := Abstraction(), {};
      es := [];
      var left := stringStore.Keys;
      while left != {}
        invariant left <= stringStore.Keys
        invariant ListsStrings(es, seen, s)
        invariant seen == LiveStrings(s, now) - left
        decreases |left|
      {
        var k :| k in left;
        left := left - {k};
        var deadline := -1;
        if k in expiry {
          if now >= expiry[k] {
            continue;
          }
          deadline := expiry[k];
        }
        ListsStringsAppend(es, seen, s, k);
        seen := seen + {k};
        es := es + [SnapshotEntry(k, Str(stringStore[k]), deadline)];
      }
    }

    method SnapshotLists(now: nat) returns (es: seq<SnapshotEntry>)
      ensures ListsLists(es, LiveLists(Abstraction(), now), Abstraction())
    {
      ghost var s, seen: set<string> := Abstraction(), {};
      es := [];
      var left := listStore.Keys;
      while left != {}
        invariant left <= listStore.Keys
        invariant ListsLists(es, seen, s)
        invariant seen == LiveLists(s, now) - left
        decreases |left|
      {
        var k :| k in left;
        left := left - {k};
        var deadline := -1;
        if k in expiry {
          if now >= expiry[k] {
            continue;
          }
          deadline := expiry[k];
        }
        if listStore[k] == [] {
          continue;
        }
        ListsListsAppend(es, seen, s, k);
        seen := seen + {k};
        es := es + [SnapshotEntry(k, Lst(listStore[k]), deadline)];
      }
    }

    method Snapshot(now: nat) returns (es: seq<SnapshotEntry>)
      ensures IsSnapshot(es, Abstraction(), now)
    {
      var strings := SnapshotStrings(now);
      var lists := SnapshotLists(now);
      es := strings + lists;
      assert es[..|strings|] == strings && es[|strings|..] == lists;
      assert SnapshotSplitAt(es, |strings|, Abstraction(), now);
    }
  }
}
