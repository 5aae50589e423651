/** The full sync: what the leader sends a new replica, and what the replica makes of it. */
module FullSync {
  import opened Text
  import opened Codec
  import opened Keyspace
  import opened Db
  import opened Lru
  import opened Stores
  import opened TimedMap
  import opened Restore
  import opened Wire
  import opened Replica

  // ----- the text -----

  function EntryWords(e: SnapshotEntry): seq<string> {
    match e.value
    case Str(text) => ["REPLSET", Encode(e.key), Encode(text), Show(e.deadline)]
    case Lst(items) => ["REPLLIST", Encode(e.key), Show(e.deadline), Show(|items|)] + EncodedAll(items)
  }

  function EntryLine(e: SnapshotEntry): string {
    Joined(EntryWords(e))
  }

  function EntryLines(es: seq<SnapshotEntry>): (ls: seq<string>)
    ensures |ls| == |es|
  {
    seq(|es|, i requires 0 <= i < |es| => EntryLine(es[i]))
  }

  function SyncLines(es: seq<SnapshotEntry>): (ls: seq<string>)
    ensures |ls| == |es| + 2
  {
    [SYNC_START] + EntryLines(es) + [SYNC_DONE]
  }

  /** `build_full_sync`. */
  function Payload(es: seq<SnapshotEntry>): string {
    Stream(SyncLines(es))
  }

  // ----- one entry on the wire -----

  /** Tokens that come through: not empty, no tab, vertical tab or form feed. */
  predicate CleanEntry(e: SnapshotEntry) {
    && CleanToken(e.key)
    && match e.value
       case Str(text) => CleanToken(text)
       case Lst(items) => CleanItems(items)
  }

  predicate CleanItems(xs: seq<string>) {
    forall i :: 0 <= i < |xs| ==> CleanToken(xs[i])
  }

  /** What the format can carry: clean tokens, deadlines of 64 bits, token counts of an int. */
  predicate Sendable(e: SnapshotEntry) {
    && CleanEntry(e)
    && LLONG_MIN <= e.deadline <= LLONG_MAX
    && (e.value.Lst? ==> 0 < |e.value.items| <= INT_MAX - 4)
  }

  lemma ShowWord(n: int)
    ensures Word(Show(n)) && '\r' !in Show(n)
  {
    var s := Show(n);
    assert forall i :: 0 <= i < |s| ==> IsDigit(s[i]) || s[i] == '-';
  }

  lemma EntryWordsIff(e: SnapshotEntry)
    ensures (forall k :: 0 <= k < |EntryWords(e)| ==> Word(EntryWords(e)[k])) <==> CleanEntry(e)
  {
    hide CleanToken, Show, Encode, Word;
    var ws := EntryWords(e);
    assert Word("REPLSET") && Word("REPLLIST") by { NamesAreWords(); }
    EncodedWordIff(e.key);
    ShowWord(e.deadline);
    match e.value {
      case Str(text) =>
        EncodedWordIff(text);
        assert ws[1] == Encode(e.key) && ws[2] == Encode(text);
      case Lst(items) =>
        ShowWord(|items|);
        assert ws[1] == Encode(e.key);
        forall i | 0 <= i < |items|
          ensures ws[4 + i] == Encode(items[i]) && (Word(ws[4 + i]) <==> CleanToken(items[i]))
        {
          EncodedWordIff(items[i]);
        }
        assert forall k :: 4 <= k < |ws| ==> ws[k] == Encode(items[k - 4]);
    }
  }

  lemma NamesAreWords()
    ensures Word("REPLSET") && Word("REPLLIST")
  {
  }

  /** A record's line splits back into its words exactly when every token is clean. */
  lemma EntryTokensIff(e: SnapshotEntry)
    ensures Tokens(EntryLine(e)) == EntryWords(e) <==> CleanEntry(e)
  {
    hide Joined, TokensFrom, Word, EntryWords, CleanEntry;
    EntryWordsIff(e);
    if CleanEntry(e) {
      TokensOfJoined("", EntryWords(e));
      assert "" + Joined(EntryWords(e)) == Joined(EntryWords(e));
    }
  }

  lemma EntryLineCrFree(e: SnapshotEntry)
    ensures '\r' !in EntryLine(e)
  {
    hide Show, Encode, Joined;
    var ws := EntryWords(e);
    EncodeSeparatorFree(e.key);
    ShowWord(e.deadline);
    match e.value {
      case Str(text) => EncodeSeparatorFree(text);
      case Lst(items) =>
        ShowWord(|items|);
        forall i | 0 <= i < |items| { EncodeSeparatorFree(items[i]); }
    }
    JoinedCrFree(ws);
  }

  lemma {:induction false} PushDecodedEncoded(s: State, key: string, items: seq<string>, n: nat)
    requires n <= |items|
    ensures PushDecoded(s, key, EncodedAll(items), n) == (PushAll(s, key, items[..n]), true)
  {
    hide Push, Decode, Encode;
    if n > 0 {
      PushDecodedEncoded(s, key, items, n - 1);
      DecodeEncode(items[n - 1]);
      assert items[..n][..n - 1] == items[..n - 1];
    }
  }

  lemma ApplyListWords(s: State, e: SnapshotEntry)
    requires Sendable(e) && e.value.Lst?
    ensures ApplyReplList(s, EntryWords(e)) == RestoreEntry(Drop(s, e.key), e)
  {
    hide Encode, Decode, Show, Stoi, Stoll, PushAll, PushDecoded, Drop, ExpireAt, CleanToken;
    var ts, items := EntryWords(e), e.value.items;
    DecodeEncode(e.key);
    ShowParses(e.deadline);
    ShowParses(|items|);
    assert ts[4..] == EncodedAll(items);
    PushDecodedEncoded(Drop(s, e.key), e.key, items, |items|);
    assert items[..|items|] == items;
  }

  lemma ApplySetWords(s: State, e: SnapshotEntry)
    requires Sendable(e) && e.value.Str?
    ensures ApplyReplSet(s, EntryWords(e)) == RestoreEntry(s, e)
  {
    hide Encode, Decode, Show, Stoll, Set, ExpireAt, CleanToken;
    DecodeEncode(e.key);
    DecodeEncode(e.value.text);
    ShowParses(e.deadline);
  }

  /** The words of a list record with any announced count. */
  function ListWords(key: string, deadline: int, count: int, tokens: seq<string>): seq<string> {
    ["REPLLIST", Encode(key), Show(deadline), Show(count)] + tokens
  }

  /** A list record restores as many of its elements as it announces and holds. */
  lemma ListRecordTakes(s: State, key: string, deadline: int, count: int, items: seq<string>)
    requires LLONG_MIN <= deadline <= LLONG_MAX && INT_MIN <= count <= INT_MAX
    ensures var n := if count < 0 then 0 else if count < |items| then count else |items|;
            ApplyReplList(s, ListWords(key, deadline, count, EncodedAll(items))) ==
            WithDeadline(PushAll(Drop(s, key), key, items[..n]), key, deadline)
  {
    hide Encode, Decode, Show, Stoi, Stoll, PushAll, PushDecoded, Drop, ExpireAt;
    var ts := ListWords(key, deadline, count, EncodedAll(items));
    DecodeEncode(key);
    ShowParses(deadline);
    ShowParses(count);
    assert ts[4..] == EncodedAll(items);
    PushDecodedEncoded(Drop(s, key), key, items, ItemCount(count, ts));
  }

  lemma {:induction false} PushDecodedStops(s: State, key: string, good: seq<string>, bad: string, more: seq<string>, n: nat)
    requires Decode(bad) == None && |good| < n <= |good| + 1 + |more|
    ensures PushDecoded(s, key, EncodedAll(good) + [bad] + more, n) == (PushAll(s, key, good), false)
    decreases n
  {
    hide Push, Decode, Encode, PushAll;
    var ts := EncodedAll(good) + [bad] + more;
    if n > |good| + 1 {
      PushDecodedStops(s, key, good, bad, more, n - 1);
    } else {
      PushDecodedSame(s, key, ts, EncodedAll(good), |good|);
      PushDecodedEncoded(s, key, good, |good|);
      assert good[..|good|] == good;
      assert ts[n - 1] == bad;
    }
  }

  lemma {:induction false} PushDecodedSame(s: State, key: string, a: seq<string>, b: seq<string>, n: nat)
    requires n <= |a| && n <= |b| && forall i :: 0 <= i < n ==> a[i] == b[i]
    ensures PushDecoded(s, key, a, n) == PushDecoded(s, key, b, n)
  {
    hide Push, Decode;
    if n > 0 {
      PushDecodedSame(s, key, a, b, n - 1);
    }
  }

  /** At an element that does not decode it stops: the elements before it stay, and the deadline is not set. */
  lemma ListRecordStops(s: State, key: string, deadline: int, count: int, good: seq<string>, bad: string, more: seq<string>)
    requires LLONG_MIN <= deadline <= LLONG_MAX && |good| < count <= INT_MAX && Decode(bad) == None
    ensures ApplyReplList(s, ListWords(key, deadline, count, EncodedAll(good) + [bad] + more)) ==
            PushAll(Drop(s, key), key, good)
  {
    hide Encode, Decode, Show, Stoi, Stoll, PushAll, PushDecoded, Drop, ExpireAt;
    var tokens := EncodedAll(good) + [bad] + more;
    var ts := ListWords(key, deadline, count, tokens);
    DecodeEncode(key);
    ShowParses(deadline);
    ShowParses(count);
    assert ts[4..] == tokens;
    PushDecodedStops(Drop(s, key), key, good, bad, more, ItemCount(count, ts));
  }

  lemma UpperPlain(s: string)
    requires forall i :: 0 <= i < |s| ==> !('a' <= s[i] <= 'z')
    ensures Upper(s) == s
  {
  }

  /** The replica restores exactly the entry that the line was printed from. */
  lemma ApplyEntryLine(f: Follower, now: nat, e: SnapshotEntry)
    requires Sendable(e)
    ensures ApplyLine(f, now, EntryLine(e)) ==
            f.(db := RestoreEntry(if e.value.Str? then f.db else Drop(f.db, e.key), e))
  {
    hide EntryLine, CleanEntry, RestoreEntry, Drop, ApplyReplSet, ApplyReplList, Tokens;
    EntryLineShape(e);
    EntryTokensIff(e);
    UpperPlain("REPLSET");
    UpperPlain("REPLLIST");
    if e.value.Str? {
      ApplySetWords(f.db, e);
    } else {
      ApplyListWords(f.db, e);
    }
  }

  lemma EntryLineShape(e: SnapshotEntry)
    ensures EntryLine(e) != "" && EntryLine(e)[0] == 'R'
  {
    hide Encode, Show;
    assert EntryWords(e)[0][0] == 'R';
  }

  // ----- the whole sync -----

  lemma DropAbsent(s: State, key: string)
    requires Consistent(s) && key !in Contents(s)
    ensures Drop(s, key) == s
  {
    hide Contents;
    ContentsAt(s, key);
    assert s.strings - {key} == s.strings && s.lists - {key} == s.lists && s.expiry - {key} == s.expiry;
  }

  /** A replica that has restored `es[..i]` exactly. */
  predicate Restored(s: State, es: seq<SnapshotEntry>, i: nat)
    requires i <= |es|
  {
    Consistent(s) && Contents(s) == EntriesMap(es[..i]) && Restorable(es, s.capacity)
  }

  lemma ApplyNextEntry(f: Follower, now: nat, es: seq<SnapshotEntry>, i: nat)
    requires i < |es| && Restored(f.db, es, i) && Sendable(es[i])
    ensures var g := ApplyLine(f, now, EntryLine(es[i]));
            && Restored(g.db, es, i + 1) && g.syncing == f.syncing
            && g.db == RestoreEntry(f.db, es[i])
            && g.db.capacity == f.db.capacity && g.db.undefined == f.db.undefined
  {
    hide Contents, Consistent, Sendable, ApplyLine, EntryLine, RestoreEntry, Drop;
    var front, e := es[..i], es[i];
    EntriesMapAt(front);
    EntriesMapSize(front);
    NotBefore(es, i);
    DropAbsent(f.db, e.key);
    ApplyEntryLine(f, now, e);
    RestoreEntryContents(f.db, e);
    assert es[..i + 1][..i] == front;
  }

  lemma NotBefore(es: seq<SnapshotEntry>, i: nat)
    requires i < |es| && DistinctKeys(es)
    ensures es[i].key !in EntryKeys(es[..i]) && DistinctKeys(es[..i])
  {
  }

  lemma ApplyMarkers(f: Follower, now: nat)
    ensures ApplyLine(f, now, SYNC_START) == f.(syncing := true)
    ensures ApplyLine(f, now, SYNC_DONE) == f.(syncing := false)
  {
  }

  lemma SyncLinesSteps(es: seq<SnapshotEntry>)
    ensures SyncLines(es)[..1] == [] + [SYNC_START]
    ensures forall i :: 0 < i <= |es| ==> SyncLines(es)[..i + 1] == SyncLines(es)[..i] + [EntryLine(es[i - 1])]
    ensures SyncLines(es) == SyncLines(es)[..|es| + 1] + [SYNC_DONE]
  {
    hide EntryLine;
  }

  lemma {:induction false} ApplySyncPrefix(s: State, now: nat, es: seq<SnapshotEntry>, i: nat)
    requires Consistent(s) && Contents(s) == map[] && Restorable(es, s.capacity)
    requires i <= |es| && forall k :: 0 <= k < |es| ==> Sendable(es[k])
    ensures var f := ApplyLines(Follower(s, false), now, SyncLines(es)[..i + 1]);
            && Restored(f.db, es, i) && f.syncing
            && f.db.capacity == s.capacity && f.db.undefined == s.undefined
    decreases i
  {
    hide Contents, Consistent, Restorable, Sendable, ApplyLine, ApplyLines, EntryLine, SyncLines;
    var ls := SyncLines(es);
    SyncLinesSteps(es);
    if i == 0 {
      AppliedOne(Follower(s, false), now, [], SYNC_START);
      ApplyNone(Follower(s, false), now);
      ApplyMarkers(Follower(s, false), now);
    } else {
      ApplySyncPrefix(s, now, es, i - 1);
      AppliedOne(Follower(s, false), now, ls[..i], EntryLine(es[i - 1]));
      ApplyNextEntry(ApplyLines(Follower(s, false), now, ls[..i]), now, es, i - 1);
    }
  }

  /** A whole sync, applied by an empty replica. */
  lemma ApplySync(capacity: nat, now: nat, es: seq<SnapshotEntry>)
    requires Restorable(es, capacity) && forall k :: 0 <= k < |es| ==> Sendable(es[k])
    ensures var f := ApplyLines(Follower(Empty(capacity), false), now, SyncLines(es));
            && Contents(f.db) == EntriesMap(es) && Consistent(f.db) && PointerInv(f.db)
            && f.db.capacity == capacity && !f.db.undefined && !f.syncing
  {
    var f, ls := Follower(Empty(capacity), false), SyncLines(es);
    assert Contents(f.db) == map[] && Consistent(f.db) && PointerInv(f.db);
    hide Contents, Consistent, PointerInv, Restorable, Sendable, ApplyLine, ApplyLines, SyncLines;
    ApplySyncPrefix(f.db, now, es, |es|);
    SyncLinesSteps(es);
    AppliedOne(f, now, ls[..|es| + 1], SYNC_DONE);
    ApplyMarkers(ApplyLines(f, now, ls[..|es| + 1]), now);
    ApplyLinesKeepPointers(f, now, ls);
    assert es[..|es|] == es;
  }

  lemma SyncLinesAreLines(es: seq<SnapshotEntry>)
    ensures forall k :: 0 <= k < |SyncLines(es)| ==> '\r' !in SyncLines(es)[k]
  {
    hide EntryLine;
    forall e: SnapshotEntry { EntryLineCrFree(e); }
  }

  lemma CrFreeIsLine(line: string)
    requires '\r' !in line
    ensures IsLine(line)
  {
    FindCrlfAfter(line, "");
    assert line + CRLF + "" == line + CRLF;
  }

  /** What a leader must satisfy beyond the invariants of every run for its full sync to be exact. */
  predicate Syncable(s: State) {
    && StoreInv(s)
    && (forall k :: k in s.strings ==> CleanToken(k) && CleanToken(s.strings[k]))
    && (forall k :: k in s.lists ==> CleanToken(k) && CleanItems(s.lists[k]) && |s.lists[k]| <= INT_MAX - 4)
  }

  lemma SnapshotSendable(es: seq<SnapshotEntry>, s: State, now: nat)
    requires Syncable(s) && IsSnapshot(es, s, now)
    ensures forall i :: 0 <= i < |es| ==> Sendable(es[i])
  {
    hide LiveStrings, LiveLists, EntryKeys, DistinctKeys, CleanToken;
    var n :| SnapshotSplitAt(es, n, s, now);
    forall i | 0 <= i < |es|
      ensures Sendable(es[i])
    {
      if i < n {
        assert es[..n][i] == es[i];
      } else {
        assert es[n..][i - n] == es[i];
      }
    }
  }

  lemma SplitSync(es: seq<SnapshotEntry>)
    ensures SplitLines(Payload(es)) == Split(SyncLines(es), "")
  {
    hide SyncLines, IsLine, SplitLines, Stream;
    var ls := SyncLines(es);
    SyncLinesAreLines(es);
    forall k | 0 <= k < |ls| { CrFreeIsLine(ls[k]); }
    SplitUnique(ls, "");
    assert Stream(ls) + "" == Stream(ls);
  }

  /** A full sync onto an empty replica, whatever order the snapshot came in: the bytes split into the
      lines that were sent, nothing is left over, and applying them gives the leader's live keys, values,
      list orders and absolute deadlines, at the time of the snapshot and ever after. The replica then
      meets the invariants that the results about runs start from. */
  lemma FullSyncRoundTrip(s: State, es: seq<SnapshotEntry>, taken: nat, now: nat, later: nat)
    requires Syncable(s) && IsSnapshot(es, s, taken) && taken <= later
    ensures SplitLines(Payload(es)) == Split(SyncLines(es), "")
    ensures var f := ApplyLines(Follower(Empty(s.capacity), false), now, SplitLines(Payload(es)).lines);
            && Contents(f.db) == Live(Contents(s), taken)
            && Live(Contents(f.db), later) == Live(Contents(s), later)
            && !f.syncing && !f.db.undefined && StoreInv(f.db) && PointerInv(f.db)
  {
    hide Contents, Consistent, PointerInv, Live, Sendable, Restorable, SyncLines, ApplyLines, Payload, SplitLines,
      EntriesMap;
    SnapshotRestorable(es, s, taken);
    SnapshotSendable(es, s, taken);
    SnapshotIsLive(es, s, taken);
    LiveLater(Contents(s), taken, later);
    SplitSync(es);
    ApplySync(s.capacity, now, es);
    var f := ApplyLines(Follower(Empty(s.capacity), false), now, SyncLines(es));
    LiveCopyKeepsStores(s, f.db, taken);
  }

  // ----- the program's loop -----

  /** `build_full_sync`. */
  method BuildFullSync(db: Database, now: nat) returns (payload: string, es: seq<SnapshotEntry>)
    ensures IsSnapshot(es, db.Abstraction(), now) && payload == Payload(es)
  {
    hide Encode, Joined, Stream, Show, EntryLine;
    es := db.Snapshot(now);
    ghost var lines := [SYNC_START];
    payload := SYNC_START + CRLF;
    StreamOne(SYNC_START);
    for i := 0 to |es|
      invariant lines == [SYNC_START] + EntryLines(es)[..i]
      invariant payload == Stream(lines)
    {
      var line := PrintEntry(es[i]);
      payload := payload + (line + CRLF);
      StreamAppend(lines, [line]);
      StreamOne(line);
      lines := lines + [line];
    }
    payload := payload + (SYNC_DONE + CRLF);
    StreamAppend(lines, [SYNC_DONE]);
    StreamOne(SYNC_DONE);
    assert lines + [SYNC_DONE] == SyncLines(es);
  }

  method PrintEntry(e: SnapshotEntry) returns (line: string)
    ensures line == EntryLine(e)
  {
    hide Encode, Show;
    var key := PercentEncode(e.key);
    match e.value {
      case Str(text) =>
        var value := PercentEncode(text);
        line := "REPLSET" + (" " + (key + (" " + (value + (" " + Show(e.deadline))))));
        JoinedFour("REPLSET", key, value, Show(e.deadline));
      case Lst(items) =>
        line := "REPLLIST" + (" " + (key + (" " + (Show(e.deadline) + (" " + Show(|items|))))));
        ghost var words := ["REPLLIST", key, Show(e.deadline), Show(|items|)];
        JoinedFour("REPLLIST", key, Show(e.deadline), Show(|items|));
        hide Joined;
        for i := 0 to |items|
          invariant |words| == 4 + i && words == EntryWords(e)[..4 + i]
          invariant line == Joined(words)
        {
          var item := PercentEncode(items[i]);
          JoinedSnoc(words, item);
          line := line + (" " + item);
          words := words + [item];
        }
        assert words == EntryWords(e);
    }
  }

  lemma JoinedFour(a: string, b: string, c: string, d: string)
    ensures Joined([a, b, c, d]) == a + (" " + (b + (" " + (c + (" " + d)))))
  {
    assert [a, b, c, d][1..] == [b, c, d] && [b, c, d][1..] == [c, d] && [c, d][1..] == [d];
    assert Joined([c, d]) == c + (" " + d);
    assert Joined([b, c, d]) == b + (" " + Joined([c, d]));
  }
}
