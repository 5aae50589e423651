/** The replica's side of src/replication.cpp: applying the lines of the leader's stream. */
module Replica {
  import opened Text
  import opened Codec
  import opened Keyspace
  import opened Db
  import opened Lru
  import opened Stores
  import opened Restore
  import opened Wire

  const SYNC_START: string := "+FULLSYNC"
  const SYNC_DONE: string := "+FULLSYNCDONE"

  /** The replica's database and whether it is inside a full sync. */
  datatype Follower = Follower(db: State, syncing: bool)

  function ApplyReplSet(s: State, ts: seq<string>): State
    requires |ts| >= 4
  {
    var key, value, deadline := Decode(ts[1]), Decode(ts[2]), Stoll(ts[3]);
    if key == None || value == None || deadline == None then s
    else WithDeadline(Set(s, key.value, value.value), key.value, deadline.value)
  }

  /** Pushes the first `n` tokens; stops at one that does not decode. */
  function PushDecoded(s: State, key: string, ts: seq<string>, n: nat): (State, bool)
    requires n <= |ts|
  {
    if n == 0 then (s, true)
    else
      var r, item := PushDecoded(s, key, ts, n - 1), Decode(ts[n - 1]);
      if !r.1 || item == None then (r.0, false) else (Push(r.0, key, item.value, false).0, true)
  }

  function ItemCount(count: int, ts: seq<string>): nat
    requires |ts| >= 4
  {
    if count <= 0 then 0 else if count <= |ts| - 4 then count else |ts| - 4
  }

  function ApplyReplList(s: State, ts: seq<string>): State
    requires |ts| >= 4
  {
    var key, deadline, count := Decode(ts[1]), Stoll(ts[2]), Stoi(ts[3]);
    if key == None || deadline == None || count == None then s
    else
      var r := PushDecoded(Drop(s, key.value), key.value, ts[4..], ItemCount(count.value, ts));
      if r.1 then WithDeadline(r.0, key.value, deadline.value) else r.0
  }

  function ApplyExpire(s: State, now: nat, key: string, seconds: string): State {
    var n := Stoll(seconds);
    if n == None then s
    else
      var ms := n.value * 1000;
      Expire(s.(undefined := s.undefined || !(LLONG_MIN <= ms <= LLONG_MAX)), now, key, ms).0
  }

  /** A propagated write command, applied without the leader's type and arity checks. */
  function ApplyLive(s: State, now: nat, name: string, args: seq<string>): State {
    var n := |args|;
    if name == "SET" && n >= 3 then Set(s, args[1], args[2])
    else if name == "DEL" && n >= 2 then Del(s, args[1]).0
    else if name == "EXPIRE" && n >= 3 then ApplyExpire(s, now, args[1], args[2])
    else if name == "LPUSH" && n >= 3 then Push(s, args[1], args[2], true).0
    else if name == "RPUSH" && n >= 3 then Push(s, args[1], args[2], false).0
    else if name == "LPOP" && n >= 2 then Pop(s, now, args[1], true).0
    else if name == "RPOP" && n >= 2 then Pop(s, now, args[1], false).0
    else s
  }

  function ApplyTokens(s: State, now: nat, ts: seq<string>): State
    requires ts != []
  {
    var name := Upper(ts[0]);
    if name == "REPLSET" then (if |ts| < 4 then s else ApplyReplSet(s, ts))
    else if name == "REPLLIST" then (if |ts| < 4 then s else ApplyReplList(s, ts))
    else ApplyLive(s, now, name, Decoded(ts))
  }

  /** `apply_leader_line`. */
  function ApplyLine(f: Follower, now: nat, line: string): Follower {
    if line == "" then f
    else if line == SYNC_START then f.(syncing := true)
    else if line == SYNC_DONE then f.(syncing := false)
    else if Tokens(line) == [] then f
    else f.(db := ApplyTokens(f.db, now, Tokens(line)))
  }

  function ApplyLines(f: Follower, now: nat, lines: seq<string>): Follower {
    if lines == [] then f else ApplyLine(ApplyLines(f, now, lines[..|lines| - 1]), now, lines[|lines| - 1])
  }

  lemma {:induction false} ApplyLinesAppend(f: Follower, now: nat, a: seq<string>, b: seq<string>)
    ensures ApplyLines(f, now, a + b) == ApplyLines(ApplyLines(f, now, a), now, b)
  {
    hide ApplyLine;
    if b == [] {
      assert a + b == a;
    } else {
      ApplyLinesAppend(f, now, a, b[..|b| - 1]);
      assert (a + b)[..|a + b| - 1] == a + b[..|b| - 1];
    }
  }

  lemma ApplyNone(f: Follower, now: nat)
    ensures ApplyLines(f, now, []) == f
  {
  }

  lemma AppliedOne(f: Follower, now: nat, done: seq<string>, line: string)
    ensures ApplyLines(f, now, done + [line]) == ApplyLine(ApplyLines(f, now, done), now, line)
    ensures line == "" ==> ApplyLines(f, now, done + [line]) == ApplyLines(f, now, done)
  {
    assert (done + [line])[..|done|] == done;
  }

  /** One read: the chunk is appended to the buffer, the complete lines are applied, the rest is kept. */
  function ReadOnce(f: Follower, input: string, now: nat, chunk: string): (Follower, string) {
    var s := SplitLines(input + chunk);
    (ApplyLines(f, now, s.lines), s.rest)
  }

  datatype Read = Read(now: nat, chunk: string)

  /** A run of reads, each with its own clock. */
  function ReadAll(f: Follower, input: string, rs: seq<Read>): (Follower, string)
    decreases |rs|
  {
    if rs == [] then (f, input)
    else
      var r := ReadOnce(f, input, rs[0].now, rs[0].chunk);
      ReadAll(r.0, r.1, rs[1..])
  }

  function Bytes(rs: seq<Read>): string {
    if rs == [] then "" else rs[0].chunk + Bytes(rs[1..])
  }

  /** A line with the time of the read that completed it. */
  datatype Stamped = Stamped(now: nat, line: string)

  function Stamp(now: nat, lines: seq<string>): (st: seq<Stamped>)
    ensures |st| == |lines|
  {
    seq(|lines|, i requires 0 <= i < |lines| => Stamped(now, lines[i]))
  }

  function LinesRead(input: string, rs: seq<Read>): seq<Stamped>
    decreases |rs|
  {
    if rs == [] then []
    else
      var s := SplitLines(input + rs[0].chunk);
      Stamp(rs[0].now, s.lines) + LinesRead(s.rest, rs[1..])
  }

  function Lines(st: seq<Stamped>): (ls: seq<string>)
    ensures |ls| == |st|
  {
    seq(|st|, i requires 0 <= i < |st| => st[i].line)
  }

  function ApplyStamped(f: Follower, st: seq<Stamped>): Follower {
    if st == [] then f else ApplyLine(ApplyStamped(f, st[..|st| - 1]), st[|st| - 1].now, st[|st| - 1].line)
  }

  lemma {:induction false} ApplyStampedAppend(f: Follower, a: seq<Stamped>, b: seq<Stamped>)
    ensures ApplyStamped(f, a + b) == ApplyStamped(ApplyStamped(f, a), b)
  {
    hide ApplyLine;
    if b == [] {
      assert a + b == a;
    } else {
      ApplyStampedAppend(f, a, b[..|b| - 1]);
      assert (a + b)[..|a + b| - 1] == a + b[..|b| - 1];
    }
  }

  lemma {:induction false} ApplyStamp(f: Follower, now: nat, lines: seq<string>)
    ensures ApplyStamped(f, Stamp(now, lines)) == ApplyLines(f, now, lines)
  {
    hide ApplyLine;
    if lines != [] {
      ApplyStamp(f, now, lines[..|lines| - 1]);
      assert Stamp(now, lines)[..|lines| - 1] == Stamp(now, lines[..|lines| - 1]);
    }
  }

  lemma LinesAppend(now: nat, lines: seq<string>, later: seq<Stamped>)
    ensures Lines(Stamp(now, lines) + later) == lines + Lines(later)
  {
  }

  /** However a stream is cut into reads, even inside a CRLF and whenever they happen: exactly its complete lines
      are applied, in order, each at the time of the read that completed it, and exactly the bytes after its
      last CRLF are kept. */
  lemma {:induction false} ChunkedReads(f: Follower, input: string, rs: seq<Read>)
    requires FindCrlf(input) == |input|
    ensures var s, st := SplitLines(input + Bytes(rs)), LinesRead(input, rs);
            Lines(st) == s.lines && ReadAll(f, input, rs) == (ApplyStamped(f, st), s.rest)
    decreases |rs|
  {
    hide FindCrlf, SplitLines, ApplyLines, ApplyStamped, Stamp, Lines;
    if rs == [] {
      assert input + "" == input;
      SplitNone(input);
      NoLines(f);
    } else {
      var now, b, x := rs[0].now, input + rs[0].chunk, Bytes(rs[1..]);
      var p := SplitLines(b);
      var later := LinesRead(p.rest, rs[1..]);
      SplitSound(b);
      SplitAppend(b, x);
      ConcatAssoc(input, rs[0].chunk, x);
      ChunkedReads(ApplyLines(f, now, p.lines), p.rest, rs[1..]);
      ApplyStamp(f, now, p.lines);
      ApplyStampedAppend(f, Stamp(now, p.lines), later);
      LinesAppend(now, p.lines, later);
    }
  }

  lemma NoLines(f: Follower)
    ensures Lines([]) == [] && ApplyStamped(f, []) == f
  {
  }

  /** One turn of the line loop: either no CRLF is left, or the next line comes off. */
  lemma ReadStep(b: string, pos: nat, done: seq<string>)
    requires pos <= |b|
    ensures var crlf, p := FindCrlfFrom(b, pos), SplitLines(b[pos..]);
            if crlf == |b| then p == Split([], b[pos..])
            else
              crlf + 2 <= |b| &&
              var q := SplitLines(b[crlf + 2..]);
              p.rest == q.rest && done + p.lines == (done + [b[pos..crlf]]) + q.lines
  {
    hide FindCrlf, FindCrlfFrom, SplitLines;
    FindCrlfShift(b, pos);
    var crlf, t := FindCrlfFrom(b, pos), b[pos..];
    if crlf == |b| {
      SplitNone(t);
    } else {
      SplitStep(t);
      assert CrlfAt(b, crlf);
      assert t[..crlf - pos] == b[pos..crlf] && t[crlf - pos + 2..] == b[crlf + 2..];
      var q := SplitLines(b[crlf + 2..]);
      assert done + ([b[pos..crlf]] + q.lines) == (done + [b[pos..crlf]]) + q.lines;
    }
  }

  // ----- the store invariant on a replica -----

  lemma {:induction false} PushDecodedFrame(s: State, key: string, ts: seq<string>, n: nat)
    requires n <= |ts| && Consistent(s) && key !in s.strings
    ensures var t := PushDecoded(s, key, ts, n).0; Consistent(t) && t == s.(lists := t.lists)
  {
    hide Consistent, Push, Decode;
    if n > 0 {
      PushDecodedFrame(s, key, ts, n - 1);
      var r, item := PushDecoded(s, key, ts, n - 1), Decode(ts[n - 1]);
      if r.1 && item.Some? {
        PushConsistent(r.0, key, item.value, false);
      }
    }
  }

  /** A list record deletes its key first. */
  lemma ReplListConsistent(s: State, ts: seq<string>)
    requires |ts| >= 4 && Consistent(s)
    ensures Consistent(ApplyReplList(s, ts))
  {
    hide Consistent, Decode, Stoi, Stoll, PushDecoded;
    var key, deadline, count := Decode(ts[1]), Stoll(ts[2]), Stoi(ts[3]);
    if key.Some? && deadline.Some? && count.Some? {
      var d := Drop(s, key.value);
      DropKeepsConsistent(s, key.value);
      PushDecodedFrame(d, key.value, ts[4..], ItemCount(count.value, ts));
      DeadlineKeepsConsistent(PushDecoded(d, key.value, ts[4..], ItemCount(count.value, ts)).0, key.value, deadline.value);
    }
  }

  lemma DropKeepsConsistent(s: State, key: string)
    requires Consistent(s)
    ensures Consistent(Drop(s, key)) && key !in Drop(s, key).strings
  {
  }

  lemma DeadlineKeepsConsistent(s: State, key: string, deadline: int)
    requires Consistent(s)
    ensures Consistent(WithDeadline(s, key, deadline))
  {
  }

  lemma ReplSetConsistent(s: State, ts: seq<string>)
    requires |ts| >= 4 && Consistent(s)
    ensures Consistent(ApplyReplSet(s, ts))
  {
    hide Consistent, Decode, Stoll, Set, WithDeadline;
    var key, value, deadline := Decode(ts[1]), Decode(ts[2]), Stoll(ts[3]);
    if key.Some? && value.Some? && deadline.Some? {
      SetConsistent(s, key.value, value.value);
      DeadlineKeepsConsistent(Set(s, key.value, value.value), key.value, deadline.value);
    }
  }

  predicate PushName(name: string) {
    name == "LPUSH" || name == "RPUSH"
  }

  lemma PushConsistentIff(s: State, key: string, value: string, front: bool)
    requires Consistent(s)
    ensures Consistent(Push(s, key, value, front).0) <==> key !in s.strings
  {
    if key !in s.strings {
      PushConsistent(s, key, value, front);
    } else {
      assert key in Push(s, key, value, front).0.lists;
    }
  }

  lemma LiveConsistentIff(s: State, now: nat, name: string, args: seq<string>)
    requires Consistent(s)
    ensures Consistent(ApplyLive(s, now, name, args)) <==> !(PushName(name) && |args| >= 3 && args[1] in s.strings)
  {
    hide Consistent, Set, Push, Pop, Expire, Stoll;
    var n := |args|;
    if name == "SET" && n >= 3 {
      SetConsistent(s, args[1], args[2]);
    } else if name == "DEL" && n >= 2 {
      DropKeepsConsistent(s, args[1]);
    } else if name == "EXPIRE" && n >= 3 {
      ApplyExpireConsistent(s, now, args[1], args[2]);
    } else if PushName(name) && n >= 3 {
      PushConsistentIff(s, args[1], args[2], name == "LPUSH");
    } else if name == "LPOP" && n >= 2 {
      PopConsistent(s, now, args[1], true);
    } else if name == "RPOP" && n >= 2 {
      PopConsistent(s, now, args[1], false);
    }
  }

  lemma ApplyExpireConsistent(s: State, now: nat, key: string, seconds: string)
    requires Consistent(s)
    ensures Consistent(ApplyExpire(s, now, key, seconds))
  {
    hide Expire, Stoll;
    var n := Stoll(seconds);
    if n.Some? {
      var ms := n.value * 1000;
      ExpireConsistent(s.(undefined := s.undefined || !(LLONG_MIN <= ms <= LLONG_MAX)), now, key, ms);
    }
  }

  /** A propagated LPUSH or RPUSH of three words or more whose key is a string on the replica. */
  predicate PushesOnString(s: State, line: string) {
    var ts := Tokens(line);
    |ts| >= 3 && PushName(Upper(ts[0])) && DecodeOr(ts[1]) in s.strings
  }

  lemma MarkersPushNothing(s: State)
    ensures !PushesOnString(s, "") && !PushesOnString(s, SYNC_START) && !PushesOnString(s, SYNC_DONE)
  {
    TokensOfJoined("", []);
    TokensOfJoined("", [SYNC_START]);
    TokensOfJoined("", [SYNC_DONE]);
    assert "" + SYNC_START == SYNC_START && "" + SYNC_DONE == SYNC_DONE && "" + "" == "";
  }

  /** The replica checks no types: a line, whatever it holds, leaves a key in both stores exactly when it
      is such a push. Full-sync records cannot do that. */
  lemma ApplyConsistentIff(f: Follower, now: nat, line: string)
    requires Consistent(f.db)
    ensures Consistent(ApplyLine(f, now, line).db) <==> !PushesOnString(f.db, line)
  {
    hide Consistent, Tokens, DecodeOr, ApplyLive, ApplyReplSet, ApplyReplList, Upper;
    var ts := Tokens(line);
    if line == "" || line == SYNC_START || line == SYNC_DONE {
      MarkersPushNothing(f.db);
    } else if ts != [] {
      assert |ts| >= 2 ==> Decoded(ts)[1] == DecodeOr(ts[1]);
      if |ts| >= 4 {
        ReplSetConsistent(f.db, ts);
        ReplListConsistent(f.db, ts);
      }
      LiveConsistentIff(f.db, now, Upper(ts[0]), Decoded(ts));
    }
  }

  // ----- the pointers on a replica -----

  lemma {:induction false} PushDecodedRecency(s: State, key: string, ts: seq<string>, n: nat)
    requires n <= |ts|
    ensures var t := PushDecoded(s, key, ts, n).0; t == s.(lists := t.lists)
  {
    hide Decode;
    if n > 0 {
      PushDecodedRecency(s, key, ts, n - 1);
    }
  }

  lemma RecordKeepsPointers(s: State, ts: seq<string>)
    requires |ts| >= 4 && PointerInv(s)
    ensures PointerInv(ApplyReplSet(s, ts)) && PointerInv(ApplyReplList(s, ts))
  {
    hide PointerInv, Decode, Stoi, Stoll, Set, PushDecoded, WithDeadline;
    var key, text, at := Decode(ts[1]), Decode(ts[2]), Stoll(ts[3]);
    if key.Some? && text.Some? && at.Some? {
      SetKeepsPointers(s, key.value, text.value);
      DeadlineKeepsPointers(Set(s, key.value, text.value), key.value, at.value);
    }
    var deadline, count := Stoll(ts[2]), Stoi(ts[3]);
    if key.Some? && deadline.Some? && count.Some? {
      var r := PushDecoded(Drop(s, key.value), key.value, ts[4..], ItemCount(count.value, ts)).0;
      PushDecodedRecency(Drop(s, key.value), key.value, ts[4..], ItemCount(count.value, ts));
      SameRecencyKeeps(s, r);
      DeadlineKeepsPointers(r, key.value, deadline.value);
    }
  }

  lemma ExpireKeepsPointers(s: State, now: nat, key: string, seconds: string)
    requires PointerInv(s)
    ensures PointerInv(ApplyExpire(s, now, key, seconds))
  {
    hide PointerInv, Purge, Stoll;
    var n := Stoll(seconds);
    if n.Some? {
      var u := s.(undefined := s.undefined || !(LLONG_MIN <= n.value * 1000 <= LLONG_MAX));
      SameRecencyKeeps(s, u);
      QuietKeeps(u, now, key, ApplyExpire(s, now, key, seconds));
    }
  }

  lemma QuietKeepsPointers(s: State, now: nat, key: string, value: string, front: bool)
    requires PointerInv(s)
    ensures PointerInv(Drop(s, key)) && PointerInv(Push(s, key, value, front).0) && PointerInv(Pop(s, now, key, front).0)
  {
    hide PointerInv, Purge;
    SameRecencyKeeps(s, Drop(s, key));
    SameRecencyKeeps(s, Push(s, key, value, front).0);
    QuietKeeps(s, now, key, Pop(s, now, key, front).0);
  }

  lemma LiveKeepsPointers(s: State, now: nat, name: string, args: seq<string>)
    requires PointerInv(s)
    ensures PointerInv(ApplyLive(s, now, name, args))
  {
    hide PointerInv, Set, Drop, Push, Pop, ApplyExpire;
    var key, value := if |args| >= 2 then args[1] else "", if |args| >= 3 then args[2] else "";
    SetKeepsPointers(s, key, value);
    ExpireKeepsPointers(s, now, key, value);
    QuietKeepsPointers(s, now, key, value, true);
    QuietKeepsPointers(s, now, key, value, false);
  }

  /** No line of the stream disturbs the pointers. */
  lemma ApplyKeepsPointers(f: Follower, now: nat, line: string)
    requires PointerInv(f.db)
    ensures PointerInv(ApplyLine(f, now, line).db)
  {
    hide PointerInv, Tokens, Decoded, ApplyLive, ApplyReplSet, ApplyReplList, Upper;
    var ts := Tokens(line);
    if ts != [] {
      if |ts| >= 4 {
        RecordKeepsPointers(f.db, ts);
      }
      LiveKeepsPointers(f.db, now, Upper(ts[0]), Decoded(ts));
    }
  }

  lemma {:induction false} ApplyLinesKeepPointers(f: Follower, now: nat, lines: seq<string>)
    requires PointerInv(f.db)
    ensures PointerInv(ApplyLines(f, now, lines).db)
  {
    hide PointerInv, ApplyLine;
    if lines != [] {
      ApplyLinesKeepPointers(f, now, lines[..|lines| - 1]);
      ApplyKeepsPointers(ApplyLines(f, now, lines[..|lines| - 1]), now, lines[|lines| - 1]);
    }
  }

  // ----- undefined behaviour on a replica -----

  lemma {:induction false} PushDecodedDefined(s: State, key: string, ts: seq<string>, n: nat)
    requires n <= |ts|
    ensures PushDecoded(s, key, ts, n).0.undefined == s.undefined
  {
    hide Decode;
    if n > 0 {
      PushDecodedDefined(s, key, ts, n - 1);
    }
  }

  predicate UnsafeReplSet(s: State, ts: seq<string>)
    requires |ts| >= 4
  {
    var key := Decode(ts[1]);
    key.Some? && Decode(ts[2]).Some? && Stoll(ts[3]).Some? && UnsafeSet(s, key.value)
  }

  /** The seconds of an EXPIRE, in milliseconds or added to the clock, do not fit 64 bits. */
  predicate UnsafeExpire(s: State, now: nat, key: string, seconds: string) {
    var n := Stoll(seconds);
    n.Some? &&
    var ms := n.value * 1000;
    || !(LLONG_MIN <= ms <= LLONG_MAX)
    || (Has(s, key) && !IsExpired(s, now, key) && !(LLONG_MIN <= now + ms <= LLONG_MAX))
  }

  predicate UnsafeLive(s: State, now: nat, name: string, args: seq<string>) {
    |args| >= 3 && ((name == "SET" && UnsafeSet(s, args[1])) || (name == "EXPIRE" && UnsafeExpire(s, now, args[1], args[2])))
  }

  predicate UnsafeLine(s: State, now: nat, line: string) {
    var ts := Tokens(line);
    ts != [] &&
    var name := Upper(ts[0]);
    if name == "REPLSET" then |ts| >= 4 && UnsafeReplSet(s, ts)
    else name != "REPLLIST" && UnsafeLive(s, now, name, Decoded(ts))
  }

  lemma ReplSetDefinedIff(s: State, ts: seq<string>)
    requires |ts| >= 4 && PointerInv(s)
    ensures ApplyReplSet(s, ts).undefined <==> s.undefined || UnsafeReplSet(s, ts)
  {
    hide PointerInv, Decode, Stoll, Set, Untracked;
    var key, value, deadline := Decode(ts[1]), Decode(ts[2]), Stoll(ts[3]);
    if key.Some? && value.Some? && deadline.Some? {
      SetDefinedIff(s, key.value, value.value);
    }
  }

  lemma ReplListDefined(s: State, ts: seq<string>)
    requires |ts| >= 4
    ensures ApplyReplList(s, ts).undefined == s.undefined
  {
    hide Decode, Stoi, Stoll, PushDecoded;
    var key, deadline, count := Decode(ts[1]), Stoll(ts[2]), Stoi(ts[3]);
    if key.Some? && deadline.Some? && count.Some? {
      PushDecodedDefined(Drop(s, key.value), key.value, ts[4..], ItemCount(count.value, ts));
    }
  }

  lemma ApplyExpireDefinedIff(s: State, now: nat, key: string, seconds: string)
    requires PointerInv(s)
    ensures ApplyExpire(s, now, key, seconds).undefined <==> s.undefined || UnsafeExpire(s, now, key, seconds)
  {
    hide PointerInv, Purge, Stoll;
    var n := Stoll(seconds);
    if n.Some? {
      var u := s.(undefined := s.undefined || !(LLONG_MIN <= n.value * 1000 <= LLONG_MAX));
      SameRecencyKeeps(s, u);
      PurgeKeeps(u, now, key);
      PurgeFrame(u, now, key);
    }
  }

  lemma PopDefined(s: State, now: nat, key: string, front: bool)
    requires PointerInv(s)
    ensures Pop(s, now, key, front).0.undefined == s.undefined
  {
    hide PointerInv, Purge;
    PurgeKeeps(s, now, key);
  }

  lemma LiveDefinedIff(s: State, now: nat, name: string, args: seq<string>)
    requires PointerInv(s)
    ensures ApplyLive(s, now, name, args).undefined <==> s.undefined || UnsafeLive(s, now, name, args)
  {
    hide PointerInv, Set, Pop, ApplyExpire, UnsafeExpire, Untracked;
    var key, value := if |args| >= 2 then args[1] else "", if |args| >= 3 then args[2] else "";
    SetDefinedIff(s, key, value);
    ApplyExpireDefinedIff(s, now, key, value);
    PopDefined(s, now, key, true);
    PopDefined(s, now, key, false);
  }

  lemma MarkersAreSafe(s: State, now: nat)
    ensures !UnsafeLine(s, now, "") && !UnsafeLine(s, now, SYNC_START) && !UnsafeLine(s, now, SYNC_DONE)
  {
    hide UnsafeReplSet, UnsafeSet, UnsafeExpire, TokensFrom;
    TokensOfJoined("", []);
    TokensOfJoined("", [SYNC_START]);
    TokensOfJoined("", [SYNC_DONE]);
    assert "" + SYNC_START == SYNC_START && "" + SYNC_DONE == SYNC_DONE && "" + "" == "";
  }

  /** The exact lines of the stream that run into undefined behaviour: a string, in a record or a SET, that finds no room,
      and an EXPIRE whose deadline overflows. */
  lemma ApplyDefinedIff(f: Follower, now: nat, line: string)
    requires PointerInv(f.db)
    ensures ApplyLine(f, now, line).db.undefined <==> f.db.undefined || UnsafeLine(f.db, now, line)
  {
    hide PointerInv, Tokens, Decoded, ApplyLive, ApplyReplSet, ApplyReplList, Upper, UnsafeReplSet, UnsafeLive;
    var ts := Tokens(line);
    MarkersAreSafe(f.db, now);
    if line != "" && line != SYNC_START && line != SYNC_DONE && ts != [] {
      if |ts| >= 4 {
        ReplSetDefinedIff(f.db, ts);
        ReplListDefined(f.db, ts);
      }
      LiveDefinedIff(f.db, now, Upper(ts[0]), Decoded(ts));
    }
  }

  // ----- the program's code -----

  class ReplicaNode {
    const db: Database
    var inputBuffer: string
    var syncing: bool

    constructor (db: Database)
      ensures this.db == db && inputBuffer == "" && !syncing
    {
      this.db := db;
      inputBuffer, syncing := "", false;
    }

    ghost function Abstraction(): Follower
      reads this, db
    {
      Follower(db.Abstraction(), syncing)
    }

    method ApplyListRecord(ts: seq<string>)
      requires |ts| >= 4
      modifies db
      ensures db.Abstraction() == ApplyReplList(old(db.Abstraction()), ts)
    {
      hide Push, Decode, Stoi, Stoll, ExpireAt;
      var key := ReplicationDecode(ts[1]);
      var deadline, count := Stoll(ts[2]), Stoi(ts[3]);
      if key == None || deadline == None || count == None {
        return;
      }
      var _ := db.Delete(key.value);
      ghost var start, items := db.Abstraction(), ts[4..];
      var i := 0;
      while i < count.value && 4 + i < |ts|
        invariant 0 <= i <= |items|
        invariant count.value > 0 ==> i <= count.value
        invariant count.value <= 0 ==> i == 0
        invariant PushDecoded(start, key.value, items, i) == (db.Abstraction(), true)
      {
        var item := ReplicationDecode(ts[4 + i]);
        assert items[i] == ts[4 + i];
        if item == None {
          StopsThere(start, key.value, items, i + 1, ItemCount(count.value, ts));
          return;
        }
        var _ := db.PushItem(key.value, item.value, false);
        i := i + 1;
      }
      if deadline.value != -1 {
        db.SetDeadline(key.value, deadline.value);
      }
    }

    static lemma {:induction false} StopsThere(s: State, key: string, ts: seq<string>, i: nat, n: nat)
      requires i <= n <= |ts| && !PushDecoded(s, key, ts, i).1
      ensures PushDecoded(s, key, ts, n) == PushDecoded(s, key, ts, i)
      decreases n
    {
      if i < n {
        StopsThere(s, key, ts, i, n - 1);
      }
    }

    method ApplySetRecord(ts: seq<string>)
      requires |ts| >= 4
      modifies db
      ensures db.Abstraction() == ApplyReplSet(old(db.Abstraction()), ts)
    {
      hide Set, Decode, Stoll, ExpireAt;
      var key := ReplicationDecode(ts[1]);
      var value := ReplicationDecode(ts[2]);
      var deadline := Stoll(ts[3]);
      if key == None || value == None || deadline == None {
        return;
      }
      db.SetString(key.value, value.value);
      if deadline.value != -1 {
        db.SetDeadline(key.value, deadline.value);
      }
    }

    method DecodeTokens(ts: seq<string>) returns (ds: seq<string>)
      ensures ds == Decoded(ts)
    {
      hide Decode;
      ds := [];
      for i := 0 to |ts|
        invariant |ds| == i && forall k :: 0 <= k < i ==> ds[k] == DecodeOr(ts[k])
      {
        var d := ReplicationDecode(ts[i]);
        ds := ds + [if d.Some? then d.value else ts[i]];
      }
    }

    method ApplyLiveCommand(now: nat, name: string, args: seq<string>)
      modifies db
      ensures db.Abstraction() == ApplyLive(old(db.Abstraction()), now, name, args)
    {
      hide Set, Push, Pop, ExpireBetween, Stoll, Drop;
      var n := |args|;
      if name == "SET" && n >= 3 {
        db.SetString(args[1], args[2]);
      } else if name == "DEL" && n >= 2 {
        var _ := db.Delete(args[1]);
      } else if name == "EXPIRE" && n >= 3 {
        var seconds := Stoll(args[2]);
        if seconds.Some? {
          var ms := seconds.value * 1000;
          if !(LLONG_MIN <= ms <= LLONG_MAX) {
            db.undefined := true;
          }
          var _ := db.SetTtl(now, now, args[1], ms);
        }
      } else if name == "LPUSH" && n >= 3 {
        var _ := db.PushItem(args[1], args[2], true);
      } else if name == "RPUSH" && n >= 3 {
        var _ := db.PushItem(args[1], args[2], false);
      } else if name == "LPOP" && n >= 2 {
        var _ := db.PopItem(now, args[1], true);
      } else if name == "RPOP" && n >= 2 {
        var _ := db.PopItem(now, args[1], false);
      }
    }

    /** `apply_leader_line`. */
    method ApplyLeaderLine(now: nat, line: string)
      modifies `syncing, db
      ensures Abstraction() == ApplyLine(old(Abstraction()), now, line)
    {
      hide ApplyReplSet, ApplyReplList, ApplyLive, Decoded, Upper, Tokens;
      if line == "" {
        return;
      }
      if line == SYNC_START {
        syncing := true;
        return;
      }
      if line == SYNC_DONE {
        syncing := false;
        return;
      }
      var ts := Tokens(line);
      if ts == [] {
        return;
      }
      var name := Upper(ts[0]);
      if name == "REPLSET" {
        if |ts| >= 4 {
          ApplySetRecord(ts);
        }
      } else if name == "REPLLIST" {
        if |ts| >= 4 {
          ApplyListRecord(ts);
        }
      } else {
        var decoded := DecodeTokens(ts);
        ApplyLiveCommand(now, name, decoded);
      }
    }

    /** The line loop of `read_from_leader`; returns how many bytes it consumed. */
    method ApplyCompleteLines(now: nat, buffer: string) returns (pos: nat)
      modifies `syncing, db
      ensures pos <= |buffer| && buffer[pos..] == SplitLines(buffer).rest
      ensures Abstraction() == ApplyLines(old(Abstraction()), now, SplitLines(buffer).lines)
    {
      hide ApplyLine, ApplyLines, SplitLines, FindCrlfFrom;
      ghost var done: seq<string> := [];
      pos := 0;
      assert buffer[0..] == buffer && [] + SplitLines(buffer).lines == SplitLines(buffer).lines;
      ApplyNone(Abstraction(), now);
      while pos < |buffer|
        invariant pos <= |buffer|
        invariant SplitLines(buffer).rest == SplitLines(buffer[pos..]).rest
        invariant SplitLines(buffer).lines == done + SplitLines(buffer[pos..]).lines
        invariant Abstraction() == ApplyLines(old(Abstraction()), now, done)
      {
        var crlf := FindCrlfFrom(buffer, pos);
        ReadStep(buffer, pos, done);
        if crlf == |buffer| {
          assert done + [] == done;
          return;
        }
        var line := buffer[pos..crlf];
        if line != "" {
          ApplyLeaderLine(now, line);
        }
        AppliedOne(old(Abstraction()), now, done, line);
        done := done + [line];
        pos := crlf + 2;
      }
      ReadStep(buffer, pos, done);
      assert done + [] == done;
    }

    /** `read_from_leader` for a read that returned `chunk`: appends it, applies every complete
        line in order and keeps the bytes after the last CRLF. */
    method ReadFromLeader(now: nat, chunk: string)
      modifies this, db
      ensures (Abstraction(), inputBuffer) == ReadOnce(old(Abstraction()), old(inputBuffer), now, chunk)
    {
      inputBuffer := inputBuffer + chunk;
      var pos := ApplyCompleteLines(now, inputBuffer);
      inputBuffer := inputBuffer[pos..];
    }
  }
}
