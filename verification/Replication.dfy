/** The replication protocol as a state machine: a leader, any number of replicas, and byte streams
    that are flushed, carried and read in arbitrary pieces. */
module Replication {
  import opened Text
  import opened Keyspace
  import opened Commands
  import opened Lru
  import opened Stores
  import opened TimedMap
  import opened Restore
  import opened Wire
  import opened Replica
  import opened FullSync
  import opened Replay

  // ----- the state machine -----

  /** One replica: the leader's `output_buffer` for it, the bytes in flight, its own
      `leader_input_buffer_` and its database. The last three fields are history: the snapshot it
      was sent, the position in the leader's log at that time, and how many lines it has applied. */
  datatype Link = Link(
    output: string,
    wire: string,
    input: string,
    replica: Follower,
    entries: seq<SnapshotEntry>,
    joined: nat,
    applied: nat)

  /** `commands` and `log` are history: the propagated commands, and the leader's data before the
      first of them and after each. */
  datatype System = System(leader: State, links: seq<Link>, commands: seq<Command>, log: seq<Data>)

  datatype Act =
    | Client(now: nat, cmd: Command)
    | LeaderSweep(now: nat)
    | Join(now: nat, entries: seq<SnapshotEntry>)
    | Flush(link: nat, n: nat)
    | Receive(link: nat, now: nat, n: nat)
    | ReplicaClient(link: nat, now: nat, cmd: Command)
    | ReplicaSweep(link: nat, now: nat)

  /** `propagate`: the encoded command goes to the end of every output buffer. */
  function Propagate(links: seq<Link>, cmd: Command): (ls: seq<Link>)
    ensures |ls| == |links|
  {
    seq(|links|, i requires 0 <= i < |links| => links[i].(output := links[i].output + EncodeCommand(cmd)))
  }

  /** Executes first, then propagates, whatever the reply was. */
  function ClientStep(y: System, now: nat, cmd: Command): System {
    var t := ExecCommand(y.leader, now, cmd).0;
    if IsWrite(cmd) then System(t, Propagate(y.links, cmd), y.commands + [cmd], y.log + [DataOf(t)])
    else y.(leader := t)
  }

  function NewLink(y: System, entries: seq<SnapshotEntry>): Link
    requires y.log != []
  {
    Link(Payload(entries), "", "", Follower(Empty(y.leader.capacity), false), entries, |y.log| - 1, 0)
  }

  /** `flush_replica` when `send` takes `n` bytes. */
  function FlushLink(l: Link, n: nat): Link
    requires n <= |l.output|
  {
    l.(output := l.output[n..], wire := l.wire + l.output[..n])
  }

  /** `read_from_leader` when `recv` yields `n` bytes. */
  function ReceiveLink(l: Link, now: nat, n: nat): Link
    requires n <= |l.wire|
  {
    var r := ReadOnce(l.replica, l.input, now, l.wire[..n]);
    l.(wire := l.wire[n..], replica := r.0, input := r.1,
       applied := l.applied + |SplitLines(l.input + l.wire[..n]).lines|)
  }

  /** A client of the replica: writes are refused, the rest is executed. */
  function ReplicaClientLink(l: Link, now: nat, cmd: Command): Link {
    if IsWrite(cmd) then l else l.(replica := l.replica.(db := ExecCommand(l.replica.db, now, cmd).0))
  }

  predicate Possible(y: System, a: Act) {
    match a
    case Client(_, _) => true
    case LeaderSweep(_) => true
    case Join(now, entries) => y.log != []
    case Flush(link, n) => link < |y.links| && n <= |y.links[link].output|
    case Receive(link, _, n) => link < |y.links| && n <= |y.links[link].wire|
    case ReplicaClient(link, _, _) => link < |y.links|
    case ReplicaSweep(link, _) => link < |y.links|
  }

  function Next(y: System, a: Act): (z: System)
    requires Possible(y, a)
    ensures |z.links| == if a.Join? then |y.links| + 1 else |y.links|
  {
    match a
    case Client(now, cmd) => ClientStep(y, now, cmd)
    case LeaderSweep(now) => y.(leader := Sweep(y.leader, now))
    case Join(_, entries) => y.(links := y.links + [NewLink(y, entries)])
    case Flush(link, n) => y.(links := y.links[link := FlushLink(y.links[link], n)])
    case Receive(link, now, n) => y.(links := y.links[link := ReceiveLink(y.links[link], now, n)])
    case ReplicaClient(link, now, cmd) => y.(links := y.links[link := ReplicaClientLink(y.links[link], now, cmd)])
    case ReplicaSweep(link, now) =>
      var l := y.links[link];
      y.(links := y.links[link := l.(replica := l.replica.(db := Sweep(l.replica.db, now)))])
  }

  /** The fragment on which replicas converge. A propagated command is not EXPIRE, an accepted SET finds room without
      evicting, and the command survives replay; by `ReplayAgreesIff` no other command without TTL or eviction does.
      A join sends a snapshot of the leader, whose lists fit an int. Everything else is unrestricted. */
  ghost predicate InFragment(y: System, a: Act) {
    match a
    case Client(_, cmd) => IsWrite(cmd) ==> Conforms(DataOf(y.leader), y.leader.capacity, cmd)
    case Join(now, entries) =>
      IsSnapshot(entries, y.leader, now) && forall k :: k in y.leader.lists ==> |y.leader.lists[k]| <= INT_MAX - 4
    case _ => true
  }

  predicate Conforms(d: Data, capacity: nat, cmd: Command) {
    Replicated(cmd) && (Rejected(d, cmd) || Fits(d, capacity, cmd)) && DataSurvives(d, cmd)
  }

  // ----- the invariant -----

  function StateOf(d: Data): State {
    Empty(0).(strings := d.strings, lists := d.lists)
  }

  predicate CleanData(d: Data) {
    && (forall k :: k in d.strings ==> CleanToken(k) && CleanToken(d.strings[k]))
    && (forall k :: k in d.lists ==> CleanToken(k) && CleanItems(d.lists[k]))
  }

  /** Valid pointers and no undefined behaviour so far. */
  predicate Sane(s: State) {
    PointerInv(s) && !s.undefined
  }

  predicate LeaderInv(s: State) {
    Consistent(s) && NoTtl(s) && Sane(s) && |s.strings| <= s.capacity && CleanData(DataOf(s))
  }

  predicate LogInv(y: System) {
    && |y.log| == |y.commands| + 1
    && y.log[|y.commands|] == DataOf(y.leader)
    && (forall k :: 0 <= k < |y.log| ==> Consistent(StateOf(y.log[k])))
    && (forall k :: 0 <= k < |y.commands| ==>
          Conforms(y.log[k], y.leader.capacity, y.commands[k]) && y.log[k + 1] == Replayed(y.log[k], y.commands[k]))
  }

  function CommandLines(cmds: seq<Command>): (ls: seq<string>)
    ensures |ls| == |cmds|
  {
    seq(|cmds|, i requires 0 <= i < |cmds| => CommandLine(cmds[i]))
  }

  /** Every line that was ever queued for a replica. */
  function Queued(y: System, l: Link): seq<string> {
    SyncLines(l.entries) + CommandLines(if l.joined <= |y.commands| then y.commands[l.joined..] else [])
  }

  /** The position in the leader's log that a replica has reached once its sync is done. */
  function Reached(l: Link, applied: nat): int {
    l.joined + applied - |l.entries| - 2
  }

  /** The replica's database after `applied` lines: a part of the snapshot during the sync,
      an entry of the leader's log afterwards. */
  predicate Follows(y: System, l: Link, f: Follower, applied: nat) {
    && Consistent(f.db) && NoTtl(f.db) && Sane(f.db) && f.db.capacity == y.leader.capacity
    && if applied == 0 then Contents(f.db) == map[] && !f.syncing
       else if applied <= |l.entries| + 1 then Contents(f.db) == EntriesMap(l.entries[..applied - 1]) && f.syncing
       else 0 <= Reached(l, applied) < |y.log| && DataOf(f.db) == y.log[Reached(l, applied)] && !f.syncing
  }

  predicate SentSnapshot(y: System, l: Link) {
    && l.joined < |y.log|
    && Restorable(l.entries, y.leader.capacity)
    && (forall i :: 0 <= i < |l.entries| ==> Sendable(l.entries[i]) && l.entries[i].deadline == -1)
    && EntriesMap(l.entries) == Contents(StateOf(y.log[l.joined]))
  }

  /** The bytes between leader and replica are exactly the lines not yet applied, and the
      replica's buffer holds no complete line. */
  predicate LinkInv(y: System, l: Link) {
    && SentSnapshot(y, l)
    && l.applied <= |Queued(y, l)|
    && Stream(Queued(y, l)[l.applied..]) == l.input + (l.wire + l.output)
    && FindCrlf(l.input) == |l.input|
    && Follows(y, l, l.replica, l.applied)
  }

  predicate Inv(y: System) {
    && LeaderInv(y.leader)
    && LogInv(y)
    && forall i :: 0 <= i < |y.links| ==> LinkInv(y, y.links[i])
  }

  // ----- data and contents -----

  lemma ContentsOfData(s: State)
    requires NoTtl(s)
    ensures Contents(s) == Contents(StateOf(DataOf(s)))
    ensures Consistent(s) <==> Consistent(StateOf(DataOf(s)))
  {
  }

  lemma ContentsDetermineData(s: State, t: State)
    requires Consistent(s) && Consistent(t) && Contents(s) == Contents(t)
    ensures DataOf(s) == DataOf(t) && s.expiry == t.expiry
  {
    hide Contents;
    forall k: string
      ensures k in s.strings <==> k in t.strings
      ensures k in s.lists <==> k in t.lists
      ensures k in s.expiry <==> k in t.expiry
      ensures k in s.strings ==> s.strings[k] == t.strings[k]
      ensures k in s.lists ==> s.lists[k] == t.lists[k]
      ensures k in s.expiry ==> s.expiry[k] == t.expiry[k]
    {
      ContentsAt(s, k);
      ContentsAt(t, k);
    }
  }

  lemma NoDeadlines(s: State, es: seq<SnapshotEntry>)
    requires Consistent(s) && DistinctKeys(es) && Contents(s) == EntriesMap(es)
    requires forall i :: 0 <= i < |es| ==> es[i].deadline == -1
    ensures NoTtl(s)
  {
    hide Contents, EntriesMap;
    EntriesMapAt(es);
    forall k | k in Contents(s)
      ensures Contents(s)[k].deadline == None
    {
      assert k in EntryKeys(es);
      var i :| 0 <= i < |es| && es[i].key == k;
    }
    forall k: string
      ensures k !in s.expiry
    {
      ContentsAt(s, k);
    }
  }

  // ----- staying within defined behaviour -----

  lemma SetSane(s: State, key: string, value: string)
    requires Sane(s) && (key in s.strings || |s.strings| + |s.lists - {key}| < s.capacity)
    ensures Sane(Set(s, key, value))
  {
    hide PointerInv, Set;
    SetDefinedIff(s, key, value);
    SubsetSize(Untracked(s) - {key}, (s.lists - {key}).Keys);
  }

  lemma SameSane(s: State, t: State)
    requires Sane(s) && SameRecency(s, t) && !t.undefined
    ensures Sane(t)
  {
    hide PointerInv;
    SameRecencyKeeps(s, t);
  }

  lemma {:induction false} PushAllSane(s: State, key: string, xs: seq<string>)
    requires Sane(s)
    ensures Sane(PushAll(s, key, xs))
  {
    if xs != [] {
      hide PointerInv;
      var t := PushAll(s, key, xs[..|xs| - 1]);
      PushAllSane(s, key, xs[..|xs| - 1]);
      SameSane(t, PushAll(s, key, xs));
    }
  }

  lemma RestoreEntrySane(s: State, e: SnapshotEntry)
    requires Sane(s) && Consistent(s) && e.key !in Contents(s) && e.deadline == -1
    requires e.value.Str? ==> |Contents(s)| < s.capacity
    ensures Sane(RestoreEntry(s, e))
  {
    hide Sane, Contents, Consistent, Set, PushAll, SetPrepare, Over;
    if e.value.Str? {
      RoomFor(s, e.key);
      SetSane(s, e.key, e.value.text);
    } else {
      PushAllSane(s, e.key, e.value.items);
    }
  }

  lemma QuietOpsSane(s: State, now: nat, key: string, value: string, front: bool)
    requires Sane(s) && NoTtl(s)
    ensures Sane(Drop(s, key)) && Sane(Push(s, key, value, front).0) && Sane(Pop(s, now, key, front).0)
  {
    hide PointerInv, Purge;
    NoTtlPurge(s, now, key);
    SameSane(s, Drop(s, key));
    SameSane(s, Push(s, key, value, front).0);
    SameSane(s, Pop(s, now, key, front).0);
  }

  lemma ApplyLiveSane(s: State, now: nat, cmd: Command)
    requires Sane(s) && NoTtl(s) && Replicated(cmd) && Fits(DataOf(s), s.capacity, cmd)
    ensures Sane(ApplyLive(s, now, Name(cmd), UpperName(cmd)))
  {
    assert cmd != [];
    hide ApplyLive, KindOf, Set, Sane, UpperName, Drop, Push, Pop;
    ApplyLiveByKind(s, now, cmd);
    match KindOf(cmd) {
      case Setting => if |cmd| >= 3 { SetSane(s, cmd[1], cmd[2]); }
      case Deleting => if |cmd| >= 2 { QuietOpsSane(s, now, cmd[1], "", true); }
      case Pushing(front) => if |cmd| >= 3 { QuietOpsSane(s, now, cmd[1], cmd[2], front); }
      case Popping(front) => if |cmd| >= 2 { QuietOpsSane(s, now, cmd[1], "", front); }
      case Other =>
    }
  }

  // ----- one line -----

  /** Applying the next queued line takes a replica one step along the snapshot or the log. */
  lemma AdvanceOne(y: System, l: Link, f: Follower, now: nat, a: nat)
    requires LogInv(y) && SentSnapshot(y, l) && a < |Queued(y, l)| && Follows(y, l, f, a)
    ensures Follows(y, l, ApplyLine(f, now, Queued(y, l)[a]), a + 1)
  {
    if a == 0 {
      AdvanceStart(y, l, f, now);
    } else if a <= |l.entries| {
      AdvanceEntry(y, l, f, now, a);
    } else if a == |l.entries| + 1 {
      AdvanceDone(y, l, f, now);
    } else {
      AdvanceCommand(y, l, f, now, a);
    }
  }

  lemma AdvanceStart(y: System, l: Link, f: Follower, now: nat)
    requires LogInv(y) && SentSnapshot(y, l) && Follows(y, l, f, 0)
    ensures Follows(y, l, ApplyLine(f, now, Queued(y, l)[0]), 1)
  {
    hide Contents, Consistent, Sane, ApplyLine, LogInv, SentSnapshot;
    ApplyMarkers(f, now);
    assert EntriesMap([]) == map[];
    assert l.entries[..0] == [];
  }

  lemma AdvanceEntry(y: System, l: Link, f: Follower, now: nat, a: nat)
    requires LogInv(y) && SentSnapshot(y, l) && 1 <= a <= |l.entries| && Follows(y, l, f, a)
    ensures Follows(y, l, ApplyLine(f, now, Queued(y, l)[a]), a + 1)
  {
    hide Contents, Consistent, Sane, ApplyLine, Conforms, Replayed, EntryLine, CommandLine, EntriesMap, RestoreEntry,
      Sendable;
    var e := l.entries[a - 1];
    assert Queued(y, l)[a] == EntryLine(e);
    var g := ApplyLine(f, now, EntryLine(e));
    ApplyNextEntry(f, now, l.entries, a - 1);
    EntryFits(f.db, l.entries, a - 1);
    RestoreEntrySane(f.db, e);
    DistinctPrefix(l.entries, a);
    NoDeadlines(g.db, l.entries[..a]);
  }

  lemma DistinctPrefix(es: seq<SnapshotEntry>, i: nat)
    requires i <= |es| && DistinctKeys(es)
    ensures DistinctKeys(es[..i])
  {
  }

  lemma EntryFits(s: State, es: seq<SnapshotEntry>, i: nat)
    requires i < |es| && Restored(s, es, i)
    ensures es[i].key !in Contents(s)
    ensures es[i].value.Str? ==> |Contents(s)| < s.capacity
  {
    hide Contents, Consistent;
    NotBefore(es, i);
    EntriesMapAt(es[..i]);
    EntriesMapSize(es[..i]);
  }

  lemma AdvanceDone(y: System, l: Link, f: Follower, now: nat)
    requires LogInv(y) && SentSnapshot(y, l) && Follows(y, l, f, |l.entries| + 1)
    ensures Follows(y, l, ApplyLine(f, now, Queued(y, l)[|l.entries| + 1]), |l.entries| + 2)
  {
    hide Contents, Consistent, Sane, ApplyLine, EntryLine, CommandLine, Conforms, Replayed, Sendable, Restorable;
    assert Queued(y, l)[|l.entries| + 1] == SYNC_DONE;
    ApplyMarkers(f, now);
    assert l.entries[..|l.entries|] == l.entries;
    ContentsDetermineData(f.db, StateOf(y.log[l.joined]));
  }

  /** What is seen of a conforming command is a clean command that has room. */
  lemma ConformingSeen(d: Data, capacity: nat, cmd: Command)
    requires Conforms(d, capacity, cmd)
    ensures var w := Seen(cmd);
            && Replicated(cmd) && Replicated(w) && Name(w) == Name(cmd) && UpperName(w) == w && KindOf(w) == KindOf(cmd)
            && CleanCommand(w) && Fits(d, capacity, w)
  {
    hide KindOf, CleanToken, Seen;
    SeenIff(cmd);
    SeenKind(cmd);
    if CleanCommand(cmd) {
      UpperNameSame(d, cmd);
    }
  }

  lemma AdvanceCommand(y: System, l: Link, f: Follower, now: nat, a: nat)
    requires LogInv(y) && SentSnapshot(y, l) && |l.entries| + 2 <= a < |Queued(y, l)| && Follows(y, l, f, a)
    ensures Follows(y, l, ApplyLine(f, now, Queued(y, l)[a]), a + 1)
  {
    hide Contents, Consistent, Sane, ApplyLine, ApplyLive, EntryLine, CommandLine, KindOf, Conforms, Seen,
      Unchecked, Fits, SentSnapshot, UpperName;
    var k := Reached(l, a);
    var cmd := y.commands[k];
    assert Queued(y, l)[a] == CommandLine(cmd);
    assert Conforms(y.log[k], y.leader.capacity, cmd);
    var g := ApplyLine(f, now, CommandLine(cmd));
    ConformingSeen(y.log[k], y.leader.capacity, cmd);
    ReplicatedIff(cmd);
    ApplyAnyLine(f, now, cmd);
    ReplicaFollows(f.db, now, Seen(cmd));
    ApplyLiveSane(f.db, now, Seen(cmd));
    ContentsOfData(g.db);
    assert DataOf(g.db) == y.log[k + 1];
    assert Reached(l, a + 1) == k + 1;
  }

  // ----- many lines, and the bytes that carry them -----

  lemma {:induction false} AdvanceMany(y: System, l: Link, f: Follower, now: nat, a: nat, n: nat)
    requires LogInv(y) && SentSnapshot(y, l) && a + n <= |Queued(y, l)| && Follows(y, l, f, a)
    ensures Follows(y, l, ApplyLines(f, now, Queued(y, l)[a..a + n]), a + n)
    decreases n
  {
    hide LogInv, SentSnapshot, Follows, Queued, ApplyLine;
    var q := Queued(y, l);
    if n == 0 {
      ApplyNone(f, now);
      assert q[a..a] == [];
    } else {
      hide ApplyLines;
      AdvanceMany(y, l, f, now, a, n - 1);
      AdvanceOne(y, l, ApplyLines(f, now, q[a..a + n - 1]), now, a + n - 1);
      AppliedOne(f, now, q[a..a + n - 1], q[a + n - 1]);
      SliceGrows(q, a, a + n - 1);
    }
  }

  lemma SliceGrows(q: seq<string>, a: nat, b: nat)
    requires a <= b < |q|
    ensures q[a..b + 1] == q[a..b] + [q[b]]
  {
  }

  lemma QueuedAreLines(y: System, l: Link)
    ensures forall k :: 0 <= k < |Queued(y, l)| ==> IsLine(Queued(y, l)[k])
  {
    hide IsLine, CommandLine, SyncLines;
    SyncLinesAreLines(l.entries);
    forall k | 0 <= k < |Queued(y, l)|
      ensures IsLine(Queued(y, l)[k])
    {
      if k >= |SyncLines(l.entries)| {
        assert l.joined <= |y.commands|;
        CommandLineCrFree(y.commands[l.joined..][k - |SyncLines(l.entries)|]);
      }
      CrFreeIsLine(Queued(y, l)[k]);
    }
  }

  /** Reading a piece of a stream yields a prefix of its lines, and leaves the bytes of the others. */
  lemma ReadPrefix(lines: seq<string>, input: string, chunk: string, tail: string)
    requires forall k :: 0 <= k < |lines| ==> IsLine(lines[k])
    requires Stream(lines) == input + (chunk + tail)
    ensures var s := SplitLines(input + chunk);
            && |s.lines| <= |lines| && s.lines == lines[..|s.lines|]
            && Stream(lines[|s.lines|..]) == s.rest + tail
            && FindCrlf(s.rest) == |s.rest|
  {
    hide SplitLines, FindCrlf, IsLine, Stream;
    var s := SplitLines(input + chunk);
    var t := SplitLines(s.rest + tail);
    ConcatAssoc(input, chunk, tail);
    SplitAppend(input + chunk, tail);
    EmptyRest();
    SplitUnique(lines, "");
    assert Stream(lines) + "" == Stream(lines);
    assert lines == s.lines + t.lines && t.rest == "";
    SplitSound(input + chunk);
    StreamSplit(s.rest + tail);
    assert lines[|s.lines|..] == t.lines;
    assert Stream(t.lines) + "" == Stream(t.lines);
  }

  lemma EmptyRest()
    ensures FindCrlf("") == |""|
  {
  }

  // ----- every step keeps the invariant -----

  lemma ReceiveKeeps(y: System, l: Link, now: nat, n: nat)
    requires LogInv(y) && LinkInv(y, l) && n <= |l.wire|
    ensures LinkInv(y, ReceiveLink(l, now, n))
  {
    hide LogInv, SentSnapshot, Follows, Queued, SplitLines, Stream, IsLine, FindCrlf, ApplyLines;
    var q, chunk, tail := Queued(y, l), l.wire[..n], l.wire[n..] + l.output;
    var lines := q[l.applied..];
    QueuedAreLines(y, l);
    assert chunk + tail == l.wire + l.output;
    ReadPrefix(lines, l.input, chunk, tail);
    var s := SplitLines(l.input + chunk);
    var k := |s.lines|;
    assert lines[k..] == q[l.applied + k..] && lines[..k] == q[l.applied..l.applied + k];
    AdvanceMany(y, l, l.replica, now, l.applied, k);
    var m := ReceiveLink(l, now, n);
    SameHistory(y, l, m, m.replica, l.applied + k);
  }

  /** The invariant looks at a link's history, not at where its bytes are. */
  lemma SameHistory(y: System, l: Link, m: Link, f: Follower, a: nat)
    requires m.entries == l.entries && m.joined == l.joined
    ensures SentSnapshot(y, l) ==> SentSnapshot(y, m)
    ensures Follows(y, l, f, a) ==> Follows(y, m, f, a)
    ensures Queued(y, m) == Queued(y, l)
  {
  }

  lemma FlushKeeps(y: System, l: Link, n: nat)
    requires LogInv(y) && LinkInv(y, l) && n <= |l.output|
    ensures LinkInv(y, FlushLink(l, n))
  {
    hide LogInv, SentSnapshot, Follows, Queued, Stream, FindCrlf;
    var m := FlushLink(l, n);
    SameHistory(y, l, m, l.replica, l.applied);
    assert m.wire + m.output == l.wire + l.output;
  }

  /** A command that is not a write changes neither store, when no deadline is set. */
  lemma ReadOnly(s: State, now: nat, cmd: Command)
    requires NoTtl(s) && Sane(s) && !IsWrite(cmd)
    ensures var t := ExecCommand(s, now, cmd).0;
            DataOf(t) == DataOf(s) && NoTtl(t) && Sane(t) && t.capacity == s.capacity
  {
    if cmd != [] {
      hide Sane, Get, Purge, Classify;
      var req := Classify(cmd);
      NotWriteRequest(cmd);
      if !req.Immediate? {
        NoTtlPurge(s, now, req.key);
      }
      if req.GetReq? {
        GetFrame(s, now, req.key);
      }
      SafeStep(s, now, req);
    }
  }

  lemma NotWriteRequest(cmd: Command)
    requires cmd != [] && !IsWrite(cmd)
    ensures var req := Classify(cmd);
            req.GetReq? || req.ExistsReq? || req.TtlReq? || req.LLenReq? || req.Immediate?
  {
    hide Upper;
  }

  lemma SafeStep(s: State, now: nat, req: Request)
    requires Sane(s) && !Unsafe(s, now, req)
    ensures Sane(Exec(s, now, req).0)
  {
    hide PointerInv, Exec;
    ExecKeepsPointers(s, now, req);
  }

  lemma NoTtlSweep(s: State, now: nat)
    requires NoTtl(s)
    ensures Sweep(s, now) == s
  {
    assert ExpiredKeys(s, now) == {};
    MinusMinus(s.strings, {}, {});
    MinusMinus(s.lists, {}, {});
    MinusMinus(s.expiry, {}, {});
  }

  /** A change of the replica's recency list only. */
  lemma ReplicaRecencyKeeps(y: System, l: Link, t: State)
    requires LogInv(y) && LinkInv(y, l)
    requires DataOf(t) == DataOf(l.replica.db) && NoTtl(t) && Sane(t) && t.capacity == l.replica.db.capacity
    ensures LinkInv(y, l.(replica := l.replica.(db := t)))
  {
    hide LogInv, SentSnapshot, Queued, Stream, FindCrlf, Contents, Consistent, Sane, EntriesMap;
    var m := l.(replica := l.replica.(db := t));
    ContentsOfData(t);
    ContentsOfData(l.replica.db);
    SameHistory(y, l, m, l.replica, l.applied);
  }

  // ----- the leader's steps -----

  /** A conforming command takes the leader's data to the next log entry and keeps its invariant. */
  lemma LeaderExec(s: State, now: nat, cmd: Command)
    requires LeaderInv(s) && Conforms(DataOf(s), s.capacity, cmd)
    ensures var t := ExecCommand(s, now, cmd).0;
            && LeaderInv(t) && t.capacity == s.capacity && DataOf(t) == Replayed(DataOf(s), cmd)
  {
    hide Consistent, KindOf, Sane, Exec, CleanData, Fits, DataSurvives, Seen, Rejected, Unchecked;
    LeaderFollows(s, now, cmd);
    SurvivorIsReplayed(s, cmd);
    LeaderSafe(s, now, cmd);
    ConformingSeen(DataOf(s), s.capacity, cmd);
    ConformingData(DataOf(s), s.capacity, Seen(cmd));
    ReplicatedIff(cmd);
    ExecConsistent(s, now, Classify(cmd));
  }

  lemma LeaderSafe(s: State, now: nat, cmd: Command)
    requires Sane(s) && Replicated(cmd) && (Rejected(DataOf(s), cmd) || Fits(DataOf(s), s.capacity, cmd))
    ensures Sane(ExecCommand(s, now, cmd).0)
  {
    hide Sane, KindOf, Classify, Exec;
    ReplicatedIff(cmd);
    ClassifyByKind(cmd);
    SubsetSize(Untracked(s) - {if |cmd| >= 2 then cmd[1] else ""}, (s.lists - {if |cmd| >= 2 then cmd[1] else ""}).Keys);
    SafeStep(s, now, Classify(cmd));
  }

  lemma UpdateSize(m: map<string, string>, key: string, value: string)
    ensures |m[key := value]| == if key in m then |m| else |m| + 1
  {
    assert m[key := value].Keys == m.Keys + {key};
  }

  lemma UncheckedStrings(d: Data, cmd: Command)
    ensures var e := Unchecked(d, cmd);
            if KindOf(cmd) == Setting && |cmd| >= 3 then e.strings == d.strings[cmd[1] := cmd[2]]
            else e.strings.Keys <= d.strings.Keys
  {
    hide KindOf, DataItems;
  }

  lemma ConformingSize(d: Data, capacity: nat, cmd: Command)
    requires |d.strings| <= capacity && Fits(d, capacity, cmd)
    ensures |Unchecked(d, cmd).strings| <= capacity
  {
    hide KindOf, Unchecked;
    UncheckedStrings(d, cmd);
    if KindOf(cmd) == Setting && |cmd| >= 3 {
      UpdateSize(d.strings, cmd[1], cmd[2]);
    } else {
      SubsetSize(Unchecked(d, cmd).strings.Keys, d.strings.Keys);
    }
  }

  lemma ConformingData(d: Data, capacity: nat, cmd: Command)
    requires CleanData(d) && |d.strings| <= capacity && CleanCommand(cmd) && Fits(d, capacity, cmd)
    ensures CleanData(Unchecked(d, cmd)) && |Unchecked(d, cmd).strings| <= capacity
  {
    hide KindOf, CleanToken, CleanData, Fits;
    ConformingSize(d, capacity, cmd);
    match KindOf(cmd) {
      case Setting =>
        if |cmd| >= 3 {
          assert CleanToken(cmd[1]) && CleanToken(cmd[2]);
          SetStaysCleanData(d, cmd[1], cmd[2]);
        }
      case Deleting => if |cmd| >= 2 { DropStaysCleanData(d, cmd[1]); }
      case _ => if |cmd| >= 2 { ListsStayClean(d, cmd); }
    }
  }

  lemma SetStaysCleanData(d: Data, key: string, value: string)
    requires CleanData(d) && CleanToken(key) && CleanToken(value)
    ensures CleanData(Data(d.strings[key := value], d.lists - {key}))
  {
    hide CleanToken, CleanItems;
  }

  lemma DropStaysCleanData(d: Data, key: string)
    requires CleanData(d)
    ensures CleanData(Data(d.strings - {key}, d.lists - {key}))
  {
    hide CleanToken, CleanItems;
  }

  lemma ListsStayClean(d: Data, cmd: Command)
    requires CleanData(d) && CleanCommand(cmd) && |cmd| >= 2
    requires KindOf(cmd).Pushing? || KindOf(cmd).Popping? || KindOf(cmd).Other?
    ensures CleanData(Unchecked(d, cmd))
  {
    hide KindOf, CleanToken;
    var xs, v := DataItems(d, cmd[1]), if |cmd| >= 3 then cmd[2] else cmd[1];
    assert CleanItems(xs) && CleanItems([v] + xs) && CleanItems(xs + [v]);
    assert xs != [] ==> CleanItems(xs[1..]) && CleanItems(xs[..|xs| - 1]);
    hide CleanItems;
  }

  /** The system after a propagated command, but for the links. */
  lemma LogKeeps(y: System, now: nat, cmd: Command)
    requires LeaderInv(y.leader) && LogInv(y) && Conforms(DataOf(y.leader), y.leader.capacity, cmd)
    ensures LeaderInv(ClientStep(y, now, cmd).leader) && LogInv(ClientStep(y, now, cmd))
    ensures ClientStep(y, now, cmd).leader.capacity == y.leader.capacity
  {
    hide LeaderInv, Conforms, ExecCommand, Replayed, Consistent;
    ConformingIsWrite(y.leader, cmd);
    LeaderExec(y.leader, now, cmd);
    LeaderConsistent(ExecCommand(y.leader, now, cmd).0);
  }

  lemma ConformingIsWrite(s: State, cmd: Command)
    requires Conforms(DataOf(s), s.capacity, cmd)
    ensures IsWrite(cmd)
  {
    ReplicatedIff(cmd);
  }

  lemma LeaderConsistent(s: State)
    requires LeaderInv(s)
    ensures Consistent(StateOf(DataOf(s)))
  {
    hide Consistent;
    ContentsOfData(s);
  }

  lemma QueuedGrows(y: System, now: nat, cmd: Command, l: Link, m: Link)
    requires l.joined <= |y.commands| && IsWrite(cmd) && m.entries == l.entries && m.joined == l.joined
    ensures Queued(ClientStep(y, now, cmd), m) == Queued(y, l) + [CommandLine(cmd)]
  {
    hide CommandLine, SyncLines, ExecCommand;
    assert (y.commands + [cmd])[l.joined..] == y.commands[l.joined..] + [cmd];
    assert CommandLines(y.commands[l.joined..] + [cmd]) == CommandLines(y.commands[l.joined..]) + [CommandLine(cmd)];
  }

  lemma StreamGrows(lines: seq<string>, applied: nat, line: string, bytes: string)
    requires applied <= |lines| && Stream(lines[applied..]) == bytes
    ensures Stream((lines + [line])[applied..]) == bytes + (line + CRLF)
  {
    assert (lines + [line])[applied..] == lines[applied..] + [line];
    hide Stream;
    StreamAppend(lines[applied..], [line]);
    StreamOne(line);
  }

  lemma LogGrows(y: System, now: nat, cmd: Command, l: Link, m: Link)
    requires IsWrite(cmd) && m.entries == l.entries && m.joined == l.joined
    requires ClientStep(y, now, cmd).leader.capacity == y.leader.capacity
    ensures SentSnapshot(y, l) ==> SentSnapshot(ClientStep(y, now, cmd), m)
    ensures Follows(y, l, l.replica, l.applied) ==> Follows(ClientStep(y, now, cmd), m, l.replica, l.applied)
  {
    hide ExecCommand, Contents, Consistent, Sane, Restorable, Sendable, EntriesMap;
  }

  /** A propagated command is one more line for every link. */
  lemma PropagateKeeps(y: System, now: nat, cmd: Command, l: Link)
    requires LogInv(y) && LinkInv(y, l) && IsWrite(cmd)
    requires ClientStep(y, now, cmd).leader.capacity == y.leader.capacity
    ensures LinkInv(ClientStep(y, now, cmd), l.(output := l.output + EncodeCommand(cmd)))
  {
    hide LogInv, SentSnapshot, Follows, Queued, ClientStep, CommandLine, Stream, FindCrlf;
    JoinedInLog(y, l);
    var m := l.(output := l.output + EncodeCommand(cmd));
    QueuedGrows(y, now, cmd, l, m);
    LogGrows(y, now, cmd, l, m);
    StreamGrows(Queued(y, l), l.applied, CommandLine(cmd), l.input + (l.wire + l.output));
    assert l.input + (l.wire + l.output) + (CommandLine(cmd) + CRLF) == m.input + (m.wire + m.output);
  }

  lemma JoinedInLog(y: System, l: Link)
    requires LogInv(y) && SentSnapshot(y, l)
    ensures l.joined <= |y.commands|
  {
  }

  lemma JoinKeeps(y: System, now: nat, entries: seq<SnapshotEntry>)
    requires LeaderInv(y.leader) && LogInv(y)
    requires IsSnapshot(entries, y.leader, now)
    requires forall k :: k in y.leader.lists ==> |y.leader.lists[k]| <= INT_MAX - 4
    ensures LinkInv(y, NewLink(y, entries))
  {
    hide Consistent, Contents, CleanToken, Restorable, Sendable, Stream, Conforms, Replayed, PointerInv,
      IsSnapshot, EntriesMap, Live, CommandLines;
    var s, l := y.leader, NewLink(y, entries);
    SnapshotRestorable(entries, s, now);
    SnapshotSendable(entries, s, now);
    SnapshotIsLive(entries, s, now);
    NoTtlLive(s, now);
    NoTtlSnapshot(entries, s, now);
    ContentsOfData(s);
    EmptyFollows(s.capacity);
    EmptyRest();
    assert y.commands[l.joined..] == [];
    assert CommandLines([]) == [] by { NoCommandLines(); }
    assert Queued(y, l) == SyncLines(entries) && SyncLines(entries)[0..] == SyncLines(entries);
    assert Stream(SyncLines(entries)) == "" + ("" + Payload(entries));
  }

  lemma NoCommandLines()
    ensures CommandLines([]) == []
  {
  }

  lemma EmptyFollows(capacity: nat)
    ensures Consistent(Empty(capacity)) && Contents(Empty(capacity)) == map[] && PointerInv(Empty(capacity))
  {
  }

  lemma NoTtlLive(s: State, now: nat)
    requires NoTtl(s)
    ensures Live(Contents(s), now) == Contents(s)
  {
  }

  lemma NoTtlSnapshot(es: seq<SnapshotEntry>, s: State, now: nat)
    requires NoTtl(s) && IsSnapshot(es, s, now)
    ensures forall i :: 0 <= i < |es| ==> es[i].deadline == -1
  {
    hide LiveStrings, LiveLists, EntryKeys, DistinctKeys;
    var n :| SnapshotSplitAt(es, n, s, now);
    forall i | 0 <= i < |es|
      ensures es[i].deadline == -1
    {
      if i < n {
        assert es[..n][i] == es[i];
      } else {
        assert es[n..][i - n] == es[i];
      }
    }
  }

  // ----- the theorems -----

  lemma NextKeepsLinks(y: System, a: Act)
    requires Inv(y) && Possible(y, a) && InFragment(y, a)
    requires a.Flush? || a.Receive? || a.ReplicaClient? || a.ReplicaSweep?
    ensures LinkInv(y, Next(y, a).links[a.link])
  {
    hide LeaderInv, LogInv, LinkInv, Contents;
    var l := y.links[a.link];
    assert LinkInv(y, l);
    match a {
      case Flush(_, n) => FlushKeeps(y, l, n);
      case Receive(_, now, n) => ReceiveKeeps(y, l, now, n);
      case ReplicaClient(_, now, cmd) =>
        if !IsWrite(cmd) {
          LinkReplica(y, l);
          ReadOnly(l.replica.db, now, cmd);
          ReplicaRecencyKeeps(y, l, ExecCommand(l.replica.db, now, cmd).0);
        }
      case ReplicaSweep(_, now) =>
        LinkReplica(y, l);
        NoTtlSweep(l.replica.db, now);
    }
  }

  lemma LinkReplica(y: System, l: Link)
    requires LinkInv(y, l)
    ensures NoTtl(l.replica.db) && Sane(l.replica.db)
  {
  }

  /** Only the links may look different to a link. */
  lemma SameLog(y: System, z: System, l: Link)
    requires z.commands == y.commands && z.log == y.log && z.leader.capacity == y.leader.capacity
    requires LinkInv(y, l)
    ensures LinkInv(z, l)
  {
    hide Stream, FindCrlf, Contents, Consistent, Sane, SyncLines, CommandLines, Restorable, EntriesMap, Sendable;
  }

  lemma LeaderReads(y: System, now: nat, cmd: Command)
    requires LeaderInv(y.leader) && LogInv(y) && !IsWrite(cmd)
    ensures LeaderInv(ClientStep(y, now, cmd).leader) && LogInv(ClientStep(y, now, cmd))
    ensures ClientStep(y, now, cmd).leader.capacity == y.leader.capacity
  {
    hide Contents, Consistent, Sane, ExecCommand, Conforms, Replayed, CleanData;
    ReadOnly(y.leader, now, cmd);
    ContentsOfData(y.leader);
    ContentsOfData(ExecCommand(y.leader, now, cmd).0);
  }

  lemma SameLeaderLog(y: System, z: System)
    requires LogInv(y) && z.commands == y.commands && z.log == y.log && z.leader == y.leader
    ensures LogInv(z)
  {
  }

  /** Every step of the fragment keeps the invariant, whatever is flushed, carried and read when. */
  lemma NextKeepsInv(y: System, a: Act)
    requires Inv(y) && Possible(y, a) && InFragment(y, a)
    ensures Inv(Next(y, a))
  {
    hide LeaderInv, LogInv, LinkInv, Conforms, ExecCommand, CommandLine;
    var z := Next(y, a);
    match a {
      case Client(now, cmd) => ClientKeepsInv(y, now, cmd);
      case LeaderSweep(now) =>
        LeaderNoTtl(y.leader);
        NoTtlSweep(y.leader, now);
      case Join(now, entries) =>
        SameLeaderLog(y, z);
        JoinKeeps(y, now, entries);
        forall i | 0 <= i < |z.links|
          ensures LinkInv(z, z.links[i])
        {
          SameLog(y, z, z.links[i]);
        }
      case _ =>
        SameLeaderLog(y, z);
        NextKeepsLinks(y, a);
        forall i | 0 <= i < |z.links|
          ensures LinkInv(z, z.links[i])
        {
          SameLog(y, z, z.links[i]);
        }
    }
  }

  lemma LeaderNoTtl(s: State)
    requires LeaderInv(s)
    ensures NoTtl(s)
  {
  }

  lemma ClientKeepsInv(y: System, now: nat, cmd: Command)
    requires Inv(y) && InFragment(y, Client(now, cmd))
    ensures Inv(ClientStep(y, now, cmd))
  {
    hide LeaderInv, LogInv, LinkInv, Conforms, ExecCommand, CommandLine;
    var z := ClientStep(y, now, cmd);
    if IsWrite(cmd) {
      LogKeeps(y, now, cmd);
      forall i | 0 <= i < |z.links|
        ensures LinkInv(z, z.links[i])
      {
        PropagateKeeps(y, now, cmd, y.links[i]);
      }
    } else {
      LeaderReads(y, now, cmd);
      forall i | 0 <= i < |z.links|
        ensures LinkInv(z, z.links[i])
      {
        SameLog(y, z, y.links[i]);
      }
    }
  }

  // ----- runs -----

  /** A leader with any data the fragment allows, before its first replica. */
  function Start(leader: State): System {
    System(leader, [], [], [DataOf(leader)])
  }

  lemma StartInv(leader: State)
    requires LeaderInv(leader)
    ensures Inv(Start(leader))
  {
    hide LeaderInv;
    LeaderConsistent(leader);
  }

  ghost predicate Conforming(y: System, acts: seq<Act>)
    decreases |acts|
  {
    acts != [] ==> Possible(y, acts[0]) && InFragment(y, acts[0]) && Conforming(Next(y, acts[0]), acts[1..])
  }

  ghost function RunActs(y: System, acts: seq<Act>): System
    requires Conforming(y, acts)
    decreases |acts|
  {
    if acts == [] then y else RunActs(Next(y, acts[0]), acts[1..])
  }

  /** `z` is a later state than `y`: the log grew, and no replica joined anew or went back. */
  predicate Later(y: System, z: System) {
    && y.log <= z.log
    && |y.links| <= |z.links|
    && forall i :: 0 <= i < |y.links| ==>
         && z.links[i].entries == y.links[i].entries
         && z.links[i].joined == y.links[i].joined
         && z.links[i].applied >= y.links[i].applied
  }

  lemma NextIsLater(y: System, a: Act)
    requires Possible(y, a)
    ensures Later(y, Next(y, a))
  {
    hide ExecCommand, EncodeCommand, SplitLines, ApplyLines, Payload;
  }

  /** Over every run of the fragment the invariant holds, the log only grows and replicas only advance. */
  lemma {:induction false} RunKeepsInv(y: System, acts: seq<Act>)
    requires Inv(y) && Conforming(y, acts)
    ensures Inv(RunActs(y, acts)) && Later(y, RunActs(y, acts))
    decreases |acts|
  {
    hide Inv, Next, InFragment, Possible;
    if acts != [] {
      NextKeepsInv(y, acts[0]);
      NextIsLater(y, acts[0]);
      RunKeepsInv(Next(y, acts[0]), acts[1..]);
    }
  }

  // ----- what the invariant means -----

  /** Simulation: whatever is buffered where, replaying onto a replica everything that is on its way
      to it yields exactly the leader's data, and leaves no partial line. */
  lemma Simulation(y: System, i: nat, now: nat)
    requires Inv(y) && i < |y.links|
    ensures var l := y.links[i];
            var s := SplitLines(l.input + l.wire + l.output);
            var f := ApplyLines(l.replica, now, s.lines);
            && s.rest == ""
            && DataOf(f.db) == DataOf(y.leader) && NoTtl(f.db) && Consistent(f.db) && !f.db.undefined && !f.syncing
  {
    hide LeaderInv, SentSnapshot, Follows, Queued, SplitLines, Stream, IsLine, FindCrlf, ApplyLines;
    var l := y.links[i];
    assert LinkInv(y, l);
    var q := Queued(y, l);
    QueuedAreLines(y, l);
    EmptyRest();
    SplitUnique(q[l.applied..], "");
    assert Stream(q[l.applied..]) + "" == Stream(q[l.applied..]);
    ConcatAssoc(l.input, l.wire, l.output);
    assert q[l.applied..] == q[l.applied..l.applied + (|q| - l.applied)];
    AdvanceMany(y, l, l.replica, now, l.applied, |q| - l.applied);
    AllApplied(y, l, ApplyLines(l.replica, now, q[l.applied..]));
  }

  /** A replica that has applied everything queued for it is at the end of the log. */
  lemma AllApplied(y: System, l: Link, f: Follower)
    requires LogInv(y) && SentSnapshot(y, l) && Follows(y, l, f, |Queued(y, l)|)
    ensures DataOf(f.db) == DataOf(y.leader) && NoTtl(f.db) && Consistent(f.db) && !f.db.undefined && !f.syncing
  {
    hide Contents, Consistent, PointerInv, Conforms, Replayed, Restorable, EntriesMap, Sendable;
    assert |Queued(y, l)| == |l.entries| + 2 + (|y.commands| - l.joined);
  }

  /** Prefix consistency: once its sync is done, a replica holds the data the leader had at some point
      at or after the join, and no other data ever. */
  lemma PrefixConsistent(y: System, i: nat)
    requires Inv(y) && i < |y.links| && y.links[i].applied >= |y.links[i].entries| + 2
    ensures var l := y.links[i];
            && l.joined <= Reached(l, l.applied) < |y.log|
            && DataOf(l.replica.db) == y.log[Reached(l, l.applied)]
  {
    hide LeaderInv, SentSnapshot, Queued, Stream, FindCrlf, Contents, Consistent, Sane, Conforms, Replayed;
    assert LinkInv(y, y.links[i]);
  }

  /** The sync is done exactly when the replica has seen lines and is not inside a sync. */
  lemma SyncDoneIff(y: System, i: nat)
    requires Inv(y) && i < |y.links|
    ensures var l := y.links[i];
            l.applied >= |l.entries| + 2 <==> l.applied > 0 && !l.replica.syncing
  {
    hide LeaderInv, LogInv, SentSnapshot, Queued, Stream, FindCrlf, Contents, Consistent, Sane;
    assert LinkInv(y, y.links[i]);
  }

  /** A drained stream means equality with the leader now. */
  lemma DrainedIsCurrent(y: System, i: nat)
    requires Inv(y) && i < |y.links|
    requires y.links[i].input == "" && y.links[i].wire == "" && y.links[i].output == ""
    ensures DataOf(y.links[i].replica.db) == DataOf(y.leader) && !y.links[i].replica.syncing
  {
    hide Inv, SplitLines;
    Simulation(y, i, 0);
    var l := y.links[i];
    EmptyRest();
    SplitNone("");
    assert l.input + l.wire + l.output == "";
    ApplyNone(l.replica, 0);
  }

  /** One flush that takes the whole output buffer, then one read of everything in flight. */
  function FlushAndRead(y: System, i: nat, now: nat): (z: System)
    requires i < |y.links|
    ensures |z.links| == |y.links|
  {
    var z := Next(y, Flush(i, |y.links[i].output|));
    Next(z, Receive(i, now, |z.links[i].wire|))
  }

  /** That brings a replica up to date. */
  lemma CatchesUp(y: System, i: nat, now: nat)
    requires Inv(y) && i < |y.links|
    ensures var w := FlushAndRead(y, i, now);
            Inv(w) && w.leader == y.leader && DataOf(w.links[i].replica.db) == DataOf(y.leader)
  {
    hide Inv, SplitLines, ApplyLines;
    var l := y.links[i];
    var z := Next(y, Flush(i, |l.output|));
    NextKeepsInv(y, Flush(i, |l.output|));
    var m := z.links[i];
    assert m == l.(wire := l.wire + l.output, output := "");
    NextKeepsInv(z, Receive(i, now, |m.wire|));
    assert m.wire[..|m.wire|] == l.wire + l.output;
    Simulation(y, i, now);
    ConcatAssoc(l.input, l.wire, l.output);
  }

  /** The promise of replication, from the first join to any later state of the fragment. */
  lemma ReplicasConverge(leader: State, acts: seq<Act>, i: nat, now: nat)
    requires LeaderInv(leader) && Conforming(Start(leader), acts) && i < |RunActs(Start(leader), acts).links|
    ensures var y := RunActs(Start(leader), acts);
            var l := y.links[i];
            && |y.log| > 0 && y.log[|y.log| - 1] == DataOf(y.leader)
            && DataOf(ApplyLines(l.replica, now, SplitLines(l.input + l.wire + l.output).lines).db) == DataOf(y.leader)
            && (l.applied > 0 && !l.replica.syncing ==>
                  l.joined <= Reached(l, l.applied) < |y.log| && DataOf(l.replica.db) == y.log[Reached(l, l.applied)])
  {
    StartInv(leader);
    RunKeepsInv(Start(leader), acts);
    var y := RunActs(Start(leader), acts);
    hide Conforming, RunActs, LeaderInv, LinkInv, SplitLines, ApplyLines, Conforms, Replayed, Consistent;
    Simulation(y, i, now);
    SyncDoneIff(y, i);
    if y.links[i].applied > 0 && !y.links[i].replica.syncing {
      PrefixConsistent(y, i);
    }
  }

  // ----- the fragment is not empty -----

  const FIRST_SET: Command := ["SET", "a", "1"]

  function AfterJoin(capacity: nat): System {
    Next(Start(Empty(capacity)), Join(0, []))
  }

  lemma JoinFirst(capacity: nat)
    ensures Possible(Start(Empty(capacity)), Join(0, [])) && InFragment(Start(Empty(capacity)), Join(0, []))
    ensures Inv(AfterJoin(capacity))
  {
    hide Inv, LeaderInv, Payload;
    EmptyLeader(capacity);
    StartInv(Empty(capacity));
    EmptySnapshot(Empty(capacity));
    NextKeepsInv(Start(Empty(capacity)), Join(0, []));
  }

  lemma SetSecond(capacity: nat)
    requires capacity > 0
    ensures InFragment(AfterJoin(capacity), Client(0, FIRST_SET))
    ensures var z := Next(AfterJoin(capacity), Client(0, FIRST_SET));
            && |z.links| == 1 && |z.log| == 2
            && z.links[0].output == Payload([]) + EncodeCommand(FIRST_SET)
            && DataOf(z.leader) == Data(map["a" := "1"], map[])
  {
    hide Payload, EncodeCommand, ExecCommand, Replayed, LeaderInv, Conforms;
    EmptyLeader(capacity);
    SetConforms(capacity);
    SetIsWrite(FIRST_SET);
    LeaderExec(Empty(capacity), 0, FIRST_SET);
    ReplayedSet();
  }

  /** A replica joins an empty leader and a SET follows: a run of the fragment, with a link
      that the theorems above speak about. */
  lemma JoinThenSet(capacity: nat)
    requires capacity > 0
    ensures var y, acts := Start(Empty(capacity)), [Join(0, []), Client(0, FIRST_SET)];
            && LeaderInv(Empty(capacity)) && Conforming(y, acts)
            && var z := RunActs(y, acts);
               && Inv(z) && |z.links| == 1 && |z.log| == 2
               && z.links[0].output == Payload([]) + EncodeCommand(FIRST_SET)
               && DataOf(z.leader) == Data(map["a" := "1"], map[])
  {
    hide Next, Inv, InFragment, LeaderInv, Payload, EncodeCommand;
    JoinFirst(capacity);
    SetSecond(capacity);
    EmptyLeader(capacity);
    NextKeepsInv(AfterJoin(capacity), Client(0, FIRST_SET));
    TwoActs(Start(Empty(capacity)), Join(0, []), Client(0, FIRST_SET));
  }

  lemma TwoActs(y: System, a: Act, b: Act)
    requires Possible(y, a) && InFragment(y, a)
    requires Possible(Next(y, a), b) && InFragment(Next(y, a), b)
    ensures Conforming(y, [a, b]) && RunActs(y, [a, b]) == Next(Next(y, a), b)
  {
    hide Next, Possible, InFragment;
    var z := Next(y, a);
    assert [a, b][1..] == [b] && [b][1..] == [];
    assert Conforming(Next(z, b), []);
    assert Conforming(z, [b]);
    assert RunActs(z, [b]) == RunActs(Next(z, b), []);
  }

  lemma EmptyLeader(capacity: nat)
    ensures LeaderInv(Empty(capacity))
  {
    EmptyFollows(capacity);
  }

  lemma EmptySnapshot(s: State)
    requires s.strings == map[] && s.lists == map[]
    ensures IsSnapshot([], s, 0)
  {
    assert SnapshotSplitAt([], 0, s, 0);
  }

  lemma SetIsWrite(cmd: Command)
    requires cmd == FIRST_SET
    ensures IsWrite(cmd) && KindOf(cmd) == Setting
  {
    UpperPlain("SET");
  }

  lemma SetConforms(capacity: nat)
    requires capacity > 0
    ensures Conforms(Data(map[], map[]), capacity, FIRST_SET)
  {
    hide KindOf;
    SetIsWrite(FIRST_SET);
    var lists: map<string, seq<string>> := map[];
    assert lists - {"a"} == map[];
  }

  lemma ReplayedSet()
    ensures Replayed(Data(map[], map[]), FIRST_SET) == Data(map["a" := "1"], map[])
  {
    hide KindOf, Seen;
    SetIsWrite(FIRST_SET);
    SeenIff(FIRST_SET);
    UpperPlain("SET");
    assert UpperName(FIRST_SET) == FIRST_SET;
    var lists: map<string, seq<string>> := map[];
    assert lists - {"a"} == map[];
  }
}
