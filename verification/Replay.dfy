/** One propagated command: what it does to the leader's stores and to a replica's. */
module Replay {
  import opened Text
  import opened Codec
  import opened Keyspace
  import opened Commands
  import opened Lru
  import opened ExactLru
  import opened Stores
  import opened TimedMap
  import opened Restore
  import opened Wire
  import opened Replica
  import opened FullSync

  /** What replication is about: the two stores. */
  datatype Data = Data(strings: map<string, string>, lists: map<string, seq<string>>)

  function DataOf(s: State): Data {
    Data(s.strings, s.lists)
  }

  /** No deadline is set, so lazy expiry and sweeps do nothing. */
  predicate NoTtl(s: State) {
    s.expiry == map[]
  }

  function Name(cmd: Command): string
    requires cmd != []
  {
    Upper(cmd[0])
  }

  /** The write commands by what they do; the rest, EXPIRE included, is Other. */
  datatype Kind = Setting | Deleting | Pushing(front: bool) | Popping(front: bool) | Other

  function KindOf(cmd: Command): Kind {
    if cmd == [] then Other
    else if Name(cmd) == "SET" then Setting
    else if Name(cmd) == "DEL" then Deleting
    else if Name(cmd) == "LPUSH" then Pushing(true)
    else if Name(cmd) == "RPUSH" then Pushing(false)
    else if Name(cmd) == "LPOP" then Popping(true)
    else if Name(cmd) == "RPOP" then Popping(false)
    else Other
  }

  /** The write commands other than EXPIRE. */
  predicate Replicated(cmd: Command) {
    KindOf(cmd) != Other
  }

  lemma ReplicatedIff(cmd: Command)
    ensures Replicated(cmd) <==> IsWrite(cmd) && Name(cmd) != "EXPIRE"
  {
  }

  function DataItems(d: Data, key: string): seq<string> {
    if key in d.lists then d.lists[key] else []
  }

  function WithItems(d: Data, key: string, xs: seq<string>): Data {
    d.(lists := if xs == [] then d.lists - {key} else d.lists[key := xs])
  }

  /** What a command does to the stores when nobody checks arity or type. */
  function Unchecked(d: Data, cmd: Command): Data {
    match KindOf(cmd)
    case Setting => if |cmd| < 3 then d else Data(d.strings[cmd[1] := cmd[2]], d.lists - {cmd[1]})
    case Deleting => if |cmd| < 2 then d else Data(d.strings - {cmd[1]}, d.lists - {cmd[1]})
    case Pushing(front) =>
      if |cmd| < 3 then d
      else
        var xs := DataItems(d, cmd[1]);
        d.(lists := d.lists[cmd[1] := if front then [cmd[2]] + xs else xs + [cmd[2]]])
    case Popping(front) =>
      if |cmd| < 2 || DataItems(d, cmd[1]) == [] then d
      else
        var xs := DataItems(d, cmd[1]);
        WithItems(d, cmd[1], if front then xs[1..] else xs[..|xs| - 1])
    case Other => d
  }

  /** The leader answers with an error. */
  predicate Rejected(d: Data, cmd: Command) {
    match KindOf(cmd)
    case Setting => |cmd| != 3
    case Deleting => |cmd| != 2
    case Pushing(_) => |cmd| != 3 || cmd[1] in d.strings
    case Popping(_) => |cmd| != 2 || cmd[1] in d.strings
    case Other => false
  }

  /** The command finds nothing to change. */
  predicate Idle(d: Data, cmd: Command) {
    match KindOf(cmd)
    case Setting => |cmd| < 3 || (cmd[1] in d.strings && d.strings[cmd[1]] == cmd[2])
    case Deleting => |cmd| < 2 || (cmd[1] !in d.strings && cmd[1] !in d.lists)
    case Pushing(_) => |cmd| < 3
    case Popping(_) => |cmd| < 2 || cmd[1] !in d.lists
    case Other => true
  }

  /** A rejected command that nevertheless changes a replica with the same data. */
  predicate Misapplied(d: Data, cmd: Command) {
    Rejected(d, cmd) && !Idle(d, cmd)
  }

  /** A SET that has room without evicting. */
  predicate Fits(d: Data, capacity: nat, cmd: Command) {
    KindOf(cmd) == Setting && |cmd| >= 3 ==>
      cmd[1] in d.strings || |d.strings| + |d.lists - {cmd[1]}| < capacity
  }

  lemma ApplyLiveByKind(s: State, now: nat, cmd: Command)
    requires Replicated(cmd)
    ensures ApplyLive(s, now, Name(cmd), UpperName(cmd)) ==
            match KindOf(cmd)
            case Setting => if |cmd| < 3 then s else Set(s, cmd[1], cmd[2])
            case Deleting => if |cmd| < 2 then s else Drop(s, cmd[1])
            case Pushing(front) => if |cmd| < 3 then s else Push(s, cmd[1], cmd[2], front).0
            case Popping(front) => if |cmd| < 2 then s else Pop(s, now, cmd[1], front).0
            case Other => s
  {
    hide Upper, Set, Push, Pop, Drop, ApplyExpire;
    var args := UpperName(cmd);
    assert forall i :: 0 < i < |cmd| ==> args[i] == cmd[i];
  }

  lemma ClassifyByKind(cmd: Command)
    requires Replicated(cmd)
    ensures match KindOf(cmd)
            case Setting => Classify(cmd) == if |cmd| == 3 then SetReq(cmd[1], cmd[2]) else WrongArity("set")
            case Deleting => Classify(cmd) == if |cmd| == 2 then DelReq(cmd[1]) else WrongArity("del")
            case Pushing(front) =>
              if |cmd| == 3 then Classify(cmd) == PushReq(cmd[1], cmd[2], front) else Classify(cmd).Immediate?
            case Popping(front) =>
              if |cmd| == 2 then Classify(cmd) == PopReq(cmd[1], front) else Classify(cmd).Immediate?
            case Other => true
  {
    hide Upper;
  }

  // ----- the replica -----

  predicate Capitals(s: string) {
    forall i :: 0 <= i < |s| ==> 'A' <= s[i] <= 'Z'
  }

  lemma WriteNamesAreCapitals(name: string)
    requires IsWriteName(name)
    ensures Capitals(name) && name != "" && name != "REPLSET" && name != "REPLLIST"
  {
  }

  lemma CapitalsArePlain(name: string)
    requires Capitals(name)
    ensures Encode(name) == name && Upper(name) == name
  {
    hide Encode, Upper;
    EncodePlain(name);
    UpperPlain(name);
  }

  lemma {:induction false} EncodePlain(s: string)
    requires '%' !in s && ' ' !in s && '\r' !in s && '\n' !in s
    ensures Encode(s) == s
  {
    if s != "" {
      EncodePlain(s[1..]);
      assert s == [s[0]] + s[1..];
    }
  }

  lemma CommandLineStart(cmd: Command)
    requires cmd != [] && Encode(Name(cmd)) == Name(cmd) && Capitals(Name(cmd)) && Name(cmd) != ""
    ensures CommandLine(cmd) != "" && CommandLine(cmd) != SYNC_START && CommandLine(cmd) != SYNC_DONE
  {
    hide Encode;
    assert Words(cmd)[0] == Name(cmd);
    assert CommandLine(cmd)[0] == Name(cmd)[0];
  }

  /** The first word that is seen of a write command is its name. */
  lemma SeenName(cmd: Command)
    requires IsWrite(cmd)
    ensures var w := Seen(cmd);
            w != [] && w[0] == Name(cmd) && Name(w) == Name(cmd) && UpperName(w) == w && IsWrite(w)
  {
    hide Upper, Pieces;
    WriteNamesAreCapitals(Name(cmd));
    CapitalsArePlain(Name(cmd));
    CapitalsAreClean(Name(cmd));
    CleanIsOnePiece(Name(cmd));
  }

  /** The words that are seen of a write command are a write command of the same kind. */
  lemma SeenKind(cmd: Command)
    requires Replicated(cmd)
    ensures var w := Seen(cmd);
            && w != [] && w[0] == Name(cmd) && Name(w) == Name(cmd) && UpperName(w) == w
            && KindOf(w) == KindOf(cmd) && Replicated(w)
  {
    hide Upper, Seen;
    ReplicatedIff(cmd);
    SeenName(cmd);
  }

  lemma CapitalsAreClean(name: string)
    requires Capitals(name) && name != ""
    ensures CleanToken(name)
  {
  }

  /** The line of a write command, whatever its arguments hold, reaches the replica's database as the
      command that is seen of it. */
  lemma ApplyAnyLine(f: Follower, now: nat, cmd: Command)
    requires IsWrite(cmd)
    ensures ApplyLine(f, now, CommandLine(cmd)) == f.(db := ApplyLive(f.db, now, Name(cmd), Seen(cmd)))
  {
    hide CommandLine, Tokens, Encode, Decoded, ApplyLive, Seen, ApplyReplSet, ApplyReplList, Upper, IsWriteName, Capitals;
    WriteNamesAreCapitals(Name(cmd));
    CapitalsArePlain(Name(cmd));
    CommandLineStart(cmd);
    SeenOnWire(cmd);
    SeenName(cmd);
    assert Tokens(CommandLine(cmd))[0] == Encode(Seen(cmd)[0]);
  }

  /** The line of a clean write command reaches it as that command. */
  lemma ApplyCommandLine(f: Follower, now: nat, cmd: Command)
    requires CleanCommand(cmd) && Replicated(cmd)
    ensures ApplyLine(f, now, CommandLine(cmd)) == f.(db := ApplyLive(f.db, now, Name(cmd), UpperName(cmd)))
  {
    hide ApplyLine, CommandLine, ApplyLive, Seen, KindOf, CleanCommand, Upper;
    ReplicatedIff(cmd);
    ApplyAnyLine(f, now, cmd);
    SeenIff(cmd);
  }

  lemma SetWithoutEviction(s: State, key: string, value: string)
    requires NoTtl(s) && (key in s.strings || |s.strings| + |s.lists - {key}| < s.capacity)
    ensures var t := Set(s, key, value);
            && DataOf(t) == Data(s.strings[key := value], s.lists - {key})
            && NoTtl(t) && t.capacity == s.capacity
  {
    hide Set, Victims;
    if key !in s.strings {
      RoomEvictsNothing(s, key, value);
    } else {
      NoVictims(s, key);
    }
    SetFrame(s, key, value);
    assert s.strings - {} == s.strings && s.lists - {key} - {} == s.lists - {key};
  }

  lemma NoVictims(s: State, key: string)
    requires key in s.strings
    ensures Victims(s, key) == {}
  {
  }

  lemma NoTtlPurge(s: State, now: nat, key: string)
    requires NoTtl(s)
    ensures Purge(s, now, key) == s && !IsExpired(s, now, key)
  {
  }

  lemma PopData(s: State, now: nat, key: string, front: bool)
    requires NoTtl(s)
    ensures var t, d := Pop(s, now, key, front).0, DataOf(s);
            var xs := DataItems(d, key);
            && DataOf(t) == (if xs == [] then d else WithItems(d, key, if front then xs[1..] else xs[..|xs| - 1]))
            && NoTtl(t) && t.capacity == s.capacity
  {
    hide Purge;
    NoTtlPurge(s, now, key);
  }

  /** A replica's database follows the unchecked command, whatever its arity. */
  lemma ReplicaFollows(s: State, now: nat, cmd: Command)
    requires NoTtl(s) && Replicated(cmd) && Fits(DataOf(s), s.capacity, cmd)
    ensures var t := ApplyLive(s, now, Name(cmd), UpperName(cmd));
            DataOf(t) == Unchecked(DataOf(s), cmd) && NoTtl(t) && t.capacity == s.capacity
  {
    hide ApplyLive, KindOf, Set, Pop, UpperName;
    ApplyLiveByKind(s, now, cmd);
    match KindOf(cmd) {
      case Setting => if |cmd| >= 3 { SetWithoutEviction(s, cmd[1], cmd[2]); }
      case Popping(front) => if |cmd| >= 2 { PopData(s, now, cmd[1], front); }
      case _ =>
    }
  }

  // ----- the leader -----

  lemma ExecNoTtl(s: State, now: nat, req: Request)
    requires NoTtl(s)
    ensures match req
            case SetReq(key, value) => Exec(s, now, req).0 == Set(s, key, value)
            case DelReq(key) => Exec(s, now, req).0 == Drop(s, key)
            case PushReq(key, value, front) =>
              Exec(s, now, req).0 == if key in s.strings then s else Push(s, key, value, front).0
            case PopReq(key, front) =>
              Exec(s, now, req).0 == if key in s.strings then s else Pop(s, now, key, front).0
            case Immediate(_) => Exec(s, now, req).0 == s
            case _ => true
  {
    hide Set, Push, Pop, Drop, Purge;
    if req.PushReq? || req.PopReq? {
      NoTtlPurge(s, now, req.key);
    }
  }

  lemma PushData(s: State, key: string, value: string, front: bool)
    requires NoTtl(s)
    ensures var t, xs := Push(s, key, value, front).0, DataItems(DataOf(s), key);
            && DataOf(t) == Data(s.strings, s.lists[key := if front then [value] + xs else xs + [value]])
            && NoTtl(t) && t.capacity == s.capacity
  {
  }

  lemma NoItems(s: State, key: string)
    requires Consistent(s)
    ensures key in s.strings ==> DataItems(DataOf(s), key) == []
  {
  }

  lemma DropData(s: State, key: string)
    requires NoTtl(s)
    ensures DataOf(Drop(s, key)) == Data(s.strings - {key}, s.lists - {key})
    ensures NoTtl(Drop(s, key)) && Drop(s, key).capacity == s.capacity
  {
  }

  /** The leader's database follows the command unless it is rejected. */
  lemma LeaderFollows(s: State, now: nat, cmd: Command)
    requires NoTtl(s) && Consistent(s) && Replicated(cmd)
    requires Rejected(DataOf(s), cmd) || Fits(DataOf(s), s.capacity, cmd)
    ensures var t, d := ExecCommand(s, now, cmd).0, DataOf(s);
            && DataOf(t) == (if Rejected(d, cmd) then d else Unchecked(d, cmd))
            && NoTtl(t) && t.capacity == s.capacity
  {
    hide Classify, KindOf, Set, Pop, Push, Drop, Exec, WithItems, DataItems;
    ClassifyByKind(cmd);
    ReplicatedIff(cmd);
    ExecNoTtl(s, now, Classify(cmd));
    match KindOf(cmd) {
      case Setting => if |cmd| == 3 { SetWithoutEviction(s, cmd[1], cmd[2]); }
      case Deleting => if |cmd| == 2 { DropData(s, cmd[1]); }
      case Pushing(front) => if |cmd| == 3 { PushData(s, cmd[1], cmd[2], front); }
      case Popping(front) =>
        if |cmd| == 2 {
          PopData(s, now, cmd[1], front);
          NoItems(s, cmd[1]);
        }
      case Other =>
    }
  }

  lemma IdleIff(s: State, cmd: Command)
    requires Consistent(s)
    ensures Idle(DataOf(s), cmd) <==> Unchecked(DataOf(s), cmd) == DataOf(s)
  {
    hide KindOf;
    var d := DataOf(s);
    if KindOf(cmd) == Setting && |cmd| >= 3 && cmd[1] in d.strings {
      assert d.lists - {cmd[1]} == d.lists;
    }
    if KindOf(cmd).Deleting? && |cmd| >= 2 && Idle(d, cmd) {
      assert d.strings - {cmd[1]} == d.strings && d.lists - {cmd[1]} == d.lists;
    }
  }

  lemma MisappliedIff(s: State, cmd: Command)
    requires Consistent(s)
    ensures var d := DataOf(s);
            Misapplied(d, cmd) <==> Rejected(d, cmd) && Unchecked(d, cmd) != d
  {
    hide KindOf, Idle, Unchecked, Rejected;
    IdleIff(s, cmd);
  }

  // ----- leader and replica after one command -----

  /** The keys named by the nodes that a SET of `key` pops. */
  function Popped(s: State, key: string): set<string> {
    if key in s.strings then {} else TailKeys(SetPrepare(s, key).order, Pops(SetPrepare(s, key)))
  }

  /** A SET of `key` pops nodes that name the same stored keys in both databases. */
  predicate SamePopped(a: State, b: State, key: string) {
    forall k :: k in a.strings.Keys + a.lists.Keys && k != key ==> (k in Popped(a, key) <==> k in Popped(b, key))
  }

  lemma PoppedAreVictims(s: State, key: string)
    ensures Popped(s, key) == Victims(s, key)
  {
    EvictedIsTail(SetPrepare(s, key));
  }

  /** Evictions included: two databases with the same data hold the same data after the same SET exactly when
      it pops nodes naming the same stored keys. */
  lemma SetAgreesIff(a: State, b: State, key: string, value: string)
    requires DataOf(a) == DataOf(b)
    ensures DataOf(Set(a, key, value)) == DataOf(Set(b, key, value)) <==> SamePopped(a, b, key)
  {
    hide Set, Victims, Popped;
    SetFrame(a, key, value);
    SetFrame(b, key, value);
    PoppedAreVictims(a, key);
    PoppedAreVictims(b, key);
    SameLeft(a.strings, key, value, Victims(a, key), Victims(b, key));
    WithoutSame(a.lists, key, Victims(a, key), Victims(b, key));
  }

  lemma SameLeft(m: map<string, string>, key: string, value: string, x: set<string>, y: set<string>)
    ensures (m - x)[key := value] == (m - y)[key := value] <==> forall k :: k in m && k != key ==> (k in x <==> k in y)
  {
    var t, u := (m - x)[key := value], (m - y)[key := value];
    forall k | k in m && k != key
      ensures k in t <==> k !in x
      ensures k in u <==> k !in y
    {
    }
  }

  lemma WithoutSame<V>(m: map<string, V>, key: string, x: set<string>, y: set<string>)
    ensures m - {key} - x == m - {key} - y <==> forall k :: k in m && k != key ==> (k in x <==> k in y)
  {
    var t, u := m - {key} - x, m - {key} - y;
    forall k | k in m && k != key
      ensures k in t <==> k !in x
      ensures k in u <==> k !in y
    {
    }
  }

  lemma SetIdleIff(s: State, key: string, value: string)
    requires s.strings.Keys !! s.lists.Keys
    ensures DataOf(Set(s, key, value)) == DataOf(s) <==> key in s.strings && s.strings[key] == value
  {
    hide Set, Victims;
    SetFrame(s, key, value);
    if key in s.strings {
      NoVictims(s, key);
      assert s.strings - {} == s.strings && s.lists - {key} - {} == s.lists;
    }
  }

  /** Two different SETs leave the same data only if neither changes anything. */
  lemma SetsDiffer(a: State, b: State, key: string, value: string, key': string, value': string)
    requires DataOf(a) == DataOf(b) && a.strings.Keys !! a.lists.Keys && (key != key' || value != value')
    ensures DataOf(Set(a, key, value)) == DataOf(Set(b, key', value')) <==>
            DataOf(Set(a, key, value)) == DataOf(a) && DataOf(Set(b, key', value')) == DataOf(b)
  {
    hide Set, Victims;
    SetFrame(a, key, value);
    SetFrame(b, key', value');
    SetIdleIff(a, key, value);
    SetIdleIff(b, key', value');
    var t, u := Set(a, key, value), Set(b, key', value');
    assert t.strings[key] == value && u.strings[key'] == value';
    if t.strings == u.strings {
      assert key != key';
      assert u.strings[key] == b.strings[key] && t.strings[key'] == a.strings[key'];
    }
  }

  /** The same for the other commands, on the data. */
  lemma OthersDiffer(s: State, cmd: Command, w: Command)
    requires Consistent(s) && KindOf(w) == KindOf(cmd) && KindOf(cmd) != Setting && |cmd| >= 2
    requires KindOf(cmd).Pushing? ==> |cmd| >= 3
    requires |w| >= 2 && w[1] == cmd[1] ==> KindOf(cmd).Pushing? && (|w| < 3 || w[2] != cmd[2])
    ensures var d := DataOf(s);
            Unchecked(d, cmd) == Unchecked(d, w) <==> Idle(d, cmd) && Idle(d, w)
  {
    hide KindOf, Idle, Consistent, Unchecked;
    var d := DataOf(s);
    IdleIff(s, cmd);
    IdleIff(s, w);
    if Unchecked(d, cmd) == Unchecked(d, w) && !(Idle(d, cmd) && Idle(d, w)) {
      match KindOf(cmd) {
        case Pushing(_) => PushesDiffer(d, cmd, w);
        case Popping(_) => PopsDiffer(s, cmd, w);
        case _ => DeletesDiffer(d, cmd, w);
      }
    }
  }

  lemma DeletesDiffer(d: Data, cmd: Command, w: Command)
    requires KindOf(w) == KindOf(cmd) && (KindOf(cmd).Deleting? || KindOf(cmd).Other?) && |cmd| >= 2
    requires |w| < 2 || w[1] != cmd[1]
    requires Unchecked(d, cmd) == Unchecked(d, w)
    ensures Unchecked(d, cmd) == d && Unchecked(d, w) == d
  {
    hide KindOf;
    if KindOf(cmd).Deleting? {
      var k := cmd[1];
      assert k !in Unchecked(d, cmd).strings && k !in Unchecked(d, cmd).lists;
      assert k !in d.strings && k !in d.lists;
      assert d.strings - {k} == d.strings && d.lists - {k} == d.lists;
    }
  }

  lemma PushesDiffer(d: Data, cmd: Command, w: Command)
    requires KindOf(w) == KindOf(cmd) && KindOf(cmd).Pushing? && |cmd| >= 3
    requires |w| < 3 || w[1] != cmd[1] || w[2] != cmd[2]
    ensures Unchecked(d, cmd) != Unchecked(d, w)
  {
    hide KindOf;
    var xs, ys := Unchecked(d, cmd).lists, Unchecked(d, w).lists;
    var k, items := cmd[1], DataItems(d, cmd[1]);
    assert k in xs && |xs[k]| == |items| + 1;
    if |w| >= 3 && w[1] == k {
      if KindOf(cmd).front {
        assert xs[k][0] == cmd[2] && ys[k][0] == w[2];
      } else {
        assert xs[k][|items|] == cmd[2] && ys[k][|items|] == w[2];
      }
    } else {
      assert k in ys ==> ys[k] == items;
    }
  }

  lemma PopsDiffer(s: State, cmd: Command, w: Command)
    requires Consistent(s) && KindOf(w) == KindOf(cmd) && KindOf(cmd).Popping? && |cmd| >= 2
    requires |w| < 2 || w[1] != cmd[1]
    requires Unchecked(DataOf(s), cmd) == Unchecked(DataOf(s), w)
    ensures Unchecked(DataOf(s), cmd) == DataOf(s) && Unchecked(DataOf(s), w) == DataOf(s)
  {
    hide KindOf;
    PopIsLocal(DataOf(s), cmd);
    PopIsLocal(DataOf(s), w);
  }

  /** A pop shortens one list and leaves the others. */
  lemma PopIsLocal(d: Data, cmd: Command)
    requires KindOf(cmd).Popping?
    ensures var e := Unchecked(d, cmd);
            if |cmd| < 2 || DataItems(d, cmd[1]) == [] then e == d
            else
              && |DataItems(e, cmd[1])| < |DataItems(d, cmd[1])|
              && forall k :: k != cmd[1] ==> DataItems(e, k) == DataItems(d, k)
  {
    hide KindOf;
  }

  lemma LeaderData(s: State, now: nat, cmd: Command)
    requires NoTtl(s) && Consistent(s) && Replicated(cmd)
    ensures var d := DataOf(s);
            DataOf(ExecCommand(s, now, cmd).0) ==
            if Rejected(d, cmd) then d
            else if KindOf(cmd) == Setting then DataOf(Set(s, cmd[1], cmd[2]))
            else Unchecked(d, cmd)
  {
    hide Classify, KindOf, Set, Exec, Unchecked;
    if KindOf(cmd) == Setting {
      ReplicatedIff(cmd);
      ClassifyByKind(cmd);
      ExecNoTtl(s, now, Classify(cmd));
    } else {
      LeaderFollows(s, now, cmd);
    }
  }

  lemma ReplicaData(s: State, now: nat, w: Command)
    requires NoTtl(s) && Replicated(w) && UpperName(w) == w
    ensures DataOf(ApplyLive(s, now, Name(w), w)) ==
            if KindOf(w) != Setting then Unchecked(DataOf(s), w)
            else if |w| < 3 then DataOf(s) else DataOf(Set(s, w[1], w[2]))
  {
    hide ApplyLive, KindOf, Set, UpperName, Unchecked;
    if KindOf(w) == Setting {
      ApplyLiveByKind(s, now, w);
    } else {
      ReplicaFollows(s, now, w);
    }
  }

  /** Evictions apart, a replica that holds the leader's data still holds it after a command. A clean command that is
      rejected must find nothing to change. Of any other command but an accepted clean one the leader must change
      nothing, and the words that the replica sees must change nothing. */
  predicate DataSurvives(d: Data, cmd: Command) {
    if CleanCommand(cmd) then Rejected(d, cmd) ==> Idle(d, cmd)
    else (Rejected(d, cmd) || Idle(d, cmd)) && Idle(d, Seen(cmd))
  }

  /** Evictions included: an accepted SET must besides pop nodes naming the same keys on both sides. */
  predicate Survives(leader: State, replica: State, cmd: Command) {
    && DataSurvives(DataOf(leader), cmd)
    && (CleanCommand(cmd) && KindOf(cmd) == Setting && !Rejected(DataOf(leader), cmd) ==>
          SamePopped(leader, replica, cmd[1]))
  }

  lemma CleanSurvivesIff(leader: State, replica: State, now: nat, applied: nat, cmd: Command)
    requires DataOf(replica) == DataOf(leader)
    requires NoTtl(leader) && NoTtl(replica) && Consistent(leader) && Replicated(cmd) && CleanCommand(cmd)
    ensures DataOf(ExecCommand(leader, now, cmd).0) == DataOf(ApplyLive(replica, applied, Name(cmd), Seen(cmd))) <==>
            Survives(leader, replica, cmd)
  {
    hide ApplyLive, ExecCommand, KindOf, Unchecked, Set, CleanCommand, SamePopped, Seen, Idle;
    var d, w := DataOf(leader), Seen(cmd);
    SeenIff(cmd);
    SeenKind(cmd);
    LeaderData(leader, now, cmd);
    ReplicaData(replica, applied, w);
    UpperNameSame(d, cmd);
    IdleIff(leader, w);
    if KindOf(cmd) == Setting {
      if |cmd| == 3 {
        SetAgreesIff(leader, replica, cmd[1], cmd[2]);
      } else if |cmd| > 3 {
        SetIdleIff(replica, cmd[1], cmd[2]);
        IdleSet(d, cmd);
      } else {
        IdleSet(d, cmd);
      }
    }
  }

  lemma IdleSet(d: Data, cmd: Command)
    requires KindOf(cmd) == Setting
    ensures Idle(d, cmd) <==> |cmd| < 3 || (cmd[1] in d.strings && d.strings[cmd[1]] == cmd[2])
  {
    hide KindOf;
  }

  lemma UpperNameSame(d: Data, cmd: Command)
    requires Replicated(cmd) && KindOf(UpperName(cmd)) == KindOf(cmd)
    ensures Unchecked(d, UpperName(cmd)) == Unchecked(d, cmd) && (Idle(d, UpperName(cmd)) <==> Idle(d, cmd))
    ensures |UpperName(cmd)| == |cmd| && forall i :: 0 < i < |cmd| ==> UpperName(cmd)[i] == cmd[i]
  {
    hide KindOf;
  }

  /** What a command leaves of the data, as a replica computes it from what it sees. */
  function Replayed(d: Data, cmd: Command): Data {
    Unchecked(d, Seen(cmd))
  }

  /** A surviving command leaves on the leader what a replica computes. */
  lemma SurvivorIsReplayed(s: State, cmd: Command)
    requires Consistent(s) && Replicated(cmd) && DataSurvives(DataOf(s), cmd)
    ensures (if Rejected(DataOf(s), cmd) then DataOf(s) else Unchecked(DataOf(s), cmd)) == Replayed(DataOf(s), cmd)
  {
    hide KindOf, Unchecked, Consistent, CleanCommand, Seen, Idle, Rejected;
    SeenIff(cmd);
    SeenKind(cmd);
    IdleIff(s, cmd);
    IdleIff(s, Seen(cmd));
    if CleanCommand(cmd) {
      UpperNameSame(DataOf(s), cmd);
    }
  }

  lemma UncleanDiffers(cmd: Command)
    requires Replicated(cmd) && !CleanCommand(cmd)
    ensures var w := Seen(cmd);
            && (|cmd| == 2 && |w| >= 2 ==> w[1] != cmd[1])
            && (|cmd| == 3 && |w| >= 3 ==> w[1] != cmd[1] || w[2] != cmd[2])
  {
    hide CleanToken, Seen;
    SeenIff(cmd);
    NameIsClean(cmd);
    var w := Seen(cmd);
    assert |w| >= 2 ==> w[1] in w;
    assert |w| >= 3 ==> w[2] in w;
  }

  lemma NameIsClean(cmd: Command)
    requires Replicated(cmd)
    ensures CleanToken(cmd[0])
  {
    hide KindOf, CleanToken;
    ReplicatedIff(cmd);
    WriteNamesAreCapitals(Name(cmd));
    CapitalsAreClean(Name(cmd));
    UpperClean(cmd[0]);
  }

  lemma UncleanSurvivesIff(leader: State, replica: State, now: nat, applied: nat, cmd: Command)
    requires DataOf(replica) == DataOf(leader)
    requires NoTtl(leader) && NoTtl(replica) && Consistent(leader) && Replicated(cmd) && !CleanCommand(cmd)
    ensures DataOf(ExecCommand(leader, now, cmd).0) == DataOf(ApplyLive(replica, applied, Name(cmd), Seen(cmd))) <==>
            Survives(leader, replica, cmd)
  {
    hide ApplyLive, ExecCommand, KindOf, Unchecked, Set, CleanCommand, Seen, Idle;
    var d, w := DataOf(leader), Seen(cmd);
    SeenKind(cmd);
    LeaderData(leader, now, cmd);
    ReplicaData(replica, applied, w);
    UncleanDiffers(cmd);
    IdleIff(leader, w);
    if KindOf(cmd) == Setting {
      UncleanSet(leader, replica, cmd, w);
    } else if !Rejected(d, cmd) {
      IdleIff(leader, cmd);
      OthersDiffer(leader, cmd, w);
    }
  }

  lemma UncleanSet(leader: State, replica: State, cmd: Command, w: Command)
    requires DataOf(replica) == DataOf(leader) && leader.strings.Keys !! leader.lists.Keys
    requires KindOf(cmd) == Setting && KindOf(w) == Setting
    requires |cmd| == 3 && |w| >= 3 ==> w[1] != cmd[1] || w[2] != cmd[2]
    ensures var d := DataOf(leader);
            (if |cmd| != 3 then d else DataOf(Set(leader, cmd[1], cmd[2]))) ==
            (if |w| < 3 then d else DataOf(Set(replica, w[1], w[2]))) <==>
            (|cmd| != 3 || Idle(d, cmd)) && Idle(d, w)
  {
    hide KindOf, Set, Idle;
    var d := DataOf(leader);
    IdleSet(d, cmd);
    IdleSet(d, w);
    if |cmd| == 3 { SetIdleIff(leader, cmd[1], cmd[2]); }
    if |w| >= 3 { SetIdleIff(replica, w[1], w[2]); }
    if |cmd| == 3 && |w| >= 3 { SetsDiffer(leader, replica, cmd[1], cmd[2], w[1], w[2]); }
  }

  /** Leader and replica that hold the same data hold the same data after any write command but EXPIRE, whatever its
      arity, its tokens and its evictions, exactly when it survives. */
  lemma ReplayAgreesIff(leader: State, replica: Follower, now: nat, applied: nat, cmd: Command)
    requires DataOf(replica.db) == DataOf(leader)
    requires NoTtl(leader) && NoTtl(replica.db) && Consistent(leader) && Replicated(cmd)
    ensures DataOf(ExecCommand(leader, now, cmd).0) == DataOf(ApplyLine(replica, applied, CommandLine(cmd)).db) <==>
            Survives(leader, replica.db, cmd)
  {
    hide ApplyLine, ApplyLive, ExecCommand, KindOf, Survives, Consistent, CommandLine, CleanCommand, Seen, Upper;
    ReplicatedIff(cmd);
    ApplyAnyLine(replica, applied, cmd);
    if CleanCommand(cmd) {
      CleanSurvivesIff(leader, replica.db, now, applied, cmd);
    } else {
      UncleanSurvivesIff(leader, replica.db, now, applied, cmd);
    }
  }

  // ----- deadlines -----

  /** The number of words is right, and an EXPIRE has a number of seconds that is not negative. */
  predicate Accepted(cmd: Command) {
    && cmd != [] && |cmd| == WordCount(Name(cmd))
    && (Name(cmd) == "EXPIRE" ==> |cmd| == 3 && Stoll(cmd[2]).Some? && Stoll(cmd[2]).value >= 0)
  }

  /** A push onto a key that is a string or whose deadline has passed. */
  predicate PushesBlindly(s: State, now: nat, cmd: Command) {
    KindOf(cmd).Pushing? && |cmd| >= 2 && (cmd[1] in s.strings || IsExpired(s, now, cmd[1]))
  }

  lemma PushStateIff(s: State, now: nat, key: string, value: string, front: bool)
    requires Consistent(s)
    ensures Push(s, key, value, front).0 == Exec(s, now, PushReq(key, value, front)).0 <==>
            key !in s.strings && !IsExpired(s, now, key)
  {
    hide Purge;
    PurgeFrame(s, now, key);
    if !IsExpired(s, now, key) {
      NotExpired(s, now, key);
    }
    assert key in Push(s, key, value, front).0.lists && |Push(s, key, value, front).0.lists[key]| > |Items(s, key)|;
  }

  lemma NotExpired(s: State, now: nat, key: string)
    requires !IsExpired(s, now, key)
    ensures Purge(s, now, key) == s
  {
  }

  lemma PopState(s: State, now: nat, key: string, front: bool)
    requires Consistent(s)
    ensures Pop(s, now, key, front).0 == Exec(s, now, PopReq(key, front)).0
  {
    hide Purge, Shrink;
    PurgeTwice(s, now, key);
    PurgeFrame(s, now, key);
    if !IsExpired(s, now, key) {
      NotExpired(s, now, key);
    } else {
      assert key !in Purge(s, now, key).lists;
    }
  }

  /** Deadlines included: to an accepted write command a replica does what the command layer would do to the same database
      at the same time, exactly unless it is a push onto a string or onto a key whose deadline has passed. */
  lemma ReplicaExecutesIff(s: State, now: nat, cmd: Command)
    requires Consistent(s) && IsWrite(cmd) && Accepted(cmd)
    ensures ApplyLive(s, now, Name(cmd), UpperName(cmd)) == ExecCommand(s, now, cmd).0 <==> !PushesBlindly(s, now, cmd)
  {
    hide Upper, Set, Push, Pop, Expire, Drop, Stoll, Exec, ApplyLive, UpperName, KindOf, Classify, IsExpired;
    ReplicatedIff(cmd);
    if Name(cmd) == "EXPIRE" {
      ExpireIsExec(s, now, cmd);
    } else {
      ApplyLiveByKind(s, now, cmd);
      ClassifyByKind(cmd);
      AcceptedIs(cmd);
      match KindOf(cmd) {
        case Setting => SetIsExec(s, now, cmd[1], cmd[2]);
        case Deleting => SetIsExec(s, now, cmd[1], "");
        case Pushing(front) => PushStateIff(s, now, cmd[1], cmd[2], front);
        case Popping(front) => PopState(s, now, cmd[1], front);
        case Other =>
      }
    }
  }

  lemma AcceptedIs(cmd: Command)
    requires Accepted(cmd)
    ensures KindOf(cmd) == Setting || KindOf(cmd).Pushing? ==> |cmd| == 3
    ensures KindOf(cmd) == Deleting || KindOf(cmd).Popping? ==> |cmd| == 2
  {
    hide Upper;
    WordCountIs(Name(cmd));
  }

  lemma SetIsExec(s: State, now: nat, key: string, value: string)
    ensures Exec(s, now, SetReq(key, value)).0 == Set(s, key, value)
    ensures Exec(s, now, DelReq(key)).0 == Drop(s, key)
  {
    hide Set, Drop;
  }

  lemma ExpireIsExec(s: State, now: nat, cmd: Command)
    requires cmd != [] && Name(cmd) == "EXPIRE" && Accepted(cmd)
    ensures ApplyLive(s, now, Name(cmd), UpperName(cmd)) == ExecCommand(s, now, cmd).0
    ensures KindOf(cmd) == Other
  {
    hide Upper, Expire, Stoll, Set, Push, Pop, Drop, WordCount;
    assert UpperName(cmd)[1] == cmd[1] && UpperName(cmd)[2] == cmd[2];
  }

  /** EXPIRE by any number of milliseconds, seen on the live keys. */
  lemma ExpireLive(s: State, now: nat, key: string, ms: int)
    requires Consistent(s)
    ensures var m, t := Live(Contents(s), now), Expire(s, now, key, ms).0;
            Live(Contents(t), now) ==
            if key in m then Live(m[key := Entry(m[key].value, Some(now + ms))], now) else m
  {
    hide Purge, Contents, Consistent;
    var p := Purge(s, now, key);
    PurgeContents(s, now, key);
    PurgeTwice(s, now, key);
    PurgeFrame(s, now, key);
    ContentsAt(p, key);
    LiveLater(Contents(s), now, now);
    if Has(p, key) && !IsExpired(s, now, key) {
      var q := p.(expiry := p.expiry[key := now + ms]);
      DeadlineContents(p, key, now + ms);
      SameStoresContents(q, Expire(s, now, key, ms).0);
      LiveUpdated(Contents(p), now, key, Entry(Contents(p)[key].value, Some(now + ms)));
    }
  }

  lemma LiveUpdated(m: Timed, now: nat, key: string, e: Entry)
    ensures Live(m[key := e], now) == Live(Live(m, now)[key := e], now)
  {
  }

  lemma SeenExpire(key: string, n: int)
    requires CleanToken(key)
    ensures var cmd := ["EXPIRE", key, Show(n)];
            IsWrite(cmd) && Name(cmd) == "EXPIRE" && Seen(cmd) == cmd
  {
    hide CleanToken, Show, Seen;
    var cmd := ["EXPIRE", key, Show(n)];
    UpperPlain("EXPIRE");
    CapitalsAreClean("EXPIRE");
    ShowIsClean(n);
    SeenIff(cmd);
    assert UpperName(cmd) == cmd;
  }

  lemma ShowIsClean(n: int)
    ensures CleanToken(Show(n))
  {
    var s := Show(n);
    assert forall i :: 0 <= i < |s| ==> IsDigit(s[i]) || s[i] == '-';
  }

  /** A propagated EXPIRE on a replica: a live key gets the deadline that many seconds from when the line is
      applied, even a number of seconds that the leader rejects. */
  lemma ExpireOnReplica(f: Follower, now: nat, key: string, n: int)
    requires Consistent(f.db) && CleanToken(key) && LLONG_MIN <= n <= LLONG_MAX
    ensures var g, m := ApplyLine(f, now, CommandLine(["EXPIRE", key, Show(n)])), Live(Contents(f.db), now);
            && g.syncing == f.syncing
            && Live(Contents(g.db), now) ==
               if key in m then Live(m[key := Entry(m[key].value, Some(now + 1000 * n))], now) else m
  {
    hide ApplyLine, CommandLine, CleanToken, Show, Stoll, Contents, Live, Consistent, Seen, Expire, ApplyExpire, Upper;
    var cmd := ["EXPIRE", key, Show(n)];
    SeenExpire(key, n);
    ApplyAnyLine(f, now, cmd);
    ShowParses(n);
    LiveExpire(f.db, now, key, Show(n));
    ApplyExpireIs(f.db, now, key, n);
    ExpireLive(f.db.(undefined := f.db.undefined || !(LLONG_MIN <= n * 1000 <= LLONG_MAX)), now, key, n * 1000);
  }

  lemma LiveExpire(s: State, now: nat, key: string, seconds: string)
    ensures ApplyLive(s, now, "EXPIRE", ["EXPIRE", key, seconds]) == ApplyExpire(s, now, key, seconds)
  {
    hide ApplyExpire, Set, Push, Pop, Drop;
  }

  lemma ApplyExpireIs(s: State, now: nat, key: string, n: int)
    requires LLONG_MIN <= n <= LLONG_MAX && Stoll(Show(n)) == Some(n)
    ensures var u := s.(undefined := s.undefined || !(LLONG_MIN <= n * 1000 <= LLONG_MAX));
            && ApplyExpire(s, now, key, Show(n)) == Expire(u, now, key, n * 1000).0
            && Contents(u) == Contents(s) && (Consistent(s) ==> Consistent(u))
  {
    hide Expire, Stoll, Show;
  }

  /** Any line whose first word is neither a record nor a write command leaves the replica as it was, markers apart;
      and so does an EXPIRE whose seconds are not a number. */
  lemma OtherLinesIgnored(f: Follower, now: nat, line: string)
    requires line != SYNC_START && line != SYNC_DONE
    requires var ts := Tokens(line);
             ts == [] ||
             (Upper(ts[0]) != "REPLSET" && Upper(ts[0]) != "REPLLIST" && !IsWriteName(Upper(ts[0]))) ||
             (Upper(ts[0]) == "EXPIRE" && (|ts| < 3 || Stoll(DecodeOr(ts[2])) == None))
    ensures ApplyLine(f, now, line) == f
  {
    hide Tokens, Upper, Set, Push, Pop, Drop, Stoll, DecodeOr, ApplyReplSet, ApplyReplList;
  }

  /** A word that does not decode is taken as it is. */
  lemma UndecodedKept(f: Follower, now: nat, line: string)
    requires var ts := Tokens(line);
             |ts| == 2 && Upper(ts[0]) == "DEL" && line != SYNC_START && line != SYNC_DONE && line != ""
    ensures var word := Tokens(line)[1];
            ApplyLine(f, now, line).db ==
            Drop(f.db, if Decode(word).Some? then Decode(word).value else word)
  {
    hide Tokens, Upper, Decode, Drop, Set, Push, Pop, ApplyExpire, ApplyReplSet, ApplyReplList;
  }

  /** The deadline travels as a duration: a replica with the leader's live keys ends with a deadline that is later
      by exactly the time the line was under way. */
  lemma ExpireDrifts(leader: State, f: Follower, now: nat, applied: nat, key: string, n: nat)
    requires Consistent(leader) && Consistent(f.db) && CleanToken(key) && 0 < n <= LLONG_MAX && now <= applied
    requires key in Live(Contents(leader), now) && key in Live(Contents(f.db), applied)
    ensures var cmd := ["EXPIRE", key, Show(n)];
            var a := Live(Contents(ExecCommand(leader, now, cmd).0), now);
            var b := Live(Contents(ApplyLine(f, applied, CommandLine(cmd)).db), applied);
            && key in a && a[key].deadline == Some(now + 1000 * n)
            && key in b && b[key].deadline == Some(now + 1000 * n + (applied - now))
  {
    hide ApplyLine, CommandLine, CleanToken, Show, Stoll, Contents, Consistent, Seen, Upper, ExecCommand;
    var cmd := ["EXPIRE", key, Show(n)];
    SeenExpire(key, n);
    ShowParses(n);
    ExpireOnReplica(f, applied, key, n);
    ExpireAnswers(leader, now, cmd);
  }
}
