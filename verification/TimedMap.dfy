/** The reference model: one unbounded map from keys to values with deadlines. The database is
    compared with it through the keys that are live at a given time. */
module TimedMap {
  import opened Text
  import opened Keyspace
  import opened Commands
  import opened Lru
  import opened Stores

  datatype Entry = Entry(value: Value, deadline: Option<int>)

  type Timed = map<string, Entry>

  function DeadlineOf(s: State, key: string): Option<int> {
    if key in s.expiry then Some(s.expiry[key]) else None
  }

  /** What the database stores, expired or not. */
  function Contents(s: State): Timed {
    map k | k in s.strings.Keys + s.lists.Keys ::
      Entry(if k in s.strings then Str(s.strings[k]) else Lst(s.lists[k]), DeadlineOf(s, k))
  }

  predicate Dead(e: Entry, now: nat) {
    e.deadline.Some? && now >= e.deadline.value
  }

  function Live(m: Timed, now: nat): Timed {
    map k | k in m && !Dead(m[k], now) :: m[k]
  }

  // ----- commands on the reference model -----

  function RefItems(m: Timed, key: string): seq<string> {
    if key in m && m[key].value.Lst? then m[key].value.items else []
  }

  function RefPut(m: Timed, key: string, xs: seq<string>): Timed {
    m[key := Entry(Lst(xs), if key in m then m[key].deadline else None)]
  }

  predicate RefString(m: Timed, key: string) {
    key in m && m[key].value.Str?
  }

  /** One request on a map whose entries are all live. */
  function RefExec(m: Timed, now: nat, req: Request): (Timed, Reply) {
    match req
    case SetReq(key, value) => (m[key := Entry(Str(value), None)], OK)
    case GetReq(key) =>
      (m, if key !in m then Nil else if m[key].value.Str? then Bulk(m[key].value.text) else WRONG_TYPE)
    case DelReq(key) => (m - {key}, OK)
    case ExistsReq(key) => (m, Integer(if key in m then 1 else 0))
    case ExpireReq(key, seconds) =>
      if key !in m then (m, Integer(0))
      else (m[key := Entry(m[key].value, Some(now + seconds * 1000))], Integer(1))
    case TtlReq(key) =>
      (m, Integer(if key !in m then -2
                  else if m[key].deadline == None then -1
                  else (m[key].deadline.value - now) / 1000))
    case PushReq(key, value, front) =>
      if RefString(m, key) then (m, WRONG_TYPE)
      else
        var xs := if front then [value] + RefItems(m, key) else RefItems(m, key) + [value];
        (RefPut(m, key, xs), Integer(|xs|))
    case PopReq(key, front) =>
      var xs := RefItems(m, key);
      if RefString(m, key) then (m, WRONG_TYPE)
      else if xs == [] then (m, Nil)
      else
        var left := if front then xs[1..] else xs[..|xs| - 1];
        (if left == [] then m - {key} else RefPut(m, key, left), Bulk(if front then xs[0] else xs[|xs| - 1]))
    case LLenReq(key) =>
      (m, if RefString(m, key) then WRONG_TYPE else Integer(|RefItems(m, key)|))
    case Immediate(reply) => (m, reply)
  }

  /** The number of words that a command about one key takes, 0 for any other name. */
  function WordCount(name: string): nat {
    if name == "SET" || name == "EXPIRE" || name == "LPUSH" || name == "RPUSH" then 3
    else if name == "GET" || name == "DEL" || name == "EXISTS" || name == "TTL" then 2
    else if name == "LPOP" || name == "RPOP" || name == "LLEN" then 2
    else 0
  }

  /** EXPIRE with its second argument as text. */
  function RefExpire(m: Timed, now: nat, key: string, seconds: string): (Timed, Reply) {
    var n := Stoll(seconds);
    if n == None then (m, Error("ERR value is not an integer or out of range"))
    else if n.value < 0 then (m, Error("ERR invalid expire time in 'expire' command"))
    else RefExec(m, now, ExpireReq(key, n.value))
  }

  /** A command about one key, called with the right number of words. */
  function RefKeyCommand(m: Timed, now: nat, name: string, cmd: Command): (Timed, Reply)
    requires |cmd| == WordCount(name) > 0
  {
    var key, last := cmd[1], cmd[|cmd| - 1];
    if name == "EXISTS" then RefExec(m, now, ExistsReq(key))
    else if name == "TTL" then RefExec(m, now, TtlReq(key))
    else if name == "LLEN" then RefExec(m, now, LLenReq(key))
    else if name == "GET" then RefExec(m, now, GetReq(key))
    else if name == "DEL" then RefExec(m, now, DelReq(key))
    else if name == "LPOP" then RefExec(m, now, PopReq(key, true))
    else if name == "RPOP" then RefExec(m, now, PopReq(key, false))
    else if name == "LPUSH" then RefExec(m, now, PushReq(key, last, true))
    else if name == "RPUSH" then RefExec(m, now, PushReq(key, last, false))
    else if name == "EXPIRE" then RefExpire(m, now, key, last)
    else RefExec(m, now, SetReq(key, last))
  }

  /** What a command does by its name and its number of words, on a map whose entries are all live. */
  function RefCommand(m: Timed, now: nat, cmd: Command): (Timed, Reply)
    requires cmd != []
  {
    var name, n := Upper(cmd[0]), |cmd|;
    if n == WordCount(name) then RefKeyCommand(m, now, name, cmd)
    else if name == "PING" && n == 1 then (m, Simple("PONG"))
    else if name == "PING" && n == 2 then (m, Bulk(cmd[1]))
    else if name == "SAVE" && n == 1 then (m, OK)
    else if WordCount(name) > 0 || name == "PING" || name == "SAVE" then
      (m, Error("ERR wrong number of arguments for '" + Lower(name) + "' command"))
    else (m, Error("ERR unknown command '" + cmd[0] + "'"))
  }

  /** A sweep is invisible in the reference model. */
  function RefStep(m: Timed, e: Event): (Timed, Reply) {
    if e.action.SweepTick? || e.action.cmd == [] then (Live(m, e.now), Silent)
    else RefCommand(Live(m, e.now), e.now, e.action.cmd)
  }

  lemma LowerIs(name: string, lower: string)
    requires |lower| == |name| && forall i :: 0 <= i < |name| ==> ToLower(name[i]) == lower[i]
    ensures Lower(name) == lower
  {
  }

  lemma LowerNames()
    ensures Lower("SET") == "set" && Lower("GET") == "get" && Lower("DEL") == "del" && Lower("EXISTS") == "exists"
    ensures Lower("EXPIRE") == "expire" && Lower("TTL") == "ttl" && Lower("LPUSH") == "lpush" && Lower("RPUSH") == "rpush"
    ensures Lower("LPOP") == "lpop" && Lower("RPOP") == "rpop" && Lower("LLEN") == "llen"
    ensures Lower("PING") == "ping" && Lower("SAVE") == "save"
  {
    hide Lower;
    LowerIs("SET", "set");
    LowerIs("GET", "get");
    LowerIs("DEL", "del");
    LowerIs("EXISTS", "exists");
    LowerIs("EXPIRE", "expire");
    LowerIs("TTL", "ttl");
    LowerIs("LPUSH", "lpush");
    LowerIs("RPUSH", "rpush");
    LowerIs("LPOP", "lpop");
    LowerIs("RPOP", "rpop");
    LowerIs("LLEN", "llen");
    LowerIs("PING", "ping");
    LowerIs("SAVE", "save");
  }

  lemma WordCountIs(name: string)
    ensures name == "SET" || name == "EXPIRE" || name == "LPUSH" || name == "RPUSH" ==> WordCount(name) == 3
    ensures name == "GET" || name == "DEL" || name == "EXISTS" || name == "TTL" ==> WordCount(name) == 2
    ensures name == "LPOP" || name == "RPOP" || name == "LLEN" ==> WordCount(name) == 2
    ensures name == "PING" || name == "SAVE" ==> WordCount(name) == 0
  {
  }

  lemma DispatchKey(m: Timed, now: nat, cmd: Command)
    requires cmd != [] && |cmd| == WordCount(Upper(cmd[0]))
    ensures RefExec(m, now, Classify(cmd)) == RefKeyCommand(m, now, Upper(cmd[0]), cmd)
  {
    hide RefExec, Upper, Stoll, WrongArity, WordCount;
    ImmediateIs(m, now);
    var name := Upper(cmd[0]);
    WordCountIs(name);
    WordCountOnly(name);
    var key := cmd[1];
    if name == "SET" {
      assert Classify(cmd) == SetReq(key, cmd[2]);
    } else if name == "EXPIRE" {
      assert Classify(cmd) == ClassifyExpire(key, cmd[2]);
    } else if name == "LPUSH" {
      assert Classify(cmd) == PushReq(key, cmd[2], true);
    } else if name == "RPUSH" {
      assert Classify(cmd) == PushReq(key, cmd[2], false);
    }
  }

  lemma WordCountOnly(name: string)
    requires WordCount(name) > 0
    ensures WordCount(name) == 2 || WordCount(name) == 3
    ensures WordCount(name) == 3 ==> name == "SET" || name == "EXPIRE" || name == "LPUSH" || name == "RPUSH"
    ensures WordCount(name) == 2 ==>
              || name == "GET" || name == "DEL" || name == "EXISTS" || name == "TTL"
              || name == "LPOP" || name == "RPOP" || name == "LLEN"
  {
  }

  lemma DispatchRest(m: Timed, now: nat, cmd: Command)
    requires cmd != [] && |cmd| != WordCount(Upper(cmd[0]))
    ensures RefExec(m, now, Classify(cmd)) == RefCommand(m, now, cmd)
  {
    hide RefExec, RefKeyCommand, Upper, Stoll, ClassifyExpire, WordCount, Lower;
    ImmediateIs(m, now);
    LowerNames();
    WordCountIs(Upper(cmd[0]));
    if WordCount(Upper(cmd[0])) > 0 {
      WordCountOnly(Upper(cmd[0]));
    }
  }

  /** The dispatcher and the handlers' argument checks reach the request that the command's name and number
      of words call for. */
  lemma DispatchIs(m: Timed, now: nat, cmd: Command)
    requires cmd != []
    ensures RefExec(m, now, Classify(cmd)) == RefCommand(m, now, cmd)
  {
    hide RefExec, RefKeyCommand, Upper, Classify, WordCount, Lower;
    if |cmd| == WordCount(Upper(cmd[0])) {
      DispatchKey(m, now, cmd);
    } else {
      DispatchRest(m, now, cmd);
    }
  }

  lemma ImmediateIs(m: Timed, now: nat)
    ensures forall r: Reply :: RefExec(m, now, Immediate(r)) == (m, r)
  {
  }

  function RefRun(m: Timed, es: seq<Event>): Timed
    decreases |es|
  {
    if es == [] then m else RefRun(RefStep(m, es[0]).0, es[1..])
  }

  function Replies(s: State, es: seq<Event>): (rs: seq<Reply>)
    ensures |rs| == |es|
    decreases |es|
  {
    if es == [] then [] else [Step(s, es[0]).1] + Replies(Step(s, es[0]).0, es[1..])
  }

  function RefReplies(m: Timed, es: seq<Event>): (rs: seq<Reply>)
    ensures |rs| == |es|
    decreases |es|
  {
    if es == [] then [] else [RefStep(m, es[0]).1] + RefReplies(RefStep(m, es[0]).0, es[1..])
  }

  function LastTime(t: nat, es: seq<Event>): nat {
    if es == [] then t else es[|es| - 1].now
  }

  // ----- the database's primitives, seen as changes of its contents -----

  lemma LiveLater(m: Timed, now: nat, later: nat)
    requires now <= later
    ensures Live(Live(m, now), later) == Live(m, later)
  {
  }

  lemma DropContents(s: State, key: string)
    requires Consistent(s)
    ensures Contents(Drop(s, key)) == Contents(s) - {key} && Consistent(Drop(s, key))
  {
  }

  /** `del` and `exists` tell whether there was such a key. */
  lemma PresenceAnswers(s: State, now: nat, key: string)
    requires Consistent(s)
    ensures Del(s, key).1 <==> key in Contents(s)
    ensures Exists(s, now, key).1 <==> key in Live(Contents(s), now)
  {
  }

  lemma LiveWithoutDead(m: Timed, now: nat, key: string)
    requires key in m ==> Dead(m[key], now)
    ensures Live(m - {key}, now) == Live(m, now)
  {
  }

  lemma ContentsAt(s: State, key: string)
    requires Consistent(s)
    ensures key in Contents(s) <==> Has(s, key)
    ensures key in Contents(s) ==> Contents(s)[key].deadline == DeadlineOf(s, key)
    ensures key in s.strings ==> key !in s.lists && Contents(s)[key].value == Str(s.strings[key])
    ensures key in s.lists ==> s.lists[key] != [] && Contents(s)[key].value == Lst(s.lists[key])
    ensures key in s.expiry ==> Has(s, key)
  {
  }

  /** Lazy expiry is invisible at the time it happens, and leaves the key live or absent. */
  lemma PurgeContents(s: State, now: nat, key: string)
    requires Consistent(s)
    ensures var p := Purge(s, now, key);
            && Contents(p) == (if IsExpired(s, now, key) then Contents(s) - {key} else Contents(s))
            && Live(Contents(p), now) == Live(Contents(s), now)
            && Consistent(p)
            && (key in Contents(p) ==> !Dead(Contents(p)[key], now))
            && TypeOf(s, now, key) == if key in p.strings then StringKey else if key in p.lists then ListKey else NoKey
  {
    hide Purge, Contents, Consistent;
    PurgeConsistent(s, now, key);
    PurgeFrame(s, now, key);
    DropContents(s, key);
    ContentsAt(s, key);
    var d := if IsExpired(s, now, key) then Drop(s, key) else s;
    SameStoresContents(d, Purge(s, now, key));
    if IsExpired(s, now, key) {
      LiveWithoutDead(Contents(s), now, key);
    }
  }

  /** A sweep removes every dead key from both stores and from the expiry index, and touches nothing else. */
  lemma SweepExact(s: State, now: nat)
    requires Consistent(s)
    ensures var t := Sweep(s, now);
            && Contents(t) == Live(Contents(s), now)
            && (forall k :: k in t.expiry ==> t.expiry[k] > now && k in s.expiry && t.expiry[k] == s.expiry[k])
            && (forall k :: k in t.strings || k in t.lists ==> !IsExpired(s, now, k))
            && t.order == s.order && t.position == s.position && t.nextNode == s.nextNode
            && t.undefined == s.undefined && t.capacity == s.capacity
  {
    var t := Sweep(s, now);
    DropConsistent(s, ExpiredKeys(s, now));
    var m, n := Contents(s), Contents(t);
    forall k: string
      ensures k in n <==> k in m && !Dead(m[k], now)
      ensures k in n ==> n[k] == m[k]
    {
      assert k in m ==> (Dead(m[k], now) <==> k in ExpiredKeys(s, now));
    }
    hide Contents, Consistent;
  }

  lemma SweepContents(s: State, now: nat)
    requires Consistent(s)
    ensures Live(Contents(Sweep(s, now)), now) == Live(Contents(s), now)
  {
    hide Contents, Sweep, Consistent, Live;
    SweepExact(s, now);
    LiveLater(Contents(s), now, now);
  }

  lemma SetContents(s: State, key: string, value: string)
    requires Consistent(s)
    ensures Contents(Set(s, key, value)) == (Contents(s) - Victims(s, key))[key := Entry(Str(value), None)]
  {
    hide Set, Victims;
    SetFrame(s, key, value);
  }

  lemma SameStoresContents(s: State, t: State)
    requires t.strings == s.strings && t.lists == s.lists && t.expiry == s.expiry
    ensures Contents(t) == Contents(s)
  {
  }

  lemma PushContents(s: State, key: string, value: string, front: bool)
    requires Consistent(s) && key !in s.strings
    ensures var r := Push(s, key, value, front);
            && Contents(r.0) == RefPut(Contents(s), key,
                 if front then [value] + RefItems(Contents(s), key) else RefItems(Contents(s), key) + [value])
            && r.1 == |RefItems(Contents(s), key)| + 1
  {
  }

  lemma ShrinkContents(s: State, key: string, xs: seq<string>)
    requires Consistent(s) && key in s.lists
    ensures Contents(Shrink(s, key, xs)) ==
            if xs == [] then Contents(s) - {key} else RefPut(Contents(s), key, xs)
  {
  }

  /** A request other than SET and DEL acts on the contents, dead entries of other keys included,
      as the reference model does, once lazy expiry has dealt with its key. */
  lemma ExecContents(s: State, now: nat, req: Request)
    requires Consistent(s) && !req.SetReq? && !req.DelReq? && !req.Immediate?
    ensures var x, r := Exec(s, now, req), RefExec(Contents(Purge(s, now, req.key)), now, req);
            Contents(x.0) == r.0 && x.1 == r.1
  {
    hide Purge, Contents, Consistent;
    var key := req.key;
    var p := Purge(s, now, key);
    PurgeContents(s, now, key);
    PurgeTwice(s, now, key);
    ContentsAt(p, key);
    match req {
      case GetReq(_) =>
        GetFrame(p, now, key);
        SameStoresContents(p, Get(p, now, key).0);
      case ExpireReq(_, seconds) => ExpireContents(s, now, key, seconds);
      case PushReq(_, value, front) =>
        if key !in p.strings {
          PushContents(p, key, value, front);
        }
      case PopReq(_, front) =>
        if key !in p.strings && key in p.lists {
          var xs := Items(p, key);
          ShrinkContents(p, key, if front then xs[1..] else xs[..|xs| - 1]);
        }
      case _ =>
    }
  }

  lemma DeadlineContents(s: State, key: string, deadline: int)
    requires Consistent(s) && Has(s, key)
    ensures Contents(s.(expiry := s.expiry[key := deadline]))
         == Contents(s)[key := Entry(Contents(s)[key].value, Some(deadline))]
  {
  }

  lemma ExpireContents(s: State, now: nat, key: string, seconds: nat)
    requires Consistent(s)
    ensures var x, r := Exec(s, now, ExpireReq(key, seconds)),
                        RefExec(Contents(Purge(s, now, key)), now, ExpireReq(key, seconds));
            Contents(x.0) == r.0 && x.1 == r.1
  {
    hide Purge, Contents, Consistent;
    var u := s.(undefined := s.undefined || seconds * 1000 > LLONG_MAX);
    var p, q := Purge(s, now, key), Purge(u, now, key);
    PurgeFrame(s, now, key);
    PurgeFrame(u, now, key);
    PurgeContents(s, now, key);
    SameStoresContents(p, q);
    ContentsAt(p, key);
    if Has(p, key) && !IsExpired(s, now, key) {
      DeadlineContents(p, key, now + seconds * 1000);
      SameStoresContents(p.(expiry := p.expiry[key := now + seconds * 1000]),
                         Exec(s, now, ExpireReq(key, seconds)).0);
    }
  }

  /** The reference model never looks at dead entries of other keys. */
  lemma RefExecLive(m: Timed, now: nat, req: Request)
    requires req.SetReq? || req.DelReq? || req.Immediate? || (req.key in m ==> !Dead(m[req.key], now))
    ensures RefExec(Live(m, now), now, req).1 == RefExec(m, now, req).1
    ensures Live(RefExec(Live(m, now), now, req).0, now) == Live(RefExec(m, now, req).0, now)
  {
    RefExecElsewhere(m, now, req);
    RefExecElsewhere(Live(m, now), now, req);
    RefExecAtKey(m, Live(m, now), now, req);
    if !req.Immediate? {
      hide RefExec;
      SameLive(RefExec(Live(m, now), now, req).0, RefExec(m, now, req).0, m, now, req.key);
    }
  }

  /** What a request answers and does to its key depends on the entry of that key alone. */
  lemma RefExecAtKey(m: Timed, n: Timed, now: nat, req: Request)
    requires !req.Immediate? && !req.SetReq? && !req.DelReq? ==>
               (req.key in m <==> req.key in n) && (req.key in m ==> m[req.key] == n[req.key])
    ensures var a, b := RefExec(m, now, req), RefExec(n, now, req);
            && a.1 == b.1
            && (!req.Immediate? ==>
                  (req.key in a.0 <==> req.key in b.0) && (req.key in a.0 ==> a.0[req.key] == b.0[req.key]))
  {
  }

  lemma SameLive(a: Timed, b: Timed, m: Timed, now: nat, key: string)
    requires a - {key} == Live(m, now) - {key} && b - {key} == m - {key}
    requires (key in a <==> key in b) && (key in a ==> a[key] == b[key])
    ensures Live(a, now) == Live(b, now)
  {
    forall k | k != key
      ensures k in a <==> k in m && !Dead(m[k], now)
      ensures k in a ==> a[k] == m[k]
      ensures k in b <==> k in m
      ensures k in b ==> b[k] == m[k]
    {
      SameElsewhere(Live(m, now), a, key, k);
      SameElsewhere(m, b, key, k);
    }
  }

  lemma RefExecElsewhere(m: Timed, now: nat, req: Request)
    ensures var r := RefExec(m, now, req).0;
            && (req.Immediate? ==> r == m)
            && (!req.Immediate? ==> r - {req.key} == m - {req.key})
  {
  }

  /** Lazy expiry does take place: after a request other than EXPIRE its key is not stored past its deadline, and no
      request but SET touches another key, dead or alive. */
  lemma ExecPurges(s: State, now: nat, req: Request)
    requires Consistent(s) && !req.Immediate?
    ensures !req.ExpireReq? ==> !IsExpired(Exec(s, now, req).0, now, req.key)
    ensures req.ExpireReq? && IsExpired(s, now, req.key) ==> !Has(Exec(s, now, req).0, req.key)
    ensures !req.SetReq? ==> Contents(Exec(s, now, req).0) - {req.key} == Contents(s) - {req.key}
  {
    assert req.DelReq? ==> Exec(s, now, req).0 == Drop(s, req.key) by { hide Drop; }
    hide Exec, RefExec, Contents, Consistent, Drop, Purge;
    var key := req.key;
    PurgedAfter(s, now, req);
    MinusTwice(Contents(s), key);
    if req.DelReq? {
      DropContents(s, key);
    } else if !req.SetReq? {
      PurgeContents(s, now, key);
      ExecContents(s, now, req);
      RefExecElsewhere(Contents(Purge(s, now, key)), now, req);
    }
  }

  lemma MinusTwice(m: Timed, key: string)
    ensures m - {key} - {key} == m - {key}
  {
  }

  lemma PurgedAfter(s: State, now: nat, req: Request)
    requires Consistent(s) && !req.Immediate?
    ensures !req.ExpireReq? ==> !IsExpired(Exec(s, now, req).0, now, req.key)
    ensures req.ExpireReq? && IsExpired(s, now, req.key) ==> !Has(Exec(s, now, req).0, req.key)
  {
    hide Purge, Set, Get, Victims;
    var key := req.key;
    PurgeFrame(s, now, key);
    PurgeTwice(s, now, key);
    match req {
      case SetReq(_, value) => SetFrame(s, key, value);
      case GetReq(_) => GetFrame(Purge(s, now, key), now, key);
      case ExpireReq(_, seconds) => PurgeFrame(s.(undefined := s.undefined || seconds * 1000 > LLONG_MAX), now, key);
      case _ =>
    }
  }

  // ----- transparency -----

  /** A SET that evicts no live key but possibly its own leftover. Other requests evict nothing. */
  predicate LosesNothing(s: State, now: nat, req: Request) {
    req.SetReq? ==> forall k :: k in Victims(s, req.key) && k != req.key ==> k !in Live(Contents(s), now)
  }

  lemma SetTransparentIff(s: State, now: nat, key: string, value: string)
    requires Consistent(s)
    ensures var t, r := Set(s, key, value), RefExec(Live(Contents(s), now), now, SetReq(key, value)).0;
            Live(Contents(t), now) == Live(r, now) <==> LosesNothing(s, now, SetReq(key, value))
  {
    hide Contents, Set, Victims;
    var m, gone, e := Contents(s), Victims(s, key), Entry(Str(value), None);
    SetContents(s, key, value);
    var t, r := Live((m - gone)[key := e], now), Live(Live(m, now)[key := e], now);
    assert forall k :: k in r <==> k == key || k in Live(m, now);
    assert forall k :: k in t <==> k == key || (k in Live(m, now) && k !in gone);
    assert forall k :: k in t ==> t[k] == r[k];
  }

  /** The command layer answers like the reference model, and stays equal to it on live keys
      exactly when no live key is evicted. */
  lemma ExecTransparentIff(s: State, now: nat, req: Request)
    requires Consistent(s)
    ensures var x, r := Exec(s, now, req), RefExec(Live(Contents(s), now), now, req);
            && x.1 == r.1
            && (Live(Contents(x.0), now) == Live(r.0, now) <==> LosesNothing(s, now, req))
  {
    hide Contents, Victims, Set;
    assert req.DelReq? ==> Exec(s, now, req) == (Drop(s, req.key), OK);
    assert req.SetReq? ==> Exec(s, now, req) == (Set(s, req.key, req.value), OK);
    assert req.Immediate? ==> Exec(s, now, req) == (s, req.reply);
    hide Exec;
    var m := Contents(s);
    if req.SetReq? {
      SetTransparentIff(s, now, req.key, req.value);
    } else if req.DelReq? {
      DropContents(s, req.key);
      RefExecLive(m, now, req);
    } else if req.Immediate? {
      LiveLater(m, now, now);
    } else {
      PurgeContents(s, now, req.key);
      ExecContents(s, now, req);
      RefExecLive(Contents(Purge(s, now, req.key)), now, req);
    }
  }

  /** Every command, by its name and its number of words: the reply is the reference model's, and the live keys
      afterwards are exactly when no live key is evicted. */
  lemma CommandTransparentIff(s: State, now: nat, cmd: Command)
    requires Consistent(s) && cmd != []
    ensures var x, r := ExecCommand(s, now, cmd), RefCommand(Live(Contents(s), now), now, cmd);
            && x.1 == r.1
            && (Live(Contents(x.0), now) == Live(r.0, now) <==> EventLosesNothing(s, Event(now, Do(cmd))))
  {
    hide Exec, RefExec, RefCommand, Contents, Classify, Live, LosesNothing;
    ExecTransparentIff(s, now, Classify(cmd));
    DispatchIs(Live(Contents(s), now), now, cmd);
  }

  /** The commands that read, spelled out. */
  lemma ReadersAnswer(s: State, now: nat, cmd: Command)
    requires Consistent(s) && |cmd| == 2
    ensures var m, name, key, reply := Live(Contents(s), now), Upper(cmd[0]), cmd[1], ExecCommand(s, now, cmd).1;
            && (name == "EXISTS" ==> reply == Integer(if key in m then 1 else 0))
            && (name == "TTL" ==>
                  reply == Integer(if key !in m then -2
                                   else if m[key].deadline == None then -1
                                   else (m[key].deadline.value - now) / 1000))
            && (name == "LLEN" ==>
                  reply == if key !in m then Integer(0)
                           else if m[key].value.Str? then WRONG_TYPE
                           else Integer(|m[key].value.items|))
            && (name == "GET" ==>
                  reply == if key !in m then Nil else if m[key].value.Lst? then WRONG_TYPE else Bulk(m[key].value.text))
            && (name in {"EXISTS", "TTL", "LLEN", "GET"} ==> Live(Contents(ExecCommand(s, now, cmd).0), now) == m)
  {
    hide Exec, Contents, Live, EventLosesNothing, Upper, Classify, ExecCommand;
    CommandTransparentIff(s, now, cmd);
    LiveLater(Contents(s), now, now);
    if Upper(cmd[0]) in {"EXISTS", "TTL", "LLEN", "GET"} {
      NoLossByName(s, now, cmd);
    }
  }

  lemma OnlySetSets(cmd: Command)
    requires cmd != []
    ensures Classify(cmd).SetReq? ==> Upper(cmd[0]) == "SET"
  {
    hide Upper, Stoll;
  }

  lemma NoLossByName(s: State, now: nat, cmd: Command)
    requires cmd != [] && Upper(cmd[0]) != "SET"
    ensures EventLosesNothing(s, Event(now, Do(cmd)))
  {
    hide Upper, Classify, Victims, Contents, Live;
    OnlySetSets(cmd);
  }

  /** EXPIRE, spelled out: a live key gets the deadline `seconds` from now. */
  lemma ExpireAnswers(s: State, now: nat, cmd: Command)
    requires Consistent(s) && |cmd| == 3 && Upper(cmd[0]) == "EXPIRE"
    requires Stoll(cmd[2]).Some? && Stoll(cmd[2]).value >= 0
    ensures var m, key, x := Live(Contents(s), now), cmd[1], ExecCommand(s, now, cmd);
            if key !in m then x.1 == Integer(0) && Live(Contents(x.0), now) == m
            else
              && x.1 == Integer(1)
              && Live(Contents(x.0), now) ==
                 Live(m[key := Entry(m[key].value, Some(now + Stoll(cmd[2]).value * 1000))], now)
  {
    hide Exec, Contents, Live, EventLosesNothing, Upper, Stoll, Classify, ExecCommand;
    CommandTransparentIff(s, now, cmd);
    LiveLater(Contents(s), now, now);
    NoLossByName(s, now, cmd);
  }

  predicate EventLosesNothing(s: State, e: Event) {
    e.action.Do? && e.action.cmd != [] ==> LosesNothing(s, e.now, Classify(e.action.cmd))
  }

  predicate LosesNothingRun(s: State, es: seq<Event>)
    decreases |es|
  {
    es != [] ==> EventLosesNothing(s, es[0]) && LosesNothingRun(Step(s, es[0]).0, es[1..])
  }

  lemma StepTransparentIff(s: State, m: Timed, t: nat, e: Event)
    requires Consistent(s) && t <= e.now && Live(Contents(s), t) == Live(m, t)
    ensures Step(s, e).1 == RefStep(m, e).1
    ensures Live(Contents(Step(s, e).0), e.now) == Live(RefStep(m, e).0, e.now) <==> EventLosesNothing(s, e)
  {
    hide Exec, RefExec, RefCommand, Contents, Classify, Live, LosesNothing;
    LiveLater(Contents(s), t, e.now);
    LiveLater(m, t, e.now);
    LiveLater(m, e.now, e.now);
    if e.action.SweepTick? {
      SweepContents(s, e.now);
    } else if e.action.cmd != [] {
      ExecTransparentIff(s, e.now, Classify(e.action.cmd));
      DispatchIs(Live(m, e.now), e.now, e.action.cmd);
    }
  }

  /** Over every run with a clock that never goes back and no live key evicted, with whatever lazy
      expiries and sweeps in between: every reply is the reference model's, and so is the live view
      at every later time. */
  lemma {:induction false} RunTransparent(s: State, m: Timed, t: nat, es: seq<Event>, later: nat)
    requires Consistent(s) && Live(Contents(s), t) == Live(m, t)
    requires ClockFrom(t, es) && LastTime(t, es) <= later
    requires LosesNothingRun(s, es)
    ensures Replies(s, es) == RefReplies(m, es)
    ensures Live(Contents(Run(s, es)), later) == Live(RefRun(m, es), later)
    decreases |es|
  {
    hide Step, RefStep, Contents, Live, Consistent, EventLosesNothing;
    if es == [] {
      LiveLater(Contents(s), t, later);
      LiveLater(m, t, later);
    } else {
      StepTransparentIff(s, m, t, es[0]);
      StepConsistent(s, es[0]);
      RunTransparent(Step(s, es[0]).0, RefStep(m, es[0]).0, es[0].now, es[1..], later);
    }
  }

  // ----- soundness as a cache -----

  predicate KeySound(s: State, m: Timed, now: nat, key: string) {
    key in s.strings && !IsExpired(s, now, key) ==>
      key in m && !Dead(m[key], now) && m[key] == Entry(Str(s.strings[key]), DeadlineOf(s, key))
  }

  /** Every live string of the database is in `m`, with the same value and deadline. */
  predicate Sound(s: State, m: Timed, now: nat) {
    forall k :: k in s.strings ==> KeySound(s, m, now, k)
  }

  /** Whatever a request does, it adds or changes no string but the one under its key. */
  predicate StringsFrom(s: State, t: State, key: string) {
    forall k :: k in t.strings && k != key ==>
      k in s.strings && t.strings[k] == s.strings[k] && DeadlineOf(t, k) == DeadlineOf(s, k)
  }

  lemma PurgeStringsFrom(s: State, now: nat, key: string)
    ensures var p := Purge(s, now, key);
            && StringsFrom(s, p, key)
            && (key in p.strings <==> key in s.strings && !IsExpired(s, now, key))
            && (key in p.strings ==> p.strings[key] == s.strings[key] && DeadlineOf(p, key) == DeadlineOf(s, key))
  {
    hide Purge;
    PurgeFrame(s, now, key);
  }

  lemma ExecStringsFrom(s: State, now: nat, req: Request)
    requires !req.Immediate?
    ensures StringsFrom(s, Exec(s, now, req).0, req.key)
  {
    hide Set, Purge, Get, Victims;
    var key := req.key;
    PurgeStringsFrom(s, now, key);
    PurgeTwice(s, now, key);
    match req {
      case SetReq(_, value) => SetFrame(s, key, value);
      case GetReq(_) => GetFrame(Purge(s, now, key), now, key);
      case ExpireReq(_, seconds) =>
        PurgeStringsFrom(s.(undefined := s.undefined || seconds * 1000 > LLONG_MAX), now, key);
      case _ =>
    }
  }

  lemma PurgeKeySound(s: State, m: Timed, now: nat, key: string)
    requires KeySound(s, m, now, key)
    ensures KeySound(Purge(s, now, key), m, now, key)
    ensures !IsExpired(Purge(s, now, key), now, key)
  {
    hide Purge;
    PurgeStringsFrom(s, now, key);
    PurgeTwice(s, now, key);
  }

  lemma ExecKeySound(s: State, m: Timed, now: nat, req: Request)
    requires Consistent(s) && !req.Immediate? && KeySound(s, m, now, req.key)
    ensures KeySound(Exec(s, now, req).0, RefExec(m, now, req).0, now, req.key)
    ensures req.GetReq? && Exec(s, now, req).1.Bulk? ==> Exec(s, now, req).1 == RefExec(m, now, req).1
  {
    hide Set, Purge, Get, Victims;
    var key := req.key;
    var p := Purge(s, now, key);
    PurgeKeySound(s, m, now, key);
    PurgeStringsFrom(s, now, key);
    PurgeTwice(s, now, key);
    match req {
      case SetReq(_, value) => SetFrame(s, key, value);
      case GetReq(_) => GetKeySound(p, m, now, key);
      case ExpireReq(_, seconds) =>
        ExpireKeySound(s.(undefined := s.undefined || seconds * 1000 > LLONG_MAX), m, now, key, seconds);
      case _ =>
    }
  }

  lemma ExpireKeySound(s: State, m: Timed, now: nat, key: string, seconds: nat)
    requires KeySound(s, m, now, key)
    ensures KeySound(Expire(s, now, key, seconds * 1000).0, RefExec(m, now, ExpireReq(key, seconds)).0, now, key)
  {
    hide Purge;
    PurgeKeySound(s, m, now, key);
    PurgeStringsFrom(s, now, key);
  }

  lemma GetKeySound(s: State, m: Timed, now: nat, key: string)
    requires KeySound(s, m, now, key) && !IsExpired(s, now, key)
    ensures var g := Get(s, now, key);
            && KeySound(g.0, m, now, key)
            && (g.1.Some? ==> key in m && m[key].value == Str(g.1.value))
  {
    hide Touch;
    GetFrame(s, now, key);
  }

  lemma ExecSound(s: State, m: Timed, now: nat, req: Request)
    requires Consistent(s) && Sound(s, m, now)
    ensures Sound(Exec(s, now, req).0, RefExec(m, now, req).0, now)
    ensures req.GetReq? && Exec(s, now, req).1.Bulk? ==> Exec(s, now, req).1 == RefExec(m, now, req).1
  {
    if !req.Immediate? {
      hide Exec, RefExec, KeySound, StringsFrom;
      var t, r := Exec(s, now, req).0, RefExec(m, now, req).0;
      AbsentKeySound(s, m, now, req.key);
      ExecKeySound(s, m, now, req);
      ExecStringsFrom(s, now, req);
      RefExecElsewhere(m, now, req);
      forall k | k in t.strings
        ensures KeySound(t, r, now, k)
      {
        AbsentKeySound(s, m, now, k);
        if k != req.key {
          OtherKeySound(s, t, m, r, now, req.key, k);
        }
      }
    }
  }

  lemma AbsentKeySound(s: State, m: Timed, now: nat, key: string)
    ensures key !in s.strings ==> KeySound(s, m, now, key)
  {
  }

  lemma OtherKeySound(s: State, t: State, m: Timed, r: Timed, now: nat, key: string, other: string)
    requires StringsFrom(s, t, key) && r - {key} == m - {key}
    requires other != key && KeySound(s, m, now, other)
    ensures KeySound(t, r, now, other)
  {
    SameElsewhere(m, r, key, other);
  }

  lemma SameElsewhere(m: Timed, r: Timed, key: string, other: string)
    requires r - {key} == m - {key} && other != key
    ensures other in r <==> other in m
    ensures other in m ==> r[other] == m[other]
  {
    assert other in r - {key} <==> other in r;
    assert other in m ==> (r - {key})[other] == (m - {key})[other];
  }

  lemma SoundLater(s: State, m: Timed, t: nat, now: nat)
    requires Sound(s, m, t) && t <= now
    ensures Sound(s, Live(m, now), now) && Sound(s, m, now)
  {
    forall k | k in s.strings
      ensures KeySound(s, Live(m, now), now, k) && KeySound(s, m, now, k)
    {
      assert KeySound(s, m, t, k);
    }
  }

  lemma SweepSound(s: State, m: Timed, now: nat)
    requires Sound(s, m, now)
    ensures Sound(Sweep(s, now), m, now)
  {
    var t := Sweep(s, now);
    forall k | k in t.strings
      ensures KeySound(t, m, now, k)
    {
      assert KeySound(s, m, now, k);
    }
  }

  lemma StepSound(s: State, m: Timed, t: nat, e: Event)
    requires Consistent(s) && Sound(s, m, t) && t <= e.now
    ensures Sound(Step(s, e).0, RefStep(m, e).0, e.now)
    ensures IsGet(e) && Step(s, e).1.Bulk? ==> Step(s, e).1 == RefStep(m, e).1
  {
    hide Exec, RefExec, RefCommand, Live, Classify, Sound, Sweep;
    SoundLater(s, m, t, e.now);
    if e.action.SweepTick? {
      SweepSound(s, Live(m, e.now), e.now);
    } else if e.action.cmd != [] {
      ExecSound(s, Live(m, e.now), e.now, Classify(e.action.cmd));
      DispatchIs(Live(m, e.now), e.now, e.action.cmd);
    }
  }

  predicate IsGet(e: Event) {
    e.action.Do? && e.action.cmd != [] && Classify(e.action.cmd).GetReq?
  }

  /** Over every run with a clock that never goes back, whatever is evicted: a live string of the
      database is the reference model's, and a GET that finds a value finds the right one. */
  lemma {:induction false} RunSound(s: State, m: Timed, t: nat, es: seq<Event>, later: nat)
    requires Consistent(s) && Sound(s, m, t)
    requires ClockFrom(t, es) && LastTime(t, es) <= later
    ensures Sound(Run(s, es), RefRun(m, es), later)
    ensures forall i :: 0 <= i < |es| && IsGet(es[i]) && Replies(s, es)[i].Bulk? ==>
              Replies(s, es)[i] == RefReplies(m, es)[i]
    decreases |es|
  {
    hide Step, RefStep, Consistent, Sound, IsGet;
    if es == [] {
      SoundLater(s, m, t, later);
    } else {
      StepSound(s, m, t, es[0]);
      StepConsistent(s, es[0]);
      RunSound(Step(s, es[0]).0, RefStep(m, es[0]).0, es[0].now, es[1..], later);
      assert forall i :: 0 < i < |es| ==> es[i] == es[1..][i - 1];
    }
  }

  // ----- snapshots -----

  function EntryOf(e: SnapshotEntry): Entry {
    Entry(e.value, if e.deadline == -1 then None else Some(e.deadline))
  }

  function EntriesMap(es: seq<SnapshotEntry>): Timed {
    if es == [] then map[]
    else EntriesMap(es[..|es| - 1])[es[|es| - 1].key := EntryOf(es[|es| - 1])]
  }

  lemma EntriesMapAppend(front: seq<SnapshotEntry>, e: SnapshotEntry)
    ensures EntriesMap(front + [e]) == EntriesMap(front)[e.key := EntryOf(e)]
  {
    assert (front + [e])[..|front|] == front;
  }

  lemma {:induction false} EntriesMapAt(es: seq<SnapshotEntry>)
    requires DistinctKeys(es)
    ensures EntriesMap(es).Keys == EntryKeys(es)
    ensures forall i :: 0 <= i < |es| ==> es[i].key in EntriesMap(es)
    ensures forall i :: 0 <= i < |es| ==> EntriesMap(es)[es[i].key] == EntryOf(es[i])
  {
    hide EntryKeys, EntryOf;
    if es == [] {
      NoEntryKeys();
    } else {
      var front, e := es[..|es| - 1], es[|es| - 1];
      EntriesMapAt(front);
      EntryKeysAppend(front, e);
      assert es == front + [e];
      EntriesMapAppend(front, e);
      hide EntriesMap;
      forall i | 0 <= i < |es|
        ensures es[i].key in EntriesMap(es) && EntriesMap(es)[es[i].key] == EntryOf(es[i])
      {
        if i < |front| {
          assert es[i] == front[i] && es[i].key != e.key;
        }
      }
    }
  }

  lemma NoEntryKeys()
    ensures EntryKeys([]) == {}
  {
  }

  lemma EntryKeysSplit(es: seq<SnapshotEntry>, n: nat)
    requires n <= |es|
    ensures EntryKeys(es) == EntryKeys(es[..n]) + EntryKeys(es[n..])
  {
    forall i | 0 <= i < |es|
      ensures es[i].key in EntryKeys(es[..n]) + EntryKeys(es[n..])
    {
      if i < n {
        assert es[..n][i] == es[i];
      } else {
        assert es[n..][i - n] == es[i];
      }
    }
  }

  lemma SnapshotSplitKeys(es: seq<SnapshotEntry>, n: nat, s: State, now: nat)
    requires Consistent(s) && SnapshotSplitAt(es, n, s, now)
    ensures DistinctKeys(es) && EntryKeys(es) == Live(Contents(s), now).Keys
  {
    EntryKeysSplit(es, n);
    assert Live(Contents(s), now).Keys == LiveStrings(s, now) + LiveLists(s, now);
    forall i, j | 0 <= i < j < |es|
      ensures es[i].key != es[j].key
    {
      if i < n <= j {
        assert es[..n][i] == es[i] && es[n..][j - n] == es[j];
      } else if j < n {
        assert es[..n][i] == es[i] && es[..n][j] == es[j];
      } else {
        assert es[n..][i - n] == es[i] && es[n..][j - n] == es[j];
      }
    }
  }

  lemma SnapshotSplitEntry(es: seq<SnapshotEntry>, n: nat, s: State, now: nat, i: nat)
    requires Consistent(s) && SnapshotSplitAt(es, n, s, now) && i < |es|
    requires es[i].key in Live(Contents(s), now)
    ensures Contents(s)[es[i].key] == EntryOf(es[i])
  {
    if i < n {
      assert es[..n][i] == es[i];
    } else {
      assert es[n..][i - n] == es[i];
    }
  }

  /** A snapshot is the live view, whatever order its two parts come in. */
  lemma SnapshotIsLive(es: seq<SnapshotEntry>, s: State, now: nat)
    requires Consistent(s) && IsSnapshot(es, s, now)
    ensures DistinctKeys(es)
    ensures EntriesMap(es) == Live(Contents(s), now)
  {
    hide Contents, Consistent, EntriesMap, ListsStrings, ListsLists, EntryOf;
    var n :| SnapshotSplitAt(es, n, s, now);
    SnapshotSplitKeys(es, n, s, now);
    EntriesMapAt(es);
    forall k | k in EntryKeys(es)
      ensures EntriesMap(es)[k] == Contents(s)[k]
    {
      var i :| 0 <= i < |es| && es[i].key == k;
      SnapshotSplitEntry(es, n, s, now, i);
    }
  }
}
