/** The command layer of src/command.cpp: arity and type guards in front of the database. */
module Commands {
  import opened Text
  import opened Keyspace
  import opened Db
  import Resp

  type Command = Resp.Command

  datatype Reply = Silent | Simple(text: string) | Error(text: string) | Bulk(text: string) | Nil | Integer(n: int)

  /** The bytes `execute` returns for a reply. */
  function Serialize(r: Reply): string {
    match r
    case Silent => ""
    case Simple(text) => Resp.SimpleString(text)
    case Error(text) => Resp.ErrorString(text)
    case Bulk(text) => Resp.BulkString(text)
    case Nil => Resp.NullBulk()
    case Integer(n) => Resp.Integer(n)
  }

  lemma ShowInjective(n: int, m: int)
    requires Show(n) == Show(m)
    ensures n == m
  {
    var lo, hi := if n < m then n else m, if n < m then m else n;
    ParseShow(n, lo, hi);
    ParseShow(m, lo, hi);
  }

  lemma BulkInjective(a: string, b: string)
    requires Resp.BulkString(a) == Resp.BulkString(b)
    ensures a == b
  {
    hide Show, FindCrlf;
    var p, q := "$" + Show(|a|), "$" + Show(|b|);
    assert '\r' !in Show(|a|) && '\r' !in Show(|b|) by { ShowCrFree(|a|); ShowCrFree(|b|); }
    FindCrlfAfter(p, a + CRLF);
    FindCrlfAfter(q, b + CRLF);
    var s := Resp.BulkString(a);
    assert s == p + CRLF + (a + CRLF) && s == q + CRLF + (b + CRLF);
    assert s[1..|p|] == Show(|a|) && s[1..|p|] == Show(|b|);
    ShowInjective(|a|, |b|);
    assert s[|p| + 2..|p| + 2 + |a|] == a && s[|p| + 2..|p| + 2 + |b|] == b;
  }

  lemma ShowCrFree(n: int)
    ensures '\r' !in Show(n)
  {
    var s := Show(n);
    assert forall i :: 0 <= i < |s| ==> IsDigit(s[i]) || s[i] == '-';
  }

  lemma NilIsNoBulk(a: string)
    ensures Resp.BulkString(a) != Resp.NullBulk()
  {
    hide Show;
    assert IsDigit(Show(|a|)[0]) by { ShowNatStart(|a|); }
    assert Resp.BulkString(a)[1] == Show(|a|)[0];
    assert Resp.NullBulk()[1] == '-';
  }

  lemma ShowNatStart(n: nat)
    ensures IsDigit(Show(n)[0])
  {
  }

  /** The first byte of a reply gives its kind, and its text lies between that byte and the CRLF. */
  lemma ReplyText(r: Reply)
    ensures var s := Serialize(r);
            match r
            case Silent => s == ""
            case Simple(text) => |s| >= 3 && s[0] == '+' && s[1..|s| - 2] == text
            case Error(text) => |s| >= 3 && s[0] == '-' && s[1..|s| - 2] == text
            case Bulk(text) => s == Resp.BulkString(text) && s != "" && s[0] == '$'
            case Nil => s == Resp.NullBulk() && s != "" && s[0] == '$'
            case Integer(n) => |s| >= 3 && s[0] == ':' && s[1..|s| - 2] == Show(n)
  {
    hide Show;
  }

  /** A client can tell replies apart: different replies have different bytes. */
  lemma SerializeInjective(a: Reply, b: Reply)
    requires Serialize(a) == Serialize(b)
    ensures a == b
  {
    hide Serialize, Show, Resp.BulkString, Resp.NullBulk;
    ReplyText(a);
    ReplyText(b);
    match (a, b) {
      case (Integer(n), Integer(m)) => ShowInjective(n, m);
      case (Bulk(x), Bulk(y)) => BulkInjective(x, y);
      case (Bulk(x), Nil) => NilIsNoBulk(x);
      case (Nil, Bulk(y)) => NilIsNoBulk(y);
      case _ =>
    }
  }

  const OK: Reply := Simple("OK")
  const WRONG_TYPE: Reply := Error("WRONGTYPE Operation against a key holding the wrong kind of value")

  /** A command that passed the argument checks, or the reply of one that touches no key. */
  datatype Request =
    | SetReq(key: string, value: string)
    | GetReq(key: string)
    | DelReq(key: string)
    | ExistsReq(key: string)
    | ExpireReq(key: string, seconds: nat)
    | TtlReq(key: string)
    | PushReq(key: string, value: string, front: bool)
    | PopReq(key: string, front: bool)
    | LLenReq(key: string)
    | Immediate(reply: Reply)

  function WrongArity(name: string): Request {
    Immediate(Error("ERR wrong number of arguments for '" + name + "' command"))
  }

  function ClassifyExpire(key: string, seconds: string): Request {
    var n := Stoll(seconds);
    if n == None then Immediate(Error("ERR value is not an integer or out of range"))
    else if n.value < 0 then Immediate(Error("ERR invalid expire time in 'expire' command"))
    else ExpireReq(key, n.value)
  }

  /** Dispatch on the upper-cased name, then the handler's own argument checks. */
  function Classify(cmd: Command): Request
    requires cmd != []
  {
    var name, n := Upper(cmd[0]), |cmd|;
    if name == "SET" then (if n == 3 then SetReq(cmd[1], cmd[2]) else WrongArity("set"))
    else if name == "GET" then (if n == 2 then GetReq(cmd[1]) else WrongArity("get"))
    else if name == "DEL" then (if n == 2 then DelReq(cmd[1]) else WrongArity("del"))
    else if name == "EXISTS" then (if n == 2 then ExistsReq(cmd[1]) else WrongArity("exists"))
    else if name == "EXPIRE" then (if n == 3 then ClassifyExpire(cmd[1], cmd[2]) else WrongArity("expire"))
    else if name == "TTL" then (if n == 2 then TtlReq(cmd[1]) else WrongArity("ttl"))
    else if name == "LPUSH" then (if n == 3 then PushReq(cmd[1], cmd[2], true) else WrongArity("lpush"))
    else if name == "RPUSH" then (if n == 3 then PushReq(cmd[1], cmd[2], false) else WrongArity("rpush"))
    else if name == "LPOP" then (if n == 2 then PopReq(cmd[1], true) else WrongArity("lpop"))
    else if name == "RPOP" then (if n == 2 then PopReq(cmd[1], false) else WrongArity("rpop"))
    else if name == "LLEN" then (if n == 2 then LLenReq(cmd[1]) else WrongArity("llen"))
    else if name == "SAVE" then (if n == 1 then Immediate(OK) else WrongArity("save"))
    else if name == "PING" then
      (if n == 1 then Immediate(Simple("PONG")) else if n == 2 then Immediate(Bulk(cmd[1])) else WrongArity("ping"))
    else Immediate(Error("ERR unknown command '" + cmd[0] + "'"))
  }

  predicate IsWriteName(upper: string) {
    upper in {"SET", "DEL", "EXPIRE", "LPUSH", "RPUSH", "LPOP", "RPOP"}
  }

  /** `is_write_command`. */
  predicate IsWrite(cmd: Command) {
    cmd != [] && IsWriteName(Upper(cmd[0]))
  }

  function BulkOrNil(r: Option<string>): Reply {
    if r.Some? then Bulk(r.value) else Nil
  }

  function TtlReply(ms: int): Reply {
    if ms == -1 || ms == -2 then Integer(ms) else Integer(ms / 1000)
  }

  function Exec(s: State, now: nat, req: Request): (State, Reply) {
    match req
    case SetReq(key, value) => (Set(s, key, value), OK)
    case GetReq(key) =>
      var p := Purge(s, now, key);
      if TypeOf(s, now, key).ListKey? then (p, WRONG_TYPE)
      else var g := Get(p, now, key); (g.0, BulkOrNil(g.1))
    case DelReq(key) => (Del(s, key).0, OK)
    case ExistsReq(key) =>
      var e := Exists(s, now, key); (e.0, Integer(if e.1 then 1 else 0))
    case ExpireReq(key, seconds) =>
      var ms: int := seconds * 1000;
      var e := Expire(s.(undefined := s.undefined || ms > LLONG_MAX), now, key, ms);
      (e.0, Integer(if e.1 then 1 else 0))
    case TtlReq(key) =>
      var t := Ttl(s, now, key); (t.0, TtlReply(t.1))
    case PushReq(key, value, front) =>
      var p := Purge(s, now, key);
      if TypeOf(s, now, key).StringKey? then (p, WRONG_TYPE)
      else var r := Push(p, key, value, front); (r.0, Integer(r.1))
    case PopReq(key, front) =>
      var p := Purge(s, now, key);
      if TypeOf(s, now, key).StringKey? then (p, WRONG_TYPE)
      else var r := Pop(p, now, key, front); (r.0, BulkOrNil(r.1))
    case LLenReq(key) =>
      var p := Purge(s, now, key);
      if TypeOf(s, now, key).StringKey? then (p, WRONG_TYPE)
      else var r := LLen(p, now, key); (r.0, Integer(r.1))
    case Immediate(reply) => (s, reply)
  }

  function ExecCommand(s: State, now: nat, cmd: Command): (State, Reply) {
    if cmd == [] then (s, Silent) else Exec(s, now, Classify(cmd))
  }

  // ----- the program's code -----

  const SAVE_FAILED: Reply := Error("ERR failed to save database to disk")

  predicate IsSave(cmd: Command) {
    |cmd| == 1 && Upper(cmd[0]) == "SAVE"
  }

  /** A handler that reads the clock twice: at `now` for the type check or the first lazy expiry, at `later` for
      what follows. */
  function ExecBetween(s: State, now: nat, later: nat, req: Request): (State, Reply) {
    match req
    case GetReq(key) =>
      var p := Purge(s, now, key);
      if TypeOf(s, now, key).ListKey? then (p, WRONG_TYPE)
      else var g := Get(p, later, key); (g.0, BulkOrNil(g.1))
    case ExpireReq(key, seconds) =>
      var ms: int := seconds * 1000;
      var e := ExpireBetween(s.(undefined := s.undefined || ms > LLONG_MAX), now, later, key, ms);
      (e.0, Integer(if e.1 then 1 else 0))
    case TtlReq(key) =>
      var t := TtlBetween(s, now, later, key); (t.0, TtlReply(t.1))
    case PopReq(key, front) =>
      var p := Purge(s, now, key);
      if TypeOf(s, now, key).StringKey? then (p, WRONG_TYPE)
      else var r := Pop(p, later, key, front); (r.0, BulkOrNil(r.1))
    case LLenReq(key) =>
      var p := Purge(s, now, key);
      if TypeOf(s, now, key).StringKey? then (p, WRONG_TYPE)
      else var r := LLen(p, later, key); (r.0, Integer(r.1))
    case _ => Exec(s, now, req)
  }

  /** `saved` is whether a SAVE manages to write the file. */
  function ExecCommandBetween(s: State, now: nat, later: nat, saved: bool, cmd: Command): (State, Reply) {
    if cmd == [] then (s, Silent)
    else if IsSave(cmd) && !saved then (s, SAVE_FAILED)
    else ExecBetween(s, now, later, Classify(cmd))
  }

  lemma OneReading(s: State, now: nat, cmd: Command)
    ensures ExecCommandBetween(s, now, now, true, cmd) == ExecCommand(s, now, cmd)
  {
    hide Classify, Get, Pop, LLen, Purge;
  }

  /** `CommandProcessor::execute` with the handlers it dispatches to. */
  method Execute(db: Database, now: nat, later: nat, saved: bool, cmd: Command) returns (reply: Reply)
    modifies db
    ensures (db.Abstraction(), reply) == ExecCommandBetween(old(db.Abstraction()), now, later, saved, cmd)
  {
    if cmd == [] {
      return Silent;
    }
    if IsSave(cmd) && !saved {
      return SAVE_FAILED;
    }
    reply := ExecuteRequest(db, now, later, Classify(cmd));
  }

  method ExecuteRequest(db: Database, now: nat, later: nat, req: Request) returns (reply: Reply)
    modifies db
    ensures (db.Abstraction(), reply) == ExecBetween(old(db.Abstraction()), now, later, req)
  {
    hide Set, Get, Push, Pop, TtlBetween, ExpireBetween, Purge, Exists, LLen, Del;
    match req {
      case SetReq(key, value) =>
        db.SetString(key, value);
        return OK;
      case GetReq(key) =>
        var t := db.KeyTypeOf(now, key);
        if t == ListKey {
          return WRONG_TYPE;
        }
        var r := db.GetString(later, key);
        return BulkOrNil(r);
      case DelReq(key) =>
        var _ := db.Delete(key);
        return OK;
      case ExistsReq(key) =>
        var found := db.KeyExists(now, key);
        return Integer(if found then 1 else 0);
      case ExpireReq(key, seconds) =>
        var ms := seconds * 1000;
        if ms > LLONG_MAX {
          db.undefined := true;
        }
        var ok := db.SetTtl(now, later, key, ms);
        return Integer(if ok then 1 else 0);
      case TtlReq(key) =>
        var ms := db.TimeToLive(now, later, key);
        return TtlReply(ms);
      case PushReq(key, value, front) =>
        var t := db.KeyTypeOf(now, key);
        if t == StringKey {
          return WRONG_TYPE;
        }
        var n := db.PushItem(key, value, front);
        return Integer(n);
      case PopReq(key, front) =>
        var t := db.KeyTypeOf(now, key);
        if t == StringKey {
          return WRONG_TYPE;
        }
        var r := db.PopItem(later, key, front);
        return BulkOrNil(r);
      case LLenReq(key) =>
        var t := db.KeyTypeOf(now, key);
        if t == StringKey {
          return WRONG_TYPE;
        }
        var n := db.ListLength(later, key);
        return Integer(n);
      case Immediate(r) =>
        return r;
    }
  }

  // ----- runs -----

  /** What the event loop does to the database: a client command or an expiry sweep. */
  datatype Action = Do(cmd: Command) | SweepTick

  datatype Event = Event(now: nat, action: Action)

  function Step(s: State, e: Event): (State, Reply) {
    match e.action
    case Do(cmd) => ExecCommand(s, e.now, cmd)
    case SweepTick => (Sweep(s, e.now), Silent)
  }

  function Run(s: State, es: seq<Event>): State
    decreases |es|
  {
    if es == [] then s else Run(Step(s, es[0]).0, es[1..])
  }

  /** The clock starts at `t` and never goes back. */
  predicate ClockFrom(t: nat, es: seq<Event>)
    decreases |es|
  {
    es != [] ==> t <= es[0].now && ClockFrom(es[0].now, es[1..])
  }
}
