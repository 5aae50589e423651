/** The server loop's handling of one readable client, from src/server.cpp, with the leader's half of
    src/replication.cpp. Sockets are byte sequences; `now` is the clock at the call. */
module Server {
  import opened Text
  import opened Keyspace
  import opened Db
  import opened Commands
  import opened Stores
  import opened TimedMap
  import opened Wire
  import opened FullSync
  import opened Replication
  import opened Client
  import Resp

  datatype Role = Standalone | Leader | Replica

  datatype Peer = Peer(input: string, output: string)

  /** The leader's view of one replica. */
  datatype Connection = Connection(fd: int, output: string)

  /** What `recv` does: bytes, none of them when it would block, or an error or the end of the stream. */
  datatype Received = Arrived(chunk: string) | HungUp

  /** What `send` does. */
  datatype Sent = Took(n: nat) | WouldBlock | Broken

  function Taken(output: string, sent: Sent): (n: nat)
    ensures n <= |output|
  {
    if !sent.Took? then 0 else if sent.n < |output| then sent.n else |output|
  }

  /** What is left of a buffer after one `send`; None when the connection has failed. */
  function AfterSend(output: string, sent: Sent): Option<string> {
    if output == "" then Some("")
    else if sent.Broken? || sent == Took(0) then None
    else Some(output[Taken(output, sent)..])
  }

  const EVICTION_INTERVAL: nat := 100

  const READONLY: Reply := Error("READONLY You can't write against a read only replica.")

  // ----- one batch of commands -----

  /** The database, what the client is sent, what every replica is sent, and whether the
      connection has turned into a replica, which ends the batch. */
  datatype Serving = Serving(db: State, output: string, queued: string, promoted: bool)

  predicate IsHandshake(cmd: Command) {
    cmd != [] && Upper(cmd[0]) == "REPLICAOF"
  }

  function ServeOne(role: Role, x: Serving, now: nat, cmd: Command): Serving {
    if x.promoted || cmd == [] then x
    else if IsHandshake(cmd) && role.Leader? then x.(promoted := true)
    else if role.Replica? && IsWrite(cmd) then x.(output := x.output + Serialize(READONLY))
    else
      var r := ExecCommand(x.db, now, cmd);
      x.(db := r.0, output := x.output + Serialize(r.1),
         queued := x.queued + if role.Leader? && IsWrite(cmd) then EncodeCommand(cmd) else "")
  }

  /** `clock(i)` is the time at which the i-th command is executed. */
  function ServeAll(role: Role, x: Serving, clock: nat -> nat, cmds: seq<Command>): Serving {
    if cmds == [] then x
    else ServeOne(role, ServeAll(role, x, clock, cmds[..|cmds| - 1]), clock(|cmds| - 1), cmds[|cmds| - 1])
  }

  lemma NothingServed(role: Role, x: Serving, now: nat)
    ensures ServeOne(role, x, now, []) == x && !IsHandshake([])
  {
  }

  /** Once promoted, the rest of the batch is dropped. */
  lemma {:induction false} PromotedStops(role: Role, x: Serving, clock: nat -> nat, cmds: seq<Command>, i: nat)
    requires i <= |cmds| && ServeAll(role, x, clock, cmds[..i]).promoted
    ensures ServeAll(role, x, clock, cmds) == ServeAll(role, x, clock, cmds[..i])
    decreases |cmds| - i
  {
    if i < |cmds| {
      assert cmds[..i + 1][..i] == cmds[..i];
      PromotedStops(role, x, clock, cmds, i + 1);
    } else {
      assert cmds[..i] == cmds;
    }
  }

  lemma Promotes(x: Serving, clock: nat -> nat, cmds: seq<Command>, n: nat)
    requires n < |cmds| && IsHandshake(cmds[n]) && !ServeAll(Leader, x, clock, cmds[..n]).promoted
    ensures ServeAll(Leader, x, clock, cmds) == ServeAll(Leader, x, clock, cmds[..n]).(promoted := true)
  {
    hide ExecCommand, EncodeCommand, Serialize;
    assert cmds[..n + 1][..n] == cmds[..n];
    PromotedStops(Leader, x, clock, cmds, n + 1);
  }

  // ----- a replica is read-only -----

  /** A command that is not a write shows every live key unchanged, deadlines included. */
  lemma ReadsChangeNothing(s: State, now: nat, cmd: Command)
    requires Consistent(s) && !IsWrite(cmd)
    ensures Live(Contents(ExecCommand(s, now, cmd).0), now) == Live(Contents(s), now)
    ensures Consistent(ExecCommand(s, now, cmd).0)
  {
    if cmd != [] {
      hide Exec, Classify, Contents, Consistent;
      NotWriteRequest(cmd);
      ExecConsistent(s, now, Classify(cmd));
      ExecTransparentIff(s, now, Classify(cmd));
      LiveLater(Contents(s), now, now);
    }
  }

  /** Whatever clients send a replica, its live keys stay as the leader's stream left them. */
  lemma {:induction false} ReplicaIsReadOnly(x: Serving, clock: nat -> nat, cmds: seq<Command>, later: nat)
    requires Consistent(x.db) && !x.promoted
    requires forall i :: 0 <= i < |cmds| ==> clock(i) <= later
    ensures var r := ServeAll(Replica, x, clock, cmds);
            && Live(Contents(r.db), later) == Live(Contents(x.db), later)
            && Consistent(r.db) && r.queued == x.queued && !r.promoted
  {
    hide ExecCommand, Serialize, IsHandshake, IsWrite, Contents, Consistent, Live;
    if cmds != [] {
      var n := |cmds| - 1;
      ReplicaIsReadOnly(x, clock, cmds[..n], later);
      var r, cmd := ServeAll(Replica, x, clock, cmds[..n]), cmds[n];
      if cmd != [] && !IsWrite(cmd) {
        ReadsChangeNothing(r.db, clock(n), cmd);
        LiveLater(Contents(r.db), clock(n), later);
        LiveLater(Contents(ExecCommand(r.db, clock(n), cmd).0), clock(n), later);
      }
      assert r.queued + "" == r.queued;
    }
  }

  // ----- what a batch does, by role -----

  /** The bytes of a sequence of replies. */
  function Answered(rs: seq<Reply>): string {
    if rs == [] then "" else Answered(rs[..|rs| - 1]) + Serialize(rs[|rs| - 1])
  }

  predicate Writes(cmd: Command) {
    cmd != [] && Upper(cmd[0]) in {"SET", "DEL", "EXPIRE", "LPUSH", "RPUSH", "LPOP", "RPOP"}
  }

  /** The commands that are executed, each at its time: all that are not empty, but for a replica's writes. */
  function Executed(role: Role, clock: nat -> nat, cmds: seq<Command>): seq<Event> {
    if cmds == [] then []
    else
      var n := |cmds| - 1;
      Executed(role, clock, cmds[..n]) +
      if cmds[n] == [] || (role.Replica? && Writes(cmds[n])) then [] else [Event(clock(n), Do(cmds[n]))]
  }

  /** The replies in order, with a refusal for each write that a replica is sent. */
  function BatchReplies(role: Role, s: State, clock: nat -> nat, cmds: seq<Command>): seq<Reply> {
    if cmds == [] then []
    else
      var n := |cmds| - 1;
      BatchReplies(role, s, clock, cmds[..n]) +
      if cmds[n] == [] then []
      else if role.Replica? && Writes(cmds[n]) then [READONLY]
      else [Step(Run(s, Executed(role, clock, cmds[..n])), Event(clock(n), Do(cmds[n]))).1]
  }

  /** The encoded writes in order. */
  function EncodedWrites(cmds: seq<Command>): string {
    if cmds == [] then ""
    else EncodedWrites(cmds[..|cmds| - 1]) + if Writes(cmds[|cmds| - 1]) then EncodeCommand(cmds[|cmds| - 1]) else ""
  }

  predicate AsksToFollow(cmd: Command) {
    cmd != [] && Upper(cmd[0]) == "REPLICAOF"
  }

  lemma {:induction false} RunSnoc(s: State, es: seq<Event>, e: Event)
    ensures Run(s, es + [e]) == Step(Run(s, es), e).0
    ensures Replies(s, es + [e]) == Replies(s, es) + [Step(Run(s, es), e).1]
    decreases |es|
  {
    hide Step;
    if es == [] {
      assert [e][1..] == [] && [] + [e] == [e];
      assert Run(Step(s, e).0, []) == Step(s, e).0;
      assert Replies(Step(s, e).0, []) == [];
    } else {
      RunSnoc(Step(s, es[0]).0, es[1..], e);
      assert (es + [e])[1..] == es[1..] + [e];
    }
  }

  lemma ServeOneIs(role: Role, x: Serving, now: nat, cmd: Command)
    requires !x.promoted && (role.Leader? ==> !AsksToFollow(cmd))
    ensures var r := ServeOne(role, x, now, cmd);
            if cmd == [] then r == x
            else if role.Replica? && Writes(cmd) then r == x.(output := x.output + Serialize(READONLY))
            else
              var y := Step(x.db, Event(now, Do(cmd)));
              && r.db == y.0 && r.output == x.output + Serialize(y.1) && !r.promoted
              && r.queued == x.queued + if role.Leader? && Writes(cmd) then EncodeCommand(cmd) else ""
  {
    hide ExecCommand, EncodeCommand, Serialize, Upper;
  }

  /** What a server does with a batch in which no leader is asked to be followed: the database ends as after
      a run of the executed commands, each at its time; the output is the replies in order; only a leader queues
      anything, and that is its writes in order. */
  lemma {:induction false} BatchRuns(role: Role, s: State, clock: nat -> nat, cmds: seq<Command>)
    requires role.Leader? ==> forall i :: 0 <= i < |cmds| ==> !AsksToFollow(cmds[i])
    ensures var r := ServeAll(role, Serving(s, "", "", false), clock, cmds);
            && r.db == Run(s, Executed(role, clock, cmds))
            && r.output == Answered(BatchReplies(role, s, clock, cmds))
            && r.queued == (if role.Leader? then EncodedWrites(cmds) else "")
            && !r.promoted
  {
    hide ServeOne, Step, Run, Writes, EncodeCommand, Serialize, AsksToFollow;
    if cmds == [] {
      NoEvents(s);
    } else {
      var n := |cmds| - 1;
      var front, cmd, e := cmds[..n], cmds[n], Event(clock(n), Do(cmds[n]));
      BatchRuns(role, s, clock, front);
      ServeOneIs(role, ServeAll(role, Serving(s, "", "", false), clock, front), clock(n), cmd);
      var es, rs := Executed(role, clock, front), BatchReplies(role, s, clock, front);
      EmptyWritesNothing();
      RunSnoc(s, es, e);
      assert es + [] == es && rs + [] == rs;
      AnsweredSnoc(rs, READONLY);
      AnsweredSnoc(rs, Step(Run(s, es), e).1);
      assert EncodedWrites(front) + "" == EncodedWrites(front) && "" + "" == "";
    }
  }

  lemma EmptyWritesNothing()
    ensures !Writes([])
  {
  }

  lemma NoEvents(s: State)
    ensures Run(s, []) == s
  {
  }

  lemma AnsweredSnoc(rs: seq<Reply>, r: Reply)
    ensures Answered(rs + [r]) == Answered(rs) + Serialize(r)
  {
    assert (rs + [r])[..|rs|] == rs;
  }

  /** On a standalone server or a leader, every command that is not empty is executed and answered. */
  lemma {:induction false} AllAreAnswered(role: Role, s: State, clock: nat -> nat, cmds: seq<Command>)
    requires !role.Replica?
    ensures BatchReplies(role, s, clock, cmds) == Replies(s, Executed(role, clock, cmds))
  {
    hide Step, Run, Writes, Replies;
    if cmds == [] {
      NoReplies(s);
    } else {
      var n := |cmds| - 1;
      var es := Executed(role, clock, cmds[..n]);
      AllAreAnswered(role, s, clock, cmds[..n]);
      RunSnoc(s, es, Event(clock(n), Do(cmds[n])));
      assert es + [] == es && Replies(s, es) + [] == Replies(s, es);
    }
  }

  /** They are executed in the order they came in, each at its time. */
  lemma {:induction false} AllAreExecuted(role: Role, clock: nat -> nat, cmds: seq<Command>)
    requires !role.Replica? && forall i :: 0 <= i < |cmds| ==> cmds[i] != []
    ensures |Executed(role, clock, cmds)| == |cmds|
    ensures forall i :: 0 <= i < |cmds| ==> Executed(role, clock, cmds)[i] == Event(clock(i), Do(cmds[i]))
  {
    hide Writes;
    if cmds != [] {
      var n := |cmds| - 1;
      assert forall i :: 0 <= i < n ==> cmds[..n][i] == cmds[i];
      AllAreExecuted(role, clock, cmds[..n]);
    }
  }

  lemma NoReplies(s: State)
    ensures Replies(s, []) == []
  {
  }

  lemma {:induction false} AnsweredIsStream(rs: seq<Reply>)
    ensures Answered(rs) == ReplyStream(rs)
  {
    hide Serialize;
    if rs != [] {
      AnsweredIsStream(rs[..|rs| - 1]);
      ReplyStreamSnoc(rs[..|rs| - 1], rs[|rs| - 1]);
      assert rs[..|rs| - 1] + [rs[|rs| - 1]] == rs;
    }
  }

  /** A client that reads the output of a batch gets the replies back one by one, in order, with nothing left over,
      when each of them can be framed. */
  lemma ClientReadsBack(role: Role, s: State, clock: nat -> nat, cmds: seq<Command>)
    requires role.Leader? ==> forall i :: 0 <= i < |cmds| ==> !AsksToFollow(cmds[i])
    requires forall r :: r in BatchReplies(role, s, clock, cmds) ==> Framed(r)
    ensures var output := ServeAll(role, Serving(s, "", "", false), clock, cmds).output;
            ReadReplies(output) == ReplyBatch(BatchReplies(role, s, clock, cmds), "")
  {
    hide ServeAll, BatchReplies, ReadReplies, Framed;
    BatchRuns(role, s, clock, cmds);
    AnsweredIsStream(BatchReplies(role, s, clock, cmds));
    RepliesRoundTrip(BatchReplies(role, s, clock, cmds));
  }

  /** Only a leader turns a connection into a replica, and it does so exactly when asked. */
  lemma PromotesIff(role: Role, s: State, clock: nat -> nat, cmds: seq<Command>)
    ensures ServeAll(role, Serving(s, "", "", false), clock, cmds).promoted <==>
            role.Leader? && exists i :: 0 <= i < |cmds| && AsksToFollow(cmds[i])
  {
    hide ServeAll, AsksToFollow, IsHandshake, EncodedWrites;
    if role.Leader? && exists i :: 0 <= i < |cmds| && AsksToFollow(cmds[i]) {
      var n := BeforeHandshake(cmds);
      AsksIff(cmds);
      BatchRuns(role, s, clock, cmds[..n]);
      Promotes(Serving(s, "", "", false), clock, cmds, n);
    } else {
      BatchRuns(role, s, clock, cmds);
    }
  }

  lemma AsksIff(cmds: seq<Command>)
    ensures var n := BeforeHandshake(cmds);
            && (n < |cmds| <==> exists i :: 0 <= i < |cmds| && AsksToFollow(cmds[i]))
            && (forall i :: 0 <= i < n ==> !AsksToFollow(cmds[..n][i]))
            && (n < |cmds| ==> IsHandshake(cmds[n]))
  {
    hide Upper, BeforeHandshake;
    assert forall i :: 0 <= i < |cmds| ==> (IsHandshake(cmds[i]) <==> AsksToFollow(cmds[i]));
  }

  // ----- batches and the protocol -----

  function ClientSteps(y: System, clock: nat -> nat, cmds: seq<Command>): (z: System)
    ensures |z.links| == |y.links| && (y.log != [] ==> z.log != [])
  {
    if cmds == [] then y
    else ClientStep(ClientSteps(y, clock, cmds[..|cmds| - 1]), clock(|cmds| - 1), cmds[|cmds| - 1])
  }

  /** How many commands come before the first handshake. */
  function BeforeHandshake(cmds: seq<Command>): (n: nat)
    ensures n <= |cmds| && forall i :: 0 <= i < n ==> !IsHandshake(cmds[i])
    ensures n < |cmds| ==> IsHandshake(cmds[n])
  {
    if cmds == [] || IsHandshake(cmds[0]) then 0 else 1 + BeforeHandshake(cmds[1..])
  }

  lemma {:induction false} PlainBatch(y: System, clock: nat -> nat, cmds: seq<Command>)
    requires forall i :: 0 <= i < |cmds| ==> !IsHandshake(cmds[i])
    ensures var r, z := ServeAll(Leader, Serving(y.leader, "", "", false), clock, cmds), ClientSteps(y, clock, cmds);
            && !r.promoted && z.leader == r.db
            && forall i :: 0 <= i < |y.links| ==> z.links[i] == y.links[i].(output := y.links[i].output + r.queued)
  {
    hide Exec, Classify, EncodeCommand, Serialize, IsHandshake;
    if cmds == [] {
      assert forall l: Link :: l.output + "" == l.output;
    } else {
      var n := |cmds| - 1;
      PlainBatch(y, clock, cmds[..n]);
      var r := ServeAll(Leader, Serving(y.leader, "", "", false), clock, cmds[..n]);
      var wire := if IsWrite(cmds[n]) then EncodeCommand(cmds[n]) else "";
      forall i | 0 <= i < |y.links|
        ensures y.links[i].output + r.queued + wire == y.links[i].output + (r.queued + wire)
      {
        ConcatAssoc(y.links[i].output, r.queued, wire);
      }
    }
  }

  /** A leader that serves a batch makes exactly the protocol's client steps for the commands before the first
      handshake: the same database, and the same bytes at the end of every replica's buffer. It promotes the
      connection exactly when there is a handshake. */
  lemma BatchIsSteps(y: System, clock: nat -> nat, cmds: seq<Command>)
    ensures var n, r := BeforeHandshake(cmds), ServeAll(Leader, Serving(y.leader, "", "", false), clock, cmds);
            var z := ClientSteps(y, clock, cmds[..n]);
            && (r.promoted <==> n < |cmds|) && z.leader == r.db
            && forall i :: 0 <= i < |y.links| ==> z.links[i] == y.links[i].(output := y.links[i].output + r.queued)
  {
    hide IsHandshake, ClientSteps, ServeAll;
    var n := BeforeHandshake(cmds);
    PlainBatch(y, clock, cmds[..n]);
    if n < |cmds| {
      Promotes(Serving(y.leader, "", "", false), clock, cmds, n);
    } else {
      assert cmds[..n] == cmds;
    }
  }

  /** The server's buffers are those of the protocol's links. */
  predicate Mirrors(conns: seq<Connection>, y: System) {
    |conns| == |y.links| && forall i :: 0 <= i < |conns| ==> conns[i].output == y.links[i].output
  }

  /** What serving a batch does to a leader's buffers is what the protocol's steps do, the join of a
      connection that turns into a replica included. */
  lemma BatchMirrors(conns: seq<Connection>, y: System, clock: nat -> nat, cmds: seq<Command>,
                     fd: int, es: seq<SnapshotEntry>)
    requires Mirrors(conns, y) && y.log != []
    ensures var n, r := BeforeHandshake(cmds), ServeAll(Leader, Serving(y.leader, "", "", false), clock, cmds);
            var z, after := ClientSteps(y, clock, cmds[..n]), Appended(conns, r.queued);
            && z.leader == r.db
            && if r.promoted then Mirrors(after + [Connection(fd, Payload(es))], Next(z, Join(clock(n), es)))
               else Mirrors(after, z)
  {
    hide ServeAll, ClientSteps, Payload;
    BatchIsSteps(y, clock, cmds);
  }

  /** Index of the first connection with this descriptor, or |conns|. */
  function IndexOf(conns: seq<Connection>, fd: int): (i: nat)
    ensures i <= |conns| && (i < |conns| ==> conns[i].fd == fd)
    ensures forall j :: 0 <= j < i ==> conns[j].fd != fd
  {
    if conns == [] || conns[0].fd == fd then 0 else 1 + IndexOf(conns[1..], fd)
  }

  /** One send to a replica; the flag is false when there is no such replica or its connection has failed. */
  function FlushTo(conns: seq<Connection>, fd: int, sent: Sent): (seq<Connection>, bool) {
    var i := IndexOf(conns, fd);
    if i == |conns| then (conns, false)
    else
      var left := AfterSend(conns[i].output, sent);
      if left == None then (conns, false) else (conns[i := Connection(fd, left.value)], true)
  }

  /** A send that takes `n` bytes removes exactly the first `n` bytes of the buffer. */
  lemma SendTakes(output: string, n: nat)
    requires n <= |output|
    ensures AfterSend(output, Took(n)) == if n == 0 && output != "" then None else Some(output[n..])
    ensures AfterSend(output, WouldBlock) == Some(output)
    ensures AfterSend(output, Broken) == if output == "" then Some("") else None
  {
    assert output[0..] == output;
  }

  /** To a replica: the send is the protocol's flush of that many bytes; a socket that would block leaves everything
      as it was; one that takes nothing or is broken fails, unless there was nothing to send. */
  lemma FlushMirrors(conns: seq<Connection>, y: System, fd: int, n: nat)
    requires Mirrors(conns, y) && IndexOf(conns, fd) < |conns| && n <= |conns[IndexOf(conns, fd)].output|
    ensures var i := IndexOf(conns, fd);
            var out := conns[i].output;
            && (n > 0 ==>
                  && FlushTo(conns, fd, Took(n)) == (conns[i := Connection(fd, out[n..])], true)
                  && Possible(y, Flush(i, n)) && Mirrors(FlushTo(conns, fd, Took(n)).0, Next(y, Flush(i, n))))
            && FlushTo(conns, fd, WouldBlock) == (conns, true)
            && FlushTo(conns, fd, Took(0)) == (conns, out == "") == FlushTo(conns, fd, Broken)
  {
    var i := IndexOf(conns, fd);
    SendTakes(conns[i].output, n);
    SendTakes(conns[i].output, 0);
    assert conns[i := conns[i]] == conns;
  }

  /** To a client: the same, and a failure disconnects it. */
  lemma WrittenTakes(clients: map<int, Peer>, fd: int, n: nat)
    requires fd in clients && n <= |clients[fd].output|
    ensures var p := clients[fd];
            && (n > 0 ==> Written(clients, fd, Took(n)) == clients[fd := Peer(p.input, p.output[n..])])
            && Written(clients, fd, WouldBlock) == clients
            && (p.output != "" ==>
                  Written(clients, fd, Took(0)) == clients - {fd} && Written(clients, fd, Broken) == clients - {fd})
  {
    SendTakes(clients[fd].output, n);
    SendTakes(clients[fd].output, 0);
    assert clients[fd := clients[fd]] == clients;
  }

  const HANDSHAKE: Command := ["REPLICAOF", "self", "self"]

  const ASK: seq<Resp.Piece> := [Resp.Piece("REPLICAOF", false)]
  const SELF: seq<Resp.Piece> := [Resp.Piece("self", false)]

  lemma PlainWord(word: string)
    requires '"' !in word && '\n' !in word && ' ' !in word
    ensures var ps := [Resp.Piece(word, false)];
            Resp.Typable(ps[0]) && Resp.ArgText(ps) == word && Resp.ArgValue(ps) == word
  {
    var ps := [Resp.Piece(word, false)];
    assert ps[1..] == [];
    assert word + "" == word;
  }

  lemma HandshakeWords()
    ensures "REPLICAOF" + (" " + ("self" + (" " + "self"))) == "REPLICAOF self self"
    ensures ["REPLICAOF"] + (["self"] + ["self"]) == HANDSHAKE
  {
  }

  lemma HandshakeText()
    ensures Resp.AllTypable([ASK, SELF, SELF])
    ensures Resp.Typed([ASK, SELF, SELF]) == "REPLICAOF self self" && Resp.TypedValues([ASK, SELF, SELF]) == HANDSHAKE
  {
    PlainWord("REPLICAOF");
    PlainWord("self");
    hide Resp.ArgText, Resp.ArgValue, Resp.Typed, Resp.TypedValues, Resp.Typable, HANDSHAKE;
    HandshakeWords();
    Resp.TypedOne(SELF);
    Resp.TypedMore(SELF, [SELF]);
    Resp.TypedMore(ASK, [SELF, SELF]);
    assert [SELF] + [SELF] == [SELF, SELF] && [ASK] + [SELF, SELF] == [ASK, SELF, SELF];
  }

  /** What `connect_to_leader` sends is read as one command and makes a leader promote the connection. */
  lemma HandshakePromotes(s: State, now: nat)
    ensures Resp.ParseAll("REPLICAOF self self" + CRLF) == Resp.Batch([HANDSHAKE], "", false)
    ensures ServeAll(Leader, Serving(s, "", "", false), _ => now, [HANDSHAKE]) == Serving(s, "", "", true)
  {
    hide Resp.ParseOne, Resp.ParseAll, Resp.Typed, Resp.TypedValues, Resp.AllTypable, ExecCommand, Upper;
    HandshakeText();
    UpperPlain("REPLICAOF");
    var line := "REPLICAOF self self" + CRLF;
    Resp.InlineRoundTrip([ASK, SELF, SELF], "");
    assert line + "" == line;
    Resp.OneCommand(line, HANDSHAKE);
    assert [HANDSHAKE][..0] == [];
  }

  // ----- the server -----

  class ServerNode {
    const role: Role
    const db: Database
    var clients: map<int, Peer>
    var replicas: seq<Connection>
    var loopTick: nat

    constructor (role: Role, db: Database)
      ensures this.role == role && this.db == db && clients == map[] && replicas == [] && loopTick == 0
    {
      this.role, this.db := role, db;
      clients, replicas, loopTick := map[], [], 0;
    }

    /** `propagate`: appends the encoded command to every replica's buffer. */
    method PropagateToReplicas(cmd: Command)
      modifies `replicas
      ensures replicas == Appended(old(replicas), EncodeCommand(cmd))
    {
      if replicas == [] {
        return;
      }
      var wire := EncodeForReplicas(cmd);
      hide EncodeCommand;
      for i := 0 to |replicas|
        invariant |replicas| == |old(replicas)|
        invariant forall k :: 0 <= k < i ==> replicas[k] == Connection(old(replicas)[k].fd, old(replicas)[k].output + wire)
        invariant forall k :: i <= k < |replicas| ==> replicas[k] == old(replicas)[k]
      {
        replicas := replicas[i := Connection(replicas[i].fd, replicas[i].output + wire)];
      }
    }

    /** `flush_replica`: false when there is no such replica or its connection has failed. */
    method FlushReplica(fd: int, sent: Sent) returns (ok: bool)
      modifies `replicas
      ensures (replicas, ok) == FlushTo(old(replicas), fd, sent)
    {
      for i := 0 to |replicas|
        invariant replicas == old(replicas)
        invariant forall k :: 0 <= k < i ==> replicas[k].fd != fd
      {
        if replicas[i].fd == fd {
          assert i == IndexOf(replicas, fd);
          var left := AfterSend(replicas[i].output, sent);
          if left == None {
            return false;
          }
          replicas := replicas[i := Connection(fd, left.value)];
          return true;
        }
      }
      return false;
    }

    /** `add_replica`: a connection whose buffer starts with the full sync. */
    method AddReplica(fd: int, now: nat) returns (ghost es: seq<SnapshotEntry>)
      modifies `replicas
      ensures IsSnapshot(es, db.Abstraction(), now)
      ensures replicas == old(replicas) + [Connection(fd, Payload(es))]
    {
      var payload, entries := BuildFullSync(db, now);
      es := entries;
      replicas := replicas + [Connection(fd, payload)];
    }

    method Respond(fd: int, response: string)
      requires fd in clients
      modifies `clients
      ensures clients == old(clients)[fd := Peer(old(clients)[fd].input, old(clients)[fd].output + response)]
    {
      clients := clients[fd := clients[fd].(output := clients[fd].output + response)];
    }

    ghost predicate Served(x: Serving, fd: int, before: map<int, Peer>, rest: string, conns: seq<Connection>)
      requires fd in before
      reads this, db
    {
      && db.Abstraction() == x.db
      && clients == before[fd := Peer(rest, before[fd].output + x.output)]
      && replicas == Appended(conns, x.queued)
    }

    /** `write_to_socket`, and `disconnect_client` when it fails. */
    method WriteClient(fd: int, sent: Sent)
      requires fd in clients
      modifies `clients
      ensures clients == Written(old(clients), fd, sent)
    {
      var left := AfterSend(clients[fd].output, sent);
      if left == None {
        clients := clients - {fd};
      } else {
        clients := clients[fd := Peer(clients[fd].input, left.value)];
      }
    }

    /** `handle_client_read`. Parses what is complete, then executes each command and propagates it if it is a
        write; a handshake turns the connection into a replica and ends the batch; otherwise the queued responses
        are written to the socket. */
    method HandleClientRead(fd: int, received: Received, clock: nat -> nat, sent: Sent)
      returns (ghost es: seq<SnapshotEntry>)
      modifies this, db
      ensures loopTick == old(loopTick)
      ensures fd !in old(clients) || received.HungUp? ==>
                clients == old(clients) - {fd} && replicas == old(replicas) && db.Abstraction() == old(db.Abstraction())
      ensures fd in old(clients) && received.Arrived? ==>
                var batch := Resp.ParseAll(old(clients)[fd].input + received.chunk);
                var x := ServeAll(role, Serving(old(db.Abstraction()), "", "", false), clock, batch.cmds);
                var served := old(clients)[fd := Peer(batch.rest, old(clients)[fd].output + x.output)];
                && db.Abstraction() == x.db
                && (!x.promoted ==>
                      && clients == (if batch.cmds == [] then served else Written(served, fd, sent))
                      && replicas == Appended(old(replicas), x.queued))
                && (x.promoted ==>
                      && clients == old(clients) - {fd}
                      && IsSnapshot(es, x.db, clock(BeforeHandshake(batch.cmds)))
                      && replicas == Appended(old(replicas), x.queued) + [Connection(fd, Payload(es))])
    {
      hide Resp.ParseAll, ExecCommand, EncodeCommand, Serialize, IsHandshake, IsWrite, IsSnapshot, Payload;
      es := [];
      if fd !in clients {
        assert clients - {fd} == clients;
        return;
      }
      if received.HungUp? {
        clients := clients - {fd};
        return;
      }
      var before, conns := clients, replicas;
      var rest, cmds, parsedAny := Resp.Parse(clients[fd].input + received.chunk);
      clients := clients[fd := Peer(rest, clients[fd].output)];
      ghost var start := Serving(db.Abstraction(), "", "", false);
      AppendNothing(conns);
      assert before[fd].output + "" == before[fd].output;
      if !parsedAny {
        return;
      }
      var promoted;
      promoted, es := ServeCommands(fd, clock, cmds, start, before, rest, conns);
      if !promoted {
        WriteClient(fd, sent);
      }
    }

    /** The command loop; stops at a handshake to a leader. */
    method ServeCommands(fd: int, clock: nat -> nat, cmds: seq<Command>,
        ghost start: Serving, ghost before: map<int, Peer>, ghost rest: string, ghost conns: seq<Connection>)
      returns (promoted: bool, ghost es: seq<SnapshotEntry>)
      requires fd in before && fd in clients && !start.promoted && Served(start, fd, before, rest, conns)
      modifies this, db
      ensures loopTick == old(loopTick)
      ensures var x := ServeAll(role, start, clock, cmds);
              && promoted == x.promoted
              && (!promoted ==> fd in clients && Served(x, fd, before, rest, conns))
              && (promoted ==>
                    && db.Abstraction() == x.db
                    && clients == before - {fd}
                    && IsSnapshot(es, x.db, clock(BeforeHandshake(cmds)))
                    && replicas == Appended(conns, x.queued) + [Connection(fd, Payload(es))])
    {
      hide ExecCommand, EncodeCommand, Serialize, IsHandshake, IsWrite, IsSnapshot, Payload, ServeOne;
      es, promoted := [], false;
      for i := 0 to |cmds|
        invariant loopTick == old(loopTick) && fd in clients
        invariant role.Leader? ==> forall k :: 0 <= k < i ==> !IsHandshake(cmds[k])
        invariant !ServeAll(role, start, clock, cmds[..i]).promoted
        invariant Served(ServeAll(role, start, clock, cmds[..i]), fd, before, rest, conns)
      {
        var cmd := cmds[i];
        ghost var x := ServeAll(role, start, clock, cmds[..i]);
        assert cmds[..i + 1][..i] == cmds[..i];
        if cmd == [] {
          NothingServed(role, x, clock(i));
        } else if IsHandshake(cmd) && role.Leader? {
          Promotes(start, clock, cmds, i);
          assert i == BeforeHandshake(cmds);
          clients := clients - {fd};
          assert clients == before - {fd};
          es := AddReplica(fd, clock(i));
          promoted := true;
          return;
        } else {
          ServeClientCommand(fd, clock(i), cmd, x, before, rest, conns);
        }
      }
      assert cmds[..|cmds|] == cmds;
    }

    /** One command of the batch that is not a handshake to a leader. */
    method ServeClientCommand(fd: int, now: nat, cmd: Command,
        ghost x: Serving, ghost before: map<int, Peer>, ghost rest: string, ghost conns: seq<Connection>)
      requires fd in before && fd in clients && cmd != [] && !(IsHandshake(cmd) && role.Leader?)
      requires !x.promoted && Served(x, fd, before, rest, conns)
      modifies this, db
      ensures loopTick == old(loopTick) && fd in clients
      ensures Served(ServeOne(role, x, now, cmd), fd, before, rest, conns) && !ServeOne(role, x, now, cmd).promoted
    {
      hide ExecCommand, ExecCommandBetween, EncodeCommand, Serialize, IsHandshake, IsWrite;
      if role.Replica? && IsWrite(cmd) {
        ConcatAssoc(before[fd].output, x.output, Serialize(READONLY));
        Respond(fd, Serialize(READONLY));
        return;
      }
      OneReading(db.Abstraction(), now, cmd);
      var reply := Execute(db, now, now, true, cmd);
      ConcatAssoc(before[fd].output, x.output, Serialize(reply));
      Respond(fd, Serialize(reply));
      if role.Leader? && IsWrite(cmd) {
        PropagateToReplicas(cmd);
        AppendTwice(conns, x.queued, EncodeCommand(cmd));
      } else {
        assert x.queued + "" == x.queued;
      }
    }

    /** One turn of the event loop's sweep counter. */
    method Tick(now: nat)
      modifies this, db
      ensures clients == old(clients) && replicas == old(replicas)
      ensures db.Abstraction() == if old(loopTick) + 1 >= EVICTION_INTERVAL then Sweep(old(db.Abstraction()), now)
                               else old(db.Abstraction())
      ensures loopTick == if old(loopTick) + 1 >= EVICTION_INTERVAL then 0 else old(loopTick) + 1
    {
      loopTick := loopTick + 1;
      if loopTick >= EVICTION_INTERVAL {
        db.EvictExpired(now);
        loopTick := 0;
      }
    }
  }

  function Appended(conns: seq<Connection>, bytes: string): (r: seq<Connection>)
    ensures |r| == |conns|
  {
    seq(|conns|, i requires 0 <= i < |conns| => Connection(conns[i].fd, conns[i].output + bytes))
  }

  /** The clients after a write to the socket of one of them. */
  function Written(clients: map<int, Peer>, fd: int, sent: Sent): map<int, Peer>
    requires fd in clients
  {
    var left := AfterSend(clients[fd].output, sent);
    if left == None then clients - {fd} else clients[fd := Peer(clients[fd].input, left.value)]
  }

  lemma AppendNothing(conns: seq<Connection>)
    ensures Appended(conns, "") == conns
  {
    forall i | 0 <= i < |conns|
      ensures conns[i].output + "" == conns[i].output
    {
    }
  }

  lemma AppendTwice(conns: seq<Connection>, a: string, b: string)
    ensures Appended(Appended(conns, a), b) == Appended(conns, a + b)
  {
    forall i | 0 <= i < |conns|
      ensures conns[i].output + a + b == conns[i].output + (a + b)
    {
      ConcatAssoc(conns[i].output, a, b);
    }
  }
}
