/** What a client makes of the server's replies: a reader of simple strings, errors, integers and bulk strings
    as the Redis serialization protocol specification (RESP2) describes them. */
module Client {
  import opened Text
  import opened Commands
  import Resp

  /** `used` is the number of bytes a reply takes. */
  datatype ReplyRead = Got(reply: Reply, used: nat) | NeedMore | Malformed

  function ReadReply(b: string): (r: ReplyRead)
    ensures r.Got? ==> 0 < r.used <= |b|
  {
    var h := FindCrlf(b);
    if h == |b| then NeedMore
    else if h == 0 then Malformed
    else
      var line := b[1..h];
      if b[0] == '+' then Got(Simple(line), h + 2)
      else if b[0] == '-' then Got(Error(line), h + 2)
      else if b[0] == ':' then (if Stoll(line).Some? then Got(Integer(Stoll(line).value), h + 2) else Malformed)
      else if b[0] == '$' then ReadBulk(b, h)
      else Malformed
  }

  function ReadBulk(b: string, h: nat): (r: ReplyRead)
    requires 0 < h && CrlfAt(b, h)
    ensures r.Got? ==> 0 < r.used <= |b|
  {
    var n := Stoll(b[1..h]);
    if n == None || n.value < -1 then Malformed
    else if n.value == -1 then Got(Nil, h + 2)
    else
      var end := h + 2 + n.value;
      if end + 2 > |b| then NeedMore
      else if b[end..end + 2] != CRLF then Malformed
      else Got(Bulk(b[h + 2..end]), end + 2)
  }

  /** The replies that the protocol can frame: one-line texts, and numbers of 64 bits. */
  predicate Framed(r: Reply) {
    match r
    case Silent => false
    case Simple(text) => FindCrlf(text + CRLF) == |text|
    case Error(text) => FindCrlf(text + CRLF) == |text|
    case Bulk(text) => |text| <= LLONG_MAX
    case Nil => true
    case Integer(n) => LLONG_MIN <= n <= LLONG_MAX
  }

  /** A line that begins with its kind. */
  lemma KindLine(kind: char, text: string, x: string)
    requires kind != '\r'
    ensures FindCrlf(text + CRLF) <= |text|
    ensures var b, h := [kind] + text + CRLF + x, FindCrlf(text + CRLF);
            FindCrlf(b) == 1 + h < |b| && b[0] == kind && b[1..1 + h] == text[..h]
  {
    var t := text + CRLF;
    assert CrlfAt(t, |text|);
    var h, b := FindCrlf(t), [kind] + text + CRLF + x;
    forall k | 0 <= k < |t|
      ensures b[1 + k] == t[k]
    {
    }
    var j := FindCrlf(b);
    assert CrlfAt(b, 1 + h);
    assert j <= 1 + h;
    if j < 1 + h {
      assert CrlfAt(b, j);
      assert j > 0;
      assert CrlfAt(t, j - 1);
    }
    assert b[1..1 + h] == text[..h];
  }

  lemma TextReply(text: string, x: string)
    ensures ReadReply(Resp.SimpleString(text) + x) == Got(Simple(text), |text| + 3) <==> FindCrlf(text + CRLF) == |text|
    ensures ReadReply(Resp.ErrorString(text) + x) == Got(Error(text), |text| + 3) <==> FindCrlf(text + CRLF) == |text|
  {
    hide FindCrlf;
    KindLine('+', text, x);
    KindLine('-', text, x);
    assert text[..|text|] == text;
    assert Resp.SimpleString(text) + x == ['+'] + text + CRLF + x;
    assert Resp.ErrorString(text) + x == ['-'] + text + CRLF + x;
  }

  lemma ShowLine(n: int)
    ensures FindCrlf(Show(n) + CRLF) == |Show(n)|
  {
    ShowCrFree(n);
    FindCrlfAfter(Show(n), "");
    assert Show(n) + CRLF + "" == Show(n) + CRLF;
  }

  lemma IntegerReply(n: int, x: string)
    ensures ReadReply(Resp.Integer(n) + x) == Got(Integer(n), |Resp.Integer(n)|) <==> LLONG_MIN <= n <= LLONG_MAX
  {
    hide Show, Stoll, FindCrlf;
    ShowLine(n);
    KindLine(':', Show(n), x);
    StollOfShow(n);
    assert Resp.Integer(n) + x == [':'] + Show(n) + CRLF + x;
    assert Show(n)[..|Show(n)|] == Show(n);
  }

  lemma StollOfShow(n: int)
    ensures Stoll(Show(n)) == if LLONG_MIN <= n <= LLONG_MAX then Some(n) else None
  {
    ParseShow(n, LLONG_MIN, LLONG_MAX);
  }

  lemma BulkReply(text: string, x: string)
    requires |text| <= LLONG_MAX
    ensures ReadReply(Resp.BulkString(text) + x) == Got(Bulk(text), |Resp.BulkString(text)|)
  {
    hide Show, Stoll, FindCrlf;
    var n, tail := |text|, text + CRLF + x;
    ShowLine(n);
    KindLine('$', Show(n), tail);
    StollOfShow(n);
    assert Show(n)[..|Show(n)|] == Show(n);
    TailSlices(['$'] + Show(n) + CRLF, text, x);
    BulkBytes(text, x);
  }

  lemma BulkBytes(text: string, x: string)
    ensures Resp.BulkString(text) + x == ['$'] + Show(|text|) + CRLF + (text + CRLF + x)
  {
    hide Show;
  }

  lemma TailSlices(header: string, text: string, x: string)
    ensures var b, i, j := header + (text + CRLF + x), |header|, |header| + |text|;
            b[i..j] == text && b[j..j + 2] == CRLF
  {
  }

  lemma NilReply(x: string)
    ensures ReadReply(Resp.NullBulk() + x) == Got(Nil, |Resp.NullBulk()|)
  {
    hide Stoll, FindCrlf;
    KindLine('$', "-1", x);
    ParseShow(-1, LLONG_MIN, LLONG_MAX);
    ShowDecimal(1, 1);
    assert Show(-1) == "-1";
    StollOfShow(-1);
    ShowLine(-1);
    assert Resp.NullBulk() + x == ['$'] + "-1" + CRLF + x;
    assert "-1"[..2] == "-1";
  }

  lemma ReadSerialized(r: Reply, x: string)
    requires Framed(r)
    ensures ReadReply(Serialize(r) + x) == Got(r, |Serialize(r)|)
  {
    hide ReadReply, FindCrlf, Show;
    match r {
      case Simple(text) => TextReply(text, x);
      case Error(text) => TextReply(text, x);
      case Bulk(text) => BulkReply(text, x);
      case Nil => NilReply(x);
      case Integer(n) => IntegerReply(n, x);
    }
  }

  /** A reply is read back from its bytes, whatever follows, exactly when it can be framed. The text of a simple
      string or an error must not hold a CRLF; the error for an unknown command echoes the name it was sent. */
  lemma ReadSerializedIff(r: Reply, x: string)
    requires r.Bulk? ==> |r.text| <= LLONG_MAX
    requires r != Silent
    ensures ReadReply(Serialize(r) + x) == Got(r, |Serialize(r)|) <==> Framed(r)
  {
    hide ReadReply, FindCrlf, Show;
    match r {
      case Simple(text) => TextReply(text, x);
      case Error(text) => TextReply(text, x);
      case Integer(n) => IntegerReply(n, x);
      case _ => ReadSerialized(r, x);
    }
  }

  // ----- a stream of replies -----

  datatype ReplyBatch = ReplyBatch(replies: seq<Reply>, rest: string)

  function ReadReplies(b: string): ReplyBatch
    decreases |b|
  {
    match ReadReply(b)
    case Got(reply, used) =>
      var later := ReadReplies(b[used..]);
      ReplyBatch([reply] + later.replies, later.rest)
    case _ => ReplyBatch([], b)
  }

  function ReplyStream(rs: seq<Reply>): string {
    if rs == [] then "" else Serialize(rs[0]) + ReplyStream(rs[1..])
  }

  lemma {:induction false} ReplyStreamSnoc(rs: seq<Reply>, r: Reply)
    ensures ReplyStream(rs + [r]) == ReplyStream(rs) + Serialize(r)
  {
    hide Serialize;
    if rs == [] {
      assert rs + [r] == [r] && [r][1..] == [];
      assert Serialize(r) + "" == Serialize(r) && "" + Serialize(r) == Serialize(r);
    } else {
      ReplyStreamSnoc(rs[1..], r);
      assert (rs + [r])[1..] == rs[1..] + [r];
      ConcatAssoc(Serialize(rs[0]), ReplyStream(rs[1..]), Serialize(r));
    }
  }

  /** A stream of framed replies reads back to exactly those replies, with nothing left over. */
  lemma {:induction false} RepliesRoundTrip(rs: seq<Reply>)
    requires forall r :: r in rs ==> Framed(r)
    ensures ReadReplies(ReplyStream(rs)) == ReplyBatch(rs, "")
  {
    hide Serialize, Framed, ReadReply;
    if rs == [] {
      NothingToRead();
    } else {
      var tail := ReplyStream(rs[1..]);
      ReadSerialized(rs[0], tail);
      RepliesRoundTrip(rs[1..]);
      assert (Serialize(rs[0]) + tail)[|Serialize(rs[0])|..] == tail;
      assert [rs[0]] + rs[1..] == rs;
    }
  }

  lemma NothingToRead()
    ensures ReadReply("").NeedMore?
  {
  }
}
