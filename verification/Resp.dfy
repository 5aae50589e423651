/** The incremental request parser and the serialisers of src/resp.cpp
    (RESP2 arrays of bulk strings, with inline commands as a fallback). */
module Resp {
  import opened Text

  type Command = seq<string>

  /** `used` is the number of bytes a successful parse consumes. */
  datatype ParseResult = Success(cmd: Command, used: nat) | Incomplete | ProtocolError

  // ----- one command at the start of `b` -----

  /** One bulk string: a single argument. */
  function ParseBulk(b: string): (r: ParseResult)
    ensures r.Success? ==> |r.cmd| == 1 && 0 < r.used <= |b|
  {
    if b == "" then Incomplete
    else if b[0] != '$' then ProtocolError
    else
      var h := FindCrlf(b);
      if h == |b| then Incomplete
      else
        var n := Stoi(b[1..h]);
        if n == None then ProtocolError
        else if n.value < 0 then Success([""], h + 2)
        else
          var end := h + 2 + n.value;
          if end + 2 > |b| then Incomplete
          else if b[end] != '\r' || b[end + 1] != '\n' then ProtocolError
          else Success([b[h + 2..end]], end + 2)
  }

  function Then(args: Command, used: nat, r: ParseResult): ParseResult {
    if r.Success? then Success(args + r.cmd, used + r.used) else r
  }

  function ParseBulks(b: string, n: nat): (r: ParseResult)
    ensures r.Success? ==> r.used <= |b|
    decreases n
  {
    if n == 0 then Success([], 0)
    else
      var first := ParseBulk(b);
      if first.Success? then Then(first.cmd, first.used, ParseBulks(b[first.used..], n - 1)) else first
  }

  /** The quote-aware split of an inline command; `arg` is the argument being read. */
  function SplitInline(line: string, arg: string, inQuotes: bool): Command {
    if line == "" then (if arg == "" then [] else [arg])
    else if line[0] == '"' then SplitInline(line[1..], arg, !inQuotes)
    else if line[0] == ' ' && !inQuotes then
      (if arg == "" then [] else [arg]) + SplitInline(line[1..], "", false)
    else SplitInline(line[1..], arg + [line[0]], inQuotes)
  }

  function ChopCr(line: string): string {
    if line != "" && line[|line| - 1] == '\r' then line[..|line| - 1] else line
  }

  function ParseArray(b: string): (r: ParseResult)
    requires b != "" && b[0] == '*'
    ensures r.Success? ==> 0 < r.used <= |b|
  {
    var h := FindCrlf(b);
    if h == |b| then Incomplete
    else
      var n := Stoi(b[1..h]);
      if n == None then ProtocolError
      else if n.value < 0 then Success([], h + 2)
      else Then([], h + 2, ParseBulks(b[h + 2..], n.value))
  }

  function ParseInline(b: string): (r: ParseResult)
    ensures r.Success? ==> 0 < r.used <= |b|
  {
    var lf := Find(b, '\n');
    if lf == |b| then Incomplete
    else Success(SplitInline(ChopCr(b[..lf]), "", false), lf + 1)
  }

  function ParseOne(b: string): (r: ParseResult)
    ensures r.Success? ==> 0 < r.used <= |b|
  {
    if b == "" then Incomplete
    else if b[0] == '*' then ParseArray(b)
    else ParseInline(b)
  }

  // ----- the consuming outer loop -----

  /** `failed` says that a protocol error made the parser throw the rest away. */
  datatype Batch = Batch(cmds: seq<Command>, rest: string, failed: bool)

  function Prepend(cmds: seq<Command>, later: Batch): Batch {
    later.(cmds := cmds + later.cmds)
  }

  /** An empty command is consumed and not reported. */
  function Reported(cmd: Command): seq<Command> {
    if cmd == [] then [] else [cmd]
  }

  function ParseAll(b: string): Batch
    decreases |b|
  {
    match ParseOne(b)
    case Incomplete => Batch([], b, false)
    case ProtocolError => Batch([], "", true)
    case Success(cmd, used) => Prepend(Reported(cmd), ParseAll(b[used..]))
  }

  /** A connection: each chunk is appended to the leftover and the parser runs.
      `failed` says that some run ended in a protocol error. */
  function Feed(buffer: string, chunks: seq<string>): Batch
    decreases |chunks|
  {
    if chunks == [] then Batch([], buffer, false)
    else
      var first := ParseAll(buffer + chunks[0]);
      var later := Feed(first.rest, chunks[1..]);
      Batch(first.cmds + later.cmds, later.rest, first.failed || later.failed)
  }

  function Concat(chunks: seq<string>): string {
    if chunks == [] then "" else chunks[0] + Concat(chunks[1..])
  }

  // ----- serialisers -----

  function SimpleString(s: string): string { "+" + s + CRLF }

  function ErrorString(s: string): string { "-" + s + CRLF }

  function NullBulk(): string { "$-1" + CRLF }

  function Integer(n: int): string { ":" + Show(n) + CRLF }

  function BulkString(s: string): string {
    "$" + Show(|s|) + CRLF + s + CRLF
  }

  function BulkStrings(args: Command): string {
    if args == [] then "" else BulkString(args[0]) + BulkStrings(args[1..])
  }

  function Array(args: Command): string {
    "*" + Show(|args|) + CRLF + BulkStrings(args)
  }

  // ----- stability: more bytes never change a verdict -----

  lemma DropOfAppended(b: string, x: string, i: nat)
    requires i <= |b|
    ensures (b + x)[i..] == b[i..] + x
  {
  }

  lemma DropTwice(b: string, i: nat, j: nat)
    requires i + j <= |b|
    ensures b[i..][j..] == b[i + j..]
  {
  }

  lemma ParseBulkStable(b: string, x: string)
    requires !ParseBulk(b).Incomplete?
    ensures ParseBulk(b + x) == ParseBulk(b)
  {
    if b != "" && b[0] == '$' && FindCrlf(b) < |b| {
      FindCrlfStable(b, x);
      var h := FindCrlf(b);
      assert (b + x)[1..h] == b[1..h];
      var n := Stoi(b[1..h]);
      if n.Some? && n.value >= 0 {
        var end := h + 2 + n.value;
        assert (b + x)[h + 2..end] == b[h + 2..end];
      }
    }
  }

  lemma {:induction false} ParseBulksStable(b: string, n: nat, x: string)
    requires !ParseBulks(b, n).Incomplete?
    ensures ParseBulks(b + x, n) == ParseBulks(b, n)
    decreases n
  {
    if n > 0 {
      hide ParseBulk;
      ParseBulkStable(b, x);
      var first := ParseBulk(b);
      if first.Success? {
        ParseBulksStable(b[first.used..], n - 1, x);
        DropOfAppended(b, x, first.used);
      }
    }
  }

  lemma ParseArrayStable(b: string, x: string)
    requires b != "" && b[0] == '*' && !ParseArray(b).Incomplete?
    ensures ParseArray(b + x) == ParseArray(b)
  {
    hide Stoi, ParseBulks;
    FindCrlfStable(b, x);
    var h := FindCrlf(b);
    assert (b + x)[1..h] == b[1..h];
    var n := Stoi(b[1..h]);
    if n.Some? && n.value >= 0 {
      ParseBulksStable(b[h + 2..], n.value, x);
      assert (b + x)[h + 2..] == b[h + 2..] + x;
    }
  }

  /** Appending bytes changes neither a parsed command nor a protocol error. */
  lemma ParseOneStable(b: string, x: string)
    requires !ParseOne(b).Incomplete?
    ensures ParseOne(b + x) == ParseOne(b)
  {
    hide ParseArray, SplitInline;
    if b[0] == '*' {
      ParseArrayStable(b, x);
    } else {
      FindStable(b, '\n', x);
      var lf := Find(b, '\n');
      assert (b + x)[..lf] == b[..lf];
    }
  }

  // ----- chunk independence -----

  lemma ParseAllStep(b: string)
    ensures var r := ParseOne(b);
            ParseAll(b) ==
            if r.Success? then Prepend(Reported(r.cmd), ParseAll(b[r.used..]))
            else if r.Incomplete? then Batch([], b, false)
            else Batch([], "", true)
  {
    hide ParseOne;
  }

  lemma PrependLaws(a: seq<Command>, b: seq<Command>, q: Batch)
    ensures Prepend(a, Prepend(b, q)) == Prepend(a + b, q)
    ensures Prepend([], q) == q
  {
    assert a + (b + q.cmds) == (a + b) + q.cmds && [] + q.cmds == q.cmds;
  }

  /** Parsing in two steps: the leftover of the first run is all the second run needs. */
  lemma {:induction false} ParseAllSplit(b: string, x: string)
    ensures var p := ParseAll(b);
            ParseAll(b + x) == if p.failed then p else Prepend(p.cmds, ParseAll(p.rest + x))
    decreases |b|
  {
    hide ParseOne, ParseAll;
    ParseAllStep(b);
    var r := ParseOne(b);
    if r.Incomplete? {
      PrependLaws([], [], ParseAll(b + x));
    } else {
      ParseOneStable(b, x);
      ParseAllStep(b + x);
      if r.Success? {
        var tail := ParseAll(b[r.used..]);
        ParseAllSplit(b[r.used..], x);
        DropOfAppended(b, x, r.used);
        PrependLaws(Reported(r.cmd), tail.cmds, ParseAll(tail.rest + x));
      }
    }
  }

  /** The chunks that arrive after the one in which the first protocol error is found. */
  function LateChunks(buffer: string, chunks: seq<string>): seq<string>
    decreases |chunks|
  {
    if chunks == [] then []
    else
      var first := ParseAll(buffer + chunks[0]);
      if first.failed then chunks[1..] else LateChunks(first.rest, chunks[1..])
  }

  /** Whatever way a stream is cut into chunks, the commands read before the first protocol
      error are the ones a single parse of the stream reads; without a protocol error the
      chunked run yields exactly those commands and the same leftover bytes. All it can read
      beyond them is what the chunks after the error hold, parsed from a fresh start. */
  lemma {:induction false} ChunkIndependence(buffer: string, chunks: seq<string>)
    requires ParseAll(buffer) == Batch([], buffer, false)
    ensures var whole := ParseAll(buffer + Concat(chunks));
            var fed := Feed(buffer, chunks);
            && fed.failed == whole.failed
            && (!whole.failed ==> fed == whole)
            && fed.cmds == whole.cmds + Feed("", LateChunks(buffer, chunks)).cmds
    decreases |chunks|
  {
    hide ParseAll;
    if chunks == [] {
      assert buffer + Concat(chunks) == buffer;
    } else {
      var b, x := buffer + chunks[0], Concat(chunks[1..]);
      var first := ParseAll(b);
      ParseAllSplit(b, x);
      ConcatAssoc(buffer, chunks[0], x);
      if !first.failed {
        ParseAllRest(b);
        ChunkIndependence(first.rest, chunks[1..]);
        var later := ParseAll(first.rest + x);
        assert first.cmds + (later.cmds + Feed("", LateChunks(buffer, chunks)).cmds)
            == (first.cmds + later.cmds) + Feed("", LateChunks(buffer, chunks)).cmds;
      } else {
        FailureDropsAll(b);
      }
    }
  }

  lemma {:induction false} FailureDropsAll(b: string)
    ensures ParseAll(b).failed ==> ParseAll(b).rest == ""
    decreases |b|
  {
    hide ParseOne, ParseAll;
    ParseAllStep(b);
    if ParseOne(b).Success? {
      FailureDropsAll(b[ParseOne(b).used..]);
    }
  }

  /** The cut changes the commands that are read exactly when the chunks after a protocol error hold one. */
  lemma ChunksMatterIff(chunks: seq<string>)
    ensures Feed("", chunks).cmds != ParseAll(Concat(chunks)).cmds <==> Feed("", LateChunks("", chunks)).cmds != []
  {
    hide ParseAll, Feed, LateChunks;
    EmptyBuffer();
    ChunkIndependence("", chunks);
    assert "" + Concat(chunks) == Concat(chunks);
    var extra := Feed("", LateChunks("", chunks)).cmds;
    assert |Feed("", chunks).cmds| == |ParseAll(Concat(chunks)).cmds| + |extra|;
  }

  /** The leftover of a run holds no complete command. */
  lemma {:induction false} ParseAllRest(b: string)
    ensures ParseAll(ParseAll(b).rest) == Batch([], ParseAll(b).rest, false)
    decreases |b|
  {
    assert ParseOne("").Incomplete?;
    hide ParseOne, ParseAll;
    ParseAllStep(b);
    ParseAllStep("");
    var r := ParseOne(b);
    if r.Success? {
      ParseAllRest(b[r.used..]);
    }
  }

  // ----- round trip -----

  predicate Countable(args: Command) {
    args != [] && |args| <= INT_MAX && forall i :: 0 <= i < |args| ==> |args[i]| <= INT_MAX
  }

  lemma HeaderFound(c: char, n: nat, x: string)
    requires c != '\r' && n <= INT_MAX
    ensures var b := [c] + Show(n) + CRLF + x;
            var h := FindCrlf(b);
            h == 1 + |Show(n)| && b[1..h] == Show(n) && Stoi(b[1..h]) == Some(n) && b[h + 2..] == x
  {
    var s := [c] + Show(n);
    FindCrlfAfter(s, x);
    ParseShow(n, INT_MIN, INT_MAX);
    var b := s + CRLF + x;
    assert b[1..|s|] == Show(n);
    assert b[|s| + 2..] == x;
  }

  lemma ParseBulkString(a: string, x: string)
    requires |a| <= INT_MAX
    ensures ParseBulk(BulkString(a) + x) == Success([a], |BulkString(a)|)
  {
    var tail := a + CRLF + x;
    HeaderFound('$', |a|, tail);
    var b := "$" + Show(|a|) + CRLF + tail;
    assert BulkString(a) + x == b;
    var h := FindCrlf(b);
    assert b[h + 2..h + 2 + |a|] == tail[..|a|] == a;
    assert b[h + 2 + |a|] == tail[|a|] && b[h + 3 + |a|] == tail[|a| + 1];
  }

  lemma {:induction false} ParseBulkStrings(args: Command, x: string)
    requires forall i :: 0 <= i < |args| ==> |args[i]| <= INT_MAX
    ensures ParseBulks(BulkStrings(args) + x, |args|) == Success(args, |BulkStrings(args)|)
  {
    hide ParseBulk, BulkString;
    if args != [] {
      var first, tail := BulkString(args[0]), BulkStrings(args[1..]) + x;
      ParseBulkString(args[0], tail);
      ParseBulkStrings(args[1..], x);
      ConcatAssoc(first, BulkStrings(args[1..]), x);
      assert (first + tail)[|first|..] == tail;
      assert [args[0]] + args[1..] == args;
    }
  }

  lemma ParseSerialized(args: Command, x: string)
    requires Countable(args)
    ensures ParseOne(Array(args) + x) == Success(args, |Array(args)|)
  {
    hide Stoi, ParseBulks, BulkStrings, Show;
    var tail := BulkStrings(args) + x;
    HeaderFound('*', |args|, tail);
    var b := "*" + Show(|args|) + CRLF + tail;
    assert Array(args) + x == b;
    ParseBulkStrings(args, x);
    assert [] + args == args;
  }

  function Arrays(cmds: seq<Command>): string {
    if cmds == [] then "" else Array(cmds[0]) + Arrays(cmds[1..])
  }

  /** Pipelining: a stream of serialised commands parses back to exactly those commands. */
  lemma {:induction false} PipelineRoundTrip(cmds: seq<Command>)
    requires forall i :: 0 <= i < |cmds| ==> Countable(cmds[i])
    ensures ParseAll(Arrays(cmds)) == Batch(cmds, "", false)
  {
    assert ParseOne("").Incomplete?;
    hide ParseOne, Array;
    if cmds != [] {
      var tail := Arrays(cmds[1..]);
      ParseSerialized(cmds[0], tail);
      PipelineRoundTrip(cmds[1..]);
      assert (Array(cmds[0]) + tail)[|Array(cmds[0])|..] == tail;
      assert [cmds[0]] + cmds[1..] == cmds;
    }
  }

  /** Pipelining through a socket that delivers the stream in arbitrary pieces. */
  lemma ChunkedPipelineRoundTrip(cmds: seq<Command>, chunks: seq<string>)
    requires forall i :: 0 <= i < |cmds| ==> Countable(cmds[i])
    requires Concat(chunks) == Arrays(cmds)
    ensures Feed("", chunks) == Batch(cmds, "", false)
  {
    PipelineRoundTrip(cmds);
    ChunkIndependence("", chunks);
    assert "" + Concat(chunks) == Concat(chunks);
  }

  // ----- what is not a well-formed array -----

  /** The parser reads the well-formed elements and then says what it says of the next one. */
  lemma {:induction false} ParseBulksPrefix(args: Command, m: nat, x: string)
    requires forall i :: 0 <= i < |args| ==> |args[i]| <= INT_MAX
    ensures ParseBulks(BulkStrings(args) + x, |args| + m) == Then(args, |BulkStrings(args)|, ParseBulks(x, m))
  {
    hide ParseBulk, BulkString;
    ThenLaws([], 0, [], 0, ParseBulks(x, m));
    if args == [] {
      assert BulkStrings(args) + x == x;
    } else {
      var first, tail := BulkString(args[0]), BulkStrings(args[1..]) + x;
      ParseBulkString(args[0], tail);
      ParseBulksPrefix(args[1..], m, x);
      ConcatAssoc(first, BulkStrings(args[1..]), x);
      DropOfAppended(first, tail, |first|);
      assert first[|first|..] + tail == tail;
      ThenLaws([args[0]], |first|, args[1..], |BulkStrings(args[1..])|, ParseBulks(x, m));
      assert [args[0]] + args[1..] == args;
    }
  }

  /** An array whose elements stop being well-formed is incomplete or wrong as that element is. */
  lemma ArrayFailsAt(args: Command, n: nat, x: string)
    requires forall i :: 0 <= i < |args| ==> |args[i]| <= INT_MAX
    requires |args| < n <= INT_MAX && !ParseBulk(x).Success?
    ensures ParseOne("*" + Show(n) + CRLF + (BulkStrings(args) + x)) == ParseBulk(x)
  {
    hide ParseBulk, BulkStrings, Show, Stoi;
    var tail := BulkStrings(args) + x;
    HeaderFound('*', n, tail);
    ParseBulksPrefix(args, n - |args|, x);
    hide ParseBulks;
    StopsAtFirst(x, n - |args|);
  }

  lemma StopsAtFirst(x: string, n: nat)
    requires n > 0 && !ParseBulk(x).Success?
    ensures ParseBulks(x, n) == ParseBulk(x)
  {
    hide ParseBulk;
  }

  lemma HeaderRead(c: char, header: string, x: string)
    requires c != '\r' && '\r' !in header
    ensures var b := [c] + header + CRLF + x;
            FindCrlf(b) == 1 + |header| && b[1..1 + |header|] == header && b[3 + |header|..] == x && b[0] == c
  {
    FindCrlfAfter([c] + header, x);
  }

  /** One element: what makes it incomplete, what makes it wrong, and a negative length. */
  lemma BulkVerdicts(c: char, header: string, x: string)
    requires '\r' !in header
    ensures ParseBulk("") == Incomplete
    ensures c != '$' ==> ParseBulk([c] + x) == ProtocolError
    ensures ParseBulk("$" + header) == Incomplete
    ensures Stoi(header) == None ==> ParseBulk("$" + header + CRLF + x) == ProtocolError
    ensures Stoi(header).Some? && Stoi(header).value < 0 ==>
              ParseBulk("$" + header + CRLF + x) == Success([""], |header| + 3)
    ensures Stoi(header).Some? && Stoi(header).value >= 0 ==>
              var n, r := Stoi(header).value, ParseBulk("$" + header + CRLF + x);
              if |x| < n + 2 then r == Incomplete
              else if x[n..n + 2] != CRLF then r == ProtocolError
              else r == Success([x[..n]], |header| + 3 + n + 2)
  {
    hide Stoi;
    HeaderRead('$', header, x);
    var b := "$" + header + CRLF + x;
    assert '\r' !in "$" + header;
    assert FindCrlf("$" + header) == |"$" + header|;
    assert "$" + header + CRLF + x == ['$'] + header + CRLF + x;
    var h := 1 + |header|;
    if Stoi(header).Some? && Stoi(header).value >= 0 && |x| >= Stoi(header).value + 2 {
      var n := Stoi(header).value;
      assert b[h + 2 + n] == x[n] && b[h + 2 + n + 1] == x[n + 1];
      assert b[h + 2..h + 2 + n] == x[..n];
      assert x[n..n + 2] == [x[n], x[n + 1]];
    }
  }

  /** The header of an array: a negative count is an empty command, which is consumed and not reported. */
  lemma ArrayVerdicts(header: string, x: string)
    requires '\r' !in header
    ensures ParseOne("*" + header) == Incomplete
    ensures Stoi(header) == None ==> ParseOne("*" + header + CRLF + x) == ProtocolError
    ensures Stoi(header).Some? && Stoi(header).value <= 0 ==>
              && ParseOne("*" + header + CRLF + x) == Success([], |header| + 3)
              && ParseAll("*" + header + CRLF + x) == ParseAll(x)
  {
    hide Stoi, ParseAll;
    HeaderRead('*', header, x);
    var b := "*" + header + CRLF + x;
    assert '\r' !in "*" + header;
    assert FindCrlf("*" + header) == |"*" + header|;
    assert b == ['*'] + header + CRLF + x;
    assert Then([], |header| + 3, Success([], 0)) == Success([], |header| + 3);
    ParseAllStep(b);
    PrependLaws([], [], ParseAll(x));
  }

  // ----- inline commands -----

  /** A stretch of a typed argument, between quotes or not. */
  datatype Piece = Piece(text: string, quoted: bool)

  function PieceText(p: Piece): string {
    if p.quoted then "\"" + p.text + "\"" else p.text
  }

  function ArgText(ps: seq<Piece>): string {
    if ps == [] then "" else PieceText(ps[0]) + ArgText(ps[1..])
  }

  /** The argument that the pieces spell. */
  function ArgValue(ps: seq<Piece>): string {
    if ps == [] then "" else ps[0].text + ArgValue(ps[1..])
  }

  /** A typed line: arguments between blanks. An argument without pieces stands for a further blank. */
  function Typed(args: seq<seq<Piece>>): string {
    if args == [] then ""
    else if |args| == 1 then ArgText(args[0])
    else ArgText(args[0]) + (" " + Typed(args[1..]))
  }

  /** The arguments that are not empty. */
  function TypedValues(args: seq<seq<Piece>>): Command {
    if args == [] then []
    else (if ArgValue(args[0]) == "" then [] else [ArgValue(args[0])]) + TypedValues(args[1..])
  }

  /** No quotes and no line feeds inside, and blanks only between quotes. */
  predicate Typable(p: Piece) {
    '"' !in p.text && '\n' !in p.text && (p.quoted || ' ' !in p.text)
  }

  predicate AllTypable(args: seq<seq<Piece>>) {
    forall i :: 0 <= i < |args| ==> forall j :: 0 <= j < |args[i]| ==> Typable(args[i][j])
  }

  lemma {:induction false} SplitPlain(a: string, rest: string, arg: string, inQuotes: bool)
    requires '"' !in a && (inQuotes || ' ' !in a)
    ensures SplitInline(a + rest, arg, inQuotes) == SplitInline(rest, arg + a, inQuotes)
  {
    if a == "" {
      assert a + rest == rest && arg + a == arg;
    } else {
      SplitPlain(a[1..], rest, arg + [a[0]], inQuotes);
      assert (a + rest)[1..] == a[1..] + rest;
      assert arg + [a[0]] + a[1..] == arg + a;
    }
  }

  lemma SplitQuote(rest: string, arg: string, inQuotes: bool)
    ensures SplitInline("\"" + rest, arg, inQuotes) == SplitInline(rest, arg, !inQuotes)
  {
    assert ("\"" + rest)[1..] == rest;
  }

  lemma SplitPiece(p: Piece, rest: string, arg: string)
    requires Typable(p)
    ensures SplitInline(PieceText(p) + rest, arg, false) == SplitInline(rest, arg + p.text, false)
  {
    hide SplitInline;
    if p.quoted {
      assert PieceText(p) + rest == "\"" + (p.text + ("\"" + rest));
      SplitQuote(p.text + ("\"" + rest), arg, false);
      SplitPlain(p.text, "\"" + rest, arg, true);
      SplitQuote(rest, arg + p.text, true);
    } else {
      SplitPlain(p.text, rest, arg, false);
    }
  }

  lemma {:induction false} SplitArg(ps: seq<Piece>, rest: string, arg: string)
    requires forall j :: 0 <= j < |ps| ==> Typable(ps[j])
    ensures SplitInline(ArgText(ps) + rest, arg, false) == SplitInline(rest, arg + ArgValue(ps), false)
  {
    hide SplitInline, Typable;
    if ps == [] {
      assert ArgText(ps) + rest == rest && arg + ArgValue(ps) == arg;
    } else {
      ConcatAssoc(PieceText(ps[0]), ArgText(ps[1..]), rest);
      SplitPiece(ps[0], ArgText(ps[1..]) + rest, arg);
      SplitArg(ps[1..], rest, arg + ps[0].text);
      ConcatAssoc(arg, ps[0].text, ArgValue(ps[1..]));
    }
  }

  lemma SplitBlank(rest: string, arg: string)
    ensures SplitInline(" " + rest, arg, false) == (if arg == "" then [] else [arg]) + SplitInline(rest, "", false)
    ensures SplitInline("", arg, false) == if arg == "" then [] else [arg]
  {
    assert (" " + rest)[1..] == rest;
  }

  lemma {:induction false} SplitTyped(args: seq<seq<Piece>>)
    requires AllTypable(args)
    ensures SplitInline(Typed(args), "", false) == TypedValues(args)
  {
    hide SplitInline, Typable;
    if args == [] {
      SplitBlank("", "");
    } else {
      var first, value := ArgText(args[0]), ArgValue(args[0]);
      assert "" + value == value;
      if |args| == 1 {
        SplitArg(args[0], "", "");
        assert first + "" == first;
        SplitBlank("", value);
        assert TypedValues(args[1..]) == [];
      } else {
        SplitArg(args[0], " " + Typed(args[1..]), "");
        SplitBlank(Typed(args[1..]), value);
        SplitTyped(args[1..]);
      }
    }
  }

  lemma TypedMore(first: seq<Piece>, rest: seq<seq<Piece>>)
    requires rest != []
    ensures Typed([first] + rest) == ArgText(first) + (" " + Typed(rest))
    ensures TypedValues([first] + rest) == (if ArgValue(first) == "" then [] else [ArgValue(first)]) + TypedValues(rest)
  {
    assert ([first] + rest)[1..] == rest;
  }

  lemma TypedOne(ps: seq<Piece>)
    ensures Typed([ps]) == ArgText(ps)
    ensures TypedValues([ps]) == if ArgValue(ps) == "" then [] else [ArgValue(ps)]
  {
    assert [ps][1..] == [];
  }

  lemma UnclosedArg(ps: seq<Piece>, tail: string)
    requires (forall j :: 0 <= j < |ps| ==> Typable(ps[j])) && '"' !in tail
    ensures SplitInline(ArgText(ps) + ("\"" + tail), "", false) == TypedValues([ps + [Piece(tail, true)]])
  {
    hide SplitInline, Typable, ArgText, ArgValue;
    SplitArg(ps, "\"" + tail, "");
    assert "" + ArgValue(ps) == ArgValue(ps);
    SplitQuote(tail, ArgValue(ps), false);
    EndInQuotes(tail, ArgValue(ps));
    ArgValueSnoc(ps, Piece(tail, true));
    TypedOne(ps + [Piece(tail, true)]);
  }

  /** A quote that is not closed runs to the end of the line. */
  lemma {:induction false} UnclosedQuote(front: seq<seq<Piece>>, ps: seq<Piece>, tail: string)
    requires AllTypable(front + [ps]) && '"' !in tail
    ensures SplitInline(Typed(front + [ps]) + ("\"" + tail), "", false) == TypedValues(front + [ps + [Piece(tail, true)]])
    decreases |front|
  {
    hide SplitInline, Typable, Typed, TypedValues, ArgText, ArgValue;
    var quote, last := "\"" + tail, ps + [Piece(tail, true)];
    assert (front + [ps])[|front|] == ps;
    if front == [] {
      assert front + [ps] == [ps] && front + [last] == [last];
      UnclosedArg(ps, tail);
      TypedOne(ps);
    } else {
      var first, rest := front[0], front[1..] + [ps];
      assert front + [ps] == [first] + rest && front + [last] == [first] + (front[1..] + [last]);
      assert (front + [ps])[0] == first;
      assert forall i :: 0 <= i < |rest| ==> rest[i] == (front + [ps])[i + 1];
      TypedMore(first, rest);
      TypedMore(first, front[1..] + [last]);
      assert Typed(front + [ps]) + quote == ArgText(first) + (" " + (Typed(rest) + quote));
      SplitArg(first, " " + (Typed(rest) + quote), "");
      assert "" + ArgValue(first) == ArgValue(first);
      SplitBlank(Typed(rest) + quote, ArgValue(first));
      UnclosedQuote(front[1..], ps, tail);
    }
  }

  lemma EndInQuotes(tail: string, arg: string)
    requires '"' !in tail
    ensures SplitInline(tail, arg, true) == if arg + tail == "" then [] else [arg + tail]
  {
    SplitPlain(tail, "", arg, true);
    assert tail + "" == tail;
  }

  lemma {:induction false} ArgValueSnoc(ps: seq<Piece>, p: Piece)
    ensures ArgValue(ps + [p]) == ArgValue(ps) + p.text
  {
    if ps == [] {
      assert ps + [p] == [p] && [p][1..] == [];
      assert p.text + "" == p.text && "" + p.text == p.text;
    } else {
      ArgValueSnoc(ps[1..], p);
      assert (ps + [p])[1..] == ps[1..] + [p];
      ConcatAssoc(ps[0].text, ArgValue(ps[1..]), p.text);
    }
  }

  lemma {:induction false} ArgLineFree(ps: seq<Piece>)
    requires forall j :: 0 <= j < |ps| ==> Typable(ps[j])
    ensures '\n' !in ArgText(ps)
  {
    if ps != [] {
      ArgLineFree(ps[1..]);
    }
  }

  lemma {:induction false} TypedLineFree(args: seq<seq<Piece>>)
    requires AllTypable(args)
    ensures '\n' !in Typed(args)
  {
    if args != [] {
      ArgLineFree(args[0]);
      if |args| > 1 {
        TypedLineFree(args[1..]);
      }
    }
  }

  predicate TypedLine(line: string) {
    '\n' !in line && (line == "" || line[0] != '*')
  }

  lemma ChopsCr(line: string)
    ensures ChopCr(line + "\r") == line
    ensures line == "" || line[|line| - 1] != '\r' ==> ChopCr(line) == line
  {
    assert (line + "\r")[..|line|] == line;
  }

  lemma LineFound(line: string, x: string)
    requires TypedLine(line)
    ensures ParseOne(line + "\n" + x) == Success(SplitInline(ChopCr(line), "", false), |line| + 1)
  {
    hide SplitInline, ChopCr;
    FindAfter(line, '\n', x);
    var c := line + "\n" + x;
    assert c == line + ['\n'] + x && c[..|line|] == line;
    assert c[0] == if line == "" then '\n' else line[0];
  }

  lemma WithCr(line: string)
    requires TypedLine(line)
    ensures TypedLine(line + "\r")
  {
  }

  lemma InlineCrlf(line: string, x: string)
    requires TypedLine(line)
    ensures ParseOne(line + CRLF + x) == Success(SplitInline(line, "", false), |line| + 2)
  {
    CrlfSplits(line, x);
    ChopsCr(line);
    WithCr(line);
    hide SplitInline, ParseOne, ChopCr, CRLF;
    LineFound(line + "\r", x);
  }

  /** Whatever stands on a line, ended by CRLF or by a bare LF, is split on its own. */
  lemma InlineLine(line: string, x: string)
    requires TypedLine(line)
    ensures ParseOne(line + CRLF + x) == Success(SplitInline(line, "", false), |line| + 2)
    ensures line == "" || line[|line| - 1] != '\r' ==>
              ParseOne(line + "\n" + x) == Success(SplitInline(line, "", false), |line| + 1)
  {
    hide SplitInline, ParseOne, ChopCr, CRLF;
    InlineCrlf(line, x);
    ChopsCr(line);
    LineFound(line, x);
  }

  lemma CrlfSplits(line: string, x: string)
    ensures line + CRLF + x == (line + "\r") + "\n" + x
  {
    assert CRLF == "\r" + "\n";
    ConcatAssoc(line, "\r", "\n");
  }

  /** A typed line parses back to its arguments, however they are quoted and spaced. */
  lemma InlineRoundTrip(args: seq<seq<Piece>>, x: string)
    requires AllTypable(args) && (Typed(args) == "" || Typed(args)[0] != '*')
    ensures ParseOne(Typed(args) + CRLF + x) == Success(TypedValues(args), |Typed(args)| + 2)
    ensures Typed(args) == "" || Typed(args)[|Typed(args)| - 1] != '\r' ==>
              ParseOne(Typed(args) + "\n" + x) == Success(TypedValues(args), |Typed(args)| + 1)
  {
    TypedLineFree(args);
    SplitTyped(args);
    InlineLine(Typed(args), x);
  }

  // ----- after a protocol error -----

  lemma BadHeader(x: string)
    ensures ParseAll("*x" + CRLF + x) == Batch([], "", true)
  {
    var b := "*x" + CRLF + x;
    FindCrlfAfter("*x", x);
    assert b[1..2] == "x";
    assert Stoi("x") == None;
    hide Stoi, FindCrlf;
    assert ParseArray(b).ProtocolError?;
  }

  /** The one thing that does depend on the chunks: what follows a protocol error is thrown away
      only as far as it has arrived. */
  lemma ChunksMatterAfterError()
    ensures var bad, ping := "*x" + CRLF, "PING" + CRLF;
            && ParseAll(bad + ping).cmds == []
            && Feed("", [bad, ping]).cmds == [["PING"]]
  {
    hide ParseAll;
    var bad, ping := "*x" + CRLF, "PING" + CRLF;
    BadHeader(ping);
    BadHeader("");
    assert bad + "" == bad && "" + bad == bad && "" + ping == ping;
    PingLine();
    assert [bad, ping][1..] == [ping] && [ping][1..] == [];
    assert Feed("", [ping]).cmds == [["PING"]] + Feed("", []).cmds;
    assert Feed("", [bad, ping]).cmds == [] + Feed("", [ping]).cmds;
  }

  lemma OneCommand(line: string, cmd: Command)
    requires cmd != [] && ParseOne(line) == Success(cmd, |line|)
    ensures ParseAll(line) == Batch([cmd], "", false)
  {
    assert ParseOne("").Incomplete?;
    hide ParseOne;
    assert line[|line|..] == "";
    assert ParseAll("") == Batch([], "", false);
  }

  lemma PingLine()
    ensures ParseAll("PING" + CRLF) == Batch([["PING"]], "", false)
  {
    var args := [[Piece("PING", false)]];
    assert args[0][1..] == [] && args[1..] == [];
    assert "PING" + "" == "PING";
    assert Typed(args) == "PING" && TypedValues(args) == ["PING"];
    hide ParseOne, ParseAll, Typed, TypedValues;
    InlineRoundTrip(args, "");
    assert "PING" + CRLF + "" == "PING" + CRLF;
    OneCommand("PING" + CRLF, ["PING"]);
  }

  // ----- the program's loops -----

  method ParseBulkAt(buffer: string, offset: nat) returns (r: ParseResult)
    requires offset <= |buffer|
    ensures r == ParseBulk(buffer[offset..])
  {
    hide Stoi;
    if offset >= |buffer| {
      return Incomplete;
    }
    if buffer[offset] != '$' {
      return ProtocolError;
    }
    var crlf := FindCrlfFrom(buffer, offset);
    FindCrlfShift(buffer, offset);
    if crlf == |buffer| {
      return Incomplete;
    }
    ghost var b, h := buffer[offset..], crlf - offset;
    assert b[1..h] == buffer[offset + 1..crlf];
    var len := Stoi(buffer[offset + 1..crlf]);
    if len == None {
      return ProtocolError;
    }
    if len.value < 0 {
      return Success([""], crlf + 2 - offset);
    }
    var start := crlf + 2;
    if start + len.value + 2 > |buffer| {
      return Incomplete;
    }
    if buffer[start + len.value] != '\r' || buffer[start + len.value + 1] != '\n' {
      return ProtocolError;
    }
    assert b[h + 2..h + 2 + len.value] == buffer[start..start + len.value];
    return Success([buffer[start..start + len.value]], start + len.value + 2 - offset);
  }

  lemma ThenLaws(a: Command, u: nat, b: Command, v: nat, r: ParseResult)
    ensures Then(a, u, Then(b, v, r)) == Then(a + b, u + v, r)
    ensures Then([], 0, r) == r
  {
    if r.Success? {
      assert a + (b + r.cmd) == (a + b) + r.cmd && [] + r.cmd == r.cmd;
    }
  }

  /** The element loop of an array of `count` bulk strings. */
  method ParseBulksAt(buffer: string, offset: nat, count: nat) returns (r: ParseResult)
    requires offset <= |buffer|
    ensures r == ParseBulks(buffer[offset..], count)
  {
    hide ParseBulk;
    var current, cmd: Command := offset, [];
    ghost var whole := ParseBulks(buffer[offset..], count);
    ThenLaws([], 0, [], 0, whole);
    for i := 0 to count
      invariant offset <= current <= |buffer|
      invariant whole == Then(cmd, current - offset, ParseBulks(buffer[current..], count - i))
    {
      var bulk := ParseBulkAt(buffer, current);
      if !bulk.Success? {
        return bulk;
      }
      assert buffer[current..][bulk.used..] == buffer[current + bulk.used..];
      ThenLaws(cmd, current - offset, bulk.cmd, bulk.used,
               ParseBulks(buffer[current + bulk.used..], count - i - 1));
      cmd := cmd + bulk.cmd;
      current := current + bulk.used;
    }
    assert cmd + [] == cmd;
    return Success(cmd, current - offset);
  }

  method ParseArrayAt(buffer: string, offset: nat) returns (r: ParseResult)
    requires offset < |buffer| && buffer[offset] == '*'
    ensures r == ParseArray(buffer[offset..])
  {
    hide Stoi, ParseBulks;
    var crlf := FindCrlfFrom(buffer, offset);
    FindCrlfShift(buffer, offset);
    if crlf == |buffer| {
      return Incomplete;
    }
    ghost var b, h := buffer[offset..], crlf - offset;
    assert b[1..h] == buffer[offset + 1..crlf] && b[h + 2..] == buffer[crlf + 2..];
    var count := Stoi(buffer[offset + 1..crlf]);
    if count == None {
      return ProtocolError;
    }
    if count.value < 0 {
      return Success([], crlf + 2 - offset);
    }
    r := ParseBulksAt(buffer, crlf + 2, count.value);
    if r.Success? {
      assert [] + r.cmd == r.cmd;
      r := Success(r.cmd, crlf + 2 - offset + r.used);
    }
  }

  method SplitInlineLine(line: string) returns (cmd: Command)
    ensures cmd == SplitInline(line, "", false)
  {
    cmd := [];
    var arg, inQuotes := "", false;
    for i := 0 to |line|
      invariant SplitInline(line, "", false) == cmd + SplitInline(line[i..], arg, inQuotes)
    {
      var c := line[i];
      assert line[i..][1..] == line[i + 1..];
      if c == '"' {
        inQuotes := !inQuotes;
      } else if c == ' ' && !inQuotes {
        if arg != "" {
          assert cmd + ([arg] + SplitInline(line[i + 1..], "", false))
              == (cmd + [arg]) + SplitInline(line[i + 1..], "", false);
          cmd := cmd + [arg];
          arg := "";
        } else {
          assert [] + SplitInline(line[i + 1..], "", false) == SplitInline(line[i + 1..], "", false);
        }
      } else {
        arg := arg + [c];
      }
    }
    if arg != "" {
      cmd := cmd + [arg];
    }
  }

  /** `parse_single_command`. */
  method ParseSingleCommand(buffer: string, offset: nat) returns (r: ParseResult)
    requires offset <= |buffer|
    ensures r == ParseOne(buffer[offset..])
  {
    hide ParseArray;
    if offset >= |buffer| {
      return Incomplete;
    }
    if buffer[offset] == '*' {
      r := ParseArrayAt(buffer, offset);
    } else {
      var lf := FindFrom(buffer, '\n', offset);
      FindShift(buffer, '\n', offset);
      if lf == |buffer| {
        return Incomplete;
      }
      assert buffer[offset..][..lf - offset] == buffer[offset..lf];
      var cmd := SplitInlineLine(ChopCr(buffer[offset..lf]));
      r := Success(cmd, lf + 1 - offset);
    }
  }

  /** `RESPParser::parse`: returns what is left in the buffer and the commands read. */
  method Parse(buffer: string) returns (rest: string, cmds: seq<Command>, parsedAny: bool)
    ensures rest == ParseAll(buffer).rest && cmds == ParseAll(buffer).cmds
    ensures parsedAny <==> cmds != []
  {
    hide ParseOne, ParseAll;
    var offset := 0;
    cmds, parsedAny := [], false;
    assert buffer[0..] == buffer;
    PrependLaws([], [], ParseAll(buffer));
    while offset < |buffer|
      invariant offset <= |buffer|
      invariant parsedAny <==> cmds != []
      invariant ParseAll(buffer) == Prepend(cmds, ParseAll(buffer[offset..]))
      decreases |buffer| - offset
    {
      var r := ParseSingleCommand(buffer, offset);
      ParseAllStep(buffer[offset..]);
      match r {
        case Success(cmd, used) =>
          DropTwice(buffer, offset, used);
          PrependLaws(cmds, Reported(cmd), ParseAll(buffer[offset + used..]));
          if cmd != [] {
            cmds := cmds + [cmd];
            parsedAny := true;
          }
          offset := offset + used;
        case Incomplete => break;
        case ProtocolError => return "", cmds, parsedAny;
      }
    }
    rest := buffer[offset..];
    EmptyBuffer();
  }

  lemma EmptyBuffer()
    ensures ParseAll("") == Batch([], "", false)
  {
    assert ParseOne("").Incomplete?;
  }
}
