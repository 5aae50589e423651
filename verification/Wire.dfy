/** The text of the replication stream: encoding a command, splitting bytes into lines
    and lines into tokens. */
module Wire {
  import opened Text
  import opened Codec
  import Resp

  type Command = Resp.Command

  // ----- encoding -----

  function Joined(ts: seq<string>): string {
    if ts == [] then "" else if |ts| == 1 then ts[0] else ts[0] + (" " + Joined(ts[1..]))
  }

  /** The words of a propagated command: the name in upper case, everything percent-encoded. */
  function Words(cmd: Command): (ws: seq<string>)
    ensures |ws| == |cmd|
  {
    seq(|cmd|, i requires 0 <= i < |cmd| => Encode(if i == 0 then Upper(cmd[0]) else cmd[i]))
  }

  function CommandLine(cmd: Command): string {
    Joined(Words(cmd))
  }

  /** `encode_command`. */
  function EncodeCommand(cmd: Command): string {
    CommandLine(cmd) + CRLF
  }

  lemma {:induction false} JoinedSnoc(ts: seq<string>, t: string)
    requires ts != []
    ensures Joined(ts + [t]) == Joined(ts) + (" " + t)
  {
    var us := ts + [t];
    if |ts| == 1 {
      assert us[1..] == [t];
    } else {
      assert us[1..] == ts[1..] + [t];
      JoinedSnoc(ts[1..], t);
      assert ts[0] + (" " + (Joined(ts[1..]) + (" " + t))) == ts[0] + (" " + Joined(ts[1..])) + (" " + t);
    }
  }

  /** `encode_command`. */
  method EncodeForReplicas(cmd: Command) returns (out: string)
    ensures out == EncodeCommand(cmd)
  {
    hide Encode, Joined;
    out := "";
    JoinedNone();
    for i := 0 to |cmd|
      invariant out == Joined(Words(cmd)[..i])
    {
      var word := PercentEncode(if i == 0 then Upper(cmd[0]) else cmd[i]);
      assert Words(cmd)[..i + 1] == Words(cmd)[..i] + [word];
      if i > 0 {
        JoinedSnoc(Words(cmd)[..i], word);
        out := out + (" " + word);
      } else {
        JoinedNone();
        JoinedOne(word);
        assert Words(cmd)[..i + 1] == [word];
        out := word;
      }
    }
    assert Words(cmd)[..|cmd|] == Words(cmd);
    out := out + CRLF;
  }

  lemma JoinedNone()
    ensures Joined([]) == ""
  {
  }

  lemma JoinedOne(t: string)
    ensures Joined([t]) == t
  {
  }

  // ----- tokens -----

  predicate Word(t: string) {
    t != "" && forall i :: 0 <= i < |t| ==> !IsSpace(t[i])
  }

  function WordEnd(line: string, i: nat): (j: nat)
    requires i <= |line|
    ensures i <= j <= |line|
    ensures forall k :: i <= k < j ==> !IsSpace(line[k])
    ensures j < |line| ==> IsSpace(line[j])
    decreases |line| - i
  {
    if i == |line| || IsSpace(line[i]) then i else WordEnd(line, i + 1)
  }

  /** `while (iss >> tok)` from offset `i`. */
  function TokensFrom(line: string, i: nat): (ts: seq<string>)
    requires i <= |line|
    ensures forall k :: 0 <= k < |ts| ==> Word(ts[k])
    decreases |line| - i
  {
    var j := SpaceEnd(line, i);
    if j == |line| then []
    else
      var k := WordEnd(line, j);
      [line[j..k]] + TokensFrom(line, k)
  }

  function Tokens(line: string): (ts: seq<string>)
    ensures forall k :: 0 <= k < |ts| ==> Word(ts[k])
  {
    TokensFrom(line, 0)
  }

  lemma WordEndIs(line: string, i: nat, j: nat)
    requires i <= j <= |line|
    requires forall k :: i <= k < j ==> !IsSpace(line[k])
    requires j < |line| ==> IsSpace(line[j])
    ensures WordEnd(line, i) == j
  {
  }

  /** A word at `i` that ends at `j` is the next token. */
  lemma TokenAt(line: string, i: nat, j: nat)
    requires i < j <= |line|
    requires Word(line[i..j]) && (j < |line| ==> IsSpace(line[j]))
    ensures TokensFrom(line, i) == [line[i..j]] + TokensFrom(line, j)
  {
    hide WordEnd;
    forall k | i <= k < j
      ensures !IsSpace(line[k])
    {
      assert line[k] == line[i..j][k - i];
    }
    WordEndIs(line, i, j);
    assert SpaceEnd(line, i) == i;
  }

  lemma NoMoreTokens(line: string)
    ensures TokensFrom(line, |line|) == []
  {
  }

  lemma SkipBlank(line: string, i: nat)
    requires i < |line| && IsSpace(line[i])
    ensures TokensFrom(line, i) == TokensFrom(line, i + 1)
  {
  }

  /** Where the first word of joined words lies. */
  lemma JoinedHead(p: string, ts: seq<string>)
    requires ts != []
    ensures var line, j := p + Joined(ts), |p| + |ts[0]|;
            && j <= |line| && line[|p|..j] == ts[0]
            && if |ts| == 1 then j == |line|
               else j < |line| && line[j] == ' ' && line == (p + ts[0] + " ") + Joined(ts[1..])
  {
  }

  /** Words joined by single blanks come apart again; `p` is what has been read already. */
  lemma {:induction false} TokensOfJoined(p: string, ts: seq<string>)
    requires forall k :: 0 <= k < |ts| ==> Word(ts[k])
    ensures TokensFrom(p + Joined(ts), |p|) == ts
    decreases |ts|
  {
    hide TokensFrom, Word;
    var line := p + Joined(ts);
    if ts == [] {
      assert line == p;
      NoMoreTokens(p);
    } else {
      hide Joined;
      var j := |p| + |ts[0]|;
      JoinedHead(p, ts);
      WordNotEmpty(ts[0]);
      TokenAt(line, |p|, j);
      if |ts| == 1 {
        NoMoreTokens(line);
      } else {
        TokensOfJoined(p + ts[0] + " ", ts[1..]);
        SkipBlank(line, j);
      }
    }
  }

  lemma WordNotEmpty(t: string)
    requires Word(t)
    ensures t != ""
  {
  }

  // ----- which commands survive -----

  /** A token that is not empty and holds no blank that the encoding lets through. */
  predicate CleanToken(t: string) {
    t != "" && '\t' !in t && '\U{0B}' !in t && '\U{0C}' !in t
  }

  predicate CleanCommand(cmd: Command) {
    forall i :: 0 <= i < |cmd| ==> CleanToken(cmd[i])
  }

  lemma EncodedWordIff(t: string)
    ensures Word(Encode(t)) <==> CleanToken(t)
  {
    var e := Encode(t);
    EncodeSeparatorFree(t);
    EncodeKeeps(t, '\t');
    EncodeKeeps(t, '\U{0B}');
    EncodeKeeps(t, '\U{0C}');
    assert e == "" <==> t == "";
    if '\t' in e { var i :| 0 <= i < |e| && e[i] == '\t'; assert IsSpace(e[i]); }
    if '\U{0B}' in e { var i :| 0 <= i < |e| && e[i] == '\U{0B}'; assert IsSpace(e[i]); }
    if '\U{0C}' in e { var i :| 0 <= i < |e| && e[i] == '\U{0C}'; assert IsSpace(e[i]); }
  }

  lemma UpperClean(t: string)
    ensures CleanToken(Upper(t)) <==> CleanToken(t)
  {
    UpperKeeps(t, '\t');
    UpperKeeps(t, '\U{0B}');
    UpperKeeps(t, '\U{0C}');
  }

  lemma UpperKeeps(t: string, c: char)
    requires c < 'A'
    ensures c in Upper(t) <==> c in t
  {
    if c in t { var i :| 0 <= i < |t| && t[i] == c; assert Upper(t)[i] == c; }
    if c in Upper(t) { var i :| 0 <= i < |t| && Upper(t)[i] == c; assert t[i] == c; }
  }

  /** A command's line splits back into its words exactly when every token is clean. */
  lemma TokeniseIff(cmd: Command)
    ensures Tokens(CommandLine(cmd)) == Words(cmd) <==> CleanCommand(cmd)
  {
    hide CleanToken, Word, Joined, TokensFrom;
    var ws := Words(cmd);
    forall i | 0 <= i < |cmd|
      ensures Word(ws[i]) <==> CleanToken(cmd[i])
    {
      UpperClean(cmd[0]);
      EncodedWordIff(if i == 0 then Upper(cmd[0]) else cmd[i]);
    }
    if CleanCommand(cmd) {
      TokensOfJoined("", ws);
      assert "" + Joined(ws) == Joined(ws);
    }
  }

  /** Best-effort decoding, as the replica does it. */
  function DecodeOr(t: string): string {
    if Decode(t).Some? then Decode(t).value else t
  }

  function Decoded(ts: seq<string>): (ds: seq<string>)
    ensures |ds| == |ts|
  {
    seq(|ts|, i requires 0 <= i < |ts| => DecodeOr(ts[i]))
  }

  function UpperName(cmd: Command): Command {
    if cmd == [] then [] else [Upper(cmd[0])] + cmd[1..]
  }

  lemma DecodedWords(cmd: Command)
    ensures Decoded(Words(cmd)) == UpperName(cmd)
  {
    hide Decoded, UpperName, Words;
    WordsAreEncoded(cmd);
    DecodedEncoded(UpperName(cmd));
  }

  /** Nothing is lost on the wire: the line of a clean command decodes to the command. */
  lemma LineRoundTrip(cmd: Command)
    requires CleanCommand(cmd)
    ensures Decoded(Tokens(CommandLine(cmd))) == UpperName(cmd)
  {
    TokeniseIff(cmd);
    DecodedWords(cmd);
  }

  lemma EncodingInjective(a: Command, b: Command)
    requires CleanCommand(a) && CleanCommand(b) && EncodeCommand(a) == EncodeCommand(b)
    ensures UpperName(a) == UpperName(b)
  {
    hide CommandLine, Decoded, Tokens, UpperName;
    assert EncodeCommand(a)[..|CommandLine(a)|] == CommandLine(a);
    assert EncodeCommand(b)[..|CommandLine(b)|] == CommandLine(b);
    LineRoundTrip(a);
    LineRoundTrip(b);
  }

  // ----- what is seen of any command -----

  /** The blanks that the encoding lets through. */
  predicate RawBlank(c: char) {
    c == '\t' || c == '\U{0B}' || c == '\U{0C}'
  }

  function WordOrNone(word: string): seq<string> {
    if word == "" then [] else [word]
  }

  /** What is between the raw blanks of a token, `word` being what has been read already. */
  function Pieces(t: string, word: string): seq<string> {
    if t == "" then WordOrNone(word)
    else if RawBlank(t[0]) then WordOrNone(word) + Pieces(t[1..], "")
    else Pieces(t[1..], word + [t[0]])
  }

  function AllPieces(ts: seq<string>): seq<string> {
    if ts == [] then [] else Pieces(ts[0], "") + AllPieces(ts[1..])
  }

  /** The words a replica sees of a command. */
  function Seen(cmd: Command): Command {
    AllPieces(UpperName(cmd))
  }

  /** `while (iss >> tok)`, with the word that is being read as an argument. */
  function TokensOf(line: string, word: string): seq<string> {
    if line == "" then WordOrNone(word)
    else if IsSpace(line[0]) then WordOrNone(word) + TokensOf(line[1..], "")
    else TokensOf(line[1..], word + [line[0]])
  }

  lemma TokensOfStep(line: string, i: nat, word: string)
    requires i < |line|
    ensures TokensOf(line[i..], word) ==
            if IsSpace(line[i]) then WordOrNone(word) + TokensOf(line[i + 1..], "")
            else TokensOf(line[i + 1..], word + [line[i]])
  {
    assert line[i..][1..] == line[i + 1..];
  }

  lemma {:induction false} TokensOfWord(line: string, i: nat, j: nat, word: string)
    requires i <= j <= |line| && forall k :: i <= k < j ==> !IsSpace(line[k])
    ensures TokensOf(line[i..], word) == TokensOf(line[j..], word + line[i..j])
    decreases j - i
  {
    hide TokensOf;
    if i == j {
      assert word + line[i..j] == word;
    } else {
      TokensOfStep(line, i, word);
      TokensOfWord(line, i + 1, j, word + [line[i]]);
      assert word + [line[i]] + line[i + 1..j] == word + line[i..j];
    }
  }

  lemma {:induction false} TokensOfBlanks(line: string, i: nat)
    requires i <= |line|
    ensures TokensOf(line[i..], "") == TokensOf(line[SpaceEnd(line, i)..], "")
    decreases |line| - i
  {
    hide TokensOf;
    if i < |line| && IsSpace(line[i]) {
      TokensOfStep(line, i, "");
      TokensOfBlanks(line, i + 1);
      assert [] + TokensOf(line[i + 1..], "") == TokensOf(line[i + 1..], "");
    }
  }

  lemma TokensOfEnd(line: string, word: string)
    ensures TokensOf(line[|line|..], word) == WordOrNone(word)
  {
  }

  /** The two ways to read tokens agree. */
  lemma {:induction false} TokensAgree(line: string, i: nat)
    requires i <= |line|
    ensures TokensFrom(line, i) == TokensOf(line[i..], "")
    decreases |line| - i
  {
    hide TokensOf;
    var j := SpaceEnd(line, i);
    TokensOfBlanks(line, i);
    if j == |line| {
      TokensOfEnd(line, "");
    } else {
      var k := WordEnd(line, j);
      TokensOfWord(line, j, k, "");
      assert "" + line[j..k] == line[j..k];
      TokensAgree(line, k);
      if k == |line| {
        TokensOfEnd(line, line[j..k]);
        TokensOfEnd(line, "");
      } else {
        TokensOfStep(line, k, line[j..k]);
        TokensOfStep(line, k, "");
        assert [] + TokensOf(line[k + 1..], "") == TokensOf(line[k + 1..], "");
      }
    }
  }

  lemma {:induction false} TokensOfPlain(a: string, rest: string, word: string)
    requires forall k :: 0 <= k < |a| ==> !IsSpace(a[k])
    ensures TokensOf(a + rest, word) == TokensOf(rest, word + a)
  {
    if a == "" {
      assert a + rest == rest && word + a == word;
    } else {
      TokensOfPlain(a[1..], rest, word + [a[0]]);
      assert (a + rest)[1..] == a[1..] + rest;
      assert word + [a[0]] + a[1..] == word + a;
    }
  }

  function EncodedAll(ts: seq<string>): (es: seq<string>)
    ensures |es| == |ts|
  {
    seq(|ts|, i requires 0 <= i < |ts| => Encode(ts[i]))
  }

  lemma EncodedAppend(a: seq<string>, b: seq<string>)
    ensures EncodedAll(a + b) == EncodedAll(a) + EncodedAll(b)
  {
  }

  lemma {:induction false} EncodeSnoc(s: string, c: char)
    ensures Encode(s + [c]) == Encode(s) + EncodeChar(c)
  {
    if s == "" {
      assert s + [c] == [c] && [c][1..] == "";
      assert Encode([c]) == EncodeChar(c) + Encode("");
      assert EncodeChar(c) + "" == EncodeChar(c) && "" + EncodeChar(c) == EncodeChar(c);
    } else {
      EncodeSnoc(s[1..], c);
      assert (s + [c])[1..] == s[1..] + [c];
      ConcatAssoc(EncodeChar(s[0]), Encode(s[1..]), EncodeChar(c));
    }
  }

  lemma EncodedWordOrNone(word: string)
    ensures WordOrNone(Encode(word)) == EncodedAll(WordOrNone(word))
  {
  }

  lemma EncodedCharPlain(c: char)
    requires !RawBlank(c)
    ensures forall k :: 0 <= k < |EncodeChar(c)| ==> !IsSpace(EncodeChar(c)[k])
  {
  }

  lemma TokensOfBlank(c: char, tail: string, word: string)
    requires IsSpace(c)
    ensures TokensOf([c] + tail, word) == WordOrNone(word) + TokensOf(tail, "")
  {
    assert ([c] + tail)[1..] == tail;
  }

  lemma TokensOfTail(rest: string, word: string)
    requires rest == "" || IsSpace(rest[0])
    ensures TokensOf(rest, word) == WordOrNone(word) + TokensOf(rest, "")
  {
    if rest == "" {
      assert WordOrNone(word) + [] == WordOrNone(word);
    } else {
      assert rest == [rest[0]] + rest[1..];
      TokensOfBlank(rest[0], rest[1..], word);
      TokensOfBlank(rest[0], rest[1..], "");
      assert [] + TokensOf(rest[1..], "") == TokensOf(rest[1..], "");
    }
  }

  lemma EncodeStep(t: string, rest: string)
    requires t != ""
    ensures Encode(t) + rest == EncodeChar(t[0]) + (Encode(t[1..]) + rest)
  {
    ConcatAssoc(EncodeChar(t[0]), Encode(t[1..]), rest);
  }

  /** The pieces of a token come through the encoding, whatever follows it. */
  lemma {:induction false} TokensOfEncoded(t: string, word: string, rest: string)
    requires rest == "" || IsSpace(rest[0])
    ensures TokensOf(Encode(t) + rest, Encode(word)) == EncodedAll(Pieces(t, word)) + TokensOf(rest, "")
  {
    hide EncodedAll, TokensOf, Encode, WordOrNone, IsSpace;
    EncodedWordOrNone(word);
    if t == "" {
      EmptyEncoded();
      assert "" + rest == rest;
      TokensOfTail(rest, Encode(word));
    } else {
      var c, tail, later := t[0], Encode(t[1..]) + rest, TokensOf(rest, "");
      EncodeStep(t, rest);
      if RawBlank(c) {
        RawBlankIsPlain(c);
        TokensOfBlank(c, tail, Encode(word));
        EmptyEncoded();
        TokensOfEncoded(t[1..], "", rest);
        EncodedAppend(WordOrNone(word), Pieces(t[1..], ""));
        assert EncodedAll(WordOrNone(word)) + (EncodedAll(Pieces(t[1..], "")) + later)
            == (EncodedAll(WordOrNone(word)) + EncodedAll(Pieces(t[1..], ""))) + later;
      } else {
        EncodedCharPlain(c);
        TokensOfPlain(EncodeChar(c), tail, Encode(word));
        EncodeSnoc(word, c);
        TokensOfEncoded(t[1..], word + [c], rest);
      }
    }
  }

  lemma RawBlankIsPlain(c: char)
    requires RawBlank(c)
    ensures EncodeChar(c) == [c] && IsSpace(c)
  {
  }

  /** Joined words, seen as tokens. */
  lemma {:induction false} TokensOfAll(ts: seq<string>)
    ensures TokensOf(Joined(EncodedAll(ts)), "") == EncodedAll(AllPieces(ts))
  {
    hide TokensOf, EncodedAll, Encode;
    if ts == [] {
      NothingEncoded();
    } else {
      var rest := Joined(EncodedAll(ts[1..]));
      EncodedHead(ts);
      EmptyEncoded();
      EncodedAppend(Pieces(ts[0], ""), AllPieces(ts[1..]));
      TokensOfAll(ts[1..]);
      if |ts| == 1 {
        TokensOfEncoded(ts[0], "", "");
        assert Encode(ts[0]) + "" == Encode(ts[0]);
        NothingEncoded();
        assert ts[1..] == [];
        assert EncodedAll(Pieces(ts[0], "")) + [] == EncodedAll(Pieces(ts[0], ""));
      } else {
        TokensOfEncoded(ts[0], "", " " + rest);
        TokensOfStep(" " + rest, 0, "");
        assert (" " + rest)[0..] == " " + rest && (" " + rest)[1..] == rest;
        assert [] + TokensOf(rest, "") == TokensOf(rest, "");
      }
    }
  }

  lemma EncodedHead(ts: seq<string>)
    requires ts != []
    ensures EncodedAll(ts) == [Encode(ts[0])] + EncodedAll(ts[1..])
    ensures Joined(EncodedAll(ts)) ==
            if |ts| == 1 then Encode(ts[0]) else Encode(ts[0]) + (" " + Joined(EncodedAll(ts[1..])))
  {
    assert EncodedAll(ts)[1..] == EncodedAll(ts[1..]);
  }

  lemma EmptyEncoded()
    ensures Encode("") == ""
  {
  }

  lemma NothingEncoded()
    ensures EncodedAll([]) == [] && Joined([]) == "" && TokensOf("", "") == []
  {
  }

  lemma DecodedEncoded(ts: seq<string>)
    ensures Decoded(EncodedAll(ts)) == ts
  {
    forall i | 0 <= i < |ts|
      ensures Decoded(EncodedAll(ts))[i] == ts[i]
    {
      DecodeEncode(ts[i]);
    }
  }

  lemma WordsAreEncoded(cmd: Command)
    ensures Words(cmd) == EncodedAll(UpperName(cmd))
  {
    hide Encode;
  }

  /** Whatever a command holds, the tokens of its line decode to the pieces between its raw blanks. */
  lemma SeenOnWire(cmd: Command)
    ensures Tokens(CommandLine(cmd)) == EncodedAll(Seen(cmd))
    ensures Decoded(Tokens(CommandLine(cmd))) == Seen(cmd)
  {
    hide TokensFrom, TokensOf, EncodedAll, AllPieces, UpperName, Joined, Words, Decoded;
    var line := CommandLine(cmd);
    WordsAreEncoded(cmd);
    TokensAgree(line, 0);
    assert line[0..] == line;
    TokensOfAll(UpperName(cmd));
    DecodedEncoded(Seen(cmd));
  }

  lemma {:induction false} PiecesAreClean(t: string, word: string)
    requires word == "" || CleanToken(word)
    ensures forall p :: p in Pieces(t, word) ==> CleanToken(p)
  {
    if t != "" {
      if RawBlank(t[0]) {
        PiecesAreClean(t[1..], "");
      } else {
        PiecesAreClean(t[1..], word + [t[0]]);
      }
    }
  }

  lemma {:induction false} AllPiecesAreClean(ts: seq<string>)
    ensures forall p :: p in AllPieces(ts) ==> CleanToken(p)
  {
    hide CleanToken, Pieces;
    if ts != [] {
      PiecesAreClean(ts[0], "");
      AllPiecesAreClean(ts[1..]);
    }
  }

  lemma {:induction false} PiecesOfClean(t: string, word: string)
    requires forall i :: 0 <= i < |t| ==> !RawBlank(t[i])
    ensures Pieces(t, word) == WordOrNone(word + t)
  {
    if t == "" {
      assert word + t == word;
    } else {
      PiecesOfClean(t[1..], word + [t[0]]);
      assert word + [t[0]] + t[1..] == word + t;
    }
  }

  lemma CleanIsOnePiece(t: string)
    requires CleanToken(t)
    ensures Pieces(t, "") == [t]
  {
    PiecesOfClean(t, "");
    assert "" + t == t;
  }

  lemma {:induction false} AllPiecesOfClean(ts: seq<string>)
    requires forall i :: 0 <= i < |ts| ==> CleanToken(ts[i])
    ensures AllPieces(ts) == ts
  {
    hide CleanToken, Pieces;
    if ts != [] {
      CleanIsOnePiece(ts[0]);
      AllPiecesOfClean(ts[1..]);
      assert [ts[0]] + ts[1..] == ts;
    }
  }

  /** All words that are seen are clean, and they are the command exactly when that is clean. */
  lemma SeenIff(cmd: Command)
    ensures forall w :: w in Seen(cmd) ==> CleanToken(w)
    ensures Seen(cmd) == UpperName(cmd) <==> CleanCommand(cmd)
  {
    hide CleanToken, AllPieces;
    AllPiecesAreClean(UpperName(cmd));
    if cmd != [] {
      UpperClean(cmd[0]);
      assert forall i :: 0 < i < |cmd| ==> UpperName(cmd)[i] == cmd[i];
      if Seen(cmd) == UpperName(cmd) {
        forall i | 0 <= i < |cmd|
          ensures CleanToken(cmd[i])
        {
          assert UpperName(cmd)[i] in Seen(cmd);
          assert CleanToken(UpperName(cmd)[i]);
        }
      }
      if CleanCommand(cmd) {
        assert CleanToken(cmd[0]);
        AllPiecesOfClean(UpperName(cmd));
      }
    } else {
      AllPiecesOfClean([]);
    }
  }

  // ----- framing -----

  lemma {:induction false} JoinedCrFree(ts: seq<string>)
    requires forall k :: 0 <= k < |ts| ==> '\r' !in ts[k]
    ensures '\r' !in Joined(ts)
  {
    if |ts| > 1 {
      JoinedCrFree(ts[1..]);
    }
  }

  lemma CommandLineCrFree(cmd: Command)
    ensures '\r' !in CommandLine(cmd)
  {
    hide Joined;
    forall k | 0 <= k < |cmd|
      ensures '\r' !in Words(cmd)[k]
    {
      EncodeSeparatorFree(if k == 0 then Upper(cmd[0]) else cmd[k]);
    }
    JoinedCrFree(Words(cmd));
  }

  /** `lines` are the complete lines of a stream and `rest` the bytes after its last CRLF. */
  datatype Split = Split(lines: seq<string>, rest: string)

  function SplitLines(b: string): Split
    decreases |b|
  {
    var i := FindCrlf(b);
    if i == |b| then Split([], b)
    else
      var tail := SplitLines(b[i + 2..]);
      Split([b[..i]] + tail.lines, tail.rest)
  }

  /** The bytes of a sequence of lines. */
  function Stream(lines: seq<string>): string {
    if lines == [] then "" else lines[0] + CRLF + Stream(lines[1..])
  }

  lemma {:induction false} StreamAppend(a: seq<string>, b: seq<string>)
    ensures Stream(a + b) == Stream(a) + Stream(b)
  {
    if a == [] {
      assert a + b == b && "" + Stream(b) == Stream(b);
    } else {
      assert (a + b)[1..] == a[1..] + b;
      StreamAppend(a[1..], b);
      ConcatAssoc(a[0] + CRLF, Stream(a[1..]), Stream(b));
    }
  }

  lemma StreamOne(line: string)
    ensures Stream([line]) == line + CRLF
  {
    assert [line][1..] == [];
    assert line + CRLF + "" == line + CRLF;
  }

  /** A line ends at its first CRLF. A line may end in a CR of its own. */
  predicate IsLine(line: string) {
    FindCrlf(line + CRLF) == |line|
  }

  lemma FirstLine(line: string, x: string)
    requires IsLine(line)
    ensures var b := line + CRLF + x;
            FindCrlf(b) == |line| && b[..|line|] == line && b[|line| + 2..] == x
  {
    FindCrlfStable(line + CRLF, x);
  }

  lemma SplitNone(b: string)
    requires FindCrlf(b) == |b|
    ensures SplitLines(b) == Split([], b)
  {
  }

  lemma SplitStep(b: string)
    requires FindCrlf(b) < |b|
    ensures var i, tail := FindCrlf(b), SplitLines(b[FindCrlf(b) + 2..]);
            && SplitLines(b) == Split([b[..i]] + tail.lines, tail.rest)
            && b == b[..i] + CRLF + b[i + 2..]
  {
    assert CrlfAt(b, FindCrlf(b));
    CutAt(b, FindCrlf(b));
    hide FindCrlf;
  }

  lemma CutAt(b: string, i: nat)
    requires CrlfAt(b, i)
    ensures b == b[..i] + CRLF + b[i + 2..]
  {
    assert b[i..i + 2] == CRLF;
    assert b == b[..i] + b[i..i + 2] + b[i + 2..];
  }

  lemma {:induction false} StreamSplit(b: string)
    ensures Stream(SplitLines(b).lines) + SplitLines(b).rest == b
    decreases |b|
  {
    if FindCrlf(b) < |b| {
      SplitStep(b);
      var line, tail := b[..FindCrlf(b)], b[FindCrlf(b) + 2..];
      StreamSplit(tail);
      hide FindCrlf, SplitLines;
      var p := SplitLines(tail);
      assert ([line] + p.lines)[1..] == p.lines;
      ConcatAssoc(line + CRLF, Stream(p.lines), p.rest);
    } else {
      assert "" + b == b;
    }
  }

  /** Splitting cuts the stream into its complete lines, and what is left holds no CRLF. */
  lemma {:induction false} SplitSound(b: string)
    ensures var s := SplitLines(b);
            && Stream(s.lines) + s.rest == b
            && FindCrlf(s.rest) == |s.rest|
            && forall k :: 0 <= k < |s.lines| ==> IsLine(s.lines[k])
    decreases |b|
  {
    StreamSplit(b);
    if FindCrlf(b) < |b| {
      SplitStep(b);
      CutAtCrlf(b);
      SplitSound(b[FindCrlf(b) + 2..]);
      hide FindCrlf, SplitLines, IsLine, Stream;
    }
  }

  lemma CutAtCrlf(b: string)
    requires FindCrlf(b) < |b|
    ensures IsLine(b[..FindCrlf(b)])
  {
    var i := FindCrlf(b);
    var t := b[..i] + CRLF;
    assert CrlfAt(t, i);
    assert t == b[..i + 2];
    assert forall k :: 0 <= k < i ==> CrlfAt(t, k) == CrlfAt(b, k);
  }

  /** There is only one such cut. */
  lemma {:induction false} SplitUnique(lines: seq<string>, rest: string)
    requires FindCrlf(rest) == |rest| && forall k :: 0 <= k < |lines| ==> IsLine(lines[k])
    ensures SplitLines(Stream(lines) + rest) == Split(lines, rest)
  {
    if lines == [] {
      assert "" + rest == rest;
    } else {
      SplitUnique(lines[1..], rest);
      FirstLine(lines[0], Stream(lines[1..]) + rest);
      assert Stream(lines) + rest == lines[0] + CRLF + (Stream(lines[1..]) + rest);
      assert [lines[0]] + lines[1..] == lines;
    }
  }

  /** Reassembly does not depend on how the stream is cut into reads, even inside a CRLF. */
  lemma {:induction false} SplitAppend(b: string, x: string)
    ensures var p := SplitLines(b);
            var q := SplitLines(p.rest + x);
            SplitLines(b + x) == Split(p.lines + q.lines, q.rest)
    decreases |b|
  {
    hide FindCrlf, SplitLines;
    if FindCrlf(b) == |b| {
      SplitNone(b);
      assert [] + SplitLines(b + x).lines == SplitLines(b + x).lines;
    } else {
      var i := FindCrlf(b);
      assert CrlfAt(b, i);
      FindCrlfStable(b, x);
      SplitStep(b);
      SplitStep(b + x);
      var line, tail := b[..i], b[i + 2..];
      SplitAppend(tail, x);
      assert (b + x)[i + 2..] == tail + x && (b + x)[..i] == line;
      var p := SplitLines(tail);
      var q := SplitLines(p.rest + x);
      assert [line] + (p.lines + q.lines) == ([line] + p.lines) + q.lines;
    }
  }
}
