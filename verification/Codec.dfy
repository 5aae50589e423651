/** The percent encoding shared by snapshot files and the replication stream.
    Only '%', ' ', CR and LF are escaped. */
module Codec {
  import opened Text

  // ----- specification -----

  function EncodeChar(c: char): (e: string)
    ensures e != ""
  {
    match c
    case '%' => "%25"
    case ' ' => "%20"
    case '\r' => "%0D"
    case '\n' => "%0A"
    case _ => [c]
  }

  function Encode(s: string): string {
    if s == "" then "" else EncodeChar(s[0]) + Encode(s[1..])
  }

  /** The value of a hexadecimal digit of either case, -1 for any other byte. */
  function HexValue(c: char): (v: int)
    ensures -1 <= v < 16
  {
    if '0' <= c <= '9' then c as int - '0' as int
    else if 'A' <= c <= 'F' then c as int - 'A' as int + 10
    else if 'a' <= c <= 'f' then c as int - 'a' as int + 10
    else -1
  }

  /** None stands for the `std::runtime_error` on a bad escape. */
  function Decode(s: string): Option<string> {
    if s == "" then Some("")
    else if s[0] != '%' then Prefixed([s[0]], Decode(s[1..]))
    else if |s| < 3 || HexValue(s[1]) < 0 || HexValue(s[2]) < 0 then None
    else Prefixed([(HexValue(s[1]) * 16 + HexValue(s[2])) as char], Decode(s[3..]))
  }

  function Prefixed(p: string, r: Option<string>): Option<string> {
    if r.Some? then Some(p + r.value) else None
  }

  // ----- laws -----

  /** One encoded byte in front of any text. */
  lemma DecodeFirst(c: char, rest: string)
    ensures Decode(EncodeChar(c) + rest) == Prefixed([c], Decode(rest))
  {
    var e := EncodeChar(c);
    assert (e + rest)[|e|..] == rest;
  }

  lemma {:induction false} DecodeEncode(s: string)
    ensures Decode(Encode(s)) == Some(s)
  {
    if s != "" {
      hide Decode;
      DecodeEncode(s[1..]);
      DecodeFirst(s[0], Encode(s[1..]));
      assert s == [s[0]] + s[1..];
    } else {
      assert Encode(s) == "";
    }
  }

  /** Encoded text never holds a separator of the two line formats. */
  lemma {:induction false} EncodeSeparatorFree(s: string)
    ensures ' ' !in Encode(s) && '\r' !in Encode(s) && '\n' !in Encode(s)
  {
    if s != "" {
      EncodeSeparatorFree(s[1..]);
    }
  }

  lemma EncodeInjective(s: string, t: string)
    requires Encode(s) == Encode(t)
    ensures s == t
  {
    DecodeEncode(s);
    DecodeEncode(t);
  }

  /** A byte that is not escaped, and is not one that escapes are made of,
      passes through: it is in the encoding exactly when it is in the text. */
  lemma {:induction false} EncodeKeeps(s: string, c: char)
    requires c !in {'%', ' ', '\r', '\n'} && HexValue(c) < 0
    ensures c in Encode(s) <==> c in s
  {
    if s != "" {
      EncodeKeeps(s[1..], c);
      assert s == [s[0]] + s[1..];
    }
  }

  // ----- exactly which texts decode -----

  /** The ways to write one byte: as itself, or as two hexadecimal digits of either case. */
  datatype Form = Plain | Hex(smallHigh: bool, smallLow: bool)

  const CAPITAL_DIGITS: string := "0123456789ABCDEF"
  const SMALL_DIGITS: string := "0123456789abcdef"

  predicate Allowed(c: char, f: Form) {
    if f.Plain? then c != '%' else c as int < 256
  }

  function WriteChar(c: char, f: Form): (s: string)
    requires Allowed(c, f)
    ensures s != ""
  {
    if f.Plain? then [c]
    else
      var high, low := c as int / 16, c as int % 16;
      ['%', if f.smallHigh then SMALL_DIGITS[high] else CAPITAL_DIGITS[high],
       if f.smallLow then SMALL_DIGITS[low] else CAPITAL_DIGITS[low]]
  }

  predicate AllAllowed(t: string, fs: seq<Form>) {
    |fs| == |t| && forall i :: 0 <= i < |t| ==> Allowed(t[i], fs[i])
  }

  function Write(t: string, fs: seq<Form>): string
    requires AllAllowed(t, fs)
  {
    if t == "" then "" else WriteChar(t[0], fs[0]) + Write(t[1..], fs[1..])
  }

  lemma DigitValues(v: nat)
    requires v < 16
    ensures HexValue(CAPITAL_DIGITS[v]) == v && HexValue(SMALL_DIGITS[v]) == v
  {
  }

  lemma HexDigits(c: char)
    requires HexValue(c) >= 0
    ensures c == CAPITAL_DIGITS[HexValue(c)] || c == SMALL_DIGITS[HexValue(c)]
  {
  }

  lemma DecodeWrittenChar(c: char, f: Form, rest: string)
    requires Allowed(c, f)
    ensures Decode(WriteChar(c, f) + rest) == Prefixed([c], Decode(rest))
  {
    var w := WriteChar(c, f);
    assert (w + rest)[|w|..] == rest;
    if f.Hex? {
      DigitValues(c as int / 16);
      DigitValues(c as int % 16);
    }
  }

  lemma {:induction false} DecodeWritten(t: string, fs: seq<Form>)
    requires AllAllowed(t, fs)
    ensures Decode(Write(t, fs)) == Some(t)
  {
    hide WriteChar, HexValue;
    if t != "" {
      DecodeWritten(t[1..], fs[1..]);
      hide Decode;
      DecodeWrittenChar(t[0], fs[0], Write(t[1..], fs[1..]));
      assert [t[0]] + t[1..] == t;
    }
  }

  /** The first byte of a text that decodes, how it is written, and the text after it. */
  lemma DecodeFirstForm(s: string) returns (c: char, f: Form, rest: string)
    requires s != "" && Decode(s).Some?
    ensures Allowed(c, f) && s == WriteChar(c, f) + rest && Decode(s) == Prefixed([c], Decode(rest)) && Decode(rest).Some?
    ensures |rest| < |s|
  {
    if s[0] != '%' {
      c, f, rest := s[0], Plain, s[1..];
    } else {
      var high, low := HexValue(s[1]), HexValue(s[2]);
      HexDigits(s[1]);
      HexDigits(s[2]);
      c, f, rest := (high * 16 + low) as char, Hex(s[1] == SMALL_DIGITS[high], s[2] == SMALL_DIGITS[low]), s[3..];
      assert (high * 16 + low) / 16 == high && (high * 16 + low) % 16 == low;
      assert s == s[..3] + s[3..];
    }
  }

  lemma {:induction false} DecodeForms(s: string) returns (fs: seq<Form>)
    requires Decode(s).Some?
    ensures AllAllowed(Decode(s).value, fs) && s == Write(Decode(s).value, fs)
    decreases |s|
  {
    hide WriteChar, HexValue;
    if s == "" {
      fs := [];
    } else {
      var c, f, rest := DecodeFirstForm(s);
      hide Decode;
      var gs := DecodeForms(rest);
      fs := [f] + gs;
      var t := Decode(s).value;
      assert t == [c] + Decode(rest).value && t[1..] == Decode(rest).value && fs[1..] == gs;
    }
  }

  /** A text decodes exactly when it writes each byte as itself or, for any byte, in two hexadecimal digits of either
      case, and then to those bytes; a percent sign followed by anything else is rejected. */
  lemma DecodeIff(s: string, t: string)
    ensures Decode(s) == Some(t) <==> exists fs :: AllAllowed(t, fs) && s == Write(t, fs)
  {
    if Decode(s) == Some(t) {
      var fs := DecodeForms(s);
    }
    if fs :| AllAllowed(t, fs) && s == Write(t, fs) {
      DecodeWritten(t, fs);
    }
  }

  lemma PrefixedLaws(p: string, q: string, r: Option<string>)
    ensures Prefixed("", r) == r
    ensures Prefixed(p, Prefixed(q, r)) == Prefixed(p + q, r)
  {
    if r.Some? {
      assert "" + r.value == r.value;
      assert p + (q + r.value) == (p + q) + r.value;
    }
  }

  // ----- the three loops of the program -----

  /** `percent_encode` and `encode`, which are the same code. */
  method PercentEncode(s: string) returns (out: string)
    ensures out == Encode(s)
  {
    out := "";
    for i := 0 to |s|
      invariant out + Encode(s[i..]) == Encode(s)
    {
      assert s[i..][1..] == s[i + 1..];
      ghost var was := out;
      match s[i] {
        case '%' => out := out + "%25";
        case ' ' => out := out + "%20";
        case '\r' => out := out + "%0D";
        case '\n' => out := out + "%0A";
        case _ => out := out + [s[i]];
      }
      assert out == was + EncodeChar(s[i]);
      ConcatAssoc(was, EncodeChar(s[i]), Encode(s[i + 1..]));
    }
  }

  predicate IsXDigit(c: char) {
    IsDigit(c) || 'A' <= c <= 'F' || 'a' <= c <= 'f'
  }

  /** `PersistenceManager::percent_decode`: upper-cases both digits, then tests them. */
  method PercentDecode(s: string) returns (r: Option<string>)
    ensures r == Decode(s)
  {
    var out, i := "", 0;
    PrefixedLaws("", "", Decode(s));
    while i < |s|
      invariant 0 <= i <= |s|
      invariant Decode(s) == Prefixed(out, Decode(s[i..]))
    {
      var rest := s[i..];
      ghost var was := out;
      if s[i] == '%' {
        if i + 2 >= |s| {
          return None;
        }
        var hi, lo := ToUpper(s[i + 1]), ToUpper(s[i + 2]);
        if !IsXDigit(hi) || !IsXDigit(lo) {
          return None;
        }
        var h := if IsDigit(hi) then hi as int - '0' as int else hi as int - 'A' as int + 10;
        var l := if IsDigit(lo) then lo as int - '0' as int else lo as int - 'A' as int + 10;
        assert rest[3..] == s[i + 3..];
        out := out + [(h * 16 + l) as char];
        PrefixedLaws(was, [(h * 16 + l) as char], Decode(s[i + 3..]));
        i := i + 3;
      } else {
        assert rest[1..] == s[i + 1..];
        out := out + [s[i]];
        PrefixedLaws(was, [s[i]], Decode(s[i + 1..]));
        i := i + 1;
      }
    }
    assert out + "" == out;
    return Some(out);
  }

  /** `ReplicationManager::decode`: looks both digits up with a -1 for failure. */
  method ReplicationDecode(s: string) returns (r: Option<string>)
    ensures r == Decode(s)
  {
    var out, i := "", 0;
    PrefixedLaws("", "", Decode(s));
    while i < |s|
      invariant 0 <= i <= |s|
      invariant Decode(s) == Prefixed(out, Decode(s[i..]))
    {
      var rest := s[i..];
      ghost var was := out;
      if s[i] != '%' {
        assert rest[1..] == s[i + 1..];
        out := out + [s[i]];
        PrefixedLaws(was, [s[i]], Decode(s[i + 1..]));
        i := i + 1;
        continue;
      }
      if i + 2 >= |s| {
        return None;
      }
      var hi, lo := HexValue(s[i + 1]), HexValue(s[i + 2]);
      if hi < 0 || lo < 0 {
        return None;
      }
      assert rest[3..] == s[i + 3..];
      out := out + [(hi * 16 + lo) as char];
      PrefixedLaws(was, [(hi * 16 + lo) as char], Decode(s[i + 3..]));
      i := i + 3;
    }
    assert out + "" == out;
    return Some(out);
  }
}
