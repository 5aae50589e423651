/** Byte strings, the searches the C++ library offers over them, and decimal numbers.

    A `char` stands for one byte. Nothing below bounds a `char` at 255, so every
    result holds for byte strings as a special case. */
module Text {
  datatype Option<+T> = None | Some(value: T)

  const CRLF: string := "\r\n"

  const INT_MAX: int := 0x7FFF_FFFF
  const INT_MIN: int := -0x8000_0000
  const LLONG_MAX: int := 0x7FFF_FFFF_FFFF_FFFF
  const LLONG_MIN: int := -0x8000_0000_0000_0000

  // ----- searching -----

  /** `s.find(c, i)`; |s| stands for `npos`. */
  function FindFrom(s: string, c: char, i: nat): (j: nat)
    requires i <= |s|
    ensures i <= j <= |s|
    ensures j < |s| ==> s[j] == c
    ensures forall k :: i <= k < j ==> s[k] != c
    decreases |s| - i
  {
    if i == |s| || s[i] == c then i else FindFrom(s, c, i + 1)
  }

  function Find(s: string, c: char): (j: nat)
    ensures j <= |s|
    ensures j < |s| ==> s[j] == c
    ensures forall k :: 0 <= k < j ==> s[k] != c
  {
    FindFrom(s, c, 0)
  }

  predicate CrlfAt(s: string, i: int) {
    0 <= i < |s| - 1 && s[i] == '\r' && s[i + 1] == '\n'
  }

  /** `s.find("\r\n", i)`; |s| stands for `npos`. */
  function FindCrlfFrom(s: string, i: nat): (j: nat)
    requires i <= |s|
    ensures i <= j <= |s|
    ensures j < |s| ==> CrlfAt(s, j)
    ensures forall k :: i <= k < j ==> !CrlfAt(s, k)
    decreases |s| - i
  {
    if i == |s| || CrlfAt(s, i) then i else FindCrlfFrom(s, i + 1)
  }

  function FindCrlf(s: string): (j: nat)
    ensures j <= |s|
    ensures j < |s| ==> CrlfAt(s, j)
    ensures forall k :: 0 <= k < j ==> !CrlfAt(s, k)
  {
    FindCrlfFrom(s, 0)
  }

  lemma FindCrlfShift(s: string, i: nat)
    requires i <= |s|
    ensures FindCrlfFrom(s, i) == i + FindCrlf(s[i..])
  {
    var t := s[i..];
    assert forall k :: 0 <= k < |t| ==> CrlfAt(t, k) == CrlfAt(s, i + k);
    var j := FindCrlfFrom(s, i);
    assert j < |s| ==> CrlfAt(t, j - i);
  }

  lemma FindShift(s: string, c: char, i: nat)
    requires i <= |s|
    ensures FindFrom(s, c, i) == i + Find(s[i..], c)
  {
    var t, j := s[i..], FindFrom(s, c, i);
    assert forall k :: 0 <= k < |t| ==> t[k] == s[i + k];
    assert j < |s| ==> t[j - i] == c;
  }

  /** A CRLF that is found stays the first one when bytes are appended. */
  lemma FindCrlfStable(s: string, x: string)
    requires FindCrlf(s) < |s|
    ensures FindCrlf(s + x) == FindCrlf(s)
  {
    var i := FindCrlf(s);
    assert CrlfAt(s + x, i);
    assert forall k :: 0 <= k < i ==> CrlfAt(s + x, k) == CrlfAt(s, k);
  }

  lemma FindCrlfAfter(s: string, x: string)
    requires '\r' !in s
    ensures FindCrlf(s + CRLF + x) == |s|
  {
    var t := s + CRLF + x;
    assert CrlfAt(t, |s|);
    assert forall j :: 0 <= j < |s| ==> t[j] == s[j];
  }

  lemma FindStable(s: string, c: char, x: string)
    requires Find(s, c) < |s|
    ensures Find(s + x, c) == Find(s, c)
  {
    var i := Find(s, c);
    assert (s + x)[i] == c;
    assert forall k :: 0 <= k < i ==> (s + x)[k] == s[k];
  }

  lemma FindAfter(s: string, c: char, x: string)
    requires c !in s
    ensures Find(s + [c] + x, c) == |s|
  {
    var t := s + [c] + x;
    assert t[|s|] == c;
    assert forall k :: 0 <= k < |s| ==> t[k] == s[k];
  }

  // ----- characters -----

  /** `isspace` of the C locale, which is also what `istringstream >>` skips. */
  predicate IsSpace(c: char) {
    c == ' ' || '\t' <= c <= '\r'
  }

  predicate IsDigit(c: char) {
    '0' <= c <= '9'
  }

  function ToUpper(c: char): char {
    if 'a' <= c <= 'z' then (c as int - 32) as char else c
  }

  function Upper(s: string): (u: string)
    ensures |u| == |s| && forall i :: 0 <= i < |s| ==> u[i] == ToUpper(s[i])
  {
    seq(|s|, i requires 0 <= i < |s| => ToUpper(s[i]))
  }

  function ToLower(c: char): char {
    if 'A' <= c <= 'Z' then (c as int + 32) as char else c
  }

  function Lower(s: string): (l: string)
    ensures |l| == |s| && forall i :: 0 <= i < |s| ==> l[i] == ToLower(s[i])
  {
    seq(|s|, i requires 0 <= i < |s| => ToLower(s[i]))
  }

  const CAPITALS: string := "ABCDEFGHIJKLMNOPQRSTUVWXYZ"
  const SMALL: string := "abcdefghijklmnopqrstuvwxyz"

  /** Upper-casing maps each small letter to its capital and leaves every other byte. */
  lemma UpperCases(c: char)
    ensures ToUpper(c) == if c in SMALL then CAPITALS[Find(SMALL, c)] else c
    ensures ToLower(c) == if c in CAPITALS then SMALL[Find(CAPITALS, c)] else c
  {
    Letters();
    if 'a' <= c <= 'z' {
      FindIs(SMALL, c, c as int - 'a' as int);
    }
    if 'A' <= c <= 'Z' {
      FindIs(CAPITALS, c, c as int - 'A' as int);
    }
  }

  lemma Letters()
    ensures |SMALL| == |CAPITALS| == 26
    ensures forall i :: 0 <= i < 26 ==> SMALL[i] as int == 'a' as int + i && CAPITALS[i] as int == 'A' as int + i
  {
  }

  lemma FindIs(s: string, c: char, i: nat)
    requires i < |s| && s[i] == c && forall j :: 0 <= j < i ==> s[j] != c
    ensures Find(s, c) == i
  {
  }

  /** End of the run of blanks that starts at `i`. */
  function SpaceEnd(s: string, i: nat): (j: nat)
    requires i <= |s|
    ensures i <= j <= |s|
    ensures j < |s| ==> !IsSpace(s[j])
    decreases |s| - i
  {
    if i < |s| && IsSpace(s[i]) then SpaceEnd(s, i + 1) else i
  }

  // ----- decimal numbers -----

  function Digit(d: nat): (c: char)
    requires d < 10
    ensures IsDigit(c) && DigitValue(c) == d
  {
    ('0' as int + d) as char
  }

  function DigitValue(c: char): nat {
    if IsDigit(c) then c as int - '0' as int else 0
  }

  function ShowNat(n: nat): (s: string)
    ensures s != "" && forall i :: 0 <= i < |s| ==> IsDigit(s[i])
  {
    if n < 10 then [Digit(n)] else ShowNat(n / 10) + [Digit(n % 10)]
  }

  /** `std::to_string`. */
  function Show(n: int): (s: string)
    ensures s != "" && forall i :: 0 <= i < |s| ==> IsDigit(s[i]) || s[i] == '-'
  {
    if n < 0 then "-" + ShowNat(-n) else ShowNat(n)
  }

  /** End of the run of digits that starts at `i`. */
  function DigitEnd(s: string, i: nat): (j: nat)
    requires i <= |s|
    ensures i <= j <= |s|
    decreases |s| - i
  {
    if i < |s| && IsDigit(s[i]) then DigitEnd(s, i + 1) else i
  }

  /** The number that the digits of s[i..j] write. */
  function Number(s: string, i: nat, j: nat): nat
    requires i <= j <= |s|
  {
    if i == j then 0 else Number(s, i, j - 1) * 10 + DigitValue(s[j - 1])
  }

  /** `std::stoi` and `std::stoll`: blanks, a sign, then the longest run of digits;
      None stands for the exception on no digits or on a value out of range. */
  function ParseInt(s: string, lo: int, hi: int): (r: Option<int>)
    ensures r.Some? ==> lo <= r.value <= hi
  {
    var i := SpaceEnd(s, 0);
    var negative := i < |s| && s[i] == '-';
    var j := if i < |s| && (s[i] == '-' || s[i] == '+') then i + 1 else i;
    var k := DigitEnd(s, j);
    var v: int := Number(s, j, k);
    var n := if negative then -v else v;
    if j < k && lo <= n <= hi then Some(n) else None
  }

  function Stoi(s: string): Option<int> {
    ParseInt(s, INT_MIN, INT_MAX)
  }

  function Stoll(s: string): Option<int> {
    ParseInt(s, LLONG_MIN, LLONG_MAX)
  }

  lemma {:induction false} NumberOfShow(s: string, i: nat, j: nat, n: nat)
    requires i <= j <= |s| && s[i..j] == ShowNat(n)
    ensures Number(s, i, j) == n
    decreases n
  {
    assert s[j - 1] == s[i..j][j - 1 - i];
    if n >= 10 {
      assert s[i..j - 1] == s[i..j][..j - 1 - i];
      NumberOfShow(s, i, j - 1, n / 10);
    } else {
      assert i == j - 1;
    }
  }

  lemma {:induction false} DigitEndAll(s: string, i: nat)
    requires i <= |s| && forall k :: i <= k < |s| ==> IsDigit(s[k])
    ensures DigitEnd(s, i) == |s|
    decreases |s| - i
  {
    if i < |s| {
      DigitEndAll(s, i + 1);
    }
  }

  /** The parser inverts the printer exactly on the numbers that fit. */
  lemma ParseShow(n: int, lo: int, hi: int)
    ensures ParseInt(Show(n), lo, hi) == if lo <= n <= hi then Some(n) else None
  {
    var s := Show(n);
    var m, i := if n < 0 then -n else n, if n < 0 then 1 else 0;
    assert s[i..|s|] == ShowNat(m);
    NumberOfShow(s, i, |s|, m);
    DigitEndAll(s, i);
    assert s[0] == '-' || IsDigit(s[0]);
  }

  lemma ShowParses(n: int)
    ensures INT_MIN <= n <= INT_MAX ==> Stoi(Show(n)) == Some(n)
    ensures LLONG_MIN <= n <= LLONG_MAX ==> Stoll(Show(n)) == Some(n)
  {
    ParseShow(n, INT_MIN, INT_MAX);
    ParseShow(n, LLONG_MIN, LLONG_MAX);
  }

  const DIGITS: string := "0123456789"

  /** Numbers are printed in decimal. */
  lemma ShowDecimal(n: int, d: nat)
    requires n >= 0 && d < 10
    ensures Show(d) == [DIGITS[d]]
    ensures n > 0 ==> Show(10 * n + d) == Show(n) + [DIGITS[d]]
    ensures n > 0 ==> Show(-n) == "-" + Show(n)
  {
    assert DIGITS[d] as int == '0' as int + d;
    assert (10 * n + d) / 10 == n && (10 * n + d) % 10 == d;
  }

  lemma {:induction false} SpaceEndIs(s: string, i: nat, j: nat)
    requires i <= j <= |s| && forall k :: i <= k < j ==> IsSpace(s[k])
    requires j < |s| ==> !IsSpace(s[j])
    ensures SpaceEnd(s, i) == j
    decreases j - i
  {
    if i < j {
      SpaceEndIs(s, i + 1, j);
    }
  }

  lemma {:induction false} DigitEndIs(s: string, i: nat, j: nat)
    requires i <= j <= |s| && forall k :: i <= k < j ==> IsDigit(s[k])
    requires j < |s| ==> !IsDigit(s[j])
    ensures DigitEnd(s, i) == j
    decreases j - i
  {
    if i < j {
      DigitEndIs(s, i + 1, j);
    }
  }

  /** Leading blanks, a sign of either kind and anything after the digits are allowed. */
  lemma ParseLenient(blanks: string, sign: string, n: nat, junk: string, lo: int, hi: int)
    requires forall k :: 0 <= k < |blanks| ==> IsSpace(blanks[k])
    requires sign == "" || sign == "+" || sign == "-"
    requires junk == "" || !IsDigit(junk[0])
    ensures var v: int := if sign == "-" then 0 - n else n;
            ParseInt(blanks + sign + ShowNat(n) + junk, lo, hi) == if lo <= v <= hi then Some(v) else None
  {
    hide ShowNat, SpaceEnd, DigitEnd, Number;
    var digits := ShowNat(n);
    var s, i := blanks + sign + digits + junk, |blanks|;
    var j := i + |sign|;
    var k := j + |digits|;
    assert s[i] == if sign == "" then digits[0] else sign[0];
    assert forall m :: 0 <= m < i ==> s[m] == blanks[m];
    assert s[j..k] == digits;
    assert forall m :: j <= m < k ==> s[m] == digits[m - j];
    assert k < |s| ==> s[k] == junk[0];
    SpaceEndIs(s, 0, i);
    DigitEndIs(s, j, k);
    NumberOfShow(s, j, k, n);
  }

  /** Without a digit there is no number. */
  lemma ParseNothing(blanks: string, sign: string, junk: string, lo: int, hi: int)
    requires forall k :: 0 <= k < |blanks| ==> IsSpace(blanks[k])
    requires sign == "+" || sign == "-"
    requires junk == "" || !IsDigit(junk[0])
    ensures ParseInt(blanks + sign + junk, lo, hi) == None
    ensures junk == "" || (!IsSpace(junk[0]) && junk[0] != '+' && junk[0] != '-') ==> ParseInt(blanks + junk, lo, hi) == None
  {
    hide SpaceEnd, DigitEnd, Number;
    var s, i := blanks + sign + junk, |blanks|;
    assert s[i] == sign[0] && (i + 1 < |s| ==> s[i + 1] == junk[0]);
    assert forall m :: 0 <= m < i ==> s[m] == blanks[m];
    SpaceEndIs(s, 0, i);
    DigitEndIs(s, i + 1, i + 1);
    if junk == "" || (!IsSpace(junk[0]) && junk[0] != '+' && junk[0] != '-') {
      var t := blanks + junk;
      assert forall m :: 0 <= m < i ==> t[m] == blanks[m];
      assert i < |t| ==> t[i] == junk[0];
      SpaceEndIs(t, 0, i);
      DigitEndIs(t, i, i);
    }
  }

  lemma ConcatAssoc(a: string, b: string, c: string)
    ensures (a + b) + c == a + (b + c)
  {
  }
}
