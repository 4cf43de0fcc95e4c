/** The few PHP string semantics the modelled services depend on: the truth
    value of a string, `explode`/`implode` on a one-character separator,
    `strpos` for one character, and the integer readings of a string. */
module Php {
  import opened Wrappers

  /** PHP's truth value of a string: "" and "0" are false, every other string is true. */
  predicate Truthy(s: string) {
    s != "" && s != "0"
  }

  /** PHP strings are byte strings: every character is a byte. */
  predicate IsByteString(s: string) {
    forall i :: 0 <= i < |s| ==> s[i] as int < 256
  }

  /** `strpos($s, $c)` when it does not return false: the first position of `c`. */
  function IndexOf(s: string, c: char): (i: nat)
    requires c in s
    ensures i < |s| && s[i] == c
    ensures c !in s[..i]
  {
    if s[0] == c then 0
    else
      assert s == [s[0]] + s[1..];
      var j := IndexOf(s[1..], c);
      assert s[..j + 1] == [s[0]] + s[1..][..j];
      j + 1
  }

  /** A position holding `c` with no `c` before it is the one `IndexOf` finds. */
  lemma IndexOfUnique(s: string, c: char, k: nat)
    requires k < |s| && s[k] == c
    requires forall x :: 0 <= x < k ==> s[x] != c
    ensures c in s && IndexOf(s, c) == k
  {
    assert s[k] in s;
    var i := IndexOf(s, c);
    forall x | 0 <= x < i
      ensures s[x] != c
    {
      assert s[..i][x] == s[x];
    }
  }

  /** The first occurrence of a character in a concatenation is found in the
      left part when it occurs there, otherwise in the right part. */
  lemma IndexOfAppend(a: string, b: string, c: char)
    requires c in a + b
    ensures c in a ==> IndexOf(a + b, c) == IndexOf(a, c)
    ensures c !in a ==> c in b && IndexOf(a + b, c) == |a| + IndexOf(b, c)
  {
    if c in a {
      var j := IndexOf(a, c);
      forall x | 0 <= x < j
        ensures (a + b)[x] != c
      {
        assert a[..j][x] == a[x];
      }
      IndexOfUnique(a + b, c, j);
    } else {
      var k :| 0 <= k < |a + b| && (a + b)[k] == c;
      assert k >= |a| ==> b[k - |a|] == c;
      var j := IndexOf(b, c);
      forall x | 0 <= x < |a| + j
        ensures (a + b)[x] != c
      {
        if x < |a| {
          assert a[x] in a;
        } else {
          assert b[..j][x - |a|] == b[x - |a|];
        }
      }
      IndexOfUnique(a + b, c, |a| + j);
    }
  }

  /** `explode($sep, $s)`: the pieces of `s` between occurrences of `sep`.
      There is always at least one piece ("" explodes to [""]) and no piece
      contains the separator. */
  function Explode(sep: char, s: string): (parts: seq<string>)
    ensures |parts| >= 1
    ensures forall i :: 0 <= i < |parts| ==> sep !in parts[i]
    decreases |s|
  {
    if sep !in s then [s]
    else
      var i := IndexOf(s, sep);
      [s[..i]] + Explode(sep, s[i + 1..])
  }

  /** `implode($sep, $parts)` for a non-empty list. */
  function Implode(sep: char, parts: seq<string>): string
    requires |parts| >= 1
  {
    if |parts| == 1 then parts[0] else parts[0] + [sep] + Implode(sep, parts[1..])
  }

  /** Joining the pieces again gives back the exploded string. */
  lemma {:induction false} ImplodeExplode(sep: char, s: string)
    ensures Implode(sep, Explode(sep, s)) == s
    decreases |s|
  {
    if sep in s {
      var i := IndexOf(s, sep);
      var rest := Explode(sep, s[i + 1..]);
      var parts := Explode(sep, s);
      assert parts == [s[..i]] + rest;
      assert parts[1..] == rest;
      ImplodeExplode(sep, s[i + 1..]);
      calc {
        Implode(sep, parts);
        parts[0] + [sep] + Implode(sep, parts[1..]);
        s[..i] + [sep] + s[i + 1..];
      }
      assert s == s[..i] + [sep] + s[i + 1..];
    }
  }

  /** Exploding a join of separator-free pieces gives back the pieces. */
  lemma {:induction false} ExplodeImplode(sep: char, parts: seq<string>)
    requires |parts| >= 1
    requires forall i :: 0 <= i < |parts| ==> sep !in parts[i]
    ensures Explode(sep, Implode(sep, parts)) == parts
  {
    if |parts| > 1 {
      ExplodeStep(sep, parts);
      ExplodeImplode(sep, parts[1..]);
      assert parts == [parts[0]] + parts[1..];
    }
  }

  /** Exploding a join of pieces gives the first piece, then the exploded
      join of the others. */
  lemma ExplodeStep(sep: char, parts: seq<string>)
    requires |parts| > 1
    requires sep !in parts[0]
    ensures Explode(sep, Implode(sep, parts)) == [parts[0]] + Explode(sep, Implode(sep, parts[1..]))
  {
    ImplodeSplit(sep, parts);
  }

  /** A join of separator-free pieces splits at its first separator into
      the first piece and the join of the others. */
  lemma ImplodeSplit(sep: char, parts: seq<string>)
    requires |parts| > 1
    requires sep !in parts[0]
    ensures var s := Implode(sep, parts); var i := |parts[0]|;
            sep in s && IndexOf(s, sep) == i && s[..i] == parts[0] && s[i + 1..] == Implode(sep, parts[1..])
  {
    var s := Implode(sep, parts);
    var rest := Implode(sep, parts[1..]);
    var i := |parts[0]|;
    assert s == parts[0] + ([sep] + rest);
    IndexOfAppend(parts[0], [sep] + rest, sep);
    assert IndexOf([sep] + rest, sep) == 0;
    assert s[i] == sep;
  }

  predicate IsDigit(c: char) {
    '0' <= c <= '9'
  }

  predicate AllDigits(s: string) {
    forall i :: 0 <= i < |s| ==> IsDigit(s[i])
  }

  /** The decimal value of a string of digits. */
  function DigitsValue(s: string): nat
    requires AllDigits(s)
  {
    if s == [] then 0 else DigitsValue(s[..|s| - 1]) * 10 + (s[|s| - 1] as int - '0' as int)
  }

  /** The strict reading of "intval($s) == $s": an optional sign followed by one
      or more digits, and the integer they denote. */
  function IntegerValue(s: string): (r: Option<int>)
    ensures r.Some? ==> |s| > 0 && IsDigit(s[|s| - 1])
    ensures r.Some? && s[0] != '-' ==> r.value >= 0
    ensures AllDigits(s) && s != [] ==> r == Some(DigitsValue(s))
  {
    if |s| > 0 && AllDigits(s) then Some(DigitsValue(s))
    else if |s| > 1 && (s[0] == '-' || s[0] == '+') && AllDigits(s[1..]) then
      var v: int := DigitsValue(s[1..]);
      Some(if s[0] == '-' then -v else v)
    else None
  }

  /** The longest prefix of `s` made of digits. */
  function LeadingDigits(s: string): (d: string)
    ensures AllDigits(d) && |d| <= |s|
  {
    if s != [] && IsDigit(s[0]) then [s[0]] + LeadingDigits(s[1..]) else []
  }

  /** The leading digits are a prefix of the string, and what follows them is
      not a digit. */
  lemma {:induction false} LeadingDigitsPrefix(s: string)
    ensures var d := LeadingDigits(s);
            d == s[..|d|] && (|d| < |s| ==> !IsDigit(s[|d|]))
  {
    if s != [] && IsDigit(s[0]) {
      LeadingDigitsPrefix(s[1..]);
    }
  }

  predicate IsAsciiSpace(c: char) {
    c == ' ' || c == '\t' || c == '\n' || c == '\r' || c == '\U{0B}' || c == '\U{0C}'
  }

  function SkipAsciiSpace(s: string): (t: string)
    ensures |t| <= |s|
  {
    if s != [] && IsAsciiSpace(s[0]) then SkipAsciiSpace(s[1..]) else s
  }

  /** Skipping white space leaves a suffix of the string. */
  lemma {:induction false} SkipAsciiSpaceSuffix(s: string)
    ensures var t := SkipAsciiSpace(s); t == s[|s| - |t|..]
  {
    if s != [] && IsAsciiSpace(s[0]) {
      SkipAsciiSpaceSuffix(s[1..]);
    }
  }

  /** The value of an integer-form numeric string as PHP 5 recognises it:
      leading white space, an optional sign and one or more digits, and
      nothing after them. */
  function IntegerNumeric(s: string): (r: Option<int>)
    ensures r.Some? ==> |s| > 0 && IsDigit(s[|s| - 1])
    ensures AllDigits(s) && s != [] ==> r == Some(DigitsValue(s))
  {
    var t := SkipAsciiSpace(s);
    SkipAsciiSpaceSuffix(s);
    assert |t| > 0 ==> s[|s| - 1] == t[|t| - 1];
    IntegerValue(t)
  }

  /** `$a == $b` on two strings in PHP 5: compared as numbers when both are
      numeric strings, byte by byte otherwise. Only the integer form of
      numeric strings is recognised here. */
  predicate LooseEquals(a: string, b: string) {
    var x, y := IntegerNumeric(a), IntegerNumeric(b);
    if x.Some? && y.Some? then x.value == y.value else a == b
  }

  /** Leading zeros, a plus sign and leading white space all compare equal
      to "1". */
  lemma LooseEqualsOne()
    ensures LooseEquals("01", "1") && LooseEquals("+1", "1") && LooseEquals(" 1", "1")
  {
    NumericOne();
    NumericLeadingZero();
    NumericPlus();
    NumericLeadingSpace();
  }

  lemma NumericOne()
    ensures IntegerNumeric("1") == Some(1)
  {
    SkipNonSpace("1");
    DigitOne();
  }

  lemma NumericLeadingZero()
    ensures IntegerNumeric("01") == Some(1)
  {
    var s := "01";
    SkipNonSpace(s);
    assert AllDigits(s);
    assert s[..1] == "0" && "0"[..0] == [];
  }

  lemma NumericPlus()
    ensures IntegerNumeric("+1") == Some(1)
  {
    var s := "+1";
    SkipNonSpace(s);
    DigitOne();
    assert s[1..] == "1";
    assert !IsDigit(s[0]);
  }

  lemma NumericLeadingSpace()
    ensures IntegerNumeric(" 1") == Some(1)
  {
    assert " 1" == [' '] + "1";
    SkipSpace(' ', "1");
    SkipNonSpace("1");
    DigitOne();
  }

  /** A string that starts with no white space is its own white-space-free rest. */
  lemma SkipNonSpace(s: string)
    requires s != [] && !IsAsciiSpace(s[0])
    ensures SkipAsciiSpace(s) == s
  {
  }

  lemma SkipSpace(c: char, s: string)
    requires IsAsciiSpace(c)
    ensures SkipAsciiSpace([c] + s) == SkipAsciiSpace(s)
  {
    assert ([c] + s)[1..] == s;
  }

  lemma DigitOne()
    ensures AllDigits("1") && DigitsValue("1") == 1
  {
    assert "1"[..0] == [];
  }

  lemma NotNumericTrailingSpace()
    ensures IntegerNumeric("1 ") == None
  {
    var s := "1 ";
    SkipNonSpace(s);
    assert !IsDigit(s[1]) && s[0] != '-' && s[0] != '+';
  }

  lemma NotNumericTrue()
    ensures IntegerNumeric("true") == None
  {
    SkipNonSpace("true");
    assert !IsDigit("true"[0]);
  }

  /** Trailing white space and words are not numeric strings, so they are
      compared byte by byte. */
  lemma LooseEqualsNotOne()
    ensures !LooseEquals("1 ", "1") && !LooseEquals("true", "1")
  {
    NotNumericTrailingSpace();
    assert |"1 "| != |"1"|;
    NotNumericTrue();
  }

  /** PHP's integer conversion of a string (`(int)$s`, `$s + 0`): leading
      whitespace, an optional sign and the leading digits; 0 when there are none. */
  function NumericPrefix(s: string): int
  {
    var t := SkipAsciiSpace(s);
    if |t| > 0 && t[0] == '-' then -(DigitsValue(LeadingDigits(t[1..])) as int)
    else if |t| > 0 && t[0] == '+' then DigitsValue(LeadingDigits(t[1..]))
    else DigitsValue(LeadingDigits(t))
  }

  /** `t` without one leading sign character. */
  function Unsigned(t: string): (u: string)
    ensures |u| <= |t|
  {
    if |t| > 0 && (t[0] == '-' || t[0] == '+') then t[1..] else t
  }

  /** The parts of the number a string starts with, as PHP 5 reads a string
      that is compared with an integer: after leading white space, a sign and
      the whole digits, then the fraction digits after a ".", then the
      exponent digits after an "e" or "E" and its own sign. A string with
      neither whole nor fraction digits holds no number and reads as 0. */
  datatype NumberText = NumberText(negative: bool, whole: string, fraction: string, expNegative: bool, exponent: string)

  predicate WellFormedNumber(n: NumberText) {
    AllDigits(n.whole) && AllDigits(n.fraction) && AllDigits(n.exponent)
  }

  /** The exponent digits at the start of `r`, if it starts with an exponent. */
  function ExponentOf(r: string): (e: (bool, string))
    ensures AllDigits(e.1)
  {
    if |r| > 0 && (r[0] == 'e' || r[0] == 'E') then
      var v := r[1..];
      if |v| > 0 && (v[0] == '-' || v[0] == '+') then (v[0] == '-', LeadingDigits(v[1..]))
      else (false, LeadingDigits(v))
    else (false, [])
  }

  function LeadingNumber(s: string): (n: NumberText)
    ensures WellFormedNumber(n)
  {
    var t := SkipAsciiSpace(s);
    UnsignedNumber(Unsigned(t)).(negative := |t| > 0 && t[0] == '-')
  }

  /** The number at the start of a string whose sign is already read. */
  function UnsignedNumber(u: string): (n: NumberText)
    ensures WellFormedNumber(n) && n.whole == LeadingDigits(u) && !n.negative
  {
    var whole := LeadingDigits(u);
    NumberAfterWhole(whole, u[|whole|..])
  }

  /** The fraction and exponent that follow the whole digits, read from `r`. */
  function NumberAfterWhole(whole: string, r: string): (n: NumberText)
    requires AllDigits(whole)
    ensures WellFormedNumber(n) && n.whole == whole && !n.negative
    ensures (r == [] || r[0] != '.') ==> n == NumberWithExponent(whole, [], r)
  {
    if |r| > 0 && r[0] == '.' then
      var fraction := LeadingDigits(r[1..]);
      NumberWithExponent(whole, fraction, r[1 + |fraction|..])
    else NumberWithExponent(whole, [], r)
  }

  /** The exponent read from `rest`, when there are whole or fraction digits. */
  function NumberWithExponent(whole: string, fraction: string, rest: string): (n: NumberText)
    requires AllDigits(whole) && AllDigits(fraction)
    ensures WellFormedNumber(n) && n.whole == whole && n.fraction == fraction && !n.negative
    ensures (rest == [] || (rest[0] != 'e' && rest[0] != 'E')) ==> n.exponent == []
  {
    var e := if whole == [] && fraction == [] then (false, []) else ExponentOf(rest);
    NumberText(false, whole, fraction, e.0, e.1)
  }

  function Pow10(k: nat): (p: nat)
    ensures p >= 1
    ensures k >= 1 ==> p >= 10
  {
    if k == 0 then 1 else 10 * Pow10(k - 1)
  }

  /** The number a `NumberText` denotes. */
  function NumberValue(n: NumberText): real
    requires WellFormedNumber(n)
  {
    if n.negative then -Magnitude(n) else Magnitude(n)
  }

  /** The unsigned value: the whole and fraction digits, scaled by the exponent. */
  function Magnitude(n: NumberText): real
    requires WellFormedNumber(n)
  {
    Scaled(DigitsValue(n.whole) as real + DigitsValue(n.fraction) as real / Pow10(|n.fraction|) as real,
           DigitsValue(n.exponent), n.expNegative)
  }

  /** `m` times 10 to the power `e`, or divided by it when `down`. */
  function Scaled(m: real, e: nat, down: bool): real {
    if down then m / Pow10(e) as real else m * Pow10(e) as real
  }

  predicate AllZeros(s: string) {
    forall i :: 0 <= i < |s| ==> s[i] == '0'
  }

  /** `intval($s) == $s` in PHP 5. The integer conversion stops at the first
      character that is not a digit; the comparison reads the whole number
      the string starts with. They agree exactly when that number is 0, or
      when it has no non-zero fraction digit and no non-zero exponent. So
      "abc", "5abc", "12 " and "5.0" pass, while "5.5" and "1e1" do not. */
  predicate IntvalMatches(s: string) {
    var n := LeadingNumber(s);
    AllZeros(n.whole + n.fraction) || (AllZeros(n.fraction) && AllZeros(n.exponent))
  }

  /** The integer conversion is the signed whole digits. */
  lemma NumericPrefixIsWhole(s: string)
    ensures var n := LeadingNumber(s);
            NumericPrefix(s) == if n.negative then -(DigitsValue(n.whole) as int) else DigitsValue(n.whole)
  {
  }

  lemma {:induction false} ZerosValue(s: string)
    requires AllDigits(s)
    ensures AllZeros(s) <==> DigitsValue(s) == 0
  {
    if s != [] {
      var init := s[..|s| - 1];
      assert AllDigits(init) by {
        forall i | 0 <= i < |init| ensures IsDigit(init[i]) { assert init[i] == s[i]; }
      }
      ZerosValue(init);
      if AllZeros(s) {
        assert AllZeros(init) by {
          forall i | 0 <= i < |init| ensures init[i] == '0' { assert init[i] == s[i]; }
        }
      }
      if DigitsValue(s) == 0 {
        assert s[|s| - 1] == '0';
        forall i | 0 <= i < |s| ensures s[i] == '0' {
          if i < |s| - 1 { assert s[i] == init[i]; }
        }
      }
    }
  }

  lemma {:induction false} DigitsBelow(s: string)
    requires AllDigits(s)
    ensures DigitsValue(s) < Pow10(|s|)
  {
    if s != [] {
      var init := s[..|s| - 1];
      assert AllDigits(init) by {
        forall i | 0 <= i < |init| ensures IsDigit(init[i]) { assert init[i] == s[i]; }
      }
      DigitsBelow(init);
    }
  }

  /** A non-negative mantissa d + q with 0 <= q < 1, scaled by 10 to the power
      e up or down, equals its whole part d exactly when it is 0 or when
      there is neither a fraction nor an exponent. */
  lemma ScaledEqualsWhole(d: nat, q: real, e: nat, down: bool)
    requires 0.0 <= q < 1.0
    ensures Scaled(d as real + q, e, down) == d as real <==> (d == 0 && q == 0.0) || (q == 0.0 && e == 0)
  {
    var m := d as real + q;
    var scale := Pow10(e) as real;
    if e == 0 {
      assert scale == 1.0;
    } else if down {
      ScaledDown(d, m, scale);
    } else {
      ScaledUp(m, scale);
    }
  }

  lemma ScaledDown(d: nat, m: real, scale: real)
    requires d as real <= m < d as real + 1.0 && scale >= 10.0
    ensures m / scale == d as real <==> m == 0.0
  {
    if m / scale == d as real {
      assert m == d as real * scale;
    }
  }

  lemma ScaledUp(m: real, scale: real)
    requires m >= 0.0 && scale >= 10.0
    ensures m * scale >= m
    ensures m * scale == m <==> m == 0.0
  {
    assert m * scale >= m * 10.0;
  }

  /** The integer test on the parts of a number: it holds exactly when the
      number equals its signed whole digits. */
  lemma NumberMeaning(n: NumberText)
    requires WellFormedNumber(n)
    ensures (AllZeros(n.whole + n.fraction) || (AllZeros(n.fraction) && AllZeros(n.exponent)))
            <==> NumberValue(n) == (if n.negative then -(DigitsValue(n.whole) as int) else DigitsValue(n.whole)) as real
  {
    SignedEquals(Magnitude(n), DigitsValue(n.whole), n.negative);
    MagnitudeMeaning(n);
    ZerosValue(n.whole);
    ZerosValue(n.fraction);
    ZerosValue(n.exponent);
    ZerosAppend(n.whole, n.fraction);
  }

  lemma MagnitudeMeaning(n: NumberText)
    requires WellFormedNumber(n)
    ensures var d, f, e := DigitsValue(n.whole), DigitsValue(n.fraction), DigitsValue(n.exponent);
            Magnitude(n) == d as real <==> (d == 0 && f == 0) || (f == 0 && e == 0)
  {
    var f := DigitsValue(n.fraction);
    var p := Pow10(|n.fraction|);
    DigitsBelow(n.fraction);
    FractionBelowOne(f, p);
    ScaledEqualsWhole(DigitsValue(n.whole), f as real / p as real, DigitsValue(n.exponent), n.expNegative);
  }

  lemma SignedEquals(magnitude: real, d: nat, negative: bool)
    ensures (if negative then -magnitude else magnitude) == (if negative then -(d as int) else d) as real
            <==> magnitude == d as real
  {
  }

  lemma FractionBelowOne(f: nat, p: nat)
    requires f < p
    ensures 0.0 <= f as real / p as real < 1.0
    ensures f as real / p as real == 0.0 <==> f == 0
  {
    assert f as real / p as real * p as real == f as real;
  }

  lemma ZerosAppend(a: string, b: string)
    ensures AllZeros(a + b) <==> AllZeros(a) && AllZeros(b)
  {
    var ab := a + b;
    if AllZeros(ab) {
      forall i | 0 <= i < |b| ensures b[i] == '0' {
        assert ab[|a| + i] == b[i];
      }
      forall i | 0 <= i < |a| ensures a[i] == '0' {
        assert ab[i] == a[i];
      }
    }
  }

  /** The integer test means what it says: it passes exactly when the number
      the string starts with equals the string's integer conversion. */
  lemma IntvalMatchesMeaning(s: string)
    ensures IntvalMatches(s) <==> NumberValue(LeadingNumber(s)) == NumericPrefix(s) as real
  {
    NumberMeaning(LeadingNumber(s));
    NumericPrefixIsWhole(s);
  }

  /** The leading digits of digits followed by a non-digit are those digits. */
  lemma {:induction false} LeadingDigitsAppend(d: string, r: string)
    requires AllDigits(d)
    requires r == [] || !IsDigit(r[0])
    ensures LeadingDigits(d + r) == d
  {
    if d != [] {
      assert (d + r)[1..] == d[1..] + r;
      LeadingDigitsAppend(d[1..], r);
    } else {
      assert d + r == r;
    }
  }

  /** Digits followed by anything but a digit, ".", "e" or "E" pass the
      integer test and convert to those digits: "5", "5abc", "12 ". */
  lemma IntvalDigitsThen(d: string, rest: string)
    requires d != [] && AllDigits(d)
    requires rest == [] || (!IsDigit(rest[0]) && rest[0] != '.' && rest[0] != 'e' && rest[0] != 'E')
    ensures IntvalMatches(d + rest) && NumericPrefix(d + rest) == DigitsValue(d)
  {
    assert (d + rest)[0] == d[0];
    LeadingNumberUnsigned(d + rest);
    UnsignedParts(d, rest);
    NumericPrefixIsWhole(d + rest);
    var n := LeadingNumber(d + rest);
    assert n.fraction == [] && n.exponent == [];
  }

  /** A string that starts with no number passes the integer test and
      converts to 0: "abc". */
  lemma IntvalNoNumber(s: string)
    requires s != [] && !IsDigit(s[0]) && s[0] != '.' && !IsAsciiSpace(s[0]) && s[0] != '-' && s[0] != '+'
    ensures IntvalMatches(s) && NumericPrefix(s) == 0
  {
    SkipNonSpace(s);
    assert UnsignedNumber(s) == NumberWithExponent([], [], s);
  }

  /** A non-zero fraction digit fails the integer test: "5.5", ".5". */
  lemma IntvalRefusesFraction(d: string, f: string, rest: string)
    requires AllDigits(d) && AllDigits(f) && !AllZeros(f)
    requires rest == [] || !IsDigit(rest[0])
    ensures !IntvalMatches(d + "." + f + rest)
  {
    assert d + "." + f + rest == d + (['.'] + (f + rest));
    FractionParts(d, f, rest);
    ZerosAppend(d, f);
  }

  lemma FractionParts(d: string, f: string, rest: string)
    requires AllDigits(d) && AllDigits(f)
    requires rest == [] || !IsDigit(rest[0])
    ensures var n := LeadingNumber(d + (['.'] + (f + rest)));
            n.whole == d && n.fraction == f
  {
    WholeThen(d, ['.'] + (f + rest));
    FractionAfterWhole(d, f, rest);
  }

  /** "." and digits after the whole part are its fraction. */
  lemma FractionAfterWhole(d: string, f: string, rest: string)
    requires AllDigits(d) && AllDigits(f)
    requires rest == [] || !IsDigit(rest[0])
    ensures NumberAfterWhole(d, ['.'] + (f + rest)).fraction == f
  {
    assert (['.'] + (f + rest))[1..] == f + rest;
    LeadingDigitsAppend(f, rest);
  }

  /** Where a string starts with neither white space nor a sign, its number
      is read directly. */
  lemma LeadingNumberUnsigned(s: string)
    requires s != [] && !IsAsciiSpace(s[0]) && s[0] != '-' && s[0] != '+'
    ensures LeadingNumber(s) == UnsignedNumber(s)
  {
    SkipNonSpace(s);
  }

  /** A string that starts with digits, or with ".", is read as those
      digits followed by the rest. */
  lemma WholeThen(d: string, r: string)
    requires AllDigits(d)
    requires r == [] || !IsDigit(r[0])
    requires d != [] || (r != [] && r[0] == '.')
    ensures LeadingNumber(d + r) == NumberAfterWhole(d, r)
  {
    assert (d + r)[0] == if d == [] then r[0] else d[0];
    LeadingNumberUnsigned(d + r);
    UnsignedParts(d, r);
  }

  /** Digits followed by a non-digit are the whole part, and the rest is read after them. */
  lemma UnsignedParts(d: string, r: string)
    requires AllDigits(d)
    requires r == [] || !IsDigit(r[0])
    ensures UnsignedNumber(d + r) == NumberAfterWhole(d, r)
  {
    LeadingDigitsAppend(d, r);
    assert (d + r)[|d|..] == r;
  }

  /** A non-zero number with a non-zero exponent fails the integer test: "1e1". */
  lemma IntvalRefusesExponent(d: string, e: string)
    requires d != [] && AllDigits(d) && !AllZeros(d)
    requires e != [] && AllDigits(e) && !AllZeros(e)
    ensures !IntvalMatches(d + "e" + e)
  {
    assert d + "e" + e == d + (['e'] + e);
    ExponentParts(d, e);
    LeadingDigitsOfDigits(e);
    ZerosAppend(d, []);
    assert d + [] == d;
  }

  lemma ExponentParts(d: string, e: string)
    requires d != [] && AllDigits(d) && AllDigits(e)
    requires e == [] || IsDigit(e[0])
    ensures var n := LeadingNumber(d + (['e'] + e));
            n.whole == d && n.fraction == [] && n.exponent == LeadingDigits(e)
  {
    var r := ['e'] + e;
    WholeThen(d, r);
    assert r[0] == 'e';
    assert NumberAfterWhole(d, r) == NumberWithExponent(d, [], r);
    ExponentOfDigits(e);
    assert NumberWithExponent(d, [], r).exponent == ExponentOf(r).1;
  }

  /** "e" and digits read as a positive exponent. */
  lemma ExponentOfDigits(e: string)
    requires e == [] || IsDigit(e[0])
    ensures ExponentOf(['e'] + e) == (false, LeadingDigits(e))
  {
    assert (['e'] + e)[1..] == e;
  }

  /** A string of digits converts to the number it spells. */
  lemma {:induction false} NumericPrefixOfDigits(s: string)
    requires AllDigits(s)
    ensures NumericPrefix(s) == DigitsValue(s)
  {
    LeadingDigitsOfDigits(s);
  }

  lemma {:induction false} LeadingDigitsOfDigits(s: string)
    requires AllDigits(s)
    ensures LeadingDigits(s) == s
  {
    if s != [] {
      LeadingDigitsOfDigits(s[1..]);
    }
  }

  /** The decimal digits of a natural number, as PHP prints it. */
  function DecimalString(n: nat): (s: string)
    ensures |s| >= 1 && AllDigits(s)
  {
    if n < 10 then [('0' as int + n) as char]
    else DecimalString(n / 10) + [('0' as int + n % 10) as char]
  }

  /** Reading back the printed digits gives the number. */
  lemma {:induction false} DecimalStringValue(n: nat)
    ensures DigitsValue(DecimalString(n)) == n
    ensures IntegerValue(DecimalString(n)) == Some(n)
  {
    var s := DecimalString(n);
    if n >= 10 {
      DecimalStringValue(n / 10);
      assert s[..|s| - 1] == DecimalString(n / 10);
    }
  }

  /** An integer as PHP prints it: a minus sign for a negative number, then
      its decimal digits. */
  function IntString(i: int): (s: string)
    ensures |s| >= 1
  {
    if i < 0 then "-" + DecimalString(-i) else DecimalString(i)
  }

  /** The integer conversion reads a printed integer back, also when a comma
      and more text follow it. */
  lemma IntStringThen(i: int, rest: string)
    requires rest == [] || rest[0] == ','
    ensures NumericPrefix(IntString(i) + rest) == i
  {
    if i < 0 {
      NegativeThen(i, rest);
    } else {
      NonNegativeThen(i, rest);
    }
  }

  lemma NonNegativeThen(i: int, rest: string)
    requires i >= 0
    requires rest == [] || rest[0] == ','
    ensures NumericPrefix(IntString(i) + rest) == i
  {
    DecimalStringValue(i);
    IntvalDigitsThen(DecimalString(i), rest);
  }

  lemma NegativeThen(i: int, rest: string)
    requires i < 0
    requires rest == [] || rest[0] == ','
    ensures NumericPrefix(IntString(i) + rest) == i
  {
    var d := DecimalString(-i);
    assert IntString(i) == "-" + d;
    MinusDigitsThen(d, rest);
    DecimalStringValue(-i);
  }

  /** A minus sign and digits convert to the negated digits. */
  lemma MinusDigitsThen(d: string, rest: string)
    requires AllDigits(d)
    requires rest == [] || !IsDigit(rest[0])
    ensures NumericPrefix("-" + d + rest) == -(DigitsValue(d) as int)
  {
    var s := "-" + d + rest;
    assert s[0] == '-' && s[1..] == d + rest by {
      assert s == ['-'] + (d + rest);
    }
    SkipNonSpace(s);
    LeadingDigitsAppend(d, rest);
    assert LeadingDigits(s[1..]) == d;
  }
}
