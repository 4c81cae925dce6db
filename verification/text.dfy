/**
 * String primitives the client and the server rely on: whitespace classes,
 * trimming, case mapping, substring search, decimal rendering and the two
 * lenient integer readers (JavaScript `parseInt` and PHP's `(int)` cast).
 */
module Text {
  import opened Wrappers

  /** The ECMAScript WhiteSpace and LineTerminator code points: the class `\s`, `trim()` and `parseInt` skip. */
  predicate IsJsSpace(c: char) {
    || c in {' ', '\t', '\n', '\U{B}', '\U{C}', '\r', '\U{A0}', '\U{1680}', '\U{2028}', '\U{2029}', '\U{202F}', '\U{205F}', '\U{3000}', '\U{FEFF}'}
    || '\U{2000}' <= c <= '\U{200A}'
  }

  /** The characters PHP skips in front of the digits of an integer cast. */
  predicate IsPhpSpace(c: char) {
    c in {' ', '\t', '\n', '\r', '\U{B}', '\U{C}'}
  }

  /** Which language's integer reader is meant. */
  datatype Dialect = Js | Php

  predicate IsLeadingSpace(d: Dialect, c: char) {
    match d
    case Js => IsJsSpace(c)
    case Php => IsPhpSpace(c)
  }

  predicate AllJsSpace(s: string) {
    forall i :: 0 <= i < |s| ==> IsJsSpace(s[i])
  }

  /** `s` without its leading JavaScript whitespace. */
  function TrimStart(s: string): (r: string)
    ensures |r| <= |s| && r == s[|s| - |r|..]
    ensures AllJsSpace(s[..|s| - |r|])
    ensures r == [] || !IsJsSpace(r[0])
  {
    if s == [] || !IsJsSpace(s[0]) then s
    else
      var r := TrimStart(s[1..]);
      assert s[1..][..|s[1..]| - |r|] == s[1..|s| - |r|];
      r
  }

  /** `s` without its trailing JavaScript whitespace. */
  function TrimEnd(s: string): (r: string)
    ensures |r| <= |s| && r == s[..|r|]
    ensures AllJsSpace(s[|r|..])
    ensures r == [] || !IsJsSpace(r[|r| - 1])
  {
    if s == [] || !IsJsSpace(s[|s| - 1]) then s
    else
      var r := TrimEnd(s[..|s| - 1]);
      assert s[..|s| - 1][|r|..] + [s[|s| - 1]] == s[|r|..];
      r
  }

  /** JavaScript `String.prototype.trim`. */
  function Trim(s: string): string {
    TrimEnd(TrimStart(s))
  }

  /** A string trims to nothing exactly when every character of it is whitespace. */
  lemma TrimEmptyIff(s: string)
    ensures Trim(s) == [] <==> AllJsSpace(s)
  {
    var t := TrimStart(s);
    var k := |s| - |t|;
    assert s[k..] == t;
    if Trim(s) == [] {
      assert t[0..] == t;
      assert t == [];
      assert s[..|s|] == s;
    }
    if t != [] {
      assert !IsJsSpace(s[k]);
    }
  }

  /** JavaScript lower-casing restricted to ASCII and the basic Cyrillic block. */
  function LowerChar(c: char): char {
    if 'A' <= c <= 'Z' then (c as int + 32) as char
    else if '\U{410}' <= c <= '\U{42F}' then (c as int + 32) as char
    else if '\U{400}' <= c <= '\U{40F}' then (c as int + 80) as char
    else c
  }

  /** JavaScript upper-casing restricted to ASCII and the basic Cyrillic block. */
  function UpperChar(c: char): char {
    if 'a' <= c <= 'z' then (c as int - 32) as char
    else if '\U{430}' <= c <= '\U{44F}' then (c as int - 32) as char
    else if '\U{450}' <= c <= '\U{45F}' then (c as int - 80) as char
    else c
  }

  function Lower(s: string): (r: string)
    ensures |r| == |s| && forall i :: 0 <= i < |s| ==> r[i] == LowerChar(s[i])
  {
    seq(|s|, i requires 0 <= i < |s| => LowerChar(s[i]))
  }

  /** Lower-casing twice is lower-casing once. */
  lemma LowerIdempotent(s: string)
    ensures Lower(Lower(s)) == Lower(s)
  {
  }

  /** Lower-casing neither creates nor removes whitespace. */
  lemma LowerKeepsSpaces(s: string)
    ensures AllJsSpace(Lower(s)) <==> AllJsSpace(s)
  {
  }

  predicate StartsWith(s: string, prefix: string) {
    |prefix| <= |s| && s[..|prefix|] == prefix
  }

  /** JavaScript `hay.includes(needle)`, scanning from the left. */
  predicate Contains(hay: string, needle: string)
    decreases |hay|
  {
    StartsWith(hay, needle) || (|hay| > 0 && Contains(hay[1..], needle))
  }

  /** `needle` occurs in `hay` starting at offset `i`. */
  predicate OccursAt(hay: string, needle: string, i: int) {
    0 <= i <= |hay| - |needle| && hay[i..i + |needle|] == needle
  }

  /** `Contains` finds `needle` exactly when it occurs at some offset of `hay`. */
  lemma {:induction false} ContainsIff(hay: string, needle: string)
    ensures Contains(hay, needle) <==> exists i :: OccursAt(hay, needle, i)
    decreases |hay|
  {
    if StartsWith(hay, needle) {
      assert OccursAt(hay, needle, 0);
    } else if |hay| > 0 {
      ContainsIff(hay[1..], needle);
      if Contains(hay[1..], needle) {
        var i :| OccursAt(hay[1..], needle, i);
        assert OccursAt(hay, needle, i + 1);
      }
      if exists i :: OccursAt(hay, needle, i) {
        var i :| OccursAt(hay, needle, i);
        assert i != 0;
        assert OccursAt(hay[1..], needle, i - 1);
      }
    }
  }

  /** The empty string is contained in every string. */
  lemma ContainsEmpty(hay: string)
    ensures Contains(hay, "")
  {
    assert StartsWith(hay, "");
  }

  predicate IsDigit(c: char) {
    '0' <= c <= '9'
  }

  predicate AllDigits(s: string) {
    forall i :: 0 <= i < |s| ==> IsDigit(s[i])
  }

  function DigitChar(d: nat): (c: char)
    requires d < 10
    ensures IsDigit(c)
  {
    ('0' as int + d) as char
  }

  function DigitValue(c: char): (d: nat)
    requires IsDigit(c)
    ensures d < 10 && DigitChar(d) == c
  {
    c as int - '0' as int
  }

  /** The decimal numeral of `n`, without leading zeros. */
  function NatToString(n: nat): (r: string)
    ensures |r| > 0 && AllDigits(r)
  {
    if n < 10 then [DigitChar(n)] else NatToString(n / 10) + [DigitChar(n % 10)]
  }

  /** Decimal rendering of an integer, as PHP string concatenation and JavaScript `String(n)` produce it. */
  function IntToString(n: int): (r: string)
    ensures |r| > 0 && (r[0] == '-' || IsDigit(r[0]))
  {
    if n < 0 then "-" + NatToString(-n) else NatToString(n)
  }

  /** The value of a digit string read most-significant digit first. */
  function DigitsValue(d: string): nat
    requires AllDigits(d)
  {
    if d == [] then 0 else DigitsValue(d[..|d| - 1]) * 10 + DigitValue(d[|d| - 1])
  }

  lemma {:induction false} NatToStringValue(n: nat)
    ensures DigitsValue(NatToString(n)) == n
  {
    if n >= 10 {
      NatToStringValue(n / 10);
      var s := NatToString(n);
      assert s[..|s| - 1] == NatToString(n / 10);
    }
  }

  /** The longest all-digit prefix of `s`. */
  function LeadingDigits(s: string): (r: string)
    ensures |r| <= |s| && r == s[..|r|] && AllDigits(r)
    ensures |r| < |s| ==> !IsDigit(s[|r|])
  {
    if s == [] || !IsDigit(s[0]) then [] else [s[0]] + LeadingDigits(s[1..])
  }

  lemma {:induction false} LeadingDigitsOfDigits(s: string)
    requires AllDigits(s)
    ensures LeadingDigits(s) == s
  {
    if s != [] {
      LeadingDigitsOfDigits(s[1..]);
    }
  }

  /** `s` without the whitespace the reader of dialect `d` skips. */
  function SkipSpace(d: Dialect, s: string): (r: string)
    ensures |r| <= |s|
    ensures r == [] || !IsLeadingSpace(d, r[0])
  {
    if s == [] || !IsLeadingSpace(d, s[0]) then s else SkipSpace(d, s[1..])
  }

  /**
   * The lenient integer reader of JavaScript `parseInt(s)` (decimal case):
   * skip leading whitespace of the dialect, accept one sign, read the longest
   * run of digits; `None` when there is no digit at all.
   */
  function ScanInteger(d: Dialect, s: string): (r: Option<int>)
    ensures r.None? <==> LeadingDigits(Unsigned(SkipSpace(d, s))) == []
  {
    var t := SkipSpace(d, s);
    var digits := LeadingDigits(Unsigned(t));
    if digits == [] then None
    else if t[0] == '-' then Some(0 - DigitsValue(digits))
    else Some(DigitsValue(digits))
  }

  /** A numeral without its single leading sign, if it has one. */
  function Unsigned(t: string): (r: string)
    ensures |r| <= |t|
  {
    if |t| > 0 && (t[0] == '-' || t[0] == '+') then t[1..] else t
  }

  /** JavaScript `parseInt(s)`; `None` stands for `NaN`. */
  function ParseInt(s: string): Option<int> {
    ScanInteger(Js, s)
  }

  /** The bounds of a PHP integer on a 64-bit build. */
  const IntMin := -0x8000_0000_0000_0000
  const IntMax := 0x7FFF_FFFF_FFFF_FFFF

  function Pow10(n: nat): (r: nat)
    ensures r >= 1
  {
    if n == 0 then 1 else 10 * Pow10(n - 1)
  }

  /**
   * The least magnitude that a correctly rounded decimal-to-double
   * conversion turns into infinity: halfway between the largest finite
   * double, (2^53 - 1) * 2^971, and 2^1024, that is (2^54 - 1) * 2^970:
   * in hexadecimal FFFFFFFFFFFFFC followed by 242 zeros.
   */
  const DoubleOverflow: nat := 0xFFFF_FFFF_FFFF_FC00_0000_0000_0000_0000_0000_0000_0000_0000_0000_0000_0000_0000_0000_0000_0000_0000_0000_0000_0000_0000_0000_0000_0000_0000_0000_0000_0000_0000_0000_0000_0000_0000_0000_0000_0000_0000_0000_0000_0000_0000_0000_0000_0000_0000_0000_0000_0000_0000_0000_0000_0000_0000_0000_0000_0000_0000_0000_0000_0000_0000

  /**
   * The number PHP reads from the front of a string: a sign, the digits
   * before the point, the digits after it and the decimal exponent.
   */
  datatype PhpNumber = PhpNumber(negative: bool, whole: string, fraction: string, exponent: int)

  /**
   * The exponent part that may follow a mantissa: `e` or `E`, one optional
   * sign and at least one digit; without a digit nothing of it is read.
   */
  function Exponent(t: string): (e: int)
    ensures (|t| == 0 || (t[0] != 'e' && t[0] != 'E')) ==> e == 0
    ensures |t| >= 2 && (t[0] == 'e' || t[0] == 'E') && IsDigit(t[1]) ==> e == DigitsValue(LeadingDigits(t[1..]))
  {
    if |t| > 0 && (t[0] == 'e' || t[0] == 'E') then
      var digits := LeadingDigits(Unsigned(t[1..]));
      if digits == [] then 0
      else if t[1] == '-' then 0 - DigitsValue(digits)
      else DigitsValue(digits)
    else 0
  }

  /**
   * The longest numeric prefix PHP's numeric-string reader accepts, once
   * the leading whitespace is skipped: one sign, then digits with an
   * optional point and fraction, or a point followed by digits, then an
   * optional exponent. `None` when the text does not start with a number.
   */
  function PhpNumericPrefix(s: string): (n: Option<PhpNumber>)
    ensures n.Some? ==> AllDigits(n.value.whole) && AllDigits(n.value.fraction)
    ensures n.Some? ==> n.value.whole != [] || n.value.fraction != []
    ensures n.None? ==> LeadingDigits(Unsigned(SkipSpace(Php, s))) == []
  {
    var t := SkipSpace(Php, s);
    var u := Unsigned(t);
    var whole := LeadingDigits(u);
    var rest := u[|whole|..];
    var point := |rest| > 0 && rest[0] == '.';
    var fraction := if point then LeadingDigits(rest[1..]) else [];
    if whole == [] && fraction == [] then None
    else
      var after := if point then rest[1 + |fraction|..] else rest;
      Some(PhpNumber(|t| > 0 && t[0] == '-', whole, fraction, Exponent(after)))
  }

  lemma {:induction false} AllDigitsConcat(a: string, b: string)
    requires AllDigits(a) && AllDigits(b)
    ensures AllDigits(a + b)
  {
    forall i | 0 <= i < |a + b| ensures IsDigit((a + b)[i]) {
      if i >= |a| { assert (a + b)[i] == b[i - |a|]; }
    }
  }

  /** `v` followed by `k` zeros. */
  function Scale(v: nat, k: nat): (r: nat)
    ensures k > 0 && v > 0 ==> r >= 10 * v
  {
    if k == 0 then v else 10 * Scale(v, k - 1)
  }

  /** Appending zeros multiplies by a power of ten. */
  lemma {:induction false} ScaleIsProduct(v: nat, k: nat)
    ensures Scale(v, k) == v * Pow10(k)
  {
    if k > 0 {
      ScaleIsProduct(v, k - 1);
    }
  }

  /**
   * The magnitude of the number truncated toward zero: its digits, without
   * the point, shifted by the exponent less the fraction's length; a
   * negative shift drops that many trailing digits.
   */
  function Truncated(n: PhpNumber): nat
    requires AllDigits(n.whole) && AllDigits(n.fraction)
  {
    AllDigitsConcat(n.whole, n.fraction);
    var digits := n.whole + n.fraction;
    var shift := n.exponent - |n.fraction|;
    if shift >= 0 then Scale(DigitsValue(digits), shift)
    else if |digits| + shift <= 0 then 0
    else DigitsValue(digits[..|digits| + shift])
  }

  /** An integer clamped to the 64-bit range. */
  function Saturate(v: int): (r: int)
    ensures IntMin <= r <= IntMax
  {
    if v > IntMax then IntMax else if v < IntMin then IntMin else v
  }

  /**
   * PHP `(int) $s` for a string. A number read without point or exponent
   * that fits is taken as it is; otherwise PHP reads a double, which the
   * cast truncates toward zero and saturates at the integer bounds, and a
   * double that overflowed to infinity casts to 0. Text that does not start
   * with a number casts to 0.
   */
  function PhpIntCast(s: string): (r: int)
    ensures IntMin <= r <= IntMax
    ensures PhpNumericPrefix(s).None? ==> r == 0
  {
    match PhpNumericPrefix(s)
    case None => 0
    case Some(n) =>
      var q := Truncated(n);
      if q >= DoubleOverflow then 0 else Saturate(if n.negative then 0 - q else q)
  }

  /** A digit followed by text that cannot continue a number reads as that digit. */
  lemma PhpCastOfOneDigit(c: char, rest: string)
    requires IsDigit(c)
    requires rest == [] || !(IsDigit(rest[0]) || rest[0] == '.' || rest[0] == 'e' || rest[0] == 'E')
    ensures PhpIntCast([c] + rest) == DigitValue(c)
  {
    var s := [c] + rest;
    assert SkipSpace(Php, s) == s;
    assert Unsigned(s) == s;
    assert s[1..] == rest;
    assert LeadingDigits(s) == [c];
    assert [c][..0] == [];
    assert DigitsValue([c]) == DigitValue(c);
    assert [c] + [] == [c];
  }

  /** A cast of text that starts with neither space, sign, digit nor point is 0. */
  lemma PhpCastOfNoNumber(s: string)
    requires s != [] && !IsPhpSpace(s[0]) && !IsDigit(s[0]) && s[0] !in {'-', '+', '.'}
    ensures PhpIntCast(s) == 0
  {
    assert SkipSpace(Php, s) == s;
    assert Unsigned(s) == s;
  }

  /** The cast reads an exponent: a digit, `e` and a digit give the first digit times that power of ten. */
  lemma PhpCastReadsExponent(d: char, k: char)
    requires IsDigit(d) && IsDigit(k)
    ensures PhpIntCast([d, 'e', k]) == DigitValue(d) * Pow10(DigitValue(k))
  {
    var s := [d, 'e', k];
    assert SkipSpace(Php, s) == s;
    assert Unsigned(s) == s;
    assert s[1..] == ['e', k];
    assert LeadingDigits(s) == [d];
    assert ['e', k][1..] == [k];
    assert Unsigned([k]) == [k];
    assert LeadingDigits([k]) == [k] by { assert [k][1..] == []; }
    assert DigitsValue([k]) == DigitValue(k) by { assert [k][..0] == []; }
    assert Exponent(['e', k]) == DigitValue(k);
    assert DigitsValue([d] + []) == DigitValue(d) by { assert [d] + [] == [d]; assert [d][..0] == []; }
    ScaleIsProduct(DigitValue(d), DigitValue(k));
    ScaleBelow(DigitValue(d), DigitValue(k));
    Pow10Monotone(DigitValue(k) + 1, 10);
    assert Pow10(10) == 10_000_000_000;
  }

  lemma {:induction false} Pow10Monotone(a: nat, b: nat)
    requires a <= b
    ensures Pow10(a) <= Pow10(b)
    decreases b
  {
    if a < b {
      Pow10Monotone(a, b - 1);
    }
  }

  /** A digit followed by `k` zeros stays below ten to the `k + 1`. */
  lemma {:induction false} ScaleBelow(v: nat, k: nat)
    requires v < 10
    ensures Scale(v, k) < Pow10(k + 1)
  {
    if k > 0 {
      ScaleBelow(v, k - 1);
    }
  }

  /** Every 64-bit integer casts back from its decimal rendering. */
  lemma PhpCastOfNumeral(n: int)
    requires IntMin <= n <= IntMax
    ensures PhpIntCast(IntToString(n)) == n
  {
    PhpCastTruncatesFraction(n, "", false);
    assert IntToString(n) + "" == IntToString(n);
  }

  function Magnitude(n: int): nat {
    if n < 0 then -n else n
  }

  /** What the reader sees in an integer's rendering followed by an optional point and fraction. */
  lemma NumeralPrefix(n: int, fraction: string, point: bool)
    requires AllDigits(fraction) && (!point ==> fraction == [])
    ensures PhpNumericPrefix(IntToString(n) + (if point then "." + fraction else "")) ==
            Some(PhpNumber(n < 0, NatToString(Magnitude(n)), fraction, 0))
  {
    var tail := if point then "." + fraction else "";
    var w := NatToString(Magnitude(n));
    UnsignedNumeral(n, tail);
    assert LeadingDigits(w + tail) == w by {
      LeadingDigitsOfPrefix(w, tail);
    }
    assert (w + tail)[|w|..] == tail;
    if point {
      assert tail[1..] == fraction;
      LeadingDigitsOfDigits(fraction);
      assert tail[1 + |fraction|..] == [];
    }
  }

  /** An integer's rendering followed by a point or nothing: no space to skip, and the sign comes off. */
  lemma UnsignedNumeral(n: int, tail: string)
    ensures var s := IntToString(n) + tail;
            SkipSpace(Php, s) == s && Unsigned(s) == NatToString(Magnitude(n)) + tail &&
            (|s| > 0 && s[0] == '-' <==> n < 0)
  {
    var s := IntToString(n) + tail;
    var w := NatToString(Magnitude(n));
    assert s[0] == IntToString(n)[0];
    assert !IsPhpSpace(s[0]);
    if n < 0 {
      assert IntToString(n) == "-" + w;
      assert s == "-" + (w + tail);
      assert s[1..] == w + tail;
    } else {
      assert IsDigit(w[0]);
    }
  }

  /**
   * A fraction is cut off toward zero: the rendering of a 64-bit integer
   * followed by a point and digits (`"-1.9"`) casts to that integer (-1),
   * and so does the rendering alone.
   */
  lemma PhpCastTruncatesFraction(n: int, fraction: string, point: bool)
    requires IntMin <= n <= IntMax && AllDigits(fraction)
    requires !point ==> fraction == []
    ensures PhpIntCast(IntToString(n) + (if point then "." + fraction else "")) == n
  {
    NumeralPrefix(n, fraction, point);
    var w := NatToString(Magnitude(n));
    NatToStringValue(Magnitude(n));
    TruncatedDropsFraction(n < 0, w, fraction);
  }

  /** Without an exponent the truncated magnitude is the value of the digits before the point. */
  lemma TruncatedDropsFraction(negative: bool, w: string, fraction: string)
    requires AllDigits(w) && AllDigits(fraction) && w != []
    ensures Truncated(PhpNumber(negative, w, fraction, 0)) == DigitsValue(w)
  {
    AllDigitsConcat(w, fraction);
    if fraction == [] {
      assert w + fraction == w;
    } else {
      assert (w + fraction)[..|w|] == w;
    }
  }

  /** The leading digits of a digit string followed by text that does not start with a digit are that digit string. */
  lemma {:induction false} LeadingDigitsOfPrefix(w: string, rest: string)
    requires AllDigits(w) && (rest == [] || !IsDigit(rest[0]))
    ensures LeadingDigits(w + rest) == w
    decreases |w|
  {
    if w == [] {
      assert w + rest == rest;
    } else {
      LeadingDigitsOfPrefix(w[1..], rest);
      assert (w + rest)[1..] == w[1..] + rest;
    }
  }

  /** A plain digit string, signed or not, is read whole, without fraction or exponent. */
  lemma DigitStringPrefix(digits: string, negative: bool)
    requires AllDigits(digits) && digits != []
    ensures PhpNumericPrefix((if negative then "-" else "") + digits) == Some(PhpNumber(negative, digits, [], 0))
    ensures Truncated(PhpNumber(negative, digits, [], 0)) == DigitsValue(digits)
  {
    var s := (if negative then "-" else "") + digits;
    LeadingDigitsOfDigits(digits);
    assert s[0] == '-' || IsDigit(s[0]);
    assert SkipSpace(Php, s) == s;
    if negative {
      assert s[1..] == digits;
    } else {
      assert s == digits;
    }
    assert Unsigned(s) == digits;
    assert digits[|digits|..] == [];
    assert Exponent([]) == 0;
    assert digits + [] == digits;
    assert Scale(DigitsValue(digits), 0) == DigitsValue(digits);
  }

  /** The cast of a plain digit string, signed or not: its value, saturated, or 0 once its double overflows. */
  lemma PhpCastOfDigitString(digits: string, negative: bool)
    requires AllDigits(digits) && digits != []
    ensures var v := DigitsValue(digits);
            PhpIntCast((if negative then "-" else "") + digits) ==
              if v >= DoubleOverflow then 0 else Saturate(if negative then 0 - v else v)
  {
    DigitStringPrefix(digits, negative);
  }

  /** A number beyond the 64-bit range saturates: at the largest integer, or the smallest after a minus sign. */
  lemma PhpCastSaturates(digits: string)
    requires AllDigits(digits) && IntMax < DigitsValue(digits) < DoubleOverflow
    ensures PhpIntCast(digits) == IntMax
    ensures PhpIntCast("-" + digits) == IntMin
  {
    PhpCastOfDigitString(digits, false);
    PhpCastOfDigitString(digits, true);
    assert "" + digits == digits;
  }

  /** A number so large that its double is infinite casts to 0. */
  lemma PhpCastOfOverflowIsZero(digits: string)
    requires AllDigits(digits) && DigitsValue(digits) >= DoubleOverflow
    ensures PhpIntCast(digits) == 0
  {
    PhpCastOfDigitString(digits, false);
    assert "" + digits == digits;
  }

  /** Both readers give back every integer that `IntToString` renders. */
  lemma ScanIntToString(d: Dialect, n: int)
    ensures ScanInteger(d, IntToString(n)) == Some(n)
  {
    var s := IntToString(n);
    assert SkipSpace(d, s) == s;
    var m: nat := if n < 0 then -n else n;
    LeadingDigitsOfDigits(NatToString(m));
    NatToStringValue(m);
    if n < 0 {
      assert Unsigned(s) == NatToString(m);
    } else {
      assert Unsigned(s) == NatToString(m);
    }
  }

  /** JavaScript `s.length`: UTF-16 code units, two for each character outside the Basic Multilingual Plane. */
  function Utf16Length(s: string): (n: nat)
    ensures |s| <= n <= 2 * |s|
  {
    if s == [] then 0 else (if s[0] as int >= 0x1_0000 then 2 else 1) + Utf16Length(s[1..])
  }

  /** Inside the Basic Multilingual Plane the JavaScript length is the number of characters. */
  lemma {:induction false} Utf16LengthOfBmp(s: string)
    requires forall i :: 0 <= i < |s| ==> s[i] as int < 0x1_0000
    ensures Utf16Length(s) == |s|
  {
    if s != [] {
      Utf16LengthOfBmp(s[1..]);
    }
  }

  /** PHP `ucfirst`: upper-case an ASCII first letter. */
  function UpperFirst(s: string): (r: string)
    ensures |r| == |s|
    ensures s != [] ==> r[1..] == s[1..]
  {
    if s != [] && 'a' <= s[0] <= 'z' then [(s[0] as int - 32) as char] + s[1..] else s
  }
}
