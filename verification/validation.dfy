/**
 * The few Laravel validation rules the controllers use, applied to one
 * decoded request field: `required`, `string`, `integer`, `min:n` and `in:`.
 * A field fails when any of its rules fails; messages are not modelled.
 */
module Validation {
  import opened Wrappers
  import Json
  import Text

  /** Request fields after decoding. */
  type Input = map<string, Json.Value>

  /** The characters PHP's `trim` removes by default. */
  predicate IsTrimChar(c: char) {
    c == ' ' || c == '\t' || c == '\n' || c == '\r' || c == '\U{0}' || c == '\U{B}'
  }

  /** What `required` rejects: null, or a string that trims to nothing. */
  predicate Blank(v: Json.Value) {
    v.Null? || (v.Str? && forall i :: 0 <= i < |v.s| ==> IsTrimChar(v.s[i]))
  }

  /** The `required` rule. */
  predicate Filled(input: Input, key: string) {
    key in input && !Blank(input[key])
  }

  /** The characters the integer filter strips around its input. */
  predicate IsFilterSpace(c: char) {
    c == ' ' || c == '\t' || c == '\n' || c == '\r' || c == '\U{B}'
  }

  function StripStart(s: string): (r: string)
    ensures |r| <= |s|
  {
    if s == [] || !IsFilterSpace(s[0]) then s else StripStart(s[1..])
  }

  function StripEnd(s: string): (r: string)
    ensures |r| <= |s|
  {
    if s == [] || !IsFilterSpace(s[|s| - 1]) then s else StripEnd(s[..|s| - 1])
  }

  /** The magnitude digits the integer filter accepts: "0", or digits without a leading zero. */
  predicate CanonicalDigits(d: string) {
    |d| > 0 && Text.AllDigits(d) && (d[0] != '0' || |d| == 1)
  }

  /**
   * PHP's `FILTER_VALIDATE_INT` on a string (no flags): surrounding spaces
   * stripped, one optional sign, canonical digits, and a value that fits a
   * PHP integer.
   */
  function FilterInt(s: string): (r: Option<int>)
    ensures r.Some? ==> Text.IntMin <= r.value <= Text.IntMax
    ensures r.Some? ==> CanonicalDigits(Text.Unsigned(StripEnd(StripStart(s))))
  {
    ReadStripped(StripEnd(StripStart(s)))
  }

  /** The filter's reading of its input once the spaces are stripped. */
  function ReadStripped(t: string): (r: Option<int>)
    ensures r.Some? ==> Text.IntMin <= r.value <= Text.IntMax
    ensures r.Some? ==> CanonicalDigits(Text.Unsigned(t))
  {
    var d := Text.Unsigned(t);
    if !CanonicalDigits(d) then None
    else
      var v := if t[0] == '-' then 0 - Text.DigitsValue(d) else Text.DigitsValue(d);
      if Text.IntMin <= v <= Text.IntMax then Some(v) else None
  }

  /** The integer a field's value stands for under the `integer` rule, `None` when the rule fails. */
  function IntegerValue(v: Json.Value): (r: Option<int>)
    ensures r.Some? ==> Text.IntMin <= r.value <= Text.IntMax
  {
    match v
    case Int(i) => if Text.IntMin <= i <= Text.IntMax then Some(i) else None
    case Str(s) => FilterInt(s)
    case Bool(b) => if b then Some(1) else None
    case Null => None
  }

  /** `required|integer`: the field's integer, or `None` when either rule fails. */
  function RequiredInteger(input: Input, key: string): (r: Option<int>)
    ensures r.Some? <==> Filled(input, key) && IntegerValue(input[key]).Some?
    ensures r.Some? ==> r == IntegerValue(input[key])
  {
    if Filled(input, key) then IntegerValue(input[key]) else None
  }

  /** `required|string`: the field's text, or `None` when either rule fails. */
  function RequiredString(input: Input, key: string): (r: Option<string>)
    ensures r.Some? <==> Filled(input, key) && input[key].Str?
    ensures r.Some? ==> input[key] == Json.Str(r.value)
  {
    if Filled(input, key) && input[key].Str? then Some(input[key].s) else None
  }

  /** The keys among `keys` whose value `ok` rejects. */
  function Failing(keys: seq<string>, ok: string -> bool): (r: set<string>)
    ensures forall k :: k in r <==> k in keys && !ok(k)
  {
    if keys == [] then {} else (if ok(keys[0]) then {} else {keys[0]}) + Failing(keys[1..], ok)
  }

  /** Every 64-bit integer rendered in decimal passes the filter with its own value. */
  lemma FilterIntOfNumeral(n: int)
    requires Text.IntMin <= n <= Text.IntMax
    ensures FilterInt(Text.IntToString(n)) == Some(n)
  {
    var s := Text.IntToString(n);
    var m: nat := if n < 0 then -n else n;
    NatToStringCanonical(m);
    Text.NatToStringValue(m);
    assert StripStart(s) == s;
    assert StripEnd(s) == s by {
      assert Text.IsDigit(s[|s| - 1]) by {
        if n < 0 {
          assert s[|s| - 1] == Text.NatToString(m)[|Text.NatToString(m)| - 1];
        }
      }
    }
    assert Text.Unsigned(s) == Text.NatToString(m);
  }

  lemma NatToStringCanonical(m: nat)
    ensures CanonicalDigits(Text.NatToString(m))
  {
    if m >= 10 {
      NatToStringLeading(m);
    }
  }

  lemma {:induction false} NatToStringLeading(m: nat)
    requires m >= 1
    ensures Text.NatToString(m)[0] != '0'
  {
    if m >= 10 {
      NatToStringLeading(m / 10);
      assert Text.NatToString(m)[0] == Text.NatToString(m / 10)[0];
    }
  }

  /** Stripping leaves a string alone when neither end is a space. */
  lemma StripsNothing(s: string)
    requires s == [] || (!IsFilterSpace(s[0]) && !IsFilterSpace(s[|s| - 1]))
    ensures StripEnd(StripStart(s)) == s
  {
    assert StripStart(s) == s;
  }

  /** The filter is stricter than a cast: a numeral with a leading zero fails. */
  lemma FilterIntRejectsLeadingZero(d: string)
    requires |d| >= 2 && d[0] == '0' && Text.AllDigits(d)
    ensures FilterInt(d) == None
  {
    assert Text.IsDigit(d[0]) && Text.IsDigit(d[|d| - 1]);
    StripsNothing(d);
  }

  /** An empty string or a bare sign fails. */
  lemma FilterIntRejectsNoDigits()
    ensures FilterInt("") == None && FilterInt("-") == None
  {
    StripsNothing("-");
    assert Text.Unsigned("-") == "";
  }

  /** A sign and surrounding spaces are accepted. */
  lemma FilterIntAcceptsSignAndSpaces()
    ensures FilterInt(" +5\n") == Some(5)
  {
    PaddedFiveStrips();
    PlusFiveReads();
  }

  lemma PlusFiveReads()
    ensures ReadStripped("+5") == Some(5)
  {
    assert Text.Unsigned("+5") == "5";
    assert Text.DigitsValue("5") == 5 by {
      assert "5"[..0] == "";
    }
  }

  lemma PaddedFiveStrips()
    ensures StripEnd(StripStart(" +5\n")) == "+5"
  {
    assert " +5\n" == [' '] + "+5\n";
    StripStartSkips(' ', "+5\n");
    assert "+5\n" == "+5" + ['\n'];
    StripEndSkips("+5", '\n');
    StripsNothing("+5");
  }

  lemma StripStartSkips(c: char, s: string)
    requires IsFilterSpace(c)
    ensures StripStart([c] + s) == StripStart(s)
  {
    assert ([c] + s)[1..] == s;
  }

  lemma StripEndSkips(s: string, c: char)
    requires IsFilterSpace(c)
    ensures StripEnd(s + [c]) == StripEnd(s)
  {
    assert (s + [c])[..|s|] == s;
  }

  /** Negative zero reads as zero. */
  lemma FilterIntNegativeZero()
    ensures FilterInt("-0") == Some(0)
  {
    StripsNothing("-0");
    assert Text.Unsigned("-0") == "0";
    assert "0"[..0] == "";
    assert Text.DigitsValue("0") == 0;
  }
}
