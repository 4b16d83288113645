// Decimal rendering and parsing of integers, shared by the filter language
// ("%" PRId64 and strtoll) and the release checker ("%d" and int()).
module Decimal {
  import opened Wrappers

  const INT64_MIN: int := -0x8000_0000_0000_0000
  const INT64_MAX: int := 0x7fff_ffff_ffff_ffff

  predicate IsInt64(i: int) {
    INT64_MIN <= i <= INT64_MAX
  }

  predicate IsDigit(c: char) {
    '0' <= c <= '9'
  }

  predicate AllDigits(s: string) {
    forall i :: 0 <= i < |s| ==> IsDigit(s[i])
  }

  function DigitValue(c: char): (d: nat)
    requires IsDigit(c)
    ensures d < 10
  {
    (c as int) - ('0' as int)
  }

  function DigitChar(d: nat): (c: char)
    requires d < 10
    ensures IsDigit(c) && DigitValue(c) == d
  {
    (('0' as int) + d) as char
  }

  /** The value of a string of decimal digits, most significant first. */
  function DigitsValue(s: string): nat
    requires AllDigits(s)
  {
    if |s| == 0 then 0 else DigitsValue(s[..|s| - 1]) * 10 + DigitValue(s[|s| - 1])
  }

  /** Shortest decimal rendering of a natural number (no leading zeros). */
  function NatToString(n: nat): (s: string)
    ensures |s| > 0 && AllDigits(s)
    ensures |s| > 1 ==> s[0] != '0'
  {
    if n < 10 then [DigitChar(n)] else NatToString(n / 10) + [DigitChar(n % 10)]
  }

  lemma {:induction false} NatToStringValue(n: nat)
    ensures DigitsValue(NatToString(n)) == n
  {
    if n >= 10 {
      var s := NatToString(n);
      assert s[..|s| - 1] == NatToString(n / 10);
      NatToStringValue(n / 10);
    }
  }

  /** printf's "%d" / "%" PRId64 on a signed integer. */
  function IntToString(i: int): (s: string)
    ensures |s| > 0
    ensures forall k :: 0 <= k < |s| ==> IsDigit(s[k]) || (k == 0 && s[k] == '-')
  {
    if i < 0 then "-" + NatToString(-i) else NatToString(i)
  }

  /** Saturation of strtoll: out-of-range values become the nearest bound. */
  function Clamp64(i: int): (r: int)
    ensures IsInt64(r)
    ensures IsInt64(i) ==> r == i
    ensures i > INT64_MAX ==> r == INT64_MAX
    ensures i < INT64_MIN ==> r == INT64_MIN
  {
    if i > INT64_MAX then INT64_MAX else if i < INT64_MIN then INT64_MIN else i
  }

  /**
   * strtoll(s, &end, 10) followed by the check that *end is the string's
   * terminator, for a string whose first character is not white space (the
   * only way the filter parser calls it): an optional sign, then one or more
   * digits running to the end; the value saturates at the int64 bounds.
   */
  function StrToInt64(s: string): (r: Option<int>)
    ensures r.Some? ==> IsInt64(r.value)
  {
    var neg := |s| > 0 && s[0] == '-';
    var body := if |s| > 0 && (s[0] == '-' || s[0] == '+') then s[1..] else s;
    if |body| == 0 || !AllDigits(body) then None
    else
      var magnitude: int := DigitsValue(body);
      Some(Clamp64(if neg then -magnitude else magnitude))
  }

  lemma StrToInt64RoundTrip(i: int)
    requires IsInt64(i)
    ensures StrToInt64(IntToString(i)) == Some(i)
  {
    NatToStringValue(if i < 0 then -i else i);
    if i < 0 {
      assert IntToString(i)[1..] == NatToString(-i);
    }
  }

  /**
   * Python's int() on a str: an optional sign, then digits, where single
   * underscores may separate digits; the value is unbounded.
   */
  function PyInt(s: string): (r: Option<int>)
  {
    var neg := |s| > 0 && s[0] == '-';
    var body := if |s| > 0 && (s[0] == '-' || s[0] == '+') then s[1..] else s;
    if !GroupedDigits(body) then None
    else
      var magnitude: int := DigitsValue(StripUnderscores(body));
      Some(if neg then -magnitude else magnitude)
  }

  /** Digits, with single underscores allowed between two digits. */
  predicate GroupedDigits(s: string) {
    |s| > 0 && IsDigit(s[0]) && IsDigit(s[|s| - 1])
    && (forall i :: 0 <= i < |s| ==> IsDigit(s[i]) || s[i] == '_')
    && (forall i :: 0 <= i < |s| - 1 && s[i] == '_' ==> s[i + 1] != '_')
  }

  function StripUnderscores(s: string): (d: string)
    requires forall i :: 0 <= i < |s| ==> IsDigit(s[i]) || s[i] == '_'
    ensures AllDigits(d) && |d| <= |s|
    ensures AllDigits(s) ==> d == s
  {
    if |s| == 0 then []
    else (if s[0] == '_' then [] else [s[0]]) + StripUnderscores(s[1..])
  }

  lemma PyIntRoundTrip(i: int)
    ensures PyInt(IntToString(i)) == Some(i)
  {
    var n: nat := if i < 0 then -i else i;
    var d := NatToString(n);
    NatToStringValue(n);
    assert GroupedDigits(d) && StripUnderscores(d) == d;
    var s := IntToString(i);
    if i < 0 {
      assert s == "-" + d && s[0] == '-' && s[1..] == d;
      var m: int := DigitsValue(d);
      assert PyInt(s) == Some(-m);
    } else {
      assert s == d && IsDigit(s[0]) && s[0] != '-' && s[0] != '+';
      assert PyInt(s) == Some(DigitsValue(d));
    }
  }
}
