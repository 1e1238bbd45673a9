/** The few PHP and WordPress value semantics the settings callbacks rely on:
    truthiness of an integer, absint(), integer-to-string conversion and implode(). */
module Php {

  /** A value that may be missing: an option the host store does not hold. */
  datatype Option<T> = None | Some(value: T) {

    /** The held value, or `default` when there is none. */
    function GetOr(default: T): T {
      match this
      case Some(v) => v
      case None => default
    }
  }

  /** PHP truthiness of an integer: only 0 is falsy. `get_option` answers `false` for an
      absent option, and `empty()` holds of a missing array entry; both read as 0 here. */
  predicate Truthy(x: int) {
    x != 0
  }

  /** WordPress's absint(): the absolute value of the integer reading of its argument. */
  function Absint(x: int): (r: nat)
    ensures r == x || r == -x
    ensures r == 0 <==> !Truthy(x)
  {
    if x < 0 then -x else x
  }

  predicate IsDigit(c: char) {
    '0' <= c <= '9'
  }

  predicate AllDigits(s: string) {
    forall i :: 0 <= i < |s| ==> IsDigit(s[i])
  }

  /** A canonical decimal numeral: at least one digit and no leading zero. */
  predicate IsDecimal(s: string) {
    |s| > 0 && AllDigits(s) && (s[0] == '0' ==> |s| == 1)
  }

  function DigitChar(d: nat): (c: char)
    requires d < 10
    ensures IsDigit(c)
    ensures c as int - '0' as int == d
  {
    ('0' as int + d) as char
  }

  function DigitValue(c: char): (d: nat)
    requires IsDigit(c)
    ensures d < 10
  {
    c as int - '0' as int
  }

  /** PHP's string conversion of a non-negative integer, as used by the `.` operator. */
  function DecimalString(n: nat): (s: string)
    ensures IsDecimal(s)
    ensures s[0] == '0' <==> n == 0
    decreases n
  {
    if n < 10 then [DigitChar(n)] else DecimalString(n / 10) + [DigitChar(n % 10)]
  }

  /** The number a string of digits denotes: the partner of DecimalString. */
  function DecimalValue(s: string): nat
    requires AllDigits(s)
  {
    if s == [] then 0 else DecimalValue(s[..|s| - 1]) * 10 + DigitValue(s[|s| - 1])
  }

  /** Reading back the numeral PHP prints gives the number printed. */
  lemma {:induction false} DecimalRoundTrip(n: nat)
    ensures DecimalValue(DecimalString(n)) == n
  {
    var s := DecimalString(n);
    if n >= 10 {
      DecimalRoundTrip(n / 10);
      assert s[..|s| - 1] == DecimalString(n / 10);
    }
  }

  /** Distinct numbers print as distinct numerals. */
  lemma DecimalStringInjective(m: nat, n: nat)
    requires DecimalString(m) == DecimalString(n)
    ensures m == n
  {
    DecimalRoundTrip(m);
    DecimalRoundTrip(n);
  }

  /** The length of the run of digits a string starts with. */
  function SpanDigits(s: string): (n: nat)
    ensures n <= |s| && AllDigits(s[..n])
    ensures n < |s| ==> !IsDigit(s[n])
  {
    if s == [] || !IsDigit(s[0]) then 0 else 1 + SpanDigits(s[1..])
  }

  /** A numeral followed by a non-digit is exactly the leading run of digits, so the numeral
      can be cut back out of the text that follows it. */
  lemma {:induction false} SpanDigitsOfNumeral(a: string, rest: string)
    requires AllDigits(a)
    requires rest != [] && !IsDigit(rest[0])
    ensures SpanDigits(a + rest) == |a|
  {
    if a != [] {
      assert (a + rest)[1..] == a[1..] + rest;
      SpanDigitsOfNumeral(a[1..], rest);
    } else {
      assert a + rest == rest;
    }
  }

  /** PHP's implode(): the parts in order, with `sep` between neighbours. */
  function Implode(sep: string, parts: seq<string>): (r: string)
    ensures |parts| == 0 ==> r == ""
    ensures |parts| == 1 ==> r == parts[0]
    ensures |parts| > 0 ==> |parts[0]| <= |r| && r[..|parts[0]|] == parts[0]
    ensures |parts| > 0 ==> |parts[|parts| - 1]| <= |r| && r[|r| - |parts[|parts| - 1]|..] == parts[|parts| - 1]
    decreases |parts|
  {
    if |parts| == 0 then ""
    else if |parts| == 1 then parts[0]
    else parts[0] + sep + Implode(sep, parts[1..])
  }

  /** Implode built from the back: joining one more part appends the separator and that part.
      This is the left-to-right reading of implode(), independent of the definition above. */
  lemma {:induction false} ImplodeAppend(sep: string, parts: seq<string>, last: string)
    requires |parts| > 0
    ensures Implode(sep, parts + [last]) == Implode(sep, parts) + sep + last
    decreases |parts|
  {
    if |parts| > 1 {
      assert (parts + [last])[1..] == parts[1..] + [last];
      ImplodeAppend(sep, parts[1..], last);
    } else {
      assert parts + [last] == [parts[0], last];
    }
  }
}
