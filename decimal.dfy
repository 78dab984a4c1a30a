/**
 * Decimal numerals as Python writes them with `str(n)` / an f-string, and
 * reads them back with `int(s)`.
 */
module Decimal {
  import opened Basics

  predicate IsDigit(c: char) {
    '0' <= c <= '9'
  }

  predicate AllDigits(s: string) {
    forall i :: 0 <= i < |s| ==> IsDigit(s[i])
  }

  function DigitChar(d: nat): (c: char)
    requires d < 10
    ensures IsDigit(c) && c as int - '0' as int == d
  {
    ('0' as int + d) as char
  }

  function DigitValue(c: char): (k: nat)
    requires IsDigit(c)
  {
    c as int - '0' as int
  }

  /** `str(n)` for a non-negative int: the shortest decimal numeral of n. */
  function NatToString(n: nat): (s: string)
    ensures 1 <= |s| && AllDigits(s)
    ensures s[0] == '0' <==> n == 0
    decreases n
  {
    if n < 10 then [DigitChar(n)] else NatToString(n / 10) + [DigitChar(n % 10)]
  }

  /** `str(n)` for any int. */
  function IntToString(n: int): (s: string) {
    if n < 0 then "-" + NatToString(-n) else NatToString(n)
  }

  /** The value of a string of digits, most significant first (0 for the empty string). */
  function DigitsValue(s: string): (k: nat)
    requires AllDigits(s)
    decreases |s|
  {
    if s == [] then 0 else 10 * DigitsValue(s[..|s| - 1]) + DigitValue(s[|s| - 1])
  }

  lemma {:induction false} NatToStringRoundTrip(n: nat)
    ensures DigitsValue(NatToString(n)) == n
    decreases n
  {
    if n >= 10 {
      var s := NatToString(n);
      assert s[..|s| - 1] == NatToString(n / 10);
      NatToStringRoundTrip(n / 10);
    }
  }

  /** Distinct numbers are written differently. */
  lemma NatToStringInjective(a: nat, b: nat)
    ensures NatToString(a) == NatToString(b) ==> a == b
  {
    NatToStringRoundTrip(a);
    NatToStringRoundTrip(b);
  }

  /**
   * The ASCII characters `int()` skips around a numeral: space, tab, line
   * feed, vertical tab, form feed and carriage return.
   */
  predicate IsSpace(c: char) {
    c == ' ' || 9 <= c as int <= 13
  }

  function TrimLeft(s: string): (r: string)
    ensures r == [] || !IsSpace(r[0])
    ensures |r| <= |s|
    decreases |s|
  {
    if s != [] && IsSpace(s[0]) then TrimLeft(s[1..]) else s
  }

  function TrimRight(s: string): (r: string)
    ensures r == [] || !IsSpace(r[|r| - 1])
    ensures |r| <= |s|
    decreases |s|
  {
    if s != [] && IsSpace(s[|s| - 1]) then TrimRight(s[..|s| - 1]) else s
  }

  /**
   * Python's default limit on the digits of a decimal numeral that `int()`
   * reads or `str()` writes (`sys.get_int_max_str_digits()`, since 3.11).
   */
  const MAX_STR_DIGITS: nat := 4300

  /**
   * `int(s)` for a string: surrounding whitespace, an optional sign and at
   * least one and at most MAX_STR_DIGITS decimal digits; anything else
   * makes Python raise ValueError, modelled as None.
   */
  function ParseInt(s: string): (r: Option<int>)
  {
    var t := TrimRight(TrimLeft(s));
    if t != [] && (t[0] == '-' || t[0] == '+') then
      var digits := t[1..];
      if digits != [] && AllDigits(digits) && |digits| <= MAX_STR_DIGITS then
        var v: int := DigitsValue(digits);
        Some(if t[0] == '-' then -v else v)
      else None
    else if t != [] && AllDigits(t) && |t| <= MAX_STR_DIGITS then Some(DigitsValue(t))
    else None
  }

  /** The digits of n's numeral fit Python's limit. */
  predicate WithinDigitLimit(n: int) {
    |NatToString(if n < 0 then -n else n)| <= MAX_STR_DIGITS
  }

  /** A bare numeral reads as its value up to MAX_STR_DIGITS digits; a longer one raises. */
  lemma ParseIntDigits(t: string)
    requires t != [] && AllDigits(t)
    ensures |t| <= MAX_STR_DIGITS ==> ParseInt(t) == Some(DigitsValue(t))
    ensures |t| > MAX_STR_DIGITS ==> ParseInt(t) == None
  {
    assert !IsSpace(t[0]) && !IsSpace(t[|t| - 1]);
    assert TrimLeft(t) == t;
    assert TrimRight(t) == t;
  }

  /** `int(str(n)) == n` within the digit limit; past it, `int()` raises. */
  lemma IntToStringRoundTrip(n: int)
    ensures WithinDigitLimit(n) ==> ParseInt(IntToString(n)) == Some(n)
    ensures !WithinDigitLimit(n) ==> ParseInt(IntToString(n)) == None
  {
    var s := IntToString(n);
    var digits := NatToString(if n < 0 then -n else n);
    NatToStringRoundTrip(if n < 0 then -n else n);
    assert !IsSpace(s[0]);
    assert !IsSpace(s[|s| - 1]) by {
      assert s[|s| - 1] == digits[|digits| - 1];
    }
    assert TrimLeft(s) == s;
    assert TrimRight(s) == s;
    if n < 0 {
      assert s[1..] == digits;
    }
  }
}
