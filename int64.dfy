/** Rust's `i64` and the way `format!("{}", n)` renders it: an optional minus
    sign followed by the decimal digits of the magnitude, without leading
    zeros. A parser is given beside the renderer so that the rendering can be
    shown to lose nothing. */
module Int64 {
  import opened Wrappers

  /** A signed 64-bit integer. */
  type I64 = x: int | -0x8000_0000_0000_0000 <= x < 0x8000_0000_0000_0000

  predicate IsDigit(c: char) {
    '0' <= c <= '9'
  }

  predicate AllDigits(s: string) {
    forall i :: 0 <= i < |s| ==> IsDigit(s[i])
  }

  function DigitChar(d: nat): (c: char)
    requires d < 10
    ensures IsDigit(c) && c as int - '0' as int == d
  {
    ('0' as int + d) as char
  }

  function DigitValue(c: char): (d: nat)
    requires IsDigit(c)
    ensures d < 10
  {
    c as int - '0' as int
  }

  /** The decimal digits of `n`: at least one digit, and a leading zero only
      for zero itself. */
  function NatToDecimal(n: nat): (s: string)
    ensures |s| >= 1 && AllDigits(s)
    ensures s[0] == '0' <==> n == 0
    ensures n == 0 ==> s == "0"
  {
    if n < 10 then [DigitChar(n)] else NatToDecimal(n / 10) + [DigitChar(n % 10)]
  }

  /** The value of a string of decimal digits (the empty string reads as 0). */
  function DecimalToNat(s: string): nat
    requires AllDigits(s)
  {
    if s == [] then 0 else DecimalToNat(s[..|s| - 1]) * 10 + DigitValue(s[|s| - 1])
  }

  lemma {:induction false} NatToDecimalRoundTrip(n: nat)
    ensures DecimalToNat(NatToDecimal(n)) == n
  {
    if n >= 10 {
      var s := NatToDecimal(n);
      assert s[..|s| - 1] == NatToDecimal(n / 10);
      NatToDecimalRoundTrip(n / 10);
    }
  }

  /** `format!("{}", n)` for an `i64`. */
  function ToDecimal(n: I64): (s: string)
    ensures |s| >= 1 && (s[0] == '-' <==> n < 0)
    ensures forall i :: 0 < i < |s| ==> IsDigit(s[i])
    ensures IsDigit(s[0]) || s[0] == '-'
  {
    if n < 0 then "-" + NatToDecimal(-(n as int)) else NatToDecimal(n)
  }

  /** Reads back an optionally signed decimal numeral. */
  function ParseDecimal(s: string): Option<int> {
    if |s| >= 2 && s[0] == '-' && AllDigits(s[1..]) then Some(0 - DecimalToNat(s[1..]) as int)
    else if |s| >= 1 && AllDigits(s) then Some(DecimalToNat(s))
    else None
  }

  /** The rendering of an id can be parsed back to that id. */
  lemma ToDecimalRoundTrip(n: I64)
    ensures ParseDecimal(ToDecimal(n)) == Some(n)
  {
    var s := ToDecimal(n);
    if n < 0 {
      assert s[1..] == NatToDecimal(-(n as int));
      NatToDecimalRoundTrip(-(n as int));
    } else {
      NatToDecimalRoundTrip(n);
    }
  }

  /** Distinct ids render differently. */
  lemma ToDecimalInjective(a: I64, b: I64)
    requires ToDecimal(a) == ToDecimal(b)
    ensures a == b
  {
    ToDecimalRoundTrip(a);
    ToDecimalRoundTrip(b);
  }
}
