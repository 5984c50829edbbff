/**
 * Decimal rendering of integers, as JavaScript's template literals print
 * them (`${n}`), together with the reading-back functions that undo it.
 * JavaScript prints plain decimal digits only below 1e21 in magnitude and
 * switches to exponent form above; the counts and minute totals printed
 * here stay far below that bound, and the rendering is modelled below it.
 */
module Decimal {

  import opened Wrappers

  predicate IsDigit(c: char) {
    '0' <= c <= '9'
  }

  predicate AllDigits(s: string) {
    forall i :: 0 <= i < |s| ==> IsDigit(s[i])
  }

  function DigitValue(c: char): (d: nat)
    requires IsDigit(c)
    ensures d < 10
  {
    c as int - '0' as int
  }

  function DigitChar(d: nat): (c: char)
    requires d < 10
    ensures IsDigit(c) && DigitValue(c) == d
  {
    "0123456789"[d]
  }

  /** The shortest decimal numeral of `n`: digits only, no leading zero. */
  function NatToDecimal(n: nat): (s: string)
    ensures |s| >= 1 && AllDigits(s)
    ensures s[0] == '0' ==> n == 0 && |s| == 1
    decreases n
  {
    if n < 10 then [DigitChar(n)] else NatToDecimal(n / 10) + [DigitChar(n % 10)]
  }

  /**
   * The numeral of an integer, with a leading `-` exactly when it is
   * negative; its digits never start with a padding zero, and 0 is "0".
   */
  function IntToDecimal(i: int): (s: string)
    ensures |s| >= 1
    ensures s[0] == '-' <==> i < 0
    ensures forall k :: 0 < k < |s| ==> IsDigit(s[k])
    ensures i >= 0 ==> IsDigit(s[0]) && (s[0] == '0' ==> i == 0 && |s| == 1)
    ensures i < 0 ==> |s| >= 2 && s[1] != '0'
  {
    if i < 0 then "-" + NatToDecimal(-i) else NatToDecimal(i)
  }

  /** The value of a string of digits, read most significant digit first. */
  function DecimalValue(s: string): nat
    requires AllDigits(s)
  {
    if s == [] then 0 else DecimalValue(s[..|s| - 1]) * 10 + DigitValue(s[|s| - 1])
  }

  /** A non-empty digit string with no padding zero in front. */
  predicate Canonical(s: string) {
    |s| > 0 && AllDigits(s) && (s[0] != '0' || |s| == 1)
  }

  /** Reads a numeral as `${n}` prints it: digits, no padding zero. */
  function ParseNat(s: string): Option<nat> {
    if Canonical(s) then Some(DecimalValue(s)) else None
  }

  /** Reads an optional `-` followed by a numeral; `-0` is not one. */
  function ParseInt(s: string): Option<int> {
    if |s| > 0 && s[0] == '-' then
      match ParseNat(s[1..])
      case Some(n) => if n == 0 then None else Some(-(n as int))
      case None => None
    else
      match ParseNat(s)
      case Some(n) => Some(n)
      case None => None
  }

  lemma {:induction false} NatRoundTrip(n: nat)
    ensures ParseNat(NatToDecimal(n)) == Some(n)
    decreases n
  {
    var s := NatToDecimal(n);
    if n >= 10 {
      NatRoundTrip(n / 10);
      assert s[..|s| - 1] == NatToDecimal(n / 10);
      assert DecimalValue(s) == (n / 10) * 10 + n % 10;
    }
  }

  lemma {:induction false} IntRoundTrip(i: int)
    ensures ParseInt(IntToDecimal(i)) == Some(i)
  {
    if i < 0 {
      var digits := NatToDecimal(-i);
      var s := "-" + digits;
      assert s[0] == '-' && s[1..] == digits;
      NatRoundTrip(-i);
      assert ParseInt(s) == Some(-(-i));
    } else {
      var digits := NatToDecimal(i);
      assert digits[0] != '-';
      NatRoundTrip(i);
    }
  }

  /** A digit string that does not start with `0` has a positive value. */
  lemma {:induction false} LeadingDigitPositive(s: string)
    requires AllDigits(s) && |s| > 0 && s[0] != '0'
    ensures DecimalValue(s) > 0
    decreases |s|
  {
    if |s| > 1 {
      var p := s[..|s| - 1];
      assert p[0] == s[0];
      LeadingDigitPositive(p);
    }
  }

  /** The only text that reads as `n` is the numeral of `n`. */
  lemma {:induction false} ParseNatCanonical(s: string, n: nat)
    requires ParseNat(s) == Some(n)
    ensures s == NatToDecimal(n)
    decreases |s|
  {
    var d := DigitValue(s[|s| - 1]);
    assert DigitChar(d) == s[|s| - 1] by {
      assert "0123456789"[d] as int == '0' as int + d;
    }
    if |s| == 1 {
      assert s[..|s| - 1] == [];
      assert DecimalValue(s) == DecimalValue(s[..|s| - 1]) * 10 + d;
      assert n == d;
    } else {
      var p := s[..|s| - 1];
      assert p[0] == s[0] && AllDigits(p);
      LeadingDigitPositive(p);
      ParseNatCanonical(p, DecimalValue(p));
      assert n == DecimalValue(p) * 10 + d;
      assert n / 10 == DecimalValue(p) && n % 10 == d;
      assert s == p + [s[|s| - 1]];
    }
  }

  /** The only text that reads as `i` is the numeral of `i`. */
  lemma {:induction false} ParseIntCanonical(s: string, i: int)
    requires ParseInt(s) == Some(i)
    ensures s == IntToDecimal(i)
  {
    if |s| > 0 && s[0] == '-' {
      var n :| ParseNat(s[1..]) == Some(n);
      ParseNatCanonical(s[1..], n);
      assert s == "-" + s[1..];
    } else {
      var n :| ParseNat(s) == Some(n);
      ParseNatCanonical(s, n);
    }
  }
}
