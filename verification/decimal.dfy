/** Decimal digit strings: Python's `int(...)` on a digit run, `str(n)`,
    and the zero padding of the `:02` format specifier. */
module Decimal {
  import opened Text

  function DigitValue(c: char): (d: nat)
    requires IsDigit(c)
    ensures d < 10
  {
    c as int - '0' as int
  }

  function DigitChar(d: nat): (c: char)
    requires d < 10
    ensures IsDigit(c) && DigitValue(c) == d
  {
    ('0' as int + d) as char
  }

  function Pow10(k: nat): (p: nat)
    ensures p >= 1
  {
    if k == 0 then 1 else 10 * Pow10(k - 1)
  }

  /** Python `int(s)` for a string of ASCII digits (an empty run reads 0). */
  function DecimalValue(s: seq<char>): nat
    requires AllDigits(s)
    decreases |s|
  {
    if |s| == 0 then 0 else 10 * DecimalValue(s[..|s| - 1]) + DigitValue(s[|s| - 1])
  }

  /** The powers the scanner's digit-count bounds use. */
  lemma PowValues()
    ensures Pow10(2) == 100 && Pow10(4) == 10000 && Pow10(6) == 1000000
  {
  }

  /** A run of `k` digits denotes a number below `10^k`. */
  lemma {:induction false} DecimalBound(s: seq<char>)
    requires AllDigits(s)
    ensures DecimalValue(s) < Pow10(|s|)
    decreases |s|
  {
    if |s| > 0 {
      DecimalBound(s[..|s| - 1]);
    }
  }

  /** Python `str(n)` for a non-negative integer: no leading zero except
      for 0 itself. */
  function NatToDecimal(n: nat): (r: seq<char>)
    ensures |r| >= 1 && AllDigits(r)
    ensures |r| > 1 ==> r[0] != '0'
    decreases n
  {
    if n < 10 then [DigitChar(n)] else NatToDecimal(n / 10) + [DigitChar(n % 10)]
  }

  /** `int(str(n)) == n`. */
  lemma {:induction false} DecimalRoundTrip(n: nat)
    ensures DecimalValue(NatToDecimal(n)) == n
    decreases n
  {
    if n >= 10 {
      var r := NatToDecimal(n);
      assert r[..|r| - 1] == NatToDecimal(n / 10);
      DecimalRoundTrip(n / 10);
    }
  }

  /** `str(n)` has at most `k` digits exactly when `n < 10^k`. */
  lemma {:induction false} DecimalLength(n: nat, k: nat)
    requires k >= 1
    ensures |NatToDecimal(n)| <= k <==> n < Pow10(k)
    decreases n
  {
    if n >= 10 {
      assert |NatToDecimal(n)| == |NatToDecimal(n / 10)| + 1;
      if k == 1 {
        assert |NatToDecimal(n / 10)| >= 1;
      } else {
        DecimalLength(n / 10, k - 1);
        assert n < Pow10(k) <==> n / 10 < Pow10(k - 1);
      }
    }
  }

  /** Leading zeros do not change the value of a digit string. */
  lemma {:induction false} LeadingZero(s: seq<char>)
    requires AllDigits(s)
    ensures DecimalValue(['0'] + s) == DecimalValue(s)
    decreases |s|
  {
    if |s| > 0 {
      assert (['0'] + s)[..|s|] == ['0'] + s[..|s| - 1];
      LeadingZero(s[..|s| - 1]);
    }
  }

  /** Python `str(i)` for any integer. */
  function IntToDecimal(i: int): (r: seq<char>)
    ensures |r| >= 1
    ensures i >= 0 ==> r == NatToDecimal(i)
    ensures i < 0 ==> r[0] == '-' && r[1..] == NatToDecimal(-i)
  {
    if i < 0 then ['-'] + NatToDecimal(-i) else NatToDecimal(i)
  }

  /** Python `f"{n:02}"`: `str(n)` left-padded with zeros to two digits. */
  function ZeroPad2(n: nat): (r: seq<char>)
    ensures |r| >= 2 && AllDigits(r)
    ensures n < 100 ==> |r| == 2
    ensures |r| == 2 || r[0] != '0'
    ensures DecimalValue(r) == n
  {
    var d := NatToDecimal(n);
    DecimalRoundTrip(n);
    if |d| >= 2 then d
    else
      LeadingZero(d);
      ['0'] + d
  }
}
