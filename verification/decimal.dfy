/**
 Decimal text of natural numbers, as Python's `f"{n}"` writes them: the
 digits of `n`, most significant first, with no leading zero.
 */
module Decimal {

  predicate IsDigit(c: char) {
    '0' <= c <= '9'
  }

  predicate AllDigits(s: string) {
    forall k :: 0 <= k < |s| ==> IsDigit(s[k])
  }

  function DigitChar(d: nat): (c: char)
    requires d < 10
    ensures IsDigit(c)
  {
    ('0' as int + d) as char
  }

  function DigitValue(c: char): (d: nat)
    requires IsDigit(c)
    ensures d < 10
  {
    c as int - '0' as int
  }

  function Pow10(k: nat): (p: nat)
    ensures p >= 1
  {
    if k == 0 then 1 else 10 * Pow10(k - 1)
  }

  /** `f"{n}"` for `n >= 0`: a non-empty string of digits without a leading
      zero (except for "0" itself). */
  function ToDecimal(n: nat): (s: string)
    ensures |s| >= 1
    ensures AllDigits(s)
    ensures |s| > 1 ==> s[0] != '0'
  {
    if n < 10 then [DigitChar(n)] else ToDecimal(n / 10) + [DigitChar(n % 10)]
  }

  /** The value of a non-empty digit string (what `int(s)` computes). */
  function ParseDecimal(s: string): nat
    requires |s| >= 1 && AllDigits(s)
  {
    if |s| == 1 then DigitValue(s[0])
    else 10 * ParseDecimal(s[..|s| - 1]) + DigitValue(s[|s| - 1])
  }

  /** Reading back the decimal text of `n` gives `n`. */
  lemma {:induction false} ParseToDecimal(n: nat)
    ensures ParseDecimal(ToDecimal(n)) == n
  {
    if n >= 10 {
      var s := ToDecimal(n);
      assert s[..|s| - 1] == ToDecimal(n / 10);
      ParseToDecimal(n / 10);
    }
  }

  /** A canonical digit string (no leading zero) is the decimal text of its
      value, so decimal text and parsing are inverse bijections. */
  lemma {:induction false} ToDecimalOfParse(s: string)
    requires |s| >= 1 && AllDigits(s)
    requires |s| > 1 ==> s[0] != '0'
    ensures ToDecimal(ParseDecimal(s)) == s
  {
    if |s| > 1 {
      var p := s[..|s| - 1];
      assert p[0] == s[0];
      ParseNoLeadingZero(p);
      ToDecimalOfParse(p);
      var n := ParseDecimal(s);
      assert n / 10 == ParseDecimal(p);
      assert n % 10 == DigitValue(s[|s| - 1]);
    }
  }

  /** A digit string of length `k + 1` without a leading zero is at least
      `10^k`, and every digit string of length `k + 1` is below `10^(k+1)`. */
  lemma {:induction false} ParseBounds(s: string)
    requires |s| >= 1 && AllDigits(s)
    ensures ParseDecimal(s) < Pow10(|s|)
    ensures |s| > 1 && s[0] != '0' ==> ParseDecimal(s) >= Pow10(|s| - 1)
  {
    if |s| > 1 {
      var p := s[..|s| - 1];
      assert p[0] == s[0];
      ParseBounds(p);
    }
  }

  lemma ParseNoLeadingZero(s: string)
    requires |s| >= 1 && AllDigits(s) && s[0] != '0'
    ensures |s| > 1 ==> ParseDecimal(s) >= 10
  {
    if |s| > 1 {
      ParseBounds(s);
      assert Pow10(|s| - 1) >= 10 by { PowAtLeastTen(|s| - 1); }
    }
  }

  lemma {:induction false} PowAtLeastTen(k: nat)
    requires k >= 1
    ensures Pow10(k) >= 10
  {
    if k > 1 { PowAtLeastTen(k - 1); }
  }

  /** The decimal text of `n` has exactly `k + 1` digits when `n` lies in
      `[10^k, 10^(k+1))`, or `k == 0` and `n < 10`; and only then. */
  lemma {:induction false} DecimalLength(n: nat, k: nat)
    ensures |ToDecimal(n)| == k + 1 <==>
            (if k == 0 then n < 10 else Pow10(k) <= n < Pow10(k + 1))
  {
    if n >= 10 {
      if k > 0 {
        DecimalLength(n / 10, k - 1);
      } else {
        assert |ToDecimal(n)| >= 2 by {
          assert |ToDecimal(n)| == |ToDecimal(n / 10)| + 1;
        }
      }
    }
    else if k > 0 {
      PowAtLeastTen(k);
    }
  }
}
