/**
 * Decimal text of natural numbers, as Python's `str(n)` and `str.zfill` produce it, and the
 * digit-count facts the generated codes rely on.
 */
module Digits {

  function Pow10(k: nat): (r: nat)
    ensures r >= 1
  {
    if k == 0 then 1 else 10 * Pow10(k - 1)
  }

  predicate IsDigit(c: char) {
    '0' <= c <= '9'
  }

  predicate AllDigits(s: string) {
    forall i :: 0 <= i < |s| ==> IsDigit(s[i])
  }

  function DigitChar(d: nat): char
    requires d < 10
  {
    (d + '0' as int) as char
  }

  /** `str(n)` for a non-negative integer: no sign, no leading zeros. */
  function Decimal(n: nat): string
  {
    if n < 10 then [DigitChar(n)] else Decimal(n / 10) + [DigitChar(n % 10)]
  }

  /** The number a string of decimal digits denotes (leading zeros allowed). */
  function ValueOf(s: string): nat
    requires AllDigits(s)
  {
    if s == [] then 0 else 10 * ValueOf(s[..|s| - 1]) + (s[|s| - 1] as int - '0' as int)
  }

  function Zeros(k: nat): (z: string)
    ensures |z| == k && AllDigits(z)
  {
    if k == 0 then "" else "0" + Zeros(k - 1)
  }

  /** Python's `s.zfill(width)` for a string without a sign: zeros on the left up to `width`. */
  function ZFill(s: string, width: nat): (r: string)
    ensures |r| == if |s| < width then width else |s|
  {
    if |s| < width then Zeros(width - |s|) + s else s
  }

  /** `str(n)` consists of digits and reads back as `n`; so it is injective. */
  lemma {:induction false} DecimalValue(n: nat)
    ensures AllDigits(Decimal(n)) && ValueOf(Decimal(n)) == n
  {
    if n >= 10 {
      DecimalValue(n / 10);
      var s := Decimal(n);
      assert s[..|s| - 1] == Decimal(n / 10);
    }
  }

  /** Leading zeros do not change the value of a digit string. */
  lemma {:induction false} ValueOfLeadingZeros(k: nat, s: string)
    requires AllDigits(s)
    ensures AllDigits(Zeros(k) + s) && ValueOf(Zeros(k) + s) == ValueOf(s)
  {
    if s == [] {
      ZerosValue(k);
      assert Zeros(k) + s == Zeros(k);
    } else {
      var t := s[..|s| - 1];
      ValueOfLeadingZeros(k, t);
      assert (Zeros(k) + s)[..|Zeros(k) + s| - 1] == Zeros(k) + t;
    }
  }

  lemma {:induction false} ZerosValue(k: nat)
    ensures ValueOf(Zeros(k)) == 0
  {
    if k > 0 {
      ZerosValue(k - 1);
      assert Zeros(k) == Zeros(k - 1) + "0" by { ZerosSnoc(k); }
      assert Zeros(k)[..k - 1] == Zeros(k - 1);
    }
  }

  lemma {:induction false} ZerosSnoc(k: nat)
    requires k > 0
    ensures Zeros(k) == Zeros(k - 1) + "0"
  {
    if k > 1 {
      ZerosSnoc(k - 1);
    }
  }

  /** `str(n).zfill(w)` still reads back as `n`. */
  lemma ZFillDecimalValue(n: nat, width: nat)
    ensures AllDigits(ZFill(Decimal(n), width)) && ValueOf(ZFill(Decimal(n), width)) == n
  {
    DecimalValue(n);
    if |Decimal(n)| < width {
      ValueOfLeadingZeros(width - |Decimal(n)|, Decimal(n));
    }
  }

  /** So distinct numbers keep distinct padded codes. */
  lemma ZFillDecimalInjective(a: nat, b: nat, width: nat)
    ensures ZFill(Decimal(a), width) == ZFill(Decimal(b), width) ==> a == b
  {
    ZFillDecimalValue(a, width);
    ZFillDecimalValue(b, width);
  }

  /** A number in [10^(k-1), 10^k - 1] (or a single digit, for k = 1) has exactly k decimal digits. */
  lemma {:induction false} DecimalLength(n: nat, k: nat)
    requires 1 <= k && n < Pow10(k)
    requires k == 1 || Pow10(k - 1) <= n
    ensures |Decimal(n)| == k
  {
    if n >= 10 {
      assert k >= 2;
      assert n / 10 < Pow10(k - 1);
      assert k - 1 == 1 || Pow10(k - 2) <= n / 10;
      DecimalLength(n / 10, k - 1);
    }
  }
}
