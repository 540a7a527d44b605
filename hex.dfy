/**
 * Hexadecimal text: the lowercase fixed-width form `str(ObjectId)` prints, and the digits
 * `parseInt` accepts after a `0x` prefix (either case).
 */
module HexDigits {

  function Pow16(k: nat): (r: nat)
    ensures r >= 1
  {
    if k == 0 then 1 else 16 * Pow16(k - 1)
  }

  predicate IsHexDigit(c: char) {
    '0' <= c <= '9' || 'a' <= c <= 'f' || 'A' <= c <= 'F'
  }

  predicate AllHex(s: string) {
    forall i :: 0 <= i < |s| ==> IsHexDigit(s[i])
  }

  function HexDigitValue(c: char): (d: nat)
    requires IsHexDigit(c)
    ensures d < 16
  {
    if '0' <= c <= '9' then c as int - '0' as int
    else if 'a' <= c <= 'f' then c as int - 'a' as int + 10
    else c as int - 'A' as int + 10
  }

  /** The lowercase digit of a value below 16. */
  function HexDigit(d: nat): (c: char)
    requires d < 16
    ensures IsHexDigit(c) && HexDigitValue(c) == d
  {
    if d < 10 then (d + '0' as int) as char else (d - 10 + 'a' as int) as char
  }

  /** The number a string of hex digits denotes. */
  function HexValue(s: string): nat
    requires AllHex(s)
  {
    if s == [] then 0 else 16 * HexValue(s[..|s| - 1]) + HexDigitValue(s[|s| - 1])
  }

  /** The last `width` hex digits of n, lowercase, zero-padded on the left. */
  function Hex(n: nat, width: nat): (s: string)
    ensures |s| == width && AllHex(s)
  {
    if width == 0 then "" else Hex(n / 16, width - 1) + [HexDigit(n % 16)]
  }

  /** A value that fits in `width` digits reads back from its hex text. */
  lemma {:induction false} HexRoundTrip(n: nat, width: nat)
    requires n < Pow16(width)
    ensures HexValue(Hex(n, width)) == n
  {
    if width > 0 {
      HexRoundTrip(n / 16, width - 1);
      var s := Hex(n, width);
      assert s[..|s| - 1] == Hex(n / 16, width - 1);
    }
  }

  /** So values that fit are told apart by their hex text. */
  lemma HexInjective(a: nat, b: nat, width: nat)
    requires a < Pow16(width) && b < Pow16(width)
    requires Hex(a, width) == Hex(b, width)
    ensures a == b
  {
    HexRoundTrip(a, width);
    HexRoundTrip(b, width);
  }
}
