/**
 * JavaScript's `parseInt` without a radix, on the integers it can produce, and `Math.ceil` of
 * a quotient as JSON serialises it. `None` stands for NaN (and for the infinities, which
 * `JSON.stringify` also writes as null).
 */
module JsNumbers {
  import opened Wrappers
  import opened Digits
  import opened HexDigits
  import opened Batching

  /**
   * The white space `parseInt` skips before the number: tab, vertical tab, form feed, space,
   * no-break space, the byte order mark, the other space separators of Unicode category Zs,
   * and the line terminators.
   */
  predicate IsSpace(c: char) {
    || c == '\t' || c == '\U{000B}' || c == '\U{000C}' || c == ' ' || c == '\U{00A0}' || c == '\U{FEFF}'
    || c == '\U{1680}' || '\U{2000}' <= c <= '\U{200A}' || c == '\U{202F}' || c == '\U{205F}' || c == '\U{3000}'
    || c == '\n' || c == '\r' || c == '\U{2028}' || c == '\U{2029}'
  }

  /** The string without its leading white space. */
  function TrimStart(s: string): (r: string)
    ensures |r| <= |s| && r == s[|s| - |r|..]
    ensures r == [] || !IsSpace(r[0])
    ensures forall i :: 0 <= i < |s| - |r| ==> IsSpace(s[i])
  {
    if s != [] && IsSpace(s[0]) then
      var r := TrimStart(s[1..]);
      assert s[1..][|s| - 1 - |r|..] == s[|s| - |r|..];
      assert forall i :: 1 <= i < |s| - |r| ==> s[i] == s[1..][i - 1];
      r
    else s
  }

  /** The string without its trailing white space. */
  function TrimEnd(s: string): (r: string)
    ensures |r| <= |s| && r == s[..|r|]
    ensures r == [] || !IsSpace(r[|r| - 1])
    ensures forall i :: |r| <= i < |s| ==> IsSpace(s[i])
  {
    if s != [] && IsSpace(s[|s| - 1]) then
      var r := TrimEnd(s[..|s| - 1]);
      assert forall i :: |r| <= i < |s| - 1 ==> s[i] == s[..|s| - 1][i];
      r
    else s
  }

  predicate AllSpace(s: string) {
    forall i :: 0 <= i < |s| ==> IsSpace(s[i])
  }

  /** The longest prefix of decimal digits. */
  function DigitPrefix(s: string): (r: string)
    ensures AllDigits(r) && r <= s
    ensures |r| == |s| || !IsDigit(s[|r|])
  {
    if s != [] && IsDigit(s[0]) then [s[0]] + DigitPrefix(s[1..]) else []
  }

  /** The longest prefix of hex digits. */
  function HexPrefix(s: string): (r: string)
    ensures AllHex(r) && r <= s
    ensures |r| == |s| || !IsHexDigit(s[|r|])
  {
    if s != [] && IsHexDigit(s[0]) then [s[0]] + HexPrefix(s[1..]) else []
  }

  /** After the sign: a `0x`/`0X` prefix switches to hexadecimal. */
  predicate HexPrefixed(s: string) {
    |s| >= 2 && s[0] == '0' && (s[1] == 'x' || s[1] == 'X')
  }

  /**
   * `parseInt(s)`: skip leading white space, take an optional sign, then read hex digits after
   * `0x` or decimal digits otherwise, stopping at the first character that is not one; NaN
   * when no digit is read.
   */
  function ParseInt(s: string): Option<int> {
    var t := TrimStart(s);
    var sign := if t != [] && t[0] == '-' then -1 else 1;
    var rest := if t != [] && (t[0] == '-' || t[0] == '+') then t[1..] else t;
    if HexPrefixed(rest) then
      var h := HexPrefix(rest[2..]);
      if h == [] then None else Some(sign * HexValue(h))
    else
      var d := DigitPrefix(rest);
      if d == [] then None else Some(sign * ValueOf(d))
  }

  /**
   * The numeric literal `Number` reads once the white space around it is dropped, for the
   * integers it can denote: nothing is 0; `0x` or `0X` and hex digits are read in base 16;
   * decimal digits after an optional sign are read in base 10; anything else is NaN.
   */
  function NumericLiteral(t: string): Option<int> {
    if t == [] then Some(0)
    else if HexPrefixed(t) && |t| > 2 && AllHex(t[2..]) then Some(HexValue(t[2..]))
    else
      var rest := if t[0] == '-' || t[0] == '+' then t[1..] else t;
      if rest != [] && AllDigits(rest) then Some((if t[0] == '-' then -1 else 1) * ValueOf(rest)) else None
  }

  /** `Number(s)` on a string: the literal between the leading and the trailing white space. */
  function StringToNumber(s: string): Option<int> {
    NumericLiteral(TrimEnd(TrimStart(s)))
  }

  /** The decimal text of an integer, unsigned or signed, is read as that integer. */
  lemma DecimalLiteral(n: nat)
    ensures NumericLiteral(Decimal(n)) == Some(n)
    ensures NumericLiteral("-" + Decimal(n)) == Some(-(n as int))
    ensures NumericLiteral("+" + Decimal(n)) == Some(n)
  {
    var d := Decimal(n);
    assert AllDigits(d) && ValueOf(d) == n by {
      DecimalValue(n);
    }
    assert !HexPrefixed(d) by {
      if |d| >= 2 {
        assert IsDigit(d[1]);
      }
    }
    assert ("-" + d)[1..] == d;
    assert ("+" + d)[1..] == d;
  }

  /** Digits followed by something that is neither a digit nor part of a fraction or an exponent are NaN. */
  lemma DigitsThenOther(n: nat, tail: string)
    requires tail != [] && !IsDigit(tail[0])
    requires n > 0 || (tail[0] != 'x' && tail[0] != 'X')
    ensures NumericLiteral(Decimal(n) + tail) == None
  {
    var d := Decimal(n);
    var u := d + tail;
    DecimalValue(n);
    DecimalLeadingDigit(n);
    assert u[0] == d[0] && u[|d|] == tail[0];
    assert !HexPrefixed(u) by {
      if n == 0 {
        assert d == "0";
      }
    }
    assert !AllDigits(u);
  }

  /** White space in front of the text is skipped. */
  lemma {:induction false} TrimStartSpaces(pre: string, x: string)
    requires AllSpace(pre)
    ensures TrimStart(pre + x) == TrimStart(x)
    decreases |pre|
  {
    if pre == [] {
      assert pre + x == x;
    } else {
      assert (pre + x)[1..] == pre[1..] + x;
      TrimStartSpaces(pre[1..], x);
    }
  }

  /** White space after the text is skipped. */
  lemma {:induction false} TrimEndSpaces(x: string, post: string)
    requires AllSpace(post)
    ensures TrimEnd(x + post) == TrimEnd(x)
    decreases |post|
  {
    if post == [] {
      assert x + post == x;
    } else {
      assert (x + post)[..|x + post| - 1] == x + post[..|post| - 1];
      TrimEndSpaces(x, post[..|post| - 1]);
    }
  }

  /** Text that neither starts nor ends with white space is what trimming leaves of it padded. */
  lemma TrimAround(pre: string, x: string, post: string)
    requires AllSpace(pre) && AllSpace(post)
    requires x != [] && !IsSpace(x[0]) && !IsSpace(x[|x| - 1])
    ensures TrimEnd(TrimStart(pre + x + post)) == x
  {
    assert pre + x + post == pre + (x + post);
    TrimStartSpaces(pre, x + post);
    assert TrimStart(x + post) == x + post;
    TrimEndSpaces(x, post);
  }

  /** White space around a literal does not change what `Number` reads. */
  lemma NumberOfPadded(pre: string, x: string, post: string)
    requires AllSpace(pre) && AllSpace(post)
    requires x != [] && !IsSpace(x[0]) && !IsSpace(x[|x| - 1])
    ensures StringToNumber(pre + x + post) == NumericLiteral(x)
  {
    TrimAround(pre, x, post);
  }

  /** The decimal text of a natural number neither starts nor ends with white space. */
  lemma DecimalUnpadded(n: nat)
    ensures Decimal(n) != [] && !IsSpace(Decimal(n)[0]) && !IsSpace(Decimal(n)[|Decimal(n)| - 1])
  {
    var d := Decimal(n);
    DecimalLeadingDigit(n);
    DecimalValue(n);
    assert IsDigit(d[|d| - 1]);
  }

  /** `Number` reads the decimal text of a natural number with white space around it. */
  lemma NumberOfDecimal(n: nat, pre: string, post: string)
    requires AllSpace(pre) && AllSpace(post)
    ensures StringToNumber(pre + Decimal(n) + post) == Some(n)
  {
    DecimalLiteral(n);
    DecimalUnpadded(n);
    NumberOfPadded(pre, Decimal(n), post);
  }

  /** `Number` reads a signed decimal integer with white space around it. */
  lemma NumberOfSignedDecimal(n: nat, pre: string, post: string)
    requires AllSpace(pre) && AllSpace(post)
    ensures StringToNumber(pre + ("-" + Decimal(n)) + post) == Some(-(n as int))
    ensures StringToNumber(pre + ("+" + Decimal(n)) + post) == Some(n)
  {
    var d := Decimal(n);
    DecimalLiteral(n);
    DecimalUnpadded(n);
    var minus, plus := "-" + d, "+" + d;
    assert minus[|minus| - 1] == d[|d| - 1];
    assert plus[|plus| - 1] == d[|d| - 1];
    NumberOfPadded(pre, minus, post);
    NumberOfPadded(pre, plus, post);
  }

  /**
   * Unlike `parseInt`, `Number` does not stop at the digits: text after them makes the whole
   * NaN. (A fraction, an exponent and the `0b`/`0o` prefixes are excluded here.)
   */
  lemma NumberRejectsTrailing(n: nat, tail: string)
    requires tail != [] && !IsDigit(tail[0]) && !IsSpace(tail[|tail| - 1])
    requires tail[0] != '.' && tail[0] != 'e' && tail[0] != 'E'
    requires n > 0 || (tail[0] != 'x' && tail[0] != 'X' && tail[0] != 'b' && tail[0] != 'B' && tail[0] != 'o' && tail[0] != 'O')
    ensures StringToNumber(Decimal(n) + tail) == None
    ensures ParseInt(Decimal(n) + tail) == Some(n)
  {
    var d := Decimal(n);
    var u := d + tail;
    DecimalLeadingDigit(n);
    assert u[0] == d[0] && u[|u| - 1] == tail[|tail| - 1];
    TrimAround("", u, "");
    assert "" + u + "" == u;
    DigitsThenOther(n, tail);
    ParseIntIgnoresTrailing(n, tail);
  }

  /** The leading digit of `str(n)` is 0 only for n = 0 itself. */
  lemma {:induction false} DecimalLeadingDigit(n: nat)
    ensures Decimal(n)[0] == '0' ==> n == 0
    ensures Decimal(n)[0] != '-' && Decimal(n)[0] != '+' && !IsSpace(Decimal(n)[0])
  {
    if n >= 10 {
      DecimalLeadingDigit(n / 10);
      assert Decimal(n)[0] == Decimal(n / 10)[0];
    }
  }

  /** Text that starts with a digit and not with `0x` is read as its leading run of decimal digits. */
  lemma ParseIntLeadingDigits(u: string)
    requires u != [] && IsDigit(u[0]) && !HexPrefixed(u)
    ensures ParseInt(u) == Some(ValueOf(DigitPrefix(u)))
  {
    assert !IsSpace(u[0]);
    assert TrimStart(u) == u;
  }

  /** `parseInt` reads back the decimal text of any natural number. */
  lemma ParseIntDecimal(n: nat)
    ensures ParseInt(Decimal(n)) == Some(n)
  {
    ParseIntIgnoresTrailing(n, "");
    assert Decimal(n) + "" == Decimal(n);
  }

  /** Characters after the digits are ignored: "10abc" reads as 10. */
  lemma ParseIntIgnoresTrailing(n: nat, tail: string)
    requires tail == [] || !IsDigit(tail[0])
    requires n > 0 || tail == [] || (tail[0] != 'x' && tail[0] != 'X')
    ensures ParseInt(Decimal(n) + tail) == Some(n)
  {
    var s := Decimal(n);
    var u := s + tail;
    DecimalValue(n);
    DecimalLeadingDigit(n);
    DigitPrefixAppend(s, tail);
    assert u[0] == s[0];
    assert !HexPrefixed(u) by {
      if n == 0 {
        assert s == "0";
        assert tail != [] ==> u[1] == tail[0];
      }
    }
    ParseIntLeadingDigits(u);
  }

  lemma {:induction false} DigitPrefixAppend(s: string, tail: string)
    requires AllDigits(s)
    requires tail == [] || !IsDigit(tail[0])
    ensures DigitPrefix(s + tail) == s
  {
    if s == [] {
      assert s + tail == tail;
    } else {
      assert (s + tail)[1..] == s[1..] + tail;
      DigitPrefixAppend(s[1..], tail);
    }
  }

  /**
   * `Math.ceil(total / size)` for a count over a parsed page size, as JSON writes it: the
   * ceiling for a non-zero size, and null for NaN (no size, or 0 / 0) and Infinity (n / 0).
   */
  function CeilQuotient(total: nat, size: Option<int>): Option<int> {
    if size.None? || size.value == 0 then None
    else if size.value > 0 then Some(if total % size.value == 0 then total / size.value else total / size.value + 1)
    else Some(-(total / -size.value))
  }

  /**
   * For a positive size, `Math.ceil(total / size)` is `(total + size - 1) // size`: the two
   * list endpoints compute the same page count.
   */
  lemma CeilQuotientIsCeilDiv(total: nat, size: nat)
    requires size > 0
    ensures CeilQuotient(total, Some(size)) == Some(CeilDiv(total, size))
  {
    var c := CeilQuotient(total, Some(size)).value;
    assert total == (total / size) * size + total % size;
    CeilDivUnique(total, size, c);
  }
}
