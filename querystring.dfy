/**
 * `querystring.stringify(obj)` with its default separators: one `key=value` field per property
 * (one per element for an array value), keys and values percent-encoded, fields joined by `&`.
 */
module QueryString {
  import opened JsValues
  import opened Digits
  import opened Text

  /** The characters `querystring.escape` leaves as they are. */
  predicate Unreserved(c: char) {
    'A' <= c <= 'Z' || 'a' <= c <= 'z' || '0' <= c <= '9'
    || c == '-' || c == '_' || c == '.' || c == '!' || c == '~' || c == '*' || c == '\'' || c == '(' || c == ')'
  }

  predicate IsUpperHex(c: char) {
    '0' <= c <= '9' || 'A' <= c <= 'F'
  }

  /** The characters an escaped string is made of. */
  predicate Escaped(c: char) {
    Unreserved(c) || c == '%'
  }

  function UpperHex(d: nat): (c: char)
    requires d < 16
    ensures IsUpperHex(c)
  {
    if d < 10 then (d + '0' as int) as char else (d - 10 + 'A' as int) as char
  }

  /** The UTF-8 bytes of a code point. */
  function Utf8(c: char): (bytes: seq<nat>)
    ensures 1 <= |bytes| <= 4
    ensures forall i :: 0 <= i < |bytes| ==> bytes[i] < 256
  {
    var cp := c as int;
    if cp < 0x80 then [cp]
    else if cp < 0x800 then [0xC0 + cp / 0x40, 0x80 + cp % 0x40]
    else if cp < 0x10000 then [0xE0 + cp / 0x1000, 0x80 + (cp / 0x40) % 0x40, 0x80 + cp % 0x40]
    else [0xF0 + cp / 0x40000, 0x80 + (cp / 0x1000) % 0x40, 0x80 + (cp / 0x40) % 0x40, 0x80 + cp % 0x40]
  }

  /** `%XX` for each byte, hex digits in upper case. */
  function PercentBytes(bytes: seq<nat>): (r: string)
    requires forall i :: 0 <= i < |bytes| ==> bytes[i] < 256
    ensures |r| == 3 * |bytes|
    ensures forall i :: 0 <= i < |r| ==> Escaped(r[i]) && (r[i] == '%' <==> i % 3 == 0)
  {
    if bytes == [] then ""
    else
      var head := ['%', UpperHex(bytes[0] / 16), UpperHex(bytes[0] % 16)];
      var rest := PercentBytes(bytes[1..]);
      assert forall i :: 3 <= i < |head + rest| ==> (head + rest)[i] == rest[i - 3];
      head + rest
  }

  /** `querystring.escape(s)`: unreserved characters as they are, every other one as the `%XX` of its UTF-8 bytes. */
  function Escape(s: string): (r: string)
    ensures |r| >= |s|
    ensures forall i :: 0 <= i < |r| ==> Escaped(r[i])
  {
    if s == [] then ""
    else
      var head := if Unreserved(s[0]) then [s[0]] else PercentBytes(Utf8(s[0]));
      var rest := Escape(s[1..]);
      assert forall i :: |head| <= i < |head + rest| ==> (head + rest)[i] == rest[i - |head|];
      head + rest
  }

  /** Text made only of unreserved characters is not changed by escaping. */
  lemma {:induction false} EscapeUnreserved(s: string)
    requires forall i :: 0 <= i < |s| ==> Unreserved(s[i])
    ensures Escape(s) == s
  {
    if s != [] {
      EscapeUnreserved(s[1..]);
      assert s == [s[0]] + s[1..];
    }
  }

  /** A character that is not unreserved is written as 3, 6, 9 or 12 characters starting with `%`. */
  lemma EscapeReserved(c: char)
    requires !Unreserved(c)
    ensures var r := Escape([c]); 3 <= |r| <= 12 && |r| % 3 == 0 && r[0] == '%'
  {
    assert [c][1..] == [];
  }

  /** The decimal text of an integer, with a minus sign when negative. */
  function IntText(n: int): (s: string)
    ensures s != []
  {
    if n < 0 then "-" + Decimal(-n) else Decimal(n)
  }

  /**
   * The text of a single value: strings as they are, numbers in decimal, booleans as `true` /
   * `false`; NaN, null, undefined, objects and nested arrays as the empty string.
   */
  function Primitive(v: Value): string {
    match v
    case Str(s) => s
    case Num(n) => IntText(n)
    case Bool(b) => if b then "true" else "false"
    case _ => ""
  }

  /** One `key=value` field. */
  function Field(key: string, text: string): (f: string)
    ensures f != [] && '&' !in f
  {
    var ks := Escape(key) + "=";
    var e := Escape(text);
    assert forall i :: 0 <= i < |ks + e| ==> (ks + e)[i] == '=' || Escaped((ks + e)[i]) by {
      assert forall i :: |ks| <= i < |ks + e| ==> (ks + e)[i] == e[i - |ks|];
    }
    ks + e
  }

  /** The fields one property contributes: one per element of an array value, one otherwise. */
  function FieldsOf(key: string, v: Value): (fs: seq<string>)
    ensures v.Arr? ==> |fs| == |v.items|
    ensures !v.Arr? ==> |fs| == 1
    ensures forall f :: f in fs ==> '&' !in f && f != ""
  {
    if v.Arr? then seq(|v.items|, j requires 0 <= j < |v.items| => Field(key, Primitive(v.items[j])))
    else [Field(key, Primitive(v))]
  }

  /** All fields of an object, property by property in key order. */
  function Fields(params: Object): (fs: seq<string>)
    ensures forall f :: f in fs ==> '&' !in f && f != ""
  {
    if params == [] then [] else FieldsOf(params[0].0, params[0].1) + Fields(params[1..])
  }

  /** `querystring.stringify(params)`. */
  function Stringify(params: Object): string {
    Join(Fields(params), '&')
  }

  /** The query string is empty exactly when there are no fields: no property, or only empty arrays. */
  lemma StringifyEmpty(params: Object)
    ensures Stringify(params) == "" <==> Fields(params) == []
  {
    var fs := Fields(params);
    if fs != [] {
      assert fs[0] in fs;
      JoinFirst(fs, '&');
    }
  }

  /** A join starts with its first piece. */
  lemma JoinFirst(parts: seq<string>, sep: char)
    requires parts != []
    ensures |Join(parts, sep)| >= |parts[0]|
  {
  }

  /** Without array values there is one field per property, so the string is empty iff the object is. */
  lemma {:induction false} StringifyScalars(params: Object)
    requires forall i :: 0 <= i < |params| ==> !params[i].1.Arr?
    ensures |Fields(params)| == |params|
    ensures Stringify(params) == "" <==> params == []
  {
    if params != [] {
      StringifyScalars(params[1..]);
    }
    StringifyEmpty(params);
  }

  /** Splitting a non-empty query string on `&` gives back its fields: no key or value contributes an `&`. */
  lemma StringifySplits(params: Object)
    requires Fields(params) != []
    ensures Split(Stringify(params), '&') == Fields(params)
  {
    SplitJoin(Fields(params), '&');
  }
}
