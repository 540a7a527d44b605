/**
 * Splitting a string on a one-character separator, as JavaScript's `s.split(sep)` does, and
 * joining the pieces back with it.
 */
module Text {

  /** The position of the first `c` in s, or |s| when there is none. */
  function IndexOf(s: string, c: char): (i: nat)
    ensures i <= |s|
    ensures i < |s| ==> s[i] == c
    ensures forall j :: 0 <= j < i ==> s[j] != c
  {
    if s == [] then 0 else if s[0] == c then 0 else 1 + IndexOf(s[1..], c)
  }

  /** `s.split(sep)`: the pieces between separators; "" gives [""]. */
  function Split(s: string, sep: char): (parts: seq<string>)
    ensures |parts| >= 1
    ensures forall p :: p in parts ==> sep !in p
    ensures sep !in s ==> parts == [s]
    ensures sep in s ==> |parts| >= 2
    decreases |s|
  {
    var i := IndexOf(s, sep);
    if i == |s| then
      assert sep !in s;
      [s]
    else
      assert sep !in s[..i];
      [s[..i]] + Split(s[i + 1..], sep)
  }

  /** `parts.join(sep)`. */
  function Join(parts: seq<string>, sep: char): string {
    if parts == [] then "" else if |parts| == 1 then parts[0] else parts[0] + [sep] + Join(parts[1..], sep)
  }

  /** Joining the pieces gives back the string that was split. */
  lemma {:induction false} JoinSplit(s: string, sep: char)
    ensures Join(Split(s, sep), sep) == s
    decreases |s|
  {
    if IndexOf(s, sep) < |s| {
      var head, tail := SplitFirst(s, sep);
      JoinSplit(tail, sep);
      JoinCons(head, Split(tail, sep), sep);
    }
  }

  /** Splitting a string with a separator in it: the piece before the first one, then the rest split. */
  lemma SplitFirst(s: string, sep: char) returns (head: string, tail: string)
    requires IndexOf(s, sep) < |s|
    ensures s == head + [sep] + tail && |tail| < |s|
    ensures Split(s, sep) == [head] + Split(tail, sep) && Split(tail, sep) != []
  {
    var i := IndexOf(s, sep);
    head, tail := s[..i], s[i + 1..];
    Around(s, i);
  }

  /** A string is what comes before position i, the character at i, and what comes after. */
  lemma Around(s: string, i: nat)
    requires i < |s|
    ensures s == s[..i] + [s[i]] + s[i + 1..]
  {
    assert s == s[..i] + s[i..];
    assert s[i..] == [s[i]] + s[i + 1..];
  }

  /** Joining a piece in front of at least one other puts a separator between them. */
  lemma JoinCons(head: string, rest: seq<string>, sep: char)
    requires rest != []
    ensures Join([head] + rest, sep) == head + [sep] + Join(rest, sep)
  {
    assert ([head] + rest)[1..] == rest;
  }

  /** Pieces free of the separator are recovered by splitting their join. */
  lemma {:induction false} SplitJoin(parts: seq<string>, sep: char)
    requires |parts| >= 1
    requires forall p :: p in parts ==> sep !in p
    ensures Split(Join(parts, sep), sep) == parts
  {
    var head, rest := parts[0], parts[1..];
    assert sep !in head by {
      assert head in parts;
    }
    if rest == [] {
      assert Split(head, sep) == [head];
    } else {
      forall p | p in rest
        ensures sep !in p
      {
        assert p in parts;
      }
      SplitJoin(rest, sep);
      assert parts == [head] + rest;
      JoinCons(head, rest, sep);
      SplitAfter(head, sep, Join(rest, sep));
    }
  }

  /** A string with a separator after a separator-free head splits into that head and the rest split. */
  lemma SplitAfter(head: string, sep: char, tail: string)
    requires sep !in head
    ensures Split(head + [sep] + tail, sep) == [head] + Split(tail, sep)
  {
    var s := head + [sep] + tail;
    IndexOfAfter(head, sep, tail);
    assert s[..|head|] == head;
    assert s[|head| + 1..] == tail;
  }

  /** The first separator in `head + [sep] + tail` is the one after head, when head has none. */
  lemma IndexOfAfter(head: string, sep: char, tail: string)
    requires sep !in head
    ensures IndexOf(head + [sep] + tail, sep) == |head|
  {
    var s := head + [sep] + tail;
    assert forall j :: 0 <= j < |head| ==> s[j] == head[j];
    assert s[|head|] == sep;
  }
}
