/**
 * The batch windows of a `for start in range(0, n, size)` loop whose body takes
 * `[start, min(start + size, n))`, and the ceiling division the page counts use.
 */
module Batching {

  function Min(a: int, b: int): int {
    if a <= b then a else b
  }

  /** The integer ceiling of n / b, written as Python's `(n + b - 1) // b`. */
  function CeilDiv(n: nat, b: nat): nat
    requires b > 0
  {
    (n + b - 1) / b
  }

  /** CeilDiv is the least number of b-sized pages that hold n items. */
  lemma CeilDivIsCeiling(n: nat, b: nat)
    requires b > 0
    ensures CeilDiv(n, b) * b >= n
    ensures CeilDiv(n, b) == 0 || (CeilDiv(n, b) - 1) * b < n
    ensures n == 0 <==> CeilDiv(n, b) == 0
  {
    var q := (n + b - 1) / b;
    var r := (n + b - 1) % b;
    assert n + b - 1 == q * b + r;
  }

  lemma {:induction false} MulMonotone(x: nat, y: nat, b: nat)
    requires x <= y
    ensures x * b <= y * b
    decreases y - x
  {
    if x < y {
      MulMonotone(x, y - 1, b);
      assert (y - 1) * b + b == y * b;
    }
  }

  /** Any c with c * b >= n > (c - 1) * b is the ceiling. */
  lemma CeilDivUnique(n: nat, b: nat, c: nat)
    requires b > 0
    requires c * b >= n && (c == 0 || (c - 1) * b < n)
    ensures c == CeilDiv(n, b)
  {
    var d := CeilDiv(n, b);
    CeilDivIsCeiling(n, b);
    if c < d {
      MulMonotone(c, d - 1, b);
    } else if d < c {
      MulMonotone(d, c - 1, b);
    }
  }

  lemma CeilDivStep(n: nat, b: nat)
    requires 0 < b < n
    ensures CeilDiv(n, b) == 1 + CeilDiv(n - b, b)
  {
    var d := CeilDiv(n - b, b);
    CeilDivIsCeiling(n - b, b);
    assert (1 + d) * b == d * b + b;
    assert d > 0;
    assert (d - 1) * b + b == d * b;
    CeilDivUnique(n, b, 1 + d);
  }

  /** The windows `(start, end)` the loop visits, for `start` in `range(from, n, b)`. */
  function RangesFrom(from: nat, n: nat, b: nat): seq<(nat, nat)>
    requires b > 0
    decreases n - from
  {
    if from >= n then [] else [(from, Min(from + b, n))] + RangesFrom(from + b, n, b)
  }

  function BatchRanges(n: nat, b: nat): seq<(nat, nat)>
    requires b > 0
  {
    RangesFrom(0, n, b)
  }

  /** The number of items in each window, that is, the size of each insert call. */
  function Sizes(r: seq<(nat, nat)>): (s: seq<int>)
    ensures |s| == |r|
    ensures forall k :: 0 <= k < |r| ==> s[k] == r[k].1 as int - r[k].0 as int
  {
    if r == [] then [] else [r[0].1 as int - r[0].0 as int] + Sizes(r[1..])
  }

  lemma SizesAppend(r: seq<(nat, nat)>, t: seq<(nat, nat)>)
    ensures Sizes(r + t) == Sizes(r) + Sizes(t)
  {
  }

  /** The windows tile [from, n) in order: each holds 1..b items, all but the last exactly b. */
  predicate Tiles(r: seq<(nat, nat)>, from: nat, n: nat, b: nat) {
    && (r == [] <==> from >= n)
    && (r != [] ==> r[0].0 == from && r[|r| - 1].1 == n)
    && (forall k :: 0 <= k < |r| ==> r[k].0 < r[k].1 <= r[k].0 + b)
    && (forall k :: 0 <= k < |r| - 1 ==> r[k].1 == r[k + 1].0 && r[k].1 == r[k].0 + b)
  }

  /** `range(from, n, b)` gives ceil((n - from) / b) windows. */
  lemma {:induction false} RangesFromCount(from: nat, n: nat, b: nat)
    requires b > 0 && from <= n
    ensures |RangesFrom(from, n, b)| == CeilDiv(n - from, b)
    decreases n - from
  {
    if from == n {
      assert CeilDiv(0, b) == 0;
    } else if from + b >= n {
      assert RangesFrom(from + b, n, b) == [];
      CeilDivIsCeiling(n - from, b);
      CeilDivUnique(n - from, b, 1);
    } else {
      RangesFromCount(from + b, n, b);
      assert |RangesFrom(from, n, b)| == 1 + |RangesFrom(from + b, n, b)|;
      assert n - (from + b) == (n - from) - b;
      CeilDivStep(n - from, b);
    }
  }

  /** The windows of `range(from, n, b)` tile [from, n) in order. */
  lemma {:induction false} RangesFromTile(from: nat, n: nat, b: nat)
    requires b > 0 && from <= n
    ensures Tiles(RangesFrom(from, n, b), from, n, b)
    decreases n - from
  {
    var r := RangesFrom(from, n, b);
    if from == n {
    } else if from + b >= n {
      assert RangesFrom(from + b, n, b) == [];
      assert r == [(from, n)];
    } else {
      RangesFromTile(from + b, n, b);
      var t := RangesFrom(from + b, n, b);
      assert r == [(from, from + b)] + t;
      assert t != [] && t[0].0 == from + b;
      assert forall k :: 1 <= k < |r| ==> r[k] == t[k - 1];
    }
  }

  /** Stopping after m full windows and resuming there visits the same windows. */
  lemma {:induction false} RangesFromSplit(from: nat, m: nat, n: nat, b: nat)
    requires b > 0 && from + m * b <= n
    ensures RangesFrom(from, n, b) == RangesFrom(from, from + m * b, b) + RangesFrom(from + m * b, n, b)
    decreases m
  {
    if m > 0 {
      assert m * b == (m - 1) * b + b;
      RangesFromSplit(from + b, m - 1, n, b);
    }
  }

  /** One iteration of the loop: the window at `from`, then the windows after it. */
  lemma RangesFromSizesStep(from: nat, n: nat, b: nat)
    requires b > 0 && from < n
    ensures Sizes(RangesFrom(from, n, b)) == [Min(from + b, n) - from] + Sizes(RangesFrom(from + b, n, b))
  {
    var t := RangesFrom(from + b, n, b);
    assert RangesFrom(from, n, b) == [(from, Min(from + b, n))] + t;
    SizesAppend([(from, Min(from + b, n))], t);
  }

  /** After m full windows, the next r <= b items form one more window (none when r = 0). */
  lemma BatchRangesExtend(m: nat, r: nat, b: nat)
    requires 0 < b && r <= b
    ensures Sizes(BatchRanges(m * b + r, b)) == Sizes(BatchRanges(m * b, b)) + (if r == 0 then [] else [r])
  {
    var f := m * b;
    RangesFromSplit(0, m, f + r, b);
    assert RangesFrom(0, f + r, b) == RangesFrom(0, f, b) + RangesFrom(f, f + r, b);
    if r == 0 {
      assert RangesFrom(f, f, b) == [];
      assert RangesFrom(0, f, b) + [] == RangesFrom(0, f, b);
    } else {
      assert RangesFrom(f + b, f + r, b) == [];
      assert RangesFrom(f, f + r, b) == [(f, f + r)];
      SizesAppend(RangesFrom(0, f, b), [(f, f + r)]);
      assert Sizes([(f, f + r)]) == [r];
    }
  }

  /** The windows of `range(0, n, b)`: ceil(n / b) of them, tiling [0, n) in order. */
  lemma BatchRangesTile(n: nat, b: nat)
    requires b > 0
    ensures Tiles(BatchRanges(n, b), 0, n, b)
    ensures |BatchRanges(n, b)| == CeilDiv(n, b)
  {
    RangesFromTile(0, n, b);
    RangesFromCount(0, n, b);
  }
}
