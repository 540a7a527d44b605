/**
 * `random.choice` with the randomness taken as a parameter: a draw is a natural number and
 * the element chosen is the one at the draw's position wrapped around the list.
 */
module Choice {
  import opened Batching

  /** The position chosen in a list of n elements by the draw `pick`. */
  function Index(pick: nat, n: nat): (r: nat)
    requires n > 0
    ensures r < n
    decreases pick
  {
    if pick < n then pick else Index(pick - n, n)
  }

  /** The position is the draw reduced modulo the length of the list. */
  lemma {:induction false} IndexIsMod(pick: nat, n: nat)
    requires n > 0
    ensures Index(pick, n) == pick % n
    decreases pick
  {
    if pick >= n {
      IndexIsMod(pick - n, n);
      var q := (pick - n) / n;
      assert pick - n == q * n + (pick - n) % n;
      assert pick == (q + 1) * n + (pick - n) % n;
      ModUnique(pick, n, q + 1, (pick - n) % n);
    } else {
      ModUnique(pick, n, 0, pick);
    }
  }

  /** A division with remainder is unique: `a == q * n + r` with `r < n` fixes `a % n` as r. */
  lemma ModUnique(a: nat, n: nat, q: nat, r: nat)
    requires n > 0 && a == q * n + r && r < n
    ensures a % n == r
  {
    var q2 := a / n;
    var r2 := a % n;
    assert a == q2 * n + r2;
    if q > q2 {
      MulMonotone(q2 + 1, q, n);
      assert false;
    } else if q < q2 {
      MulMonotone(q + 1, q2, n);
      assert false;
    }
  }

  /** Every position can be chosen: the draw k picks position k. */
  lemma IndexReaches(k: nat, n: nat)
    requires k < n
    ensures Index(k, n) == k
  {
  }
}
