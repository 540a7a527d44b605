/**
 * The loop shapes the populators share. A generator loop makes one call of a unique-value
 * generator per pass, builds a row from the pass's draw and the value handed out, inserts it
 * on its own and appends the entry (row plus fresh id) to the script's in-memory list. A plain
 * loop inserts rows fixed in advance, one by one.
 */
module Populate {
  import opened UniqueValues
  import opened Store

  /** The ledger and the values a generator loop has been handed so far. */
  datatype Handed = Handed(used: set<string>, values: seq<string>)

  /**
   * The state after the first i calls `cs[0..i)`, when the ledger started as `used0`: call k
   * picks its value against the ledger so far and adds it to the ledger.
   */
  function Handout(cs: seq<Candidates>, used0: set<string>, i: nat): (h: Handed)
    requires i <= |cs|
    ensures |h.values| == i
  {
    if i == 0 then Handed(used0, [])
    else
      var prev := Handout(cs, used0, i - 1);
      var v := Pick(cs[i - 1], prev.used);
      Handed(prev.used + {v}, prev.values + [v])
  }

  /** One more call from the state after i calls: it returns v against that ledger. */
  lemma HandoutStep(cs: seq<Candidates>, used0: set<string>, i: nat, used: set<string>, values: seq<string>, v: string)
    requires i < |cs| && Handed(used, values) == Handout(cs, used0, i)
    requires v == Pick(cs[i], used)
    ensures Handed(used + {v}, values + [v]) == Handout(cs, used0, i + 1)
  {
  }

  /** After n calls the ledger holds its start plus the first n values of the run, and those are the values handed out. */
  lemma {:induction false} HandoutRun(cs: seq<Candidates>, used0: set<string>, n: nat)
    requires n <= |cs|
    ensures Handout(cs, used0, n) == Handed(LedgerAfter(cs[..n], used0), Run(cs[..n], used0))
  {
    if n == 0 {
      assert cs[..0] == [];
    } else {
      HandoutRun(cs, used0, n - 1);
      assert cs[..n] == cs[..n - 1] + [cs[n - 1]];
      HandoutRunStep(cs[..n - 1], cs[n - 1], used0, Handout(cs, used0, n - 1));
    }
  }

  /** One more call on top of a run: the ledger and the values are those of the longer run. */
  lemma HandoutRunStep(before: seq<Candidates>, c: Candidates, used0: set<string>, prev: Handed)
    requires prev == Handed(LedgerAfter(before, used0), Run(before, used0))
    ensures var v := Pick(c, prev.used);
      Handed(prev.used + {v}, prev.values + [v]) == Handed(LedgerAfter(before + [c], used0), Run(before + [c], used0))
  {
    RunAppend(before, c, used0);
    LedgerAppend(before, c, used0);
  }

  /** The whole loop: the ledger ends as the run leaves it, and the values handed out are the run. */
  lemma HandoutAll(cs: seq<Candidates>, used0: set<string>)
    ensures Handout(cs, used0, |cs|) == Handed(LedgerAfter(cs, used0), Run(cs, used0))
  {
    HandoutRun(cs, used0, |cs|);
    assert cs[..|cs|] == cs;
  }
}
