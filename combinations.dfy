/**
 * The combination ledger the enrollment phases use: a pair drawn at random is accepted only
 * if it has not been accepted before, and the ledger remembers every accepted pair.
 */
module Combinations {

  /** A (student id, course id) combination. */
  type Pair = (nat, nat)

  /** The picks a ledger that starts as `seen` accepts, in order. */
  function Accept(picks: seq<Pair>, seen: set<Pair>): seq<Pair> {
    if picks == [] then []
    else if picks[0] in seen then Accept(picks[1..], seen)
    else [picks[0]] + Accept(picks[1..], seen + {picks[0]})
  }

  predicate NoDuplicates(s: seq<Pair>) {
    forall i, j :: 0 <= i < j < |s| ==> s[i] != s[j]
  }

  /**
   * No pair is accepted twice, no pair already in the ledger is accepted, every accepted pair
   * is one of the picks, and at most as many pairs are accepted as were picked.
   */
  lemma {:induction false} AcceptSound(picks: seq<Pair>, seen: set<Pair>)
    ensures var a := Accept(picks, seen);
      && NoDuplicates(a)
      && (forall k :: 0 <= k < |a| ==> a[k] !in seen && a[k] in picks)
      && |a| <= |picks|
  {
    if picks != [] {
      var p := picks[0];
      if p in seen {
        AcceptSound(picks[1..], seen);
      } else {
        AcceptSound(picks[1..], seen + {p});
        var rest := Accept(picks[1..], seen + {p});
        var a := [p] + rest;
        assert forall k :: 1 <= k < |a| ==> a[k] == rest[k - 1];
      }
    }
  }

  /** Nothing is lost: every pick is in the starting ledger or accepted. */
  lemma {:induction false} AcceptComplete(picks: seq<Pair>, seen: set<Pair>)
    ensures forall p :: p in picks ==> p in seen || p in Accept(picks, seen)
  {
    if picks != [] {
      var p := picks[0];
      AcceptComplete(picks[1..], if p in seen then seen else seen + {p});
      forall q | q in picks
        ensures q in seen || q in Accept(picks, seen)
      {
        if q != p {
          assert q in picks[1..];
        }
      }
    }
  }

  /** Accepting in two steps is accepting the concatenation; the ledger grows by what was accepted. */
  lemma {:induction false} AcceptAppend(picks: seq<Pair>, p: Pair, seen: set<Pair>)
    ensures Accept(picks + [p], seen) ==
      Accept(picks, seen) + (if p in seen + Set(Accept(picks, seen)) then [] else [p])
  {
    if picks == [] {
      assert picks + [p] == [p];
    } else {
      var q := picks[0];
      assert (picks + [p])[1..] == picks[1..] + [p];
      if q in seen {
        AcceptAppend(picks[1..], p, seen);
      } else {
        AcceptAppend(picks[1..], p, seen + {q});
        assert Set([q] + Accept(picks[1..], seen + {q})) == {q} + Set(Accept(picks[1..], seen + {q}));
      }
    }
  }

  function Set(s: seq<Pair>): set<Pair> {
    set x | x in s
  }
}
