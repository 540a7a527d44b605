/**
 * The unique-value generators of the populator scripts (`generate_unique_email`, copied
 * verbatim into the three scripts, and `generate_unique_code`): retry against a ledger of
 * values already handed out, up to an attempt ceiling, then fall back on a timestamp value
 * that is added without being checked.
 */
module UniqueValues {
  import opened Wrappers
  import opened Digits

  /** `max_attempts` in both generators. */
  const MaxAttempts: nat := 1000

  /** What `fake.email()` returns on each of the attempts of one call, the random source seen as an oracle. */
  type EmailDraws = s: seq<string> | |s| == MaxAttempts witness Repeat("", MaxAttempts)

  /** What `random.randint` returns on each of the attempts of one call. */
  type CodeDraws = s: seq<nat> | |s| == MaxAttempts witness Repeat(0, MaxAttempts)

  /**
   * What one call of a generator can produce: the `fake.email()` draws of an email call, or
   * the prefix and `randint` draws of a code call, together with the timestamp value of the
   * fallback.
   */
  datatype Candidates =
    | Emails(draws: EmailDraws, fallback: string)
    | Codes(prefix: string, digits: CodeDraws, fallback: string)

  /** The candidate of attempt i: the i-th email drawn, or the prefix followed by the i-th number drawn. */
  function Attempt(c: Candidates, i: nat): string
    requires i < MaxAttempts
  {
    match c
    case Emails(draws, _) => draws[i]
    case Codes(prefix, digits, _) => prefix + Decimal(digits[i])
  }

  /** The first attempt in [from, MaxAttempts) whose candidate is not in the ledger. */
  function FirstFresh(c: Candidates, used: set<string>, from: nat): (r: Option<nat>)
    ensures r.Some? ==> from <= r.value < MaxAttempts && Attempt(c, r.value) !in used
    ensures r.Some? ==> forall j :: from <= j < r.value ==> Attempt(c, j) in used
    ensures r.None? ==> forall j :: from <= j < MaxAttempts ==> Attempt(c, j) in used
    decreases MaxAttempts - from
  {
    if from >= MaxAttempts then None
    else if Attempt(c, from) !in used then Some(from)
    else FirstFresh(c, used, from + 1)
  }

  /** The retry loop finds a fresh candidate within the attempt ceiling. */
  predicate TakesLoopPath(c: Candidates, used: set<string>) {
    FirstFresh(c, used, 0).Some?
  }

  /** The value one generator call returns when the ledger holds `used`. */
  function Pick(c: Candidates, used: set<string>): string {
    match FirstFresh(c, used, 0)
    case Some(k) => Attempt(c, k)
    case None => c.fallback
  }

  /**
   * On the loop path the value is one of the first MaxAttempts candidates and is not in the
   * ledger; otherwise every one of those candidates was taken and the fallback is returned,
   * whether or not the ledger already holds it.
   */
  lemma PickSpec(c: Candidates, used: set<string>)
    ensures TakesLoopPath(c, used) ==>
      Pick(c, used) !in used && exists k :: 0 <= k < MaxAttempts && Pick(c, used) == Attempt(c, k)
    ensures !TakesLoopPath(c, used) ==>
      Pick(c, used) == c.fallback && forall j :: 0 <= j < MaxAttempts ==> Attempt(c, j) in used
  {
    if TakesLoopPath(c, used) {
      var k := FirstFresh(c, used, 0).value;
      assert Pick(c, used) == Attempt(c, k);
    }
  }

  /** The fallback is not re-checked: a ledger holding every candidate and the fallback yields a repeat. */
  lemma FallbackMayRepeat()
    ensures exists c: Candidates, used: set<string> ::
      !TakesLoopPath(c, used) && Pick(c, used) in used
  {
    var c := Emails(Repeat("ana@example.com", MaxAttempts), "ana1700000000@example.com");
    var used := {"ana@example.com", "ana1700000000@example.com"};
    forall j | 0 <= j < MaxAttempts
      ensures Attempt(c, j) in used
    {
      assert c.draws[j] == "ana@example.com";
    }
    assert FirstFresh(c, used, 0).None?;
    assert Pick(c, used) in used;
  }

  /** Successive calls sharing one ledger: the values returned, in call order. */
  function Run(cs: seq<Candidates>, used: set<string>): (r: seq<string>)
    ensures |r| == |cs|
  {
    if cs == [] then [] else
      var v := Pick(cs[0], used);
      [v] + Run(cs[1..], used + {v})
  }

  function Elems(s: seq<string>): set<string> {
    if s == [] then {} else {s[0]} + Elems(s[1..])
  }

  lemma {:induction false} ElemsHas(s: seq<string>, j: nat)
    requires j < |s|
    ensures s[j] in Elems(s)
  {
    if j > 0 {
      ElemsHas(s[1..], j - 1);
    }
  }

  /** Call i of a run sees the starting ledger plus every value returned before it. */
  lemma ElemsPrefixCons(v: string, rest: seq<string>, i: nat)
    requires 0 < i <= |rest| + 1
    ensures Elems(([v] + rest)[..i]) == {v} + Elems(rest[..i - 1])
  {
    var p := ([v] + rest)[..i];
    assert p[0] == v && p[1..] == rest[..i - 1];
  }

  lemma {:induction false} RunStep(cs: seq<Candidates>, used: set<string>, i: nat)
    requires i < |cs|
    ensures Run(cs, used)[i] == Pick(cs[i], used + Elems(Run(cs, used)[..i]))
  {
    var r := Run(cs, used);
    if i == 0 {
      assert r[..0] == [];
      assert used + Elems(r[..0]) == used;
    } else {
      var v := Pick(cs[0], used);
      var rest := Run(cs[1..], used + {v});
      assert r == [v] + rest;
      var ledger := used + Elems(r[..i]);
      assert ledger == (used + {v}) + Elems(rest[..i - 1]) by {
        ElemsPrefixCons(v, rest, i);
      }
      calc {
        r[i];
        rest[i - 1];
        { RunStep(cs[1..], used + {v}, i - 1); }
        Pick(cs[1..][i - 1], (used + {v}) + Elems(rest[..i - 1]));
        { assert cs[1..][i - 1] == cs[i]; }
        Pick(cs[i], ledger);
      }
    }
  }

  /**
   * A value produced on the loop path repeats neither the starting ledger nor any earlier
   * value of the run. Values produced by the fallback carry no such promise.
   */
  lemma RunLoopPathFresh(cs: seq<Candidates>, used: set<string>, i: nat)
    requires i < |cs|
    requires TakesLoopPath(cs[i], used + Elems(Run(cs, used)[..i]))
    ensures Run(cs, used)[i] !in used
    ensures forall j :: 0 <= j < i ==> Run(cs, used)[j] != Run(cs, used)[i]
  {
    var r := Run(cs, used);
    var ledger := used + Elems(r[..i]);
    RunStep(cs, used, i);
    PickSpec(cs[i], ledger);
    forall j | 0 <= j < i
      ensures r[j] != r[i]
    {
      ElemsHas(r[..i], j);
    }
  }

  /** One more call extends the run by the value it picks against the ledger so far. */
  lemma {:induction false} RunAppend(cs: seq<Candidates>, c: Candidates, used: set<string>)
    ensures Run(cs + [c], used) == Run(cs, used) + [Pick(c, LedgerAfter(cs, used))]
  {
    if cs == [] {
      assert cs + [c] == [c];
      assert Elems([]) == {};
    } else {
      var v := Pick(cs[0], used);
      var rest := Run(cs[1..], used + {v});
      calc {
        Run(cs + [c], used);
        { TailSnoc(cs, c); }
        [v] + Run(cs[1..] + [c], used + {v});
        { RunAppend(cs[1..], c, used + {v}); LedgerAfterCons(cs, used); }
        [v] + (rest + [Pick(c, LedgerAfter(cs, used))]);
        ([v] + rest) + [Pick(c, LedgerAfter(cs, used))];
      }
    }
  }

  /** The ledger after a run is the ledger after the rest of the run, started from the first value added. */
  lemma LedgerAfterCons(cs: seq<Candidates>, used: set<string>)
    requires cs != []
    ensures LedgerAfter(cs[1..], used + {Pick(cs[0], used)}) == LedgerAfter(cs, used)
  {
    var v := Pick(cs[0], used);
    var rest := Run(cs[1..], used + {v});
    assert Run(cs, used) == [v] + rest;
    assert Elems([v] + rest) == {v} + Elems(rest) by {
      assert ([v] + rest)[0] == v && ([v] + rest)[1..] == rest;
    }
  }

  /** Dropping the head of a non-empty sequence commutes with appending at its end. */
  lemma TailSnoc<T>(s: seq<T>, x: T)
    requires s != []
    ensures (s + [x])[0] == s[0] && (s + [x])[1..] == s[1..] + [x]
  {
  }

  /** Every value of the run ends up in the ledger: the ledger only grows. */
  function LedgerAfter(cs: seq<Candidates>, used: set<string>): set<string> {
    used + Elems(Run(cs, used))
  }

  /** One more call adds exactly the value it returns to the ledger. */
  lemma LedgerAppend(cs: seq<Candidates>, c: Candidates, used: set<string>)
    ensures LedgerAfter(cs + [c], used) == LedgerAfter(cs, used) + {Pick(c, LedgerAfter(cs, used))}
  {
    RunAppend(cs, c, used);
    ElemsSnoc(Run(cs, used), Pick(c, LedgerAfter(cs, used)));
  }

  lemma {:induction false} ElemsSnoc(s: seq<string>, x: string)
    ensures Elems(s + [x]) == Elems(s) + {x}
  {
    if s != [] {
      assert (s + [x])[1..] == s[1..] + [x];
      ElemsSnoc(s[1..], x);
    } else {
      assert s + [x] == [x];
    }
  }

  /**
   * A loop that calls a generator once per pass, after i passes: `handed` is what the first i
   * calls returned and the ledger holds exactly those values on top of its start.
   */
  ghost predicate LedgerRun(cs: seq<Candidates>, i: nat, used0: set<string>, handed: seq<string>, used: set<string>) {
    i <= |cs| && handed == Run(cs[..i], used0) && used == used0 + Elems(handed)
  }

  /** Pass i returns the value its call picks against the ledger so far. */
  lemma LedgerRunStep(cs: seq<Candidates>, i: nat, used0: set<string>, handed: seq<string>, used: set<string>)
    requires i < |cs| && LedgerRun(cs, i, used0, handed, used)
    ensures LedgerRun(cs, i + 1, used0, handed + [Pick(cs[i], used)], used + {Pick(cs[i], used)})
  {
    assert cs[..i + 1] == cs[..i] + [cs[i]];
    RunAppend(cs[..i], cs[i], used0);
    ElemsSnoc(handed, Pick(cs[i], used));
  }

  lemma LedgerRunDone(cs: seq<Candidates>, used0: set<string>, handed: seq<string>, used: set<string>)
    requires LedgerRun(cs, |cs|, used0, handed, used)
    ensures handed == Run(cs, used0) && used == LedgerAfter(cs, used0)
  {
    assert cs[..|cs|] == cs;
  }

  /** The candidates of one `generate_unique_email` call: `fake.email()` draws, then user+timestamp@domain. */
  function EmailCandidates(draws: EmailDraws, userName: string, timestamp: nat, domain: string): Candidates {
    Emails(draws, userName + Decimal(timestamp) + "@" + domain)
  }

  /** The oracle outputs one `generate_unique_email` call consumes. */
  datatype EmailSource = EmailSource(draws: EmailDraws, userName: string, timestamp: nat, domain: string)

  function EmailCandidatesOf(src: EmailSource): Candidates {
    EmailCandidates(src.draws, src.userName, src.timestamp, src.domain)
  }

  function EmailCandidatesOfAll(srcs: seq<EmailSource>): (cs: seq<Candidates>)
    ensures |cs| == |srcs|
    ensures forall i :: 0 <= i < |srcs| ==> cs[i] == EmailCandidatesOf(srcs[i])
  {
    if srcs == [] then [] else [EmailCandidatesOf(srcs[0])] + EmailCandidatesOfAll(srcs[1..])
  }

  lemma {:induction false} EmailCandidatesOfSnoc(srcs: seq<EmailSource>, src: EmailSource)
    ensures EmailCandidatesOfAll(srcs + [src]) == EmailCandidatesOfAll(srcs) + [EmailCandidatesOf(src)]
  {
    if srcs != [] {
      assert (srcs + [src])[1..] == srcs[1..] + [src];
      EmailCandidatesOfSnoc(srcs[1..], src);
    } else {
      assert srcs + [src] == [src];
    }
  }

  lemma EmailCandidatesOfPrefix(srcs: seq<EmailSource>, i: nat)
    requires i < |srcs|
    ensures EmailCandidatesOfAll(srcs[..i + 1]) == EmailCandidatesOfAll(srcs[..i]) + [EmailCandidatesOf(srcs[i])]
  {
    assert srcs[..i + 1] == srcs[..i] + [srcs[i]];
    EmailCandidatesOfSnoc(srcs[..i], srcs[i]);
  }

  /** The candidates of one `generate_unique_code` call: prefixed draws, then prefix+timestamp. */
  function CodeCandidates(prefix: string, draws: CodeDraws, timestamp: nat): Candidates {
    Codes(prefix, draws, prefix + Decimal(timestamp))
  }

  /** `randint(10 ** (length - 1), 10 ** length - 1)` returns a value in this range. */
  predicate InCodeRange(length: nat, k: nat) {
    length >= 1 && Pow10(length - 1) <= k < Pow10(length)
  }

  /**
   * On the loop path a code is the prefix followed by exactly `length` digits, and the digits
   * are a number the `randint` call could have drawn.
   */
  lemma LoopCodeShape(prefix: string, length: nat, draws: CodeDraws, timestamp: nat, used: set<string>)
    requires forall i :: 0 <= i < |draws| ==> InCodeRange(length, draws[i])
    requires TakesLoopPath(CodeCandidates(prefix, draws, timestamp), used)
    ensures var code := Pick(CodeCandidates(prefix, draws, timestamp), used);
      code !in used &&
      exists k :: InCodeRange(length, k) && code == prefix + Decimal(k) && |code| == |prefix| + length
  {
    var c := CodeCandidates(prefix, draws, timestamp);
    var i := FirstFresh(c, used, 0).value;
    var k := draws[i];
    assert Pick(c, used) == prefix + Decimal(k);
    DecimalLength(k, length);
  }

  /** A ledger of values already handed out for one uniquely-constrained field. */
  class Ledger {
    var used: set<string>

    constructor ()
      ensures used == {}
    {
      used := {};
    }

    /** `generate_unique_email`: the first unused `fake.email()` within 1000 attempts, else the fallback. */
    method GenerateUniqueEmail(draws: EmailDraws, userName: string, timestamp: nat, domain: string)
      returns (email: string)
      modifies this
      ensures email == Pick(EmailCandidates(draws, userName, timestamp, domain), old(used))
      ensures used == old(used) + {email}
    {
      ghost var c := EmailCandidates(draws, userName, timestamp, domain);
      var attempts := 0;
      while attempts < MaxAttempts
        invariant 0 <= attempts <= MaxAttempts
        invariant used == old(used)
        invariant FirstFresh(c, used, 0) == FirstFresh(c, used, attempts)
      {
        var candidate := draws[attempts];
        if candidate !in used {
          used := used + {candidate};
          return candidate;
        }
        attempts := attempts + 1;
      }
      email := userName + Decimal(timestamp) + "@" + domain;
      used := used + {email};
    }

    /** `generate_unique_code`: the first unused prefixed draw within 1000 attempts, else prefix+timestamp. */
    method GenerateUniqueCode(prefix: string, draws: CodeDraws, timestamp: nat) returns (code: string)
      modifies this
      ensures code == Pick(CodeCandidates(prefix, draws, timestamp), old(used))
      ensures used == old(used) + {code}
    {
      ghost var c := CodeCandidates(prefix, draws, timestamp);
      var attempts := 0;
      while attempts < MaxAttempts
        invariant 0 <= attempts <= MaxAttempts
        invariant used == old(used)
        invariant FirstFresh(c, used, 0) == FirstFresh(c, used, attempts)
      {
        var candidate := prefix + Decimal(draws[attempts]);
        if candidate !in used {
          used := used + {candidate};
          return candidate;
        }
        attempts := attempts + 1;
      }
      code := prefix + Decimal(timestamp);
      used := used + {code};
    }
  }
}
