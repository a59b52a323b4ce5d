/** Generation, long division, trial division and printing compose to the identity: the browser's
    answer is the string the server hashes. */
module Challenge {
  import opened Common
  import opened Bignum
  import opened Generator
  import opened Primes
  import opened Printer
  import opened Runs
  import opened Solver
  import SimpleJson
  import Validator

  /** Every challenge has at least one quad. */
  function Quads(quads: nat): nat { if quads == 0 then 1 else quads }

  lemma {:induction false} Pow64IsPow2(n: nat)
    ensures Pow64(n) == Pow2(6 * n)
  {
    if n > 0 {
      Pow64IsPow2(n - 1);
      var m := 6 * (n - 1);
      assert Pow2(m + 6) == 2 * Pow2(m + 5) == 4 * Pow2(m + 4) == 8 * Pow2(m + 3);
      assert Pow2(m + 3) == 2 * Pow2(m + 2) == 4 * Pow2(m + 1) == 8 * Pow2(m);
    }
  }

  /** A challenge of n digits has fewer than 6n prime factors. */
  lemma FactorCount(chars: string, keys: multiset<nat>)
    requires Balanced(chars, keys)
    ensures |keys| < 6 * |chars|
  {
    MembersPrime(keys);
    ProductLowerBound(keys);
    ValueBound(chars);
    Pow64IsPow2(|chars|);
    Pow2Monotone(|keys|, 6 * |chars|);
  }

  /** Trial division on a generated challenge lists its factors exactly when its ticks are enough. */
  lemma SolverFindsFactors(chars: string, keys: multiset<nat>, ticks: nat)
    requires Balanced(chars, keys) && ticks >= 1
    ensures IsRunLength(Trial(Value(chars), 2, 0, [], ticks), Found(keys, 2, ticks))
    ensures Found(keys, 2, ticks) == keys <==> Enough(keys, 2, ticks)
  {
    hide IsRunLength, Product, Trial, Found, Enough;
    MembersPrime(keys);
    RepeatOne(2, 0);
    TrialFinds(keys, 2, 0, [], ticks);
    assert Tally([]) + Repeat(2, 0) + Found(keys, 2, ticks) == Found(keys, 2, ticks);
    FoundAll(keys, 2, ticks);
  }

  /** The tick limit never cuts off a challenge of at most 41,665 quads. */
  lemma BudgetSuffices(chars: string, keys: multiset<nat>, quads: nat)
    requires Balanced(chars, keys) && |chars| == 4 * Quads(quads)
    requires 24 * Quads(quads) + 28 <= TICKS
    ensures Enough(keys, 2, TICKS)
  {
    FactorCount(chars, keys);
    MembersPrime(keys);
  }

  /** From 41,667 quads on it can: a challenge drawn from twos alone needs more ticks than there are. */
  lemma TwosExceedBudget(chars: string, keys: multiset<nat>, quads: nat)
    requires Balanced(chars, keys) && |chars| == 4 * quads
    requires forall q :: q in keys ==> q == 2
    requires 24 * quads - 6 > TICKS
    ensures !Enough(keys, 2, TICKS)
  {
    assert keys == multiset{}[2 := |keys|] by { OnlyTwosAre(keys); }
    TwosProduct(|keys|);
    CanonicalLowerBound(chars);
    Pow64IsPow2(|chars| - 1);
    if |keys| < 6 * (|chars| - 1) {
      Pow2Above(|keys|, 6 * (|chars| - 1));
    }
    var q :| q in keys;
    assert |keys| + Steps(2, q) > TICKS;
  }

  lemma {:induction false} OnlyTwosAre(keys: multiset<nat>)
    requires forall q :: q in keys ==> q == 2
    ensures keys == multiset{}[2 := |keys|]
    decreases |keys|
  {
    if keys != multiset{} {
      assert 2 in keys;
      OnlyTwosAre(keys - multiset{2});
      assert keys == (keys - multiset{2}) + multiset{2};
    } else {
      assert multiset{}[2 := 0] == multiset{};
    }
  }

  lemma {:induction false} Pow2Above(a: nat, b: nat)
    requires a < b
    ensures Pow2(a) < Pow2(b)
  {
    if a < b - 1 { Pow2Above(a, b - 1); }
  }

  lemma NoZeroFactor(keys: multiset<nat>)
    requires Drawn(keys)
    ensures NonZero(keys) == keys
  {
    MembersPrime(keys);
  }

  /** The posted answer comes out of the JSON parser as it went in. */
  ghost predicate Survives(answer: string) {
    forall id: string :: id != "" && '"' !in id ==>
      var r := SimpleJson.Run(SimpleJson.INITIAL, SimpleJson.Posted(id, answer));
      r.At? && r.state.pairs == map["type" := "factors", "id" := id, "factors" := answer]
  }

  /** The JSON parser of one server and the answer validator of the other let the hashed answer through. */
  lemma AnswerPasses(challenge: string, keys: multiset<nat>, runs: seq<Run>)
    requires Balanced(challenge, keys) && |challenge| >= 2 && IsRunLength(runs, keys)
    ensures Validator.Accepts(Text(runs)) && Survives(Text(runs))
  {
    hide SimpleJson.Run, Validator.Accepts, SimpleJson.Posted, Text, IsRunLength;
    CanonicalLowerBound(challenge);
    assert Pow64(|challenge| - 1) >= 64;
    assert keys != multiset{};
    NonEmptyListing(runs, keys);
    MembersPrime(keys);
    RunsAreMembers(runs, keys);
    AscendingListing(runs, keys);
    Validator.AcceptsExactlyOrdered(runs);
    forall id: string | id != "" && '"' !in id
      ensures var r := SimpleJson.Run(SimpleJson.INITIAL, SimpleJson.Posted(id, Text(runs)));
        r.At? && r.state.pairs == map["type" := "factors", "id" := id, "factors" := Text(runs)]
    {
      SimpleJson.AnswerSurvives(id, runs);
    }
  }

  lemma NonEmptyListing(runs: seq<Run>, keys: multiset<nat>)
    requires IsRunLength(runs, keys) && keys != multiset{}
    ensures runs != []
  {
  }

  lemma AscendingListing(runs: seq<Run>, keys: multiset<nat>)
    requires IsRunLength(runs, keys)
    ensures Ascending(runs)
  {
  }

  /** The whole exchange. For every sequence of random numbers, the string the browser computes from
      the challenge is the string the server printed from its factors, if and only if the browser's
      ticks are enough for them; they are for every challenge of at most 41,665 quads, and they are not
      when a generator of more than 41,666 quads draws only twos. The hashed string
      passes the JSON parser and the answer validator. */
  method Exchange(quads: nat, rand: nat -> int)
    returns (challenge: string, hashed: string, solved: string, ghost keys: multiset<nat>, ghost k: nat)
    ensures Balanced(challenge, keys) && |challenge| == 4 * Quads(quads)
    ensures FromDraws(rand, quads, keys, k)
    ensures exists runs :: IsRunLength(runs, keys) && hashed == Text(runs)
    ensures solved == hashed <==> Enough(keys, 2, TICKS)
    ensures 24 * Quads(quads) + 28 <= TICKS ==> solved == hashed
    ensures 24 * quads - 6 > TICKS && OnlyTwos(rand) ==> solved != hashed
    ensures Validator.Accepts(hashed) && Survives(hashed)
  {
    hide Product, IsRunLength, Trial, Text, Drawn, Enough, Found, Survives, Validator.Accepts, FromDraws;
    var b64, factors;
    b64, factors, k := Generate(quads, rand);
    challenge := b64.chars;
    var out, runs := FactorsToStr(factors);
    hashed := out[..out.Length - 1];
    solved := GetFactors(challenge);
    keys := factors.keys;
    NoZeroFactor(keys);
    SolverFindsFactors(challenge, keys, TICKS);
    if 24 * Quads(quads) + 28 <= TICKS {
      BudgetSuffices(challenge, keys, quads);
    }
    if 24 * quads - 6 > TICKS && OnlyTwos(rand) {
      TwosExceedBudget(challenge, keys, quads);
    }
    DistinctMultisetsPrintDistinctly(Trial(Value(challenge), 2, 0, [], TICKS), Found(keys, 2, TICKS), runs, keys);
    assert hashed == Text(runs);
    AnswerPasses(challenge, keys, runs);
  }
}
