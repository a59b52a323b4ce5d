/** The challenge generator: a product of random small primes as a base-64 number. */
module Generator {
  import opened Common
  import opened Machine
  import opened Alphabet
  import opened Bignum
  import opened Heap
  import opened Primes

  /** What every step of the generator keeps: the digits denote the product of the heap. */
  ghost predicate Balanced(chars: string, keys: multiset<nat>) {
    && Canonical(chars) && chars != []
    && Drawn(keys)
    && Value(chars) == Product(keys)
  }

  lemma StepKeepsBalance(chars: string, keys: multiset<nat>, r: nat)
    requires Balanced(chars, keys) && r < 17
    ensures IsDigits(chars)
    ensures Balanced(Scale(chars, Choice(r), 0), keys + multiset{Choice(r)})
    ensures |chars| <= |Scale(chars, Choice(r), 0)| <= |chars| + 1
    ensures Value(Scale(chars, Choice(r), 0)) >= 2 * Value(chars) > 0
  {
    var p := Choice(r);
    ScaleValue(chars, p, 0);
    ScaleShape(chars, p, 0);
    ProductAdd(keys, p);
    CanonicalLowerBound(chars);
    MulDouble(p, Value(chars));
    assert Drawn(keys + multiset{p});
  }

  lemma StartIsBalanced()
    ensures Balanced("B", multiset{})
  {
    assert Value("B") == 1;
  }

  /** While the vector is short of n digits its value is below 64^n. */
  lemma ValueRoom(chars: string, keys: multiset<nat>, n: nat)
    requires Balanced(chars, keys) && |chars| <= n
    ensures Value(chars) < Pow64(n)
  {
    ValueBound(chars);
    Pow64Grows(|chars|, n);
  }

  lemma {:induction false} Pow64Grows(a: nat, b: nat)
    requires a <= b
    ensures Pow64(a) <= Pow64(b)
    decreases b
  {
    if a < b { Pow64Grows(a, b - 1); }
  }

  /** The random draw: `rand()` made non-negative and reduced to one of seventeen cases. */
  function Draw(rand: nat -> int, i: nat): (r: nat)
    ensures r < 17
  {
    var x := rand(i);
    (if x < 0 then -x else x) % 17
  }

  /** The seventeen primes in order, the i-th selected by a random number of remainder i. */
  const PRIMES: seq<nat> := [2, 3, 5, 7, 11, 13, 17, 19, 23, 29, 31, 37, 41, 43, 47, 53, 59]

  function Magnitude(x: int): nat { if x < 0 then -x else x }

  /** The primes that the first k random numbers select. */
  ghost function FirstDraws(rand: nat -> int, k: nat): multiset<nat> {
    if k == 0 then multiset{} else FirstDraws(rand, k - 1) + multiset{PRIMES[Magnitude(rand(k - 1)) % 17]}
  }

  /** The factors are the first k draws, where k is the least number of draws whose product has 4 * quads
      digits; no quads at all are one quad of twos, eighteen of them. */
  ghost predicate FromDraws(rand: nat -> int, quads: nat, keys: multiset<nat>, k: nat) {
    if quads == 0 then k == 0 && keys == multiset{}[2 := 18]
    else
      && keys == FirstDraws(rand, k)
      && Product(FirstDraws(rand, k)) >= Pow64(4 * quads - 1)
      && forall j :: 0 <= j < k ==> Product(FirstDraws(rand, j)) < Pow64(4 * quads - 1)
  }

  lemma NoDraws(rand: nat -> int)
    ensures FirstDraws(rand, 0) == multiset{}
  {
  }

  lemma NextDraw(rand: nat -> int, i: nat)
    ensures FirstDraws(rand, i + 1) == FirstDraws(rand, i) + multiset{Choice(Draw(rand, i))}
  {
    assert Choice(Draw(rand, i)) == PRIMES[Magnitude(rand(i)) % 17];
  }

  /** A canonical vector has more than n digits exactly when its value is at least 64^n. */
  lemma DigitsReach(chars: string, keys: multiset<nat>, n: nat)
    requires Balanced(chars, keys)
    ensures |chars| > n <==> Product(keys) >= Pow64(n)
  {
    ValueBound(chars);
    CanonicalLowerBound(chars);
    if |chars| > n {
      Pow64Grows(n, |chars| - 1);
    } else {
      Pow64Grows(|chars|, n);
    }
  }

  lemma {:induction false} TwosProduct(j: nat)
    ensures Product(multiset{}[2 := j]) == Pow2(j)
  {
    if j == 0 {
      assert multiset{}[2 := 0] == multiset{};
    } else {
      TwosProduct(j - 1);
      assert multiset{}[2 := j] - multiset{2} == multiset{}[2 := j - 1];
      ProductRemove(multiset{}[2 := j], 2);
    }
  }

  /** Eighteen twos are the first to make a number of four digits. */
  lemma EighteenTwos(j: nat)
    requires Product(multiset{}[2 := j]) >= Pow64(3)
    requires j > 0 ==> Product(multiset{}[2 := j - 1]) < Pow64(3)
    ensures j == 18
  {
    TwosProduct(j);
    SmallPowers();
    assert Pow2(17) == 2 * Pow2(16) == 4 * Pow2(15) == 8 * Pow2(14) == 16 * Pow2(13);
    assert Pow2(13) == 2 * Pow2(12) == 4 * Pow2(11) == 8 * Pow2(10) == 16 * Pow2(9) == 32 * Pow2(8);
    assert Pow64(3) == 64 * Pow64(2) == 4096 * Pow64(1) == 262144;
    assert Pow2(18) == 262144;
    if j > 0 { TwosProduct(j - 1); }
    if j > 18 { Pow2Monotone(j - 1, 18); }
    if j <= 17 { Pow2AtLeast(j, 17); }
  }

  /** A source of random numbers that always selects the first prime. */
  ghost predicate OnlyTwos(rand: nat -> int) { forall i: nat :: Choice(Draw(rand, i)) == 2 }

  /** `work_generate_target_factors2`, for every sequence of random numbers. The loop ends because
      the value at least doubles; the vector has exactly four digits per quad, so for quads >= 1
      the padding loop does not run. */
  method Generate(quads: nat, rand: nat -> int) returns (b64: Digits, factors: PriorityHeap, ghost k: nat)
    ensures fresh(b64) && fresh(factors)
    ensures Balanced(b64.chars, factors.keys)
    ensures |b64.chars| == 4 * (if quads == 0 then 1 else quads)
    ensures FromDraws(rand, quads, factors.keys, k)
    ensures OnlyTwos(rand) ==> forall q :: q in factors.keys ==> q == 2
  {
    hide Balanced, Value, Pow64, Scale, Product, FirstDraws;
    b64 := new Digits("B");
    factors := new PriorityHeap();
    var draws: nat := 0;
    StartIsBalanced();
    assert FirstDraws(rand, 0) == multiset{} by { NoDraws(rand); }
    while |b64.chars| / 4 < quads
      invariant fresh(b64) && fresh(factors)
      invariant Balanced(b64.chars, factors.keys)
      invariant factors.keys == FirstDraws(rand, draws) && (quads == 0 ==> draws == 0 && b64.chars == "B")
      invariant quads > 0 ==> forall j :: 0 <= j < draws ==> Product(FirstDraws(rand, j)) < Pow64(4 * quads - 1)
      invariant OnlyTwos(rand) ==> forall q :: q in factors.keys ==> q == 2
      invariant 1 <= |b64.chars| <= 4 * quads || (quads == 0 && b64.chars == "B")
      decreases Pow64(4 * quads) - Value(b64.chars)
    {
      ValueRoom(b64.chars, factors.keys, 4 * quads);
      DigitsReach(b64.chars, factors.keys, 4 * quads - 1);
      var r := Choice(Draw(rand, draws));
      NextDraw(rand, draws);
      StepKeepsBalance(b64.chars, factors.keys, Draw(rand, draws));
      factors.Insert(r);
      b64.MultScalar(r as u32);
      draws := draws + 1;
    }
    k := draws;
    if quads > 0 { DigitsReach(b64.chars, factors.keys, 4 * quads - 1); }
    Pad(b64, factors);
  }

  /** The padding loop: twos up to a multiple of four digits. It runs for the vector "B" only. */
  method Pad(b64: Digits, factors: PriorityHeap)
    requires Balanced(b64.chars, factors.keys)
    requires |b64.chars| % 4 == 0 || (b64.chars == "B" && factors.keys == multiset{})
    modifies b64, factors
    ensures Balanced(b64.chars, factors.keys)
    ensures |old(b64.chars)| % 4 == 0 ==> b64.chars == old(b64.chars) && factors.keys == old(factors.keys)
    ensures |old(b64.chars)| % 4 != 0 ==> |b64.chars| == 4 && factors.keys == multiset{}[2 := 18]
  {
    hide Balanced, Value, Pow64, Scale, Product;
    ghost var twos := 0;
    assert multiset{}[2 := 0] == multiset{};
    while |b64.chars| % 4 != 0
      invariant Balanced(b64.chars, factors.keys)
      invariant |old(b64.chars)| % 4 == 0 ==> b64.chars == old(b64.chars) && factors.keys == old(factors.keys)
      invariant |old(b64.chars)| % 4 != 0 ==> 1 <= |b64.chars| <= 4 && factors.keys == multiset{}[2 := twos]
      invariant |old(b64.chars)| % 4 != 0 && twos > 0 ==> Product(multiset{}[2 := twos - 1]) < Pow64(3)
      decreases Pow64(4) - Value(b64.chars)
    {
      ValueRoom(b64.chars, factors.keys, 4);
      DigitsReach(b64.chars, factors.keys, 3);
      StepKeepsBalance(b64.chars, factors.keys, 0);
      assert multiset{}[2 := twos] + multiset{2} == multiset{}[2 := twos + 1];
      factors.Insert(2);
      b64.MultScalar(2);
      twos := twos + 1;
    }
    if |old(b64.chars)| % 4 != 0 {
      DigitsReach(b64.chars, factors.keys, 3);
      EighteenTwos(twos);
    }
  }
}
