/** Products of prime multisets and the divisibility facts behind trial division. */
module Primes {
  import opened Common

  ghost predicate Divides(d: nat, n: nat)
    requires d > 0
  {
    n % d == 0
  }

  ghost predicate IsPrime(p: nat) {
    p >= 2 && forall k :: 2 <= k < p ==> !Divides(k, p)
  }

  /** The seventeen primes the generator draws from, indexed by `rand() % 17`. */
  function Choice(r: nat): (p: nat)
    requires r < 17
    ensures 2 <= p <= 59 && (p == 2 || p % 2 == 1)
  {
    match r
    case 0 => 2
    case 1 => 3
    case 2 => 5
    case 3 => 7
    case 4 => 11
    case 5 => 13
    case 6 => 17
    case 7 => 19
    case 8 => 23
    case 9 => 29
    case 10 => 31
    case 11 => 37
    case 12 => 41
    case 13 => 43
    case 14 => 47
    case 15 => 53
    case _ => 59
  }

  lemma ChoiceIsPrime(r: nat)
    requires r < 17
    ensures IsPrime(Choice(r))
  {
    forall k | 2 <= k < Choice(r) ensures !Divides(k, Choice(r)) {
      NoSmallDivisor(r, k);
    }
  }

  lemma NoSmallDivisor(r: nat, k: nat)
    requires r < 17 && 2 <= k < Choice(r)
    ensures Choice(r) % k != 0
  {
  }

  /** A multiset whose members are all among the seventeen primes. */
  ghost predicate Drawn(m: multiset<nat>) {
    forall p :: p in m ==> exists r: nat :: r < 17 && Choice(r) == p
  }

  // ----- Products -----

  ghost function Product(m: multiset<nat>): nat
    decreases |m|
  {
    if m == multiset{} then 1
    else
      var x := Pick(m);
      x * Product(m - multiset{x})
  }

  ghost function Pick(m: multiset<nat>): (x: nat)
    requires m != multiset{}
    ensures x in m
  {
    var x :| x in m;
    x
  }

  /** Any member can be split off a product, not only the picked one. */
  lemma {:induction false} ProductRemove(m: multiset<nat>, x: nat)
    requires x in m
    ensures Product(m) == x * Product(m - multiset{x})
    decreases |m|
  {
    hide Product;
    var y := Pick(m);
    ProductUnfold(m);
    if x != y {
      var my, mx := m - multiset{y}, m - multiset{x};
      ProductRemove(my, x);
      ProductRemove(mx, y);
      assert my - multiset{x} == mx - multiset{y};
      MulSwap(y, x, Product(my - multiset{x}));
    }
  }

  lemma ProductUnfold(m: multiset<nat>)
    requires m != multiset{}
    ensures Product(m) == Pick(m) * Product(m - multiset{Pick(m)})
  {
  }

  lemma MulSwap(x: int, y: int, z: int)
    ensures x * (y * z) == y * (x * z)
  {
  }

  lemma ProductAdd(m: multiset<nat>, x: nat)
    ensures Product(m + multiset{x}) == x * Product(m)
  {
    ProductRemove(m + multiset{x}, x);
    assert m + multiset{x} - multiset{x} == m;
  }

  lemma {:induction false} ProductPositive(m: multiset<nat>)
    requires forall p :: p in m ==> p >= 1
    ensures Product(m) >= 1
    decreases |m|
  {
    if m != multiset{} {
      var x := Pick(m);
      ProductPositive(m - multiset{x});
      MulLower(x, Product(m - multiset{x}), 1);
    }
  }

  lemma MulLower(x: nat, y: nat, b: nat)
    requires x >= 1 && y >= b
    ensures x * y >= b
  {
  }

  lemma {:induction false} ProductOne(m: multiset<nat>)
    requires forall p :: p in m ==> p >= 2
    ensures Product(m) == 1 <==> m == multiset{}
  {
    if m != multiset{} {
      var x := Pick(m);
      ProductPositive(m - multiset{x});
      MulDouble(x, Product(m - multiset{x}));
    }
  }

  lemma MulDouble(x: nat, y: nat)
    requires x >= 2
    ensures x * y >= 2 * y
  {
  }

  /** A product of n factors, none below two, is at least 2^n. */
  lemma {:induction false} ProductLowerBound(m: multiset<nat>)
    requires forall p :: p in m ==> p >= 2
    ensures Product(m) >= Pow2(|m|)
    decreases |m|
  {
    if m != multiset{} {
      var x := Pick(m);
      ProductLowerBound(m - multiset{x});
      MulDouble(x, Product(m - multiset{x}));
    }
  }

  lemma {:induction false} Pow2Monotone(a: nat, b: nat)
    requires Pow2(a) < Pow2(b)
    ensures a < b
  {
    if a >= b { Pow2AtLeast(b, a); }
  }

  lemma {:induction false} Pow2AtLeast(b: nat, a: nat)
    requires b <= a
    ensures Pow2(b) <= Pow2(a)
    decreases a
  {
    if b < a { Pow2AtLeast(b, a - 1); }
  }

  // ----- Divisibility -----

  lemma DividesMultiple(d: nat, q: int)
    requires d > 0
    ensures (d * q) % d == 0
  {
    ModUnique(d, d * q, q, 0);
  }

  /** Extended Euclid. */
  lemma {:induction false} Bezout(a: nat, b: nat) returns (g: nat, u: int, v: int)
    requires a > 0
    ensures g > 0 && u * a + v * b == g
    ensures a % g == 0 && b % g == 0
    decreases b
  {
    if b == 0 {
      g, u, v := a, 1, 0;
      DividesMultiple(a, 1);
    } else {
      var q, r := a / b, a % b;
      var u', v';
      g, u', v' := Bezout(b, r);
      u, v := v', u' - v' * q;
      assert a == b * q + r;
      calc {
        u * a + v * b;
        v' * (b * q + r) + (u' - v' * q) * b;
        { BezoutStep(b, q, r, u', v'); }
        u' * b + v' * r;
      }
      SumDivisible(b, q, r, g);
    }
  }

  lemma BezoutStep(b: int, q: int, r: int, u: int, v: int)
    ensures v * (b * q + r) + (u - v * q) * b == u * b + v * r
  {
    assert v * (b * q) == (v * q) * b;
    assert (u - v * q) * b == u * b - (v * q) * b;
  }

  lemma SumDivisible(b: nat, q: nat, r: nat, g: nat)
    requires g > 0 && b % g == 0 && r % g == 0
    ensures (b * q + r) % g == 0
  {
    var x, y := b / g, r / g;
    assert b == g * x && r == g * y;
    assert b * q + r == g * (x * q + y) by {
      assert (g * x) * q == g * (x * q);
      assert g * (x * q + y) == g * (x * q) + g * y;
    }
    DividesMultiple(g, x * q + y);
  }

  /** Gauss: a divisor of p * x that the prime p does not divide is a divisor of x. */
  lemma CoprimeDivides(p: nat, d: nat, x: nat)
    requires IsPrime(p) && d > 0 && !Divides(p, d)
    requires Divides(d, p * x)
    ensures Divides(d, x)
  {
    var g, u, v := Bezout(p, d);
    if g != 1 {
      DivisorOfPrime(p, g);
      assert false;
    }
    var k := (p * x) / d;
    assert p * x == d * k;
    calc {
      x;
      (u * p + v * d) * x;
      (u * p) * x + (v * d) * x;
      { assert (u * p) * x == u * (p * x); assert (v * d) * x == d * (v * x); }
      u * (d * k) + d * (v * x);
      { assert u * (d * k) == d * (u * k); }
      d * (u * k) + d * (v * x);
      d * (u * k + v * x);
    }
    DividesMultiple(d, u * k + v * x);
  }

  lemma DivisorOfPrime(p: nat, g: nat)
    requires IsPrime(p) && g > 0 && p % g == 0
    ensures g == 1 || g == p
  {
    if 1 < g < p {
      assert Divides(g, p);
    } else if g > p {
      ModUnique(g, p, 0, p);
    }
  }

  /** Any divisor above one of a product of primes is itself divisible by one of them. */
  lemma {:induction false} DivisorMeetsFactor(m: multiset<nat>, d: nat) returns (p: nat)
    requires forall q :: q in m ==> IsPrime(q)
    requires d >= 2 && Divides(d, Product(m))
    ensures p in m && 0 < p <= d && Divides(p, d)
    decreases |m|
  {
    if m == multiset{} {
      ModUnique(d, 1, 0, 1);
      assert false;
    }
    p := Pick(m);
    ProductUnfold(m);
    if Divides(p, d) {
      if p > d { ModUnique(p, d, 0, d); }
    } else {
      CoprimeDivides(p, d, Product(m - multiset{p}));
      p := DivisorMeetsFactor(m - multiset{p}, d);
    }
  }

  /** If no member of m lies below d, then d divides the product exactly when d is a member. */
  lemma DividesIffMember(m: multiset<nat>, d: nat)
    requires forall q :: q in m ==> IsPrime(q) && q >= d
    requires d >= 2
    ensures Divides(d, Product(m)) <==> d in m
  {
    hide Product;
    if Divides(d, Product(m)) {
      var p := DivisorMeetsFactor(m, d);
    }
    if d in m {
      hide IsPrime;
      ProductRemove(m, d);
      DividesMultiple(d, Product(m - multiset{d}));
    }
  }
}
