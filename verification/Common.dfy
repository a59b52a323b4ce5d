/** Definitions shared by several components. */
module Common {
  datatype Option<+T> = None | Some(value: T)

  function Pow2(n: nat): (p: nat)
    ensures p >= 1
  {
    if n == 0 then 1 else 2 * Pow2(n - 1)
  }

  lemma SmallPowers()
    ensures Pow2(0) == 1 && Pow2(1) == 2 && Pow2(2) == 4 && Pow2(3) == 8 && Pow2(4) == 16
    ensures Pow2(5) == 32 && Pow2(6) == 64 && Pow2(7) == 128 && Pow2(8) == 256
  {
    assert Pow2(4) == 2 * Pow2(3) == 4 * Pow2(2) == 8 * Pow2(1) == 16 * Pow2(0);
    assert Pow2(8) == 2 * Pow2(7) == 4 * Pow2(6) == 8 * Pow2(5) == 16 * Pow2(4);
  }

  // ----- Quotient and remainder -----

  /** Quotient and remainder are determined by the division identity. */
  lemma ModUnique(d: nat, n: int, q: int, r: int)
    requires d > 0 && n == d * q + r && 0 <= r < d
    ensures n % d == r && n / d == q
  {
    SmallMultiple(d, q, n / d, r, n % d);
  }

  lemma SmallMultiple(d: nat, q: int, q': int, r: int, r': int)
    requires d > 0 && 0 <= r < d && 0 <= r' < d
    requires d * q + r == d * q' + r'
    ensures q == q' && r == r'
  {
    if q < q' {
      MulGap(d, q, q');
    } else if q' < q {
      MulGap(d, q', q);
    }
  }

  lemma MulGap(d: nat, x: int, y: int)
    requires x < y
    ensures d * y >= d * x + d
  {
    MulSplit(d, x, y - x);
    MulAtLeast(d, y - x);
  }

  lemma MulSplit(d: int, x: int, z: int)
    ensures d * (x + z) == d * x + d * z
  {
  }

  lemma {:induction false} MulAtLeast(d: nat, z: nat)
    requires z >= 1
    ensures d * z >= d
  {
    if z > 1 { MulAtLeast(d, z - 1); }
  }
}
