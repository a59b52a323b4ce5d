/** Little-endian base-64 numbers held as vectors of alphabet characters, and the
    schoolbook arithmetic on them. */
module Bignum {
  import opened Machine
  import opened Alphabet

  /** The number a digit vector denotes; the first character is least significant. */
  function Value(s: string): nat {
    if s == [] then 0 else ToValue(s[0]) + 64 * Value(s[1..])
  }

  function Pow64(n: nat): (p: nat)
    ensures p >= 1
  {
    if n == 0 then 1 else 64 * Pow64(n - 1)
  }

  /** No superfluous most significant zero digit. */
  predicate Canonical(s: string) {
    IsDigits(s) && (s != [] ==> s[|s| - 1] != 'A')
  }

  // ----- Positional-value facts -----

  lemma {:induction false} ValueBound(s: string)
    requires IsDigits(s)
    ensures Value(s) < Pow64(|s|)
  {
    if s != [] {
      ValueBound(s[1..]);
    }
  }

  lemma ValueCons(d: nat, s: string)
    requires d < 64 && IsDigits(s)
    ensures IsDigits([ToChar(d)] + s) && Value([ToChar(d)] + s) == d + 64 * Value(s)
  {
    hide ToChar, ToValue;
    assert ([ToChar(d)] + s)[1..] == s;
  }

  lemma {:induction false} ValueAppend(s: string, c: char)
    ensures Value(s + [c]) == Value(s) + Pow64(|s|) * ToValue(c)
  {
    if s == [] {
      assert [c][1..] == [];
    } else {
      assert (s + [c])[1..] == s[1..] + [c];
      ValueAppend(s[1..], c);
      MulScale(Pow64(|s| - 1), ToValue(c));
    }
  }

  lemma MulScale(x: int, y: int)
    ensures (64 * x) * y == 64 * (x * y)
  {
  }

  /** A canonical vector with n digits is at least the smallest n-digit number. */
  lemma {:induction false} CanonicalLowerBound(s: string)
    requires Canonical(s) && s != []
    ensures Value(s) >= Pow64(|s| - 1)
  {
    if |s| > 1 {
      CanonicalLowerBound(s[1..]);
    }
  }

  /** Canonical vectors are unique representatives of their values. */
  lemma {:induction false} CanonicalUnique(s: string, t: string)
    requires Canonical(s) && Canonical(t) && Value(s) == Value(t)
    ensures s == t
  {
    hide ToChar, ToValue, Pow64;
    if s == [] || t == [] {
      if s != [] { CanonicalLowerBound(s); }
      if t != [] { CanonicalLowerBound(t); }
    } else {
      assert IsDigit(s[0]) && IsDigit(t[0]);
      SameHead(ToValue(s[0]), ToValue(t[0]), Value(s[1..]), Value(t[1..]));
      CharOfValue(s[0]);
      CharOfValue(t[0]);
      CanonicalUnique(s[1..], t[1..]);
    }
  }

  lemma SameHead(d: nat, e: nat, v: nat, w: nat)
    requires d < 64 && e < 64 && d + 64 * v == e + 64 * w
    ensures d == e && v == w
  {
  }

  lemma {:induction false} ValueShift(n: nat, s: string)
    ensures Value(Zeros(n) + s) == Pow64(n) * Value(s)
  {
    if n == 0 {
      assert Zeros(0) + s == s;
    } else {
      assert (Zeros(n) + s)[1..] == Zeros(n - 1) + s;
      ValueShift(n - 1, s);
      MulScale(Pow64(n - 1), Value(s));
    }
  }

  function Zeros(n: nat): (z: string)
    ensures |z| == n && forall i :: 0 <= i < n ==> z[i] == 'A'
  {
    seq(n, _ => 'A')
  }

  // ----- Addition -----

  function HeadValue(s: string): nat { if s == [] then 0 else ToValue(s[0]) }

  function Tail(s: string): string { if s == [] then [] else s[1..] }

  /** Digit-by-digit addition with an incoming carry. */
  function SumFrom(a: string, b: string, carry: nat): string
    decreases |a| + |b|
  {
    if a == [] && b == [] then (if carry != 0 then "B" else "")
    else
      var sum := HeadValue(a) + HeadValue(b) + carry;
      [ToChar(sum % 64)] + SumFrom(Tail(a), Tail(b), sum / 64)
  }

  lemma HeadAndTail(s: string)
    requires IsDigits(s)
    ensures HeadValue(s) < 64 && IsDigits(Tail(s)) && Value(s) == HeadValue(s) + 64 * Value(Tail(s))
  {
    hide ToValue;
    assert s != [] ==> IsDigit(s[0]);
  }

  lemma TailShrinks(s: string)
    ensures |Tail(s)| == if s == [] then 0 else |s| - 1
  {
  }

  lemma SumFromNothing(carry: nat)
    requires carry <= 1
    ensures IsDigits(SumFrom([], [], carry))
    ensures Value(SumFrom([], [], carry)) == Value([]) + Value([]) + carry
  {
    if carry == 1 {
      ValueCons(1, "");
      assert "B" == [ToChar(1)] + "";
    }
  }

  lemma SumFromUnfold(a: string, b: string, carry: nat)
    requires a != [] || b != []
    ensures var sum := HeadValue(a) + HeadValue(b) + carry;
      SumFrom(a, b, carry) == [ToChar(sum % 64)] + SumFrom(Tail(a), Tail(b), sum / 64)
  {
    hide ToChar, HeadValue, Tail;
  }

  lemma {:induction false} SumFromValue(a: string, b: string, carry: nat)
    requires IsDigits(a) && IsDigits(b) && carry <= 1
    ensures IsDigits(SumFrom(a, b, carry))
    ensures Value(SumFrom(a, b, carry)) == Value(a) + Value(b) + carry
    decreases |a| + |b|
  {
    hide ToChar, ToValue, Value, SumFrom, IsDigits, HeadValue, Tail;
    if a == [] && b == [] {
      SumFromNothing(carry);
    } else {
      TailShrinks(a);
      TailShrinks(b);
      HeadAndTail(a);
      HeadAndTail(b);
      var sum := HeadValue(a) + HeadValue(b) + carry;
      SumFromValue(Tail(a), Tail(b), sum / 64);
      ValueCons(sum % 64, SumFrom(Tail(a), Tail(b), sum / 64));
      SumFromUnfold(a, b, carry);
    }
  }

  /** One turn of an addition loop at index i. */
  lemma SumFromStep(ret: string, a: string, b: string, i: nat, carry: nat, digit: nat, out: nat)
    requires i < |a| || i < |b|
    requires DigitAt(a, i) + DigitAt(b, i) + carry == digit + 64 * out && digit < 64
    ensures ret + SumFrom(DropTo(a, i), DropTo(b, i), carry)
         == (ret + [ToChar(digit)]) + SumFrom(DropTo(a, i + 1), DropTo(b, i + 1), out)
  {
    hide ToChar, ToValue;
    var sum := DigitAt(a, i) + DigitAt(b, i) + carry;
    assert sum % 64 == digit && sum / 64 == out;
    assert Tail(DropTo(a, i)) == DropTo(a, i + 1);
    assert Tail(DropTo(b, i)) == DropTo(b, i + 1);
  }

  function DigitAt(s: string, i: nat): nat { if i < |s| then ToValue(s[i]) else 0 }

  lemma SumFromEnd(carry: nat)
    ensures SumFrom([], [], carry) == if carry != 0 then "B" else ""
  {
  }

  /** `sum_b64`: the value of the result is the sum of the values, for all digit vectors. */
  method SumB64(a: string, b: string) returns (ret: string)
    requires IsDigits(a) && IsDigits(b)
    ensures IsDigits(ret)
    ensures Value(ret) == Value(a) + Value(b)
  {
    hide ToChar, ToValue, SumFrom, DropTo;
    ret := [];
    var carry: u8 := 0;
    var idx := 0;
    while idx < |a| && idx < |b|
      invariant 0 <= idx <= |a| && idx <= |b| && carry <= 1
      invariant ret + SumFrom(DropTo(a, idx), DropTo(b, idx), carry as int) == SumFrom(a, b, 0)
    {
      var av, bv := ToValue(a[idx]) as u8, ToValue(b[idx]) as u8;
      var sum: u8 := av + bv + carry;
      ghost var carryIn := carry as int;
      if sum >= 64 {
        carry := 1;
        sum := sum - 64;
      } else {
        carry := 0;
      }
      SumFromStep(ret, a, b, idx, carryIn, sum as int, carry as int);
      ret := ret + [ToChar(sum as int)];
      idx := idx + 1;
    }
    while idx < |a|
      invariant 0 <= idx && carry <= 1 && (idx < |a| ==> idx >= |b|) && (idx >= |a| || idx >= |b|)
      invariant ret + SumFrom(DropTo(a, idx), DropTo(b, idx), carry as int) == SumFrom(a, b, 0)
    {
      var av: u8 := ToValue(a[idx]) as u8 + carry;
      ghost var carryIn := carry as int;
      if av >= 64 {
        carry := 1;
        av := av - 64;
      } else {
        carry := 0;
      }
      SumFromStep(ret, a, b, idx, carryIn, av as int, carry as int);
      ret := ret + [ToChar(av as int)];
      idx := idx + 1;
    }
    while idx < |b|
      invariant 0 <= idx && |a| <= idx && carry <= 1
      invariant ret + SumFrom(DropTo(a, idx), DropTo(b, idx), carry as int) == SumFrom(a, b, 0)
    {
      var bv: u8 := ToValue(b[idx]) as u8 + carry;
      ghost var carryIn := carry as int;
      if bv >= 64 {
        carry := 1;
        bv := bv - 64;
      } else {
        carry := 0;
      }
      SumFromStep(ret, a, b, idx, carryIn, bv as int, carry as int);
      ret := ret + [ToChar(bv as int)];
      idx := idx + 1;
    }
    SumFromEnd(carry as int);
    ghost var body := ret;
    if carry != 0 {
      ret := ret + ['B'];
    }
    assert ret == body + SumFrom([], [], carry as int);
    SumFromValue(a, b, 0);
  }

  /** The digits from position i on: what a loop at index i has still to read. */
  ghost function DropTo(s: string, i: nat): (r: string)
    ensures i == 0 ==> r == s
    ensures i < |s| ==> r != [] && r[0] == s[i] && r[1..] == s[i + 1..]
    ensures i >= |s| ==> r == []
  {
    if i < |s| then s[i..] else []
  }

  // ----- Multiplication by a small scalar -----

  /** The digits of k * a + carry. */
  function Scale(a: string, k: nat, carry: nat): string {
    if a == [] then (if carry != 0 then [ToChar(carry)] else "")
    else
      var prod := ToValue(a[0]) * k + carry;
      [ToChar(prod % 64)] + Scale(a[1..], k, prod / 64)
  }

  lemma ScaleUnfold(ret: string, a: string, i: nat, k: nat, carry: nat, digit: nat, out: nat)
    requires i < |a|
    requires ToValue(a[i]) * k + carry == digit + 64 * out && digit < 64
    ensures ret + Scale(DropTo(a, i), k, carry) == (ret + [ToChar(digit)]) + Scale(DropTo(a, i + 1), k, out)
  {
    hide ToChar, ToValue;
    var prod := ToValue(a[i]) * k + carry;
    assert prod % 64 == digit && prod / 64 == out;
    assert DropTo(a, i)[0] == a[i] && DropTo(a, i)[1..] == DropTo(a, i + 1);
  }

  lemma ScaleEnd(k: nat, carry: nat)
    requires carry < 64
    ensures Scale([], k, carry) == (if carry != 0 then [ToChar(carry)] else "") == CarryDigits(carry)
  {
  }

  lemma ScaleStep(v: nat, k: nat, carry: nat)
    requires v < 64 && k <= 64 && carry < 64
    ensures v * k + carry < 4096
    ensures (v * k + carry) / 64 < 64
  {
    assert v * k <= 63 * k;
  }

  lemma {:induction false} ScaleValue(a: string, k: nat, carry: nat)
    requires IsDigits(a) && k <= 64 && carry < 64
    ensures IsDigits(Scale(a, k, carry))
    ensures Value(Scale(a, k, carry)) == k * Value(a) + carry
  {
    hide ToChar, ToValue, Value, IsDigits, Scale;
    if a == [] {
      ScaleNothing(k, carry);
    } else {
      HeadAndTail(a);
      var v, rest := ToValue(a[0]), a[1..];
      var prod := v * k + carry;
      ScaleStep(v, k, carry);
      ScaleValue(rest, k, prod / 64);
      ScaleCons(a, k, carry);
      ValueCons(prod % 64, Scale(rest, k, prod / 64));
      ScaleArithmetic(k, v, Value(rest), carry);
    }
  }

  lemma ScaleNothing(k: nat, carry: nat)
    requires carry < 64
    ensures IsDigits(Scale([], k, carry)) && Value(Scale([], k, carry)) == k * Value([]) + carry
  {
    hide ToChar, ToValue;
    if carry != 0 {
      ValueCons(carry, "");
      assert [ToChar(carry)] + "" == [ToChar(carry)];
    }
  }

  lemma ScaleCons(a: string, k: nat, carry: nat)
    requires a != []
    ensures var prod := ToValue(a[0]) * k + carry;
      Scale(a, k, carry) == [ToChar(prod % 64)] + Scale(a[1..], k, prod / 64)
  {
    hide ToChar, ToValue;
  }

  lemma ScaleArithmetic(k: nat, v: nat, w: nat, carry: nat)
    ensures var prod := v * k + carry;
      prod % 64 + 64 * (k * w + prod / 64) == k * (v + 64 * w) + carry
  {
    MulDistributes(k, v, w);
  }

  lemma MulDistributes(k: int, v: int, w: int)
    ensures k * (v + 64 * w) == v * k + 64 * (k * w)
  {
  }

  /** Scaling by k >= 1 grows the vector by at most one digit and keeps the top digit nonzero. */
  lemma {:induction false} ScaleShape(a: string, k: nat, carry: nat)
    requires IsDigits(a) && 1 <= k <= 64 && carry < 64
    ensures |a| <= |Scale(a, k, carry)| <= |a| + 1
    ensures Canonical(a) && a != [] ==> Canonical(Scale(a, k, carry))
  {
    hide ToChar, ToValue, Value;
    ScaleValue(a, k, carry);
    if a == [] {
      ScaleEnd(k, carry);
    } else {
      hide Scale;
      ScaleCons(a, k, carry);
      assert IsDigit(a[0]);
      var prod := ToValue(a[0]) * k + carry;
      ScaleStep(ToValue(a[0]), k, carry);
      ScaleShape(a[1..], k, prod / 64);
      var s := Scale(a[1..], k, prod / 64);
      if Canonical(a) {
        ScaleTop(a[0], k, carry);
        assert |a| > 1 ==> Canonical(a[1..]);
        if |a| == 1 { ScaleEnd(k, prod / 64); }
      }
    }
  }

  /** The single-digit case: no carry out means the digit itself stays nonzero. */
  lemma ScaleTop(c: char, k: nat, carry: nat)
    requires IsDigit(c) && 1 <= k <= 64 && carry < 64
    ensures var prod := ToValue(c) * k + carry;
      c != 'A' && prod / 64 == 0 ==> ToChar(prod % 64) != 'A'
  {
    if c != 'A' {
      assert ToValue(c) >= 1;
      assert ToValue(c) * k >= k;
    }
  }

  /** A `std::vector<char>` of digits, changed in place. */
  class Digits {
    var chars: string

    constructor (init: string)
      ensures chars == init
    {
      chars := init;
    }

    /** `mult_b64_scalar`: multiplies the vector by `scalar` in place. One carry digit is
        pushed at the end, so the scalar must not exceed 64. */
    method MultScalar(scalar: u32)
      requires IsDigits(chars) && scalar <= 64
      modifies this
      ensures IsDigits(chars)
      ensures Value(chars) == scalar as int * Value(old(chars))
      ensures chars == Scale(old(chars), scalar as int, 0)
    {
      hide ToChar, ToValue, Scale, DropTo;
      ghost var was, k := chars, scalar as int;
      var carry: u32 := 0;
      var idx := 0;
      while idx < |chars|
        invariant 0 <= idx <= |chars| == |was| && carry < 64
        invariant forall i :: idx <= i < |was| ==> chars[i] == was[i]
        invariant chars[..idx] + Scale(DropTo(was, idx), k, carry as int) == Scale(was, k, 0)
      {
        ScaleStep(ToValue(was[idx]), k, carry as int);
        var prod: u32 := ToValue(chars[idx]) as u32 * scalar + carry;
        ghost var carryIn := carry as int;
        if prod >= 64 {
          carry := prod / 64;
          prod := prod % 64;
        } else {
          carry := 0;
        }
        ScaleUnfold(chars[..idx], was, idx, k, carryIn, prod as int, carry as int);
        ghost var done := chars[..idx] + [ToChar(prod as int)];
        chars := chars[idx := ToChar(prod as int)];
        idx := idx + 1;
        assert chars[..idx] == done;
      }
      ghost var body := chars[..idx];
      assert body == chars;
      ScaleEnd(k, carry as int);
      if carry != 0 {
        chars := chars + [ToChar(carry as int)];
      }
      assert chars == body + Scale([], k, carry as int);
      ScaleValue(was, k, 0);
    }

    /** `sum_b64_scalar`: adds one digit in place. On an empty vector the code would push 'B'
        whatever the digit, so the vector must be non-empty. */
    method SumScalar(digit: char)
      requires IsDigits(chars) && IsDigit(digit) && chars != []
      modifies this
      ensures IsDigits(chars)
      ensures Value(chars) == Value(old(chars)) + ToValue(digit)
    {
      hide ToChar, ToValue, SumFrom, DropTo;
      ghost var was, d := chars, [digit];
      var carry: u8 := ToValue(digit) as u8;
      var idx := 0;
      assert Value(d) == ToValue(digit);
      while idx < |chars|
        invariant 0 <= idx <= |chars| == |was|
        invariant if idx == 0 then carry as int == ToValue(digit) else carry <= 1
        invariant forall i :: idx <= i < |was| ==> chars[i] == was[i]
        invariant chars[..idx] + SumFrom(DropTo(was, idx), DropTo(d, idx), if idx == 0 then 0 else carry as int)
               == SumFrom(was, d, 0)
      {
        var sum: u8 := ToValue(chars[idx]) as u8 + carry;
        ghost var carryIn := carry as int;
        if sum >= 64 {
          carry := 1;
          sum := sum - 64;
        } else {
          carry := 0;
        }
        SumFromStep(chars[..idx], was, d, idx, if idx == 0 then 0 else carryIn, sum as int, carry as int);
        ghost var done := chars[..idx] + [ToChar(sum as int)];
        chars := chars[idx := ToChar(sum as int)];
        idx := idx + 1;
        assert chars[..idx] == done;
      }
      ghost var body := chars[..idx];
      assert body == chars;
      SumFromEnd(carry as int);
      if carry != 0 {
        chars := chars + ['B'];
      }
      assert chars == body + SumFrom([], [], carry as int);
      SumFromValue(was, d, 0);
    }
  }

  // ----- Schoolbook multiplication -----

  /** `mult_b64`: the value of the result is the product of the values. */
  method MultB64(a: string, b: string) returns (ret: string)
    requires IsDigits(a) && IsDigits(b)
    ensures IsDigits(ret)
    ensures Value(ret) == Value(a) * Value(b)
  {
    ret := [];
    for aidx := 0 to |a|
      invariant IsDigits(ret)
      invariant Value(ret) == Value(a[..aidx]) * Value(b)
    {
      var row := MultRow(aidx, ToValue(a[aidx]) as u64, b);
      ghost var done := Value(a[..aidx]);
      assert a[..aidx + 1] == a[..aidx] + [a[aidx]];
      ValueAppend(a[..aidx], a[aidx]);
      MulPartial(done, Pow64(aidx), ToValue(a[aidx]), Value(b));
      ret := SumB64(ret, row);
    }
    assert a[..|a|] == a;
  }

  lemma MulPartial(done: int, shift: int, digit: int, b: int)
    ensures (done + shift * digit) * b == done * b + shift * (digit * b)
  {
    assert (shift * digit) * b == shift * (digit * b);
  }

  /** One digit product with carry, split into a digit and the next carry. */
  method MulAdd(av: u64, bv: u64, carryIn: u64) returns (digit: u64, carry: u64)
    requires av < 64 && bv < 64 && carryIn < 64
    ensures digit < 64 && carry < 64
    ensures bv as int * av as int + carryIn as int == digit as int + 64 * carry as int
  {
    ScaleStep(bv as int, av as int, carryIn as int);
    MulCommutes(bv as int, av as int);
    var prod: u64 := av * bv + carryIn;
    carry := 0;
    if prod >= 64 {
      carry := prod / 64;
      prod := prod % 64;
    }
    digit := prod;
  }

  lemma RowValue(shift: nat, b: string, k: nat)
    requires IsDigits(b) && k < 64
    ensures IsDigits(Zeros(shift) + Scale(b, k, 0))
    ensures Value(Zeros(shift) + Scale(b, k, 0)) == Pow64(shift) * (k * Value(b))
  {
    ScaleValue(b, k, 0);
    ValueShift(shift, Scale(b, k, 0));
  }

  /** One row of the schoolbook product: b times one digit, shifted by `shift` zero digits. */
  method MultRow(shift: nat, av: u64, b: string) returns (temp: string)
    requires av < 64 && IsDigits(b)
    ensures IsDigits(temp)
    ensures Value(temp) == Pow64(shift) * (av as int * Value(b))
  {
    hide ToChar, ToValue, Scale, DropTo, Value, Pow64;
    temp := [];
    for i := 0 to shift
      invariant temp == Zeros(i)
    {
      temp := temp + ['A'];
    }
    var carry: u64 := 0;
    ghost var k, zeros := av as int, Zeros(shift);
    for bidx := 0 to |b|
      invariant carry < 64
      invariant temp + Scale(DropTo(b, bidx), k, carry as int) == zeros + Scale(b, k, 0)
    {
      ghost var carryIn := carry as int;
      var digit: u64;
      digit, carry := MulAdd(av, ToValue(b[bidx]) as u64, carry);
      ScaleUnfold(temp, b, bidx, k, carryIn, digit as int, carry as int);
      temp := temp + [ToChar(digit as int)];
    }
    ScaleEnd(k, carry as int);
    temp := FlushCarry(temp, carry);
    assert temp == zeros + Scale(b, k, 0);
    RowValue(shift, b, k);
  }

  /** The digits of a carry of any size. */
  function CarryDigits(carry: nat): string {
    if carry == 0 then "" else [ToChar(carry % 64)] + CarryDigits(carry / 64)
  }

  /** The carry loop at the end of a row. */
  method FlushCarry(body: string, carryIn: u64) returns (temp: string)
    ensures temp == body + CarryDigits(carryIn as int)
  {
    temp := body;
    var carry := carryIn;
    while carry != 0
      invariant temp + CarryDigits(carry as int) == body + CarryDigits(carryIn as int)
    {
      if carry >= 64 {
        temp := temp + [ToChar((carry % 64) as int)];
        carry := carry / 64;
      } else {
        temp := temp + [ToChar(carry as int)];
        carry := 0;
      }
    }
  }

  lemma MulCommutes(x: int, y: int)
    ensures x * y == y * x
  {
  }
}
