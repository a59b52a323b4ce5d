/** Decimal numerals, as printed by `%PRIu64` and JavaScript's `String(n)`. */
module Decimal {
  function DigitChar(d: nat): (c: char)
    requires d < 10
    ensures '0' <= c <= '9' && c as int - '0' as int == d
  {
    (d + '0' as int) as char
  }

  predicate IsNumeral(c: char) { '0' <= c <= '9' }

  predicate AllNumerals(s: string) { forall i :: 0 <= i < |s| ==> IsNumeral(s[i]) }

  function Numeral(n: nat): (s: string)
    ensures |s| >= 1
    ensures forall i :: 0 <= i < |s| ==> IsNumeral(s[i])
  {
    if n < 10 then [DigitChar(n)] else Numeral(n / 10) + [DigitChar(n % 10)]
  }

  /** Left-to-right accumulation of a numeral. */
  function Parse(s: string): nat
    requires forall i :: 0 <= i < |s| ==> IsNumeral(s[i])
  {
    if s == [] then 0
    else
      assert IsNumeral(s[|s| - 1]);
      Parse(s[..|s| - 1]) * 10 + (s[|s| - 1] as int - '0' as int)
  }

  lemma {:induction false} ParseNumeral(n: nat)
    ensures Parse(Numeral(n)) == n
  {
    var s := Numeral(n);
    if n >= 10 {
      ParseNumeral(n / 10);
      assert s[..|s| - 1] == Numeral(n / 10);
    }
  }

  lemma NumeralInjective(a: nat, b: nat)
    requires Numeral(a) == Numeral(b)
    ensures a == b
  {
    ParseNumeral(a);
    ParseNumeral(b);
  }

  /** The digit-counting loop of the printer. It counts nothing for zero. */
  method CountDigits(n: nat) returns (digits: nat)
    ensures n > 0 ==> digits == |Numeral(n)|
    ensures n == 0 ==> digits == 0
  {
    digits := 0;
    var temp: nat := n;
    while temp != 0
      invariant temp > 0 ==> digits + |Numeral(temp)| == |Numeral(n)|
      invariant temp == 0 ==> digits == if n == 0 then 0 else |Numeral(n)|
      decreases temp
    {
      digits := digits + 1;
      temp := temp / 10;
    }
  }
}
