/** Hexadecimal numerals: what `%zx` and `%X` print, and their positional value. */
module Hexadecimal {
  datatype Case = Lower | Upper

  function HexChar(d: nat, c: Case): (r: char)
    requires d < 16
    ensures IsHex(r) && HexValue(r) == d
  {
    if d < 10 then (d + '0' as int) as char
    else (d - 10 + (if c == Lower then 'a' else 'A') as int) as char
  }

  predicate IsHex(c: char) { '0' <= c <= '9' || 'a' <= c <= 'f' || 'A' <= c <= 'F' }

  function HexValue(c: char): (d: nat)
    requires IsHex(c)
    ensures d < 16
  {
    if c <= '9' then c as int - '0' as int
    else if 'a' <= c then c as int - 'a' as int + 10
    else c as int - 'A' as int + 10
  }

  predicate AllHex(s: string) { forall i :: 0 <= i < |s| ==> IsHex(s[i]) }

  /** The numeral of `n` without leading zeros. */
  function Hex(n: nat, c: Case): (s: string)
    ensures s != "" && AllHex(s)
  {
    if n < 16 then [HexChar(n, c)] else Hex(n / 16, c) + [HexChar(n % 16, c)]
  }

  function ParseHex(s: string): nat
    requires AllHex(s)
  {
    if s == "" then 0
    else
      assert IsHex(s[|s| - 1]);
      16 * ParseHex(s[..|s| - 1]) + HexValue(s[|s| - 1])
  }

  lemma {:induction false} ParseOfHex(n: nat, c: Case)
    ensures ParseHex(Hex(n, c)) == n
  {
    var s := Hex(n, c);
    if n >= 16 {
      ParseOfHex(n / 16, c);
      assert s[..|s| - 1] == Hex(n / 16, c);
    }
  }

  lemma HexOfZero(c: Case)
    ensures Hex(0, c) == "0"
  {
  }
}
