/** The base-64 digit alphabet: Table 1 in section 4 of RFC 4648. */
module Alphabet {
  /** `base64_value_to_base64`: values past 63 print as the padding character. */
  function ToChar(v: nat): (c: char)
    ensures v < 64 ==> ToValue(c) == v
    ensures v < 64 ==> (c == 'A' <==> v == 0)
  {
    if v <= 25 then (v + 'A' as int) as char
    else if v <= 51 then (v - 26 + 'a' as int) as char
    else if v <= 61 then (v - 52 + '0' as int) as char
    else if v == 62 then '+'
    else if v == 63 then '/'
    else '='
  }

  /** `base64_base64_to_value` and the browser's `b64_to_val`: 0xFF is "not a digit". */
  function ToValue(c: char): (v: nat)
    ensures v < 64 || v == 0xFF
  {
    if 'A' <= c <= 'Z' then c as int - 'A' as int
    else if 'a' <= c <= 'z' then c as int - 'a' as int + 26
    else if '0' <= c <= '9' then c as int - '0' as int + 52
    else if c == '+' then 62
    else if c == '/' then 63
    else 0xFF
  }

  /** The browser's `val_to_b64`, which answers "A" where the server answers "=". */
  function JsToChar(v: nat): char {
    if v < 64 then ToChar(v) else 'A'
  }

  predicate IsDigit(c: char) { ToValue(c) < 64 }

  predicate IsDigits(s: string) { forall i :: 0 <= i < |s| ==> IsDigit(s[i]) }

  /** Digit characters and values correspond one to one. */
  lemma CharOfValue(c: char)
    requires IsDigit(c)
    ensures ToChar(ToValue(c)) == c
  {
  }
}
