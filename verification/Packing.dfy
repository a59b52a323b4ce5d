/** Decimal strings packed four bits a digit into base-64 characters, and back. */
module Packing {
  import opened Common
  import opened Alphabet
  import opened Decimal

  function NumeralValue(c: char): (d: nat)
    ensures IsNumeral(c) ==> d < 10
  {
    if IsNumeral(c) then c as int - '0' as int else 0
  }

  /** What packing means: three digits fill two characters; a short tail is padded with 1-bits. */
  function Pack(s: string): string {
    if |s| == 0 then ""
    else
      var d1 := NumeralValue(s[0]);
      if |s| == 1 then [ToChar(d1 * 4 + 3)]
      else
        var d2 := NumeralValue(s[1]);
        if |s| == 2 then [HighChar(d1, d2), ToChar(d2 % 4 * 16 + 15)]
        else [HighChar(d1, d2), LowChar(d2, NumeralValue(s[2]))] + Pack(s[3..])
  }

  function HighChar(d1: nat, d2: nat): char { ToChar((d1 * 16 + d2) / 4) }

  function LowChar(d2: nat, d3: nat): char { ToChar(d2 % 4 * 16 + d3) }

  function Nibble(n: nat): string { if n < 10 then [(n + '0' as int) as char] else "" }

  function TailDigits(v: nat): Option<string> {
    if v % 4 == 3 then Some(Nibble(v / 4)) else None
  }

  /** What unpacking means: nibbles of ten or more are padding; an odd tail must end in 1-bits. */
  function Unpack(s: string): Option<string> {
    if |s| == 0 then Some("")
    else if !IsDigit(s[0]) then None
    else
      var v1 := ToValue(s[0]);
      if |s| == 1 then TailDigits(v1)
      else if !IsDigit(s[1]) then None
      else
        match Unpack(s[2..])
        case None => None
        case Some(rest) => Some(PairDigits(v1, ToValue(s[1])) + rest)
  }

  function PairDigits(v1: nat, v2: nat): string {
    Nibble(v1 / 4) + Nibble(v1 % 4 * 4 + v2 / 16) + Nibble(v2 % 16)
  }

  lemma NibbleOfNumeral(c: char)
    requires IsNumeral(c)
    ensures Nibble(NumeralValue(c)) == [c]
  {
  }

  /** Unpacking a packed digit string returns the string, for all three residues of its length. */
  lemma {:induction false} UnpackPack(s: string)
    requires AllNumerals(s)
    ensures Unpack(Pack(s)) == Some(s)
  {
    hide ToChar, ToValue, PairDigits;
    if |s| == 1 {
      UnpackTail(s);
    } else if |s| >= 2 {
      var p := Pack(s);
      var d1, d2 := NumeralValue(s[0]), NumeralValue(s[1]);
      var d3 := if |s| == 2 then 15 else NumeralValue(s[2]);
      UnpackPair(p, d1, d2, d3);
      PairOfNumerals(s[0], s[1], d3);
      if |s| == 2 {
        assert p[2..] == "";
        assert [s[0], s[1]] + Nibble(15) + "" == s;
      } else {
        UnpackPack(s[3..]);
        assert p[2..] == Pack(s[3..]);
        NibbleOfNumeral(s[2]);
        assert [s[0], s[1]] + [s[2]] + s[3..] == s;
      }
    }
  }

  lemma UnpackTail(s: string)
    requires AllNumerals(s) && |s| == 1
    ensures Unpack(Pack(s)) == Some(s)
  {
    hide ToChar, ToValue;
    var d1 := NumeralValue(s[0]);
    NibbleOfNumeral(s[0]);
    assert (d1 * 4 + 3) / 4 == d1 && (d1 * 4 + 3) % 4 == 3;
    assert [s[0]] == s;
  }

  /** A packed pair of characters decodes to its three half-bytes. */
  lemma UnpackPair(p: string, d1: nat, d2: nat, d3: nat)
    requires d1 < 10 && d2 < 10 && d3 < 16
    requires |p| >= 2 && p[0] == HighChar(d1, d2) && p[1] == LowChar(d2, d3)
    ensures Unpack(p) == match Unpack(p[2..])
      case None => None
      case Some(rest) => Some(PairDigits((d1 * 16 + d2) / 4, d2 % 4 * 16 + d3) + rest)
  {
    hide ToChar, ToValue, PairDigits;
    PairNibbles(d1, d2, d3);
    assert ToValue(p[0]) == (d1 * 16 + d2) / 4 && ToValue(p[1]) == d2 % 4 * 16 + d3;
    assert IsDigit(p[0]) && IsDigit(p[1]);
  }

  lemma PairOfNumerals(x: char, y: char, d3: nat)
    requires IsNumeral(x) && IsNumeral(y) && d3 < 16
    ensures var d1, d2 := NumeralValue(x), NumeralValue(y);
      PairDigits((d1 * 16 + d2) / 4, d2 % 4 * 16 + d3) == [x, y] + Nibble(d3)
  {
    PairNibbles(NumeralValue(x), NumeralValue(y), d3);
    NibbleOfNumeral(x);
    NibbleOfNumeral(y);
  }

  lemma PairNibbles(d1: nat, d2: nat, d3: nat)
    requires d1 < 10 && d2 < 10 && d3 < 16
    ensures var v1, v2 := (d1 * 16 + d2) / 4, d2 % 4 * 16 + d3;
      && v1 < 64 && v2 < 64
      && v1 / 4 == d1 && v1 % 4 * 4 + v2 / 16 == d2 && v2 % 16 == d3
  {
    var h, l := d2 / 4, d2 % 4;
    assert d1 * 16 + d2 == 4 * (4 * d1 + h) + l;
    assert (d1 * 16 + d2) / 4 == 4 * d1 + h;
  }

  lemma {:induction false} PackConcat(a: string, b: string)
    requires |a| % 3 == 0
    ensures Pack(a + b) == Pack(a) + Pack(b)
  {
    hide ToChar;
    if |a| == 0 {
      assert a + b == b;
    } else {
      assert (a + b)[3..] == a[3..] + b;
      PackConcat(a[3..], b);
    }
  }

  lemma {:induction false} PackLength(s: string)
    ensures |Pack(s)| == (2 * |s| + 2) / 3
  {
    if |s| >= 3 { PackLength(s[3..]); }
  }

  /** The state of the packing loop after the digits s: what is emitted, and the bits still held. */
  ghost predicate Packing(s: string, encoded: string, current: nat, length: nat) {
    var full := |s| - |s| % 3;
    if |s| % 3 == 0 then encoded == Pack(s) && current == 0 && length == 0
    else if |s| % 3 == 1 then
      encoded == Pack(s[..full]) && current == NumeralValue(s[full]) && length == 4
    else
      && encoded == Pack(s[..full]) + [HighChar(NumeralValue(s[full]), NumeralValue(s[full + 1]))]
      && current == NumeralValue(s[full + 1]) % 4 && length == 2
  }

  /** One digit through the packing loop. */
  lemma PackingStep(s: string, encoded: string, current: nat, length: nat, c: char)
    requires AllNumerals(s) && IsNumeral(c)
    requires Packing(s, encoded, current, length)
    ensures var cur, len := current * 16 + NumeralValue(c), length + 4;
      if len >= 6 then
        && cur / Pow2(len - 6) < 64
        && Packing(s + [c], encoded + [ToChar(cur / Pow2(len - 6))], cur % Pow2(len - 6), len - 6)
      else Packing(s + [c], encoded, cur, len)
  {
    hide ToChar, Pack, Pow2, Packing, AllNumerals;
    SmallPowers();
    if |s| % 3 == 0 {
      PackingFirst(s, encoded, current, length, c);
    } else if |s| % 3 == 1 {
      PackingSecond(s, encoded, current, length, c);
    } else {
      PackingThird(s, encoded, current, length, c);
    }
  }

  lemma PackingFirst(s: string, encoded: string, current: nat, length: nat, c: char)
    requires Packing(s, encoded, current, length) && |s| % 3 == 0
    ensures length == 0 && current == 0 && Packing(s + [c], encoded, NumeralValue(c), 4)
  {
    hide ToChar, Pack, NumeralValue;
    assert (s + [c])[..|s|] == s;
  }

  lemma PackingSecond(s: string, encoded: string, current: nat, length: nat, c: char)
    requires AllNumerals(s) && IsNumeral(c) && Packing(s, encoded, current, length) && |s| % 3 == 1
    ensures var cur := current * 16 + NumeralValue(c);
      length == 4 && cur / 4 < 64 && Packing(s + [c], encoded + [ToChar(cur / 4)], cur % 4, 2)
  {
    hide ToChar, Pack;
    var t, full := s + [c], |s| - 1;
    assert t[..full] == s[..full] && t[full] == s[full] && t[full + 1] == c;
    assert IsNumeral(s[full]);
    QuarterOf(current, NumeralValue(c));
  }

  lemma QuarterOf(d: nat, e: nat)
    requires d < 10 && e < 10
    ensures (d * 16 + e) / 4 < 64 && (d * 16 + e) % 4 == e % 4
  {
  }

  lemma PackingThird(s: string, encoded: string, current: nat, length: nat, c: char)
    requires AllNumerals(s) && IsNumeral(c) && Packing(s, encoded, current, length) && |s| % 3 == 2
    ensures var cur := current * 16 + NumeralValue(c);
      length == 2 && cur < 64 && Packing(s + [c], encoded + [ToChar(cur)], 0, 0)
  {
    hide ToChar, Pack, NumeralValue;
    var t, full := s + [c], |s| - 2;
    PackTriple(s[..full], s[full], s[full + 1], c);
    assert t == s[..full] + [s[full], s[full + 1], c];
    NumeralSmall(c);
  }

  lemma NumeralSmall(c: char)
    requires IsNumeral(c)
    ensures NumeralValue(c) < 10
  {
  }

  lemma PackThree(t: string)
    requires |t| == 3
    ensures Pack(t)
         == [HighChar(NumeralValue(t[0]), NumeralValue(t[1]))] + [LowChar(NumeralValue(t[1]), NumeralValue(t[2]))]
  {
    hide ToChar, NumeralValue;
    assert t[3..] == "";
  }

  lemma PackTriple(a: string, x: char, y: char, z: char)
    requires |a| % 3 == 0
    ensures Pack(a + [x, y, z])
         == Pack(a) + [HighChar(NumeralValue(x), NumeralValue(y))] + [LowChar(NumeralValue(y), NumeralValue(z))]
  {
    hide Pack;
    PackConcat(a, [x, y, z]);
    PackThree([x, y, z]);
  }

  /** The end of packing: a held tail is padded with 1-bits. */
  lemma PackingEnd(s: string, encoded: string, current: nat, length: nat)
    requires AllNumerals(s) && Packing(s, encoded, current, length)
    ensures length == 4 ==> Pack(s) == encoded + [ToChar(current * 4 + 3)]
    ensures length == 2 ==> Pack(s) == encoded + [ToChar(current * 16 + 15)]
    ensures length == 0 || length == 2 || length == 4
    ensures length == 0 ==> Pack(s) == encoded
  {
    hide ToChar, NumeralValue, Pack, HighChar, AllNumerals;
    if |s| % 3 != 0 {
      var full := |s| - |s| % 3;
      var tail := s[full..];
      assert |s[..full]| % 3 == 0 && s == s[..full] + tail;
      PackConcat(s[..full], tail);
      PackTail(tail);
    }
  }

  /** What the padding makes of one or two digits. */
  lemma PackTail(t: string)
    ensures |t| == 1 ==> Pack(t) == [ToChar(NumeralValue(t[0]) * 4 + 3)]
    ensures |t| == 2 ==>
      Pack(t) == [HighChar(NumeralValue(t[0]), NumeralValue(t[1]))] + [ToChar(NumeralValue(t[1]) % 4 * 16 + 15)]
  {
    hide ToChar, NumeralValue;
  }

  lemma PackingRoom(s: string, encoded: string, current: nat, length: nat, n: nat)
    requires Packing(s, encoded, current, length) && |s| <= n
    ensures |encoded| + (if length == 0 then 0 else 1) < n * 2 / 3 + 2
    ensures |s| < n ==> |encoded| + 1 < n * 2 / 3 + 2
  {
    hide Pack, HighChar;
    PackLength(s);
    PackLength(s[..|s| - |s| % 3]);
  }

  /** `base64_number_str_to_base64_str`: fails exactly on a non-numeral, never for lack of room. */
  method NumberStrToBase64Str(nStr: string) returns (r: Option<string>)
    ensures r == if AllNumerals(nStr) then Some(Pack(nStr)) else None
  {
    hide ToChar, Pack;
    var encSize := |nStr| * 2 / 3 + 2;
    var encoded := "";
    var current: nat, currentLength: nat := 0, 0;
    PackingStart();
    for i := 0 to |nStr|
      invariant AllNumerals(nStr[..i])
      invariant Packing(nStr[..i], encoded, current, currentLength)
    {
      var c := nStr[i];
      if c < '0' || c > '9' {
        assert !IsNumeral(nStr[i]);
        return None;
      }
      assert nStr[..i + 1] == nStr[..i] + [c];
      PackingRoom(nStr[..i], encoded, current, currentLength, |nStr|);
      PackingStep(nStr[..i], encoded, current, currentLength, c);
      current := current * 16 + NumeralValue(c);
      currentLength := currentLength + 4;
      if currentLength >= 6 {
        var temp := current / Pow2(currentLength - 6);
        if |encoded| >= encSize { return None; }
        encoded := encoded + [ToChar(temp)];
        currentLength := currentLength - 6;
        current := current % Pow2(currentLength);
      }
    }
    assert nStr[..|nStr|] == nStr;
    PackingRoom(nStr, encoded, current, currentLength, |nStr|);
    PackingEnd(nStr, encoded, current, currentLength);
    if currentLength == 4 {
      if |encoded| >= encSize { return None; }
      encoded := encoded + [ToChar(current * 4 + 3)];
    } else if currentLength == 2 {
      if |encoded| >= encSize { return None; }
      encoded := encoded + [ToChar(current * 16 + 15)];
    }
    if |encoded| >= encSize { return None; }
    return Some(encoded);
  }

  lemma PackingStart()
    ensures Packing("", "", 0, 0)
  {
  }

  // ----- The unpacking loop -----

  /** What unpacking would produce if the characters still to read were appended to the state. */
  ghost function Resume(s: string, dec: string, current: nat, length: nat): Option<string>
    requires length == 0 || length == 2
  {
    if length == 0 then
      (match Unpack(s) case None => None case Some(rest) => Some(dec + rest))
    else if s == "" then (if current == 3 then Some(dec) else None)
    else if !IsDigit(s[0]) then None
    else
      var n := current * 64 + ToValue(s[0]);
      match Unpack(s[1..])
      case None => None
      case Some(rest) => Some(dec + Nibble(n / 16) + Nibble(n % 16) + rest)
  }

  lemma ResumeStep(s: string, dec: string, current: nat, length: nat)
    requires length == 0 || length == 2
    requires s != "" && IsDigit(s[0]) && (length == 0 ==> current == 0)
    ensures var n := current * 64 + ToValue(s[0]);
      Resume(s, dec, current, length) ==
        if length == 0 then Resume(s[1..], dec + Nibble(n / 4), n % 4, 2)
        else Resume(s[1..], dec + Nibble(n / 16) + Nibble(n % 16), 0, 0)
  {
    hide ToValue;
    if length == 0 {
      var v1 := ToValue(s[0]);
      if |s| > 1 && IsDigit(s[1]) {
        var v2 := ToValue(s[1]);
        ResumeArithmetic(v1, v2);
        assert s[1..][1..] == s[2..];
        if Unpack(s[2..]).Some? {
          var rest := Unpack(s[2..]).value;
          assert dec + (PairDigits(v1, v2) + rest)
              == dec + Nibble(v1 / 4) + Nibble(v1 % 4 * 4 + v2 / 16) + Nibble(v2 % 16) + rest;
        }
      }
    }
  }

  lemma ResumeArithmetic(v1: nat, v2: nat)
    requires v1 < 64 && v2 < 64
    ensures var n := v1 % 4 * 64 + v2; n / 16 == v1 % 4 * 4 + v2 / 16 && n % 16 == v2 % 16
  {
  }

  /** The inner loop: every complete half-byte is emitted unless it is padding. */
  method EmitNibbles(decIn: string, n: nat, total: nat, decSize: nat)
    returns (roomy: bool, dec: string, current: nat, length: nat)
    requires (total == 6 && n < 64) || (total == 8 && n < 256)
    ensures |decIn| + (if total == 6 then 1 else 2) <= decSize ==> roomy
    ensures roomy && total == 6 ==> dec == decIn + Nibble(n / 4) && current == n % 4 && length == 2
    ensures roomy && total == 8 ==>
      dec == decIn + Nibble(n / 16) + Nibble(n % 16) && current == 0 && length == 0
  {
    roomy, dec, current, length := true, decIn, n, total;
    SmallPowers();
    while length >= 4
      invariant roomy
      invariant length == total || length == total - 4 || length == total - 8
      invariant length == total ==> dec == decIn && current == n
      invariant total == 6 && length == 2 ==> dec == decIn + Nibble(n / 4) && current == n % 4
      invariant total == 8 && length == 4 ==> dec == decIn + Nibble(n / 16) && current == n % 16
      invariant total == 8 && length == 0 ==>
        dec == decIn + Nibble(n / 16) + Nibble(n % 16) && current == 0
      decreases length
    {
      var temp := current / Pow2(length - 4);
      if temp < 10 {
        if |dec| >= decSize {
          roomy := false;
          return;
        }
        dec := dec + [(temp + '0' as int) as char];
      }
      length := length - 4;
      current := current % Pow2(length);
    }
  }

  /** `base64_base64_str_to_number_str`: exactly `Unpack`, never failing for lack of room. */
  method Base64StrToNumberStr(b64Str: string) returns (r: Option<string>)
    ensures r == Unpack(b64Str)
  {
    hide ToValue, Unpack;
    var decSize := |b64Str| * 3 / 2 + 1;
    var dec := "";
    var current: nat, currentLen: nat := 0, 0;
    ResumeStart(b64Str);
    for i := 0 to |b64Str|
      invariant currentLen == 0 || currentLen == 2
      invariant if currentLen == 0 then current == 0 else current < 4
      invariant 2 * |dec| + (if currentLen == 2 then 1 else 0) <= 3 * i
      invariant Resume(b64Str[i..], dec, current, currentLen) == Unpack(b64Str)
    {
      var temp := ToValue(b64Str[i]);
      ghost var s := b64Str[i..];
      assert s[0] == b64Str[i] && s[1..] == b64Str[i + 1..];
      if temp == 0xFF {
        ResumeBad(s, dec, current, currentLen);
        return None;
      }
      ResumeStep(s, dec, current, currentLen);
      var roomy;
      roomy, dec, current, currentLen := EmitNibbles(dec, current * 64 + temp, currentLen + 6, decSize);
      if !roomy { return None; }
    }
    ResumeEnd(dec, current, currentLen);
    assert b64Str[|b64Str|..] == "";
    if currentLen == 2 && current != 3 {
      return None;
    }
    if |dec| >= decSize { return None; }
    return Some(dec);
  }

  lemma ResumeStart(s: string)
    ensures Resume(s[0..], "", 0, 0) == Unpack(s)
  {
    assert s[0..] == s;
    if Unpack(s).Some? { assert "" + Unpack(s).value == Unpack(s).value; }
  }

  lemma ResumeEnd(dec: string, current: nat, length: nat)
    requires length == 0 || length == 2
    ensures Resume("", dec, current, length) == if length == 2 && current != 3 then None else Some(dec)
  {
    assert dec + "" == dec;
  }

  lemma ResumeBad(s: string, dec: string, current: nat, length: nat)
    requires (length == 0 || length == 2) && s != "" && !IsDigit(s[0])
    ensures Resume(s, dec, current, length) == None
  {
  }
}
