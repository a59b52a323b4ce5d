/** Exactly which texts make the IPv6 parser's full form run past the end of the text, and what becomes of
    the index then. */
module Ipv6Spinning {
  import opened Machine
  import opened Hexadecimal
  import opened Ipv6Grammar
  import opened Ipv6Parser
  import opened Ipv6RoundTrip

  // ----- Segments -----

  /** The text split at its colons. */
  function Segments(s: string): (r: seq<string>)
    ensures |r| >= 1
    decreases |s|
  {
    if Colon(s) == |s| then [s] else [s[..Colon(s)]] + Segments(s[Colon(s) + 1..])
  }

  /** One to four digits as far as the eight-bit counter sees, in each of the first n segments. */
  predicate UsableUpTo(parts: seq<string>, n: nat)
    requires n <= |parts|
  {
    forall i :: 0 <= i < n ==> Usable(|parts[i]|)
  }

  /** The segments lead the walk past the end: all but the last decode and the counter sees nothing of the
      last, whose length is a multiple of 256; or the last is empty, the counter sees nothing of the one
      before it, and all others decode. */
  predicate Runaway(parts: seq<string>) {
    var n := |parts|;
    || (n >= 1 && UsableUpTo(parts, n - 1) && Counted(|parts[n - 1]|) == 0)
    || (n >= 2 && UsableUpTo(parts, n - 2) && Counted(|parts[n - 2]|) == 0 && parts[n - 1] == "")
  }

  /** The condition on the part between brackets and before the scope. */
  predicate BodySpins(body: string) {
    Legal(body) && Separated(body) && |Segments(body)| == 8 && Runaway(Segments(body))
  }

  lemma {:induction false} SegmentsCount(s: string)
    ensures |Segments(s)| == Colons(s) + 1
    decreases |s|
  {
    var p := Colon(s);
    ColonsOverFree(s, p);
    if p < |s| {
      SegmentsCount(s[p + 1..]);
      ColonsSplit(s, p + 1);
      assert s[..p + 1][..p] == s[..p];
    } else {
      assert s[..p] == s;
    }
  }

  lemma {:induction false} ColonsOverFree(s: string, p: nat)
    requires p <= |s| && ColonFree(s, 0, p)
    ensures Colons(s[..p]) == 0
  {
    if p > 0 {
      ColonsOverFree(s, p - 1);
      assert s[..p][..p - 1] == s[..p - 1];
    }
  }

  lemma {:induction false} ColonsSplit(s: string, k: nat)
    requires k <= |s|
    ensures Colons(s) == Colons(s[..k]) + Colons(s[k..])
    decreases |s|
  {
    if k == |s| {
      assert s[..k] == s;
    } else {
      var n := |s| - 1;
      ColonsSplit(s[..n], k);
      assert s[..n][..k] == s[..k];
      assert s[..n][k..] == s[k..][..n - k];
    }
  }

  // ----- The walk -----

  /** What a finished first segment does to the condition. */
  lemma RunawayFirst(parts: seq<string>)
    requires |parts| >= 2
    ensures var n := Counted(|parts[0]|);
      Runaway(parts) <==>
        if n == 0 then |parts| == 2 && parts[1] == "" else 1 <= n <= 4 && Runaway(parts[1..])
  {
    var rest := parts[1..];
    assert forall i :: 0 <= i < |rest| ==> rest[i] == parts[i + 1];
    UsableShift(parts, |parts| - 1);
    UsableShift(parts, |parts| - 2);
    hide UsableUpTo;
    assert |parts| > 2 ==> rest[|rest| - 2] == parts[|parts| - 2];
    assert rest[|rest| - 1] == parts[|parts| - 1];
  }

  lemma UsableShift(parts: seq<string>, n: nat)
    requires |parts| >= 1 && n <= |parts|
    ensures UsableUpTo(parts, n) <==> n == 0 || (Usable(|parts[0]|) && UsableUpTo(parts[1..], n - 1))
  {
    if n > 0 && Usable(|parts[0]|) && UsableUpTo(parts[1..], n - 1) {
      forall i | 0 <= i < n ensures Usable(|parts[i]|) {
        assert i > 0 ==> parts[i] == parts[1..][i - 1];
      }
    }
    if n > 0 && UsableUpTo(parts, n) {
      forall i | 0 <= i < n - 1 ensures Usable(|parts[1..][i]|) {
        assert parts[1..][i] == parts[i + 1];
      }
    }
  }

  /** With room for all of its segments a plain text is stuck exactly when its segments say so. */
  lemma {:induction false} StuckExactly(s: string, room: nat)
    requires Legal(s) && Separated(s) && |Segments(s)| <= room
    ensures Forward(s, room).Stuck? <==> Runaway(Segments(s))
    decreases |s|
  {
    hide Forward, Runaway, Decode;
    var p := Colon(s);
    var n := p % 256;
    ForwardUnfold(s, p, n, room);
    if p == |s| {
      LastSegmentRunaway(s);
      assert OnlyColons(s[p..]);
    } else {
      var rest := s[p + 1..];
      LegalIn(s, p + 1, |s|);
      PlainRest(s, p + 1);
      RunawayFirst(Segments(s));
      assert Segments(s)[1..] == Segments(rest);
      if n == 0 {
        ColonsLeft(s, p);
      } else {
        StuckExactly(rest, room - 1);
      }
    }
  }

  lemma LastSegmentRunaway(s: string)
    requires Colon(s) == |s|
    ensures Runaway(Segments(s)) <==> Counted(|s|) == 0
  {
  }

  lemma PlainRest(s: string, k: nat)
    requires Separated(s) && k <= |s|
    ensures Separated(s[k..])
  {
    var t := s[k..];
    forall i | 0 <= i < |t| - 1 ensures t[i] != ':' || t[i + 1] != ':' {
      assert t[i] == s[k + i] && t[i + 1] == s[k + i + 1];
    }
  }

  /** After a colon, only colons are left exactly when it is the last character. */
  lemma ColonsLeft(s: string, p: nat)
    requires Separated(s) && p < |s| && s[p] == ':' && p == Colon(s)
    ensures OnlyColons(s[p..]) <==> |Segments(s)| == 2 && Segments(s)[1] == ""
  {
    var rest := s[p + 1..];
    assert Segments(s)[1..] == Segments(rest);
    if rest != "" {
      assert s[p] != ':' || s[p + 1] != ':';
      assert s[p..][1] == s[p + 1];
      if |Segments(rest)| == 1 { assert Segments(rest) == [rest]; }
    } else {
      assert Segments(rest) == [""];
    }
  }

  /** The body spins exactly under the condition. */
  lemma BodySpinsExactly(body: string, endsDouble: bool, scope: u32)
    ensures ParseBody(body, endsDouble, scope) == Spinning <==> BodySpins(body)
  {
    hide Forward, Segments, Runaway, Overlay, Closed, Backward, LastDouble, Colons;
    SegmentsCount(body);
    if Legal(body) {
      PlainMeansNoDouble(body);
      if Separated(body) && Colons(body) == 7 {
        StuckExactly(body, 8);
      }
    }
  }

  lemma PlainMeansNoDouble(s: string)
    ensures Separated(s) <==> LastDouble(s) == -1
    ensures Separated(s) ==> !Triple(s)
  {
    if Separated(s) {
      NoDouble(s);
    } else {
      NoDoubleAfter(s, LastDouble(s));
    }
  }

  // ----- Whole texts -----

  /** Where the address part ends: before the scope. */
  function AddressEnd(text: string): (e: nat)
    ensures e <= |text| && (text != "" ==> e > 0)
  {
    if ScopeStart(text) != 0 then ScopeStart(text) else |text|
  }

  /** Brackets on both sides or on none. */
  predicate Matched(text: string) {
    text != "" && ((text[0] == '[') == (text[AddressEnd(text) - 1] == ']'))
  }

  function Inside(text: string): string
    requires Matched(text)
  {
    if text[0] == '[' then text[1..AddressEnd(text) - 1] else text[..AddressEnd(text)]
  }

  predicate ScopeFound(text: string, interfaceIndex: string -> Lookup) {
    var k := ScopeStart(text);
    k != 0 && k + 1 < |text| ==> interfaceIndex(text[k + 1..]).Found?
  }

  /** The parser spins on a text if and only if its scope is known, its brackets match and the address
      between them has no "::", eight segments of hexadecimal digits, and a runaway end. */
  lemma SpinsExactly(text: string, interfaceIndex: string -> Lookup)
    ensures Parse(text, interfaceIndex) == Spinning <==>
      ScopeFound(text, interfaceIndex) && Matched(text) && BodySpins(Inside(text))
  {
    hide ParseBody, BodySpins, ScopeStart, EndsDouble, Overlay;
    if Matched(text) {
      BodySpinsExactly(Inside(text), EndsDouble(text), 0);
      if ScopeFound(text, interfaceIndex) && text != "::" && text != "[::]" {
        var k := ScopeStart(text);
        var scope := if k != 0 && k + 1 < |text| then interfaceIndex(text[k + 1..]).id else 0;
        BodySpinsExactly(Inside(text), EndsDouble(text), scope);
      }
    }
    if text == "::" || text == "[::]" { NoDoubleSpins(text); }
  }

  lemma NoDoubleSpins(text: string)
    requires text == "::" || text == "[::]"
    ensures Matched(text) && !BodySpins(Inside(text))
  {
    ScopeIsLastPercent(text, 0);
    assert Inside(text) == "::";
    assert !Separated("::") by { assert "::"[0] == ':' && "::"[1] == ':'; }
  }

  // ----- What becomes of the index -----

  /** A text that spins begins with a bracket or a digit, so the index meets no colon when it comes round. */
  lemma SpinningStart(text: string, interfaceIndex: string -> Lookup)
    requires Parse(text, interfaceIndex) == Spinning
    ensures text != "" && text[0] != ':'
  {
    hide Runaway, ScopeStart, Legal, Parse;
    SpinsExactly(text, interfaceIndex);
    if text[0] == ':' {
      var body := Inside(text);
      assert body[0] == ':';
      ColonIs(body, 0);
      var parts := Segments(body);
      assert parts[0] == "";
      EmptyFirst(parts);
    }
  }

  lemma EmptyFirst(parts: seq<string>)
    requires |parts| == 8 && parts[0] == ""
    ensures !Runaway(parts)
  {
  }

  /** The walk goes on with no digits counted: it skips to the end of the text and then idles until the 64
      bits of the index wrap; at index zero it meets a character that is no colon and raises. */
  method WrapRound(text: string, interfaceIndex: string -> Lookup) returns (status: Status, at: u64, ghost turns: nat)
    requires Parse(text, interfaceIndex) == Spinning && |text| < 0x1_0000_0000_0000_0000
    ensures status == Raised && at == 0
    ensures turns + |text| >= 0x1_0000_0000_0000_0000
  {
    var end := AddressEnd(text) as u64;
    var count := 0;
    at, turns := end, 0;
    SpinningStart(text, interfaceIndex);
    while true
      invariant at >= end ==> turns == at as nat - end as nat
      invariant at < end ==> at == 0 && turns == 0x1_0000_0000_0000_0000 - end as nat
      invariant end as nat <= |text| && count == 0
      decreases if at >= end then 0x1_0000_0000_0000_0000 - at as nat else 0
    {
      if at >= end || text[at as nat] == ':' {
        at := if at == 0xFFFF_FFFF_FFFF_FFFF then 0 else at + 1;
        turns := turns + 1;
      } else {
        status := if count == 0 || count > 4 then Raised else Done;
        return;
      }
    }
  }

  // ----- Texts on either side of the condition -----

  function Zeros(n: nat): (z: string)
    ensures |z| == n && forall i :: 0 <= i < n ==> z[i] == '0'
  {
    seq(n, _ => '0')
  }

  function Eight(first: string, last: string): string {
    first + ":" + ("2" + ":" + ("3" + ":" + ("4" + ":" + ("5" + ":" + ("6" + ":" + ("7" + ":" + last))))))
  }

  predicate Chain(s: string) { Legal(s) && Separated(s) && (s == "" || s[0] != ':') }

  lemma ChainCons(head: string, rest: string)
    requires AllHex(head) && head != "" && Chain(rest)
    ensures Chain(head + ":" + rest)
    ensures Segments(head + ":" + rest) == [head] + Segments(rest)
  {
    hide Segments;
    var s, k := head + ":" + rest, |head|;
    forall i | 0 <= i < |s| - 1 ensures s[i] != ':' || s[i + 1] != ':' {
      if i < k {
        assert IsHex(head[i]);
      } else if i > k {
        assert s[i] == rest[i - k - 1] && s[i + 1] == rest[i - k];
      }
    }
    assert IsHex(head[0]);
    SegmentsCons(head, rest);
  }

  lemma SegmentsCons(head: string, rest: string)
    requires AllHex(head)
    ensures Segments(head + ":" + rest) == [head] + Segments(rest)
    ensures Segments(head) == [head]
  {
    var s := head + ":" + rest;
    ColonIs(s, |head|);
    ColonIs(head, |head|);
    assert s[..|head|] == head && s[|head| + 1..] == rest;
  }

  lemma LastChain(last: string)
    requires AllHex(last)
    ensures Chain(last)
  {
  }

  lemma EightSegments(first: string, last: string)
    requires AllHex(first) && first != "" && AllHex(last)
    ensures Chain(Eight(first, last)) && Segments(Eight(first, last)) == [first, "2", "3", "4", "5", "6", "7", last]
  {
    hide Segments, Chain;
    LastChain(last);
    SegmentsCons(last, "");
    var t7 := "7" + ":" + last;
    ChainCons("7", last);
    var t6 := "6" + ":" + t7;
    ChainCons("6", t7);
    var t5 := "5" + ":" + t6;
    ChainCons("5", t6);
    var t4 := "4" + ":" + t5;
    ChainCons("4", t5);
    var t3 := "3" + ":" + t4;
    ChainCons("3", t4);
    ChainCons("2", t3);
    ChainCons(first, "2" + ":" + t3);
  }

  /** Such a text spins exactly when the counter sees one to four digits in the first segment and none in
      the last. */
  lemma EightSpins(first: string, last: string, interfaceIndex: string -> Lookup)
    requires AllHex(first) && first != "" && AllHex(last)
    ensures Parse(Eight(first, last), interfaceIndex) == Spinning <==> Usable(|first|) && Counted(|last|) == 0
  {
    hide Parse, Segments, ScopeStart;
    var text := Eight(first, last);
    EightSegments(first, last);
    ScopeIsLastPercent(text, 0);
    assert text[..|text|] == text;
    assert Legal(text);
    var parts := [first, "2", "3", "4", "5", "6", "7", last];
    assert parts[1] == "2" && Runaway(parts) <==> Usable(|first|) && Counted(|last|) == 0 by {
      EightRunaway(first, last);
    }
    SpinsExactly(text, interfaceIndex);
  }

  lemma EightRunaway(first: string, last: string)
    ensures Runaway([first, "2", "3", "4", "5", "6", "7", last]) <==> Usable(|first|) && Counted(|last|) == 0
  {
    var parts := [first, "2", "3", "4", "5", "6", "7", last];
    assert parts[0] == first && parts[6] == "7" && parts[7] == last;
  }

  /** A first segment with more than four digits in the counter raises. */
  lemma LongFirstRaises(first: string, last: string, interfaceIndex: string -> Lookup)
    requires AllHex(first) && AllHex(last) && Counted(|first|) > 4
    ensures Parse(Eight(first, last), interfaceIndex) == Rejected
  {
    hide Segments, ScopeStart, Forward, Colons, LastDouble, Closed, Triple, Backward, Overlay, Eight;
    var text := Eight(first, last);
    EightSegments(first, last);
    SegmentsCount(text);
    ScopeIsLastPercent(text, 0);
    assert text[..|text|] == text;
    PlainMeansNoDouble(text);
    assert Colon(text) == |first| by { FirstColon(first, last); }
    ForwardUnfold(text, |first|, Counted(|first|), 8);
  }

  lemma FirstColon(first: string, last: string)
    requires AllHex(first)
    ensures Colon(Eight(first, last)) == |first|
  {
    var text := Eight(first, last);
    assert text[..|first|] == first && text[|first|] == ':';
    forall i | 0 <= i < |first| ensures text[i] != ':' {
      assert IsHex(first[i]);
    }
    ColonIs(text, |first|);
  }

  lemma EightTexts()
    ensures Eight("1", "") == "1:2:3:4:5:6:7:"
    ensures Eight("12345", "") == "12345:2:3:4:5:6:7:"
    ensures Eight("1", Zeros(256)) == "1:2:3:4:5:6:7:" + Zeros(256)
  {
  }

  /** Seven groups and a final colon: the walk never ends by itself. */
  lemma FinalColonSpins(interfaceIndex: string -> Lookup)
    ensures Parse("1:2:3:4:5:6:7:", interfaceIndex) == Spinning
  {
    hide Parse, Eight;
    EightTexts();
    EightSpins("1", "", interfaceIndex);
  }

  /** A final colon is not necessary: 256 digits at the end count as none. */
  lemma LongEndSpins(interfaceIndex: string -> Lookup)
    ensures Parse("1:2:3:4:5:6:7:" + Zeros(256), interfaceIndex) == Spinning
  {
    hide Parse, Eight;
    EightTexts();
    EightSpins("1", Zeros(256), interfaceIndex);
  }

  /** Nor is it sufficient: a segment of five digits raises first. */
  lemma FinalColonCanRaise(interfaceIndex: string -> Lookup)
    ensures Parse("12345:2:3:4:5:6:7:", interfaceIndex) == Rejected
  {
    hide Parse, Eight;
    EightTexts();
    LongFirstRaises("12345", "", interfaceIndex);
  }
}
