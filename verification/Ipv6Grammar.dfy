/** What the IPv6 parser reads: segments forward up to "::" and backward from the end, brackets, a scope. */
module Ipv6Grammar {
  import opened Machine
  import opened Hexadecimal
  import opened Ipv6

  /** How one walk over a side of the text ends: the groups read, an exception, or an index that runs past
      the end of the text without ever meeting the exit test. */
  datatype Walk = Read(groups: seq<Group>) | Invalid | Stuck

  predicate ColonFree(s: string, a: nat, b: nat)
    requires b <= |s|
  {
    forall i :: a <= i < b ==> s[i] != ':'
  }

  /** Where the first segment ends. */
  function Colon(s: string): (p: nat)
    ensures p <= |s| && (p < |s| ==> s[p] == ':')
    ensures ColonFree(s, 0, p)
  {
    if s == "" || s[0] == ':' then 0 else 1 + Colon(s[1..])
  }

  /** Where the last segment starts. */
  function LastSegment(s: string): (q: nat)
    ensures q <= |s| && (q > 0 ==> s[q - 1] == ':')
    ensures ColonFree(s, q, |s|)
  {
    if s == "" then 0 else if s[|s| - 1] == ':' then |s| else LastSegment(s[..|s| - 1])
  }

  predicate Legal(s: string) { forall i :: 0 <= i < |s| ==> s[i] == ':' || IsHex(s[i]) }

  predicate OnlyColons(s: string) { forall i :: 0 <= i < |s| ==> s[i] == ':' }

  /** One to four digits as a group. */
  function Decode(digits: string): (g: Group)
    requires AllHex(digits) && 1 <= |digits| <= 4
    ensures Number(g) == ParseHex(digits)
  {
    var n := ParseHex(digits);
    ParseHexBound(digits);
    Group((n / 256) as u8, (n % 256) as u8)
  }

  lemma ParseHexBound(digits: string)
    requires AllHex(digits) && |digits| <= 4
    ensures ParseHex(digits) < 0x10000
    ensures |digits| == 1 ==> ParseHex(digits) == HexValue(digits[0])
    ensures |digits| == 2 ==> ParseHex(digits) == 16 * HexValue(digits[0]) + HexValue(digits[1])
    ensures |digits| == 3 ==>
      ParseHex(digits) == 256 * HexValue(digits[0]) + 16 * HexValue(digits[1]) + HexValue(digits[2])
    ensures |digits| == 4 ==>
      ParseHex(digits) ==
        4096 * HexValue(digits[0]) + 256 * HexValue(digits[1]) + 16 * HexValue(digits[2]) + HexValue(digits[3])
  {
    var n := |digits|;
    if n > 0 {
      var front := digits[..n - 1];
      ParseHexBound(front);
    }
  }

  function Before(done: seq<Group>, w: Walk): Walk {
    if w.Read? then Read(done + w.groups) else w
  }

  function After(w: Walk, done: seq<Group>): Walk {
    if w.Read? then Read(w.groups + done) else w
  }

  /** What the eight-bit counter makes of a segment: one of 257 to 260 digits counts as one to four. */
  function Counted(digits: nat): (n: nat)
    ensures n <= digits
  {
    digits % 256
  }

  predicate Usable(digits: nat) { 1 <= Counted(digits) <= 4 }

  /** The first segment's group: its last digits, as many as were counted. */
  function FirstGroup(s: string): Group
    requires Legal(s) && Usable(Colon(s))
  {
    Narrower(s, 0, Colon(s), Colon(s) - Counted(Colon(s)), Colon(s));
    DigitsIn(s, Colon(s) - Counted(Colon(s)), Colon(s));
    Decode(s[Colon(s) - Counted(Colon(s))..Colon(s)])
  }

  function AfterFirst(s: string): (r: string)
    requires Legal(s) && Colon(s) < |s|
    ensures Legal(r) && |r| < |s|
  {
    LegalIn(s, Colon(s) + 1, |s|);
    s[Colon(s) + 1..]
  }

  /** Reading segments from the left until the text or the room for groups is used up. */
  function Forward(s: string, room: nat): (w: Walk)
    requires Legal(s) && room >= 1
    ensures w.Read? ==> 1 <= |w.groups| <= room
    decreases |s|
  {
    if Counted(Colon(s)) == 0 then (if OnlyColons(s[Colon(s)..]) then Stuck else Invalid)
    else if !Usable(Colon(s)) then Invalid
    else if room == 1 || Colon(s) == |s| then Read([FirstGroup(s)])
    else Before([FirstGroup(s)], Forward(AfterFirst(s), room - 1))
  }

  /** The last segment's group: its first digits, as many as were counted. */
  function LastGroup(s: string): Group
    requires Legal(s) && Usable(|s| - LastSegment(s))
  {
    Narrower(s, LastSegment(s), |s|, LastSegment(s), LastSegment(s) + Counted(|s| - LastSegment(s)));
    DigitsIn(s, LastSegment(s), LastSegment(s) + Counted(|s| - LastSegment(s)));
    Decode(s[LastSegment(s)..LastSegment(s) + Counted(|s| - LastSegment(s))])
  }

  function BeforeLast(s: string): (r: string)
    requires Legal(s) && LastSegment(s) > 0
    ensures Legal(r) && |r| < |s|
  {
    LegalIn(s, 0, LastSegment(s) - 1);
    s[..LastSegment(s) - 1]
  }

  /** Reading segments from the right. */
  function Backward(s: string, room: nat): (w: Walk)
    requires Legal(s) && room >= 1
    ensures w.Read? ==> 1 <= |w.groups| <= room
    ensures !w.Stuck?
    decreases |s|
  {
    if !Usable(|s| - LastSegment(s)) then Invalid
    else if room == 1 || LastSegment(s) == 0 then Read([LastGroup(s)])
    else After(Backward(BeforeLast(s), room - 1), [LastGroup(s)])
  }

  lemma Narrower(s: string, a: nat, b: nat, c: nat, d: nat)
    requires a <= c && d <= b <= |s| && ColonFree(s, a, b)
    ensures ColonFree(s, c, d)
  {
  }

  lemma DigitsIn(t: string, a: nat, b: nat)
    requires a <= b <= |t| && Legal(t) && ColonFree(t, a, b)
    ensures AllHex(t[a..b])
  {
    forall i | 0 <= i < b - a ensures IsHex(t[a..b][i]) {
      assert t[a..b][i] == t[a + i];
    }
  }

  lemma LegalIn(t: string, a: nat, b: nat)
    requires a <= b <= |t| && Legal(t)
    ensures Legal(t[a..b]) && t[..b] == t[0..b] && t[a..|t|] == t[a..]
  {
    forall i | 0 <= i < b - a ensures t[a..b][i] == ':' || IsHex(t[a..b][i]) {
      assert t[a..b][i] == t[a + i];
    }
  }

  /** One segment of a forward walk: `p` digits, of which the counter sees `n`. */
  lemma ForwardUnfold(t: string, p: nat, n: nat, room: nat)
    requires Legal(t) && room >= 1 && p == Colon(t) && n == p % 256
    ensures n == 0 ==> Forward(t, room) == if OnlyColons(t[p..]) then Stuck else Invalid
    ensures n > 4 ==> Forward(t, room) == Invalid
    ensures 1 <= n <= 4 ==> AllHex(t[p - n..p])
    ensures 1 <= n <= 4 && (room == 1 || p == |t|) ==> Forward(t, room) == Read([Decode(t[p - n..p])])
    ensures 1 <= n <= 4 && room > 1 && p < |t| ==>
      Forward(t, room) == Before([Decode(t[p - n..p])], Forward(t[p + 1..], room - 1))
  {
    hide Decode, Colon, OnlyColons, AllHex, Legal, Before, FirstGroup, AfterFirst, ColonFree;
    if 1 <= n <= 4 {
      FirstParts(t);
    }
  }

  lemma FirstParts(t: string)
    requires Legal(t)
    ensures var p := Colon(t);
      Usable(p) ==> AllHex(t[p - Counted(p)..p]) && FirstGroup(t) == Decode(t[p - Counted(p)..p])
    ensures Colon(t) < |t| ==> AfterFirst(t) == t[Colon(t) + 1..]
  {
    hide Decode, Colon, AllHex, Legal, ColonFree, Counted;
    if Usable(Colon(t)) {
      Narrower(t, 0, Colon(t), Colon(t) - Counted(Colon(t)), Colon(t));
      DigitsIn(t, Colon(t) - Counted(Colon(t)), Colon(t));
    }
  }

  /** One segment of a backward walk, which starts at `q`. */
  lemma BackwardUnfold(t: string, q: nat, n: nat, room: nat)
    requires Legal(t) && room >= 1 && q == LastSegment(t) && n == (|t| - q) % 256
    ensures n == 0 || n > 4 ==> Backward(t, room) == Invalid
    ensures 1 <= n <= 4 ==> AllHex(t[q..q + n])
    ensures 1 <= n <= 4 && (room == 1 || q == 0) ==> Backward(t, room) == Read([Decode(t[q..q + n])])
    ensures 1 <= n <= 4 && room > 1 && q > 0 ==>
      Backward(t, room) == After(Backward(t[..q - 1], room - 1), [Decode(t[q..q + n])])
  {
    hide Decode, LastSegment, AllHex, Legal, After, LastGroup, BeforeLast, ColonFree;
    if 1 <= n <= 4 {
      LastParts(t);
    }
  }

  lemma LastParts(t: string)
    requires Legal(t)
    ensures var q := LastSegment(t);
      Usable(|t| - q) ==>
        AllHex(t[q..q + Counted(|t| - q)]) && LastGroup(t) == Decode(t[q..q + Counted(|t| - q)])
    ensures LastSegment(t) > 0 ==> BeforeLast(t) == t[..LastSegment(t) - 1]
  {
    hide Decode, LastSegment, AllHex, Legal, ColonFree, Counted;
    if Usable(|t| - LastSegment(t)) {
      var q, e := LastSegment(t), LastSegment(t) + Counted(|t| - LastSegment(t));
      Narrower(t, q, |t|, q, e);
      DigitsIn(t, q, e);
    }
  }

  /** Where the first segment ends, and where the last one starts. */
  lemma ColonIs(t: string, p: nat)
    requires p <= |t| && (p < |t| ==> t[p] == ':')
    requires forall i :: 0 <= i < p ==> t[i] != ':'
    ensures Colon(t) == p
  {
    hide Colon;
  }

  lemma SegmentIs(t: string, k: nat)
    requires k <= |t| && (k > 0 ==> t[k - 1] == ':')
    requires forall i :: k <= i < |t| ==> t[i] != ':'
    ensures LastSegment(t) == k
  {
    hide LastSegment;
  }

  ghost predicate Triple(s: string) {
    exists i :: 0 <= i < |s| - 2 && s[i] == ':' && s[i + 1] == ':' && s[i + 2] == ':'
  }

  /** The last "::", or -1. */
  function LastDouble(s: string): (d: int)
    ensures -1 <= d <= |s| - 2 || (d == -1 && |s| < 2)
    ensures d >= 0 ==> s[d] == ':' && s[d + 1] == ':'
  {
    if |s| < 2 then -1
    else if s[|s| - 1] == ':' && s[|s| - 2] == ':' then |s| - 2
    else LastDouble(s[..|s| - 1])
  }

  /** How many segments are followed by a colon. */
  function Closed(s: string): nat {
    if |s| < 2 then 0
    else Closed(s[..|s| - 1]) + if s[|s| - 1] == ':' && s[|s| - 2] != ':' then 1 else 0
  }

  function Colons(s: string): nat {
    if s == "" then 0 else Colons(s[..|s| - 1]) + if s[|s| - 1] == ':' then 1 else 0
  }

  /** The groups at the front and at the back of an otherwise zero address. */
  function Overlay(left: seq<Group>, right: seq<Group>): (a: Address)
    requires |left| <= 8 && |right| <= 8
  {
    var front, back := Flatten(left), Flatten(right);
    var bytes: seq<u8> := seq(16, i requires 0 <= i < 16 =>
      if i >= 16 - |back| then back[i - (16 - |back|)] else if i < |front| then front[i] else 0);
    bytes
  }

  datatype Outcome = Parsed(address: Address, scope: u32) | Rejected | Spinning

  /** The part between brackets and before the scope; `endsDouble` is the test on the end of the whole text. */
  ghost function ParseBody(body: string, endsDouble: bool, scope: u32): Outcome {
    if !Legal(body) || Triple(body) then Rejected
    else if LastDouble(body) >= 0 then
      var d := LastDouble(body);
      if 1 + Closed(body) - (if endsDouble then 1 else 0) > 7 then Rejected
      else
        // A walk that runs off the left side meets a checked index and raises.
        var left := if d == 0 then Read([]) else Forward(body[..d], 8);
        var right := if d + 2 == |body| then Read([]) else Backward(body[d + 2..], 8);
        if left.Read? && right.Read? then Parsed(Overlay(left.groups, right.groups), scope) else Rejected
    else if 1 + Colons(body) != 8 then Rejected
    else
      match Forward(body, 8)
      case Read(groups) => Parsed(Overlay(groups, []), scope)
      case Invalid => Rejected
      case Stuck => Spinning
  }

  datatype Lookup = Found(id: u32) | Unknown

  /** Where the scope starts; 0 stands for none. */
  function ScopeStart(text: string): (k: nat)
    ensures k == 0 || k < |text|
  {
    if text == "" then 0
    else if text[|text| - 1] == '%' then |text| - 1
    else ScopeStart(text[..|text| - 1])
  }

  predicate EndsDouble(text: string) { |text| >= 2 && text[|text| - 2..] == "::" }

  /** The whole parser; `interfaceIndex` is the operating system's table of interface names. */
  ghost function Parse(text: string, interfaceIndex: string -> Lookup): Outcome {
    var k := ScopeStart(text);
    var found := if k != 0 && k + 1 < |text| then interfaceIndex(text[k + 1..]) else Found(0);
    var end := if k != 0 then k else |text|;
    if found.Unknown? then Rejected
    else if text == "::" || text == "[::]" then Parsed(Overlay([], []), found.id)
    else if text == "" || (text[0] == '[') != (text[end - 1] == ']') then Rejected
    else if text[0] == '[' then ParseBody(text[1..end - 1], EndsDouble(text), found.id)
    else ParseBody(text[..end], EndsDouble(text), found.id)
  }
}
