/** Parsing addresses in the text form of section 2.2 of RFC 4291, what the printer writes among them. */
module Ipv6RoundTrip {
  import opened Machine
  import opened Hexadecimal
  import opened Ipv6
  import opened Ipv6Grammar

  // ----- Segments joined by colons -----

  /** A segment the walks can read: one to four hexadecimal digits, as far as the counter sees. */
  predicate Segment(t: string) { AllHex(t) && Usable(|t|) }

  predicate AllSegments(ts: seq<string>) { forall i :: 0 <= i < |ts| ==> Segment(ts[i]) }

  function Joined(ts: seq<string>): string {
    if ts == [] then ""
    else if |ts| == 1 then ts[0]
    else ts[0] + ":" + Joined(ts[1..])
  }

  /** What a segment stands for left of "::", and right of it; the same for up to 255 digits. */
  function LeftValue(t: string): Group
    requires Segment(t)
  {
    Decode(t[|t| - Counted(|t|)..])
  }

  function RightValue(t: string): Group
    requires Segment(t)
  {
    Decode(t[..Counted(|t|)])
  }

  lemma ShortValue(t: string)
    requires AllHex(t) && 1 <= |t| <= 4
    ensures Segment(t) && LeftValue(t) == RightValue(t) == Decode(t)
  {
    assert t[0..] == t == t[..|t|];
  }

  function LeftValues(ts: seq<string>): (gs: seq<Group>)
    requires AllSegments(ts)
    ensures |gs| == |ts|
  {
    seq(|ts|, i requires 0 <= i < |ts| => LeftValue(ts[i]))
  }

  function RightValues(ts: seq<string>): (gs: seq<Group>)
    requires AllSegments(ts)
    ensures |gs| == |ts|
  {
    seq(|ts|, i requires 0 <= i < |ts| => RightValue(ts[i]))
  }

  lemma {:induction false} JoinedSnoc(ts: seq<string>, t: string)
    requires ts != []
    ensures Joined(ts + [t]) == Joined(ts) + ":" + t
  {
    var all := ts + [t];
    if |ts| == 1 {
      assert all[1..] == [t];
    } else {
      JoinedSnoc(ts[1..], t);
      assert all[1..] == ts[1..] + [t];
    }
  }

  function TextsOf(gs: seq<Group>): (ts: seq<string>)
    ensures |ts| == |gs|
  {
    seq(|gs|, i requires 0 <= i < |gs| => GroupText(gs[i]))
  }

  /** Printed groups are such segments. */
  lemma {:induction false} PrintedSegments(gs: seq<Group>)
    ensures Join(gs) == Joined(TextsOf(gs)) && AllSegments(TextsOf(gs))
    ensures LeftValues(TextsOf(gs)) == RightValues(TextsOf(gs)) == gs
  {
    hide GroupText, Segment, LeftValue, RightValue;
    var ts := TextsOf(gs);
    forall i | 0 <= i < |ts| ensures Segment(ts[i]) && LeftValue(ts[i]) == RightValue(ts[i]) == gs[i] {
      GroupTextShape(gs[i]);
    }
    if |gs| > 1 {
      PrintedSegments(gs[1..]);
      assert ts[1..] == TextsOf(gs[1..]);
    } else if |gs| == 1 {
      assert gs == [gs[0]];
    }
  }

  // ----- Shape of the text -----

  lemma GroupTextShape(g: Group)
    ensures Segment(GroupText(g)) && LeftValue(GroupText(g)) == RightValue(GroupText(g)) == g
  {
    hide LeftValue, RightValue, Segment;
    var n := Number(g);
    assert n < 0x10000;
    HexLength(n, 4);
    ParseOfHex(n, Upper);
    ShortValue(GroupText(g));
  }

  lemma {:induction false} HexLength(n: nat, k: nat)
    requires k >= 1 && n < Pow16(k)
    ensures |Hex(n, Upper)| <= k
  {
    if n >= 16 {
      assert k >= 2;
      HexLength(n / 16, k - 1);
    }
  }

  function Pow16(k: nat): nat { if k == 0 then 1 else 16 * Pow16(k - 1) }

  /** Legal characters, no empty segment. */
  predicate Tidy(s: string) {
    && Legal(s)
    && s != "" && s[0] != ':' && s[|s| - 1] != ':'
    && forall i :: 0 <= i < |s| - 1 ==> s[i] != ':' || s[i + 1] != ':'
  }

  lemma {:induction false} JoinTidy(ts: seq<string>)
    requires ts != [] && AllSegments(ts)
    ensures Tidy(Joined(ts))
  {
    assert IsHex(ts[0][0]) && IsHex(ts[0][|ts[0]| - 1]);
    if |ts| > 1 {
      JoinTidy(ts[1..]);
      TidyCons(ts[0], Joined(ts[1..]));
    } else {
      assert forall i :: 0 <= i < |ts[0]| ==> IsHex(ts[0][i]);
    }
  }

  lemma TidyCons(head: string, rest: string)
    requires AllHex(head) && head != "" && Tidy(rest)
    ensures Tidy(head + ":" + rest)
  {
    var s := head + ":" + rest;
    forall i | 0 <= i < |s| - 1 ensures s[i] != ':' || s[i + 1] != ':' {
      if i < |head| {
        assert IsHex(head[i]);
      } else if i > |head| {
        assert s[i] == rest[i - |head| - 1] && s[i + 1] == rest[i - |head|];
      }
    }
  }

  // ----- The walks -----

  lemma ForwardLast(head: string, room: nat)
    requires Segment(head) && room >= 1
    ensures Legal(head) && Forward(head, room) == Read([LeftValue(head)])
  {
    hide Decode, Forward, Counted;
    CountedIs(|head|);
    ColonIs(head, |head|);
    ForwardUnfold(head, |head|, Counted(|head|), room);
    assert head[|head| - Counted(|head|)..|head|] == head[|head| - Counted(|head|)..];
  }

  lemma CountedIs(n: nat)
    ensures Counted(n) == n % 256
  {
  }

  lemma ForwardCons(head: string, rest: string, room: nat)
    requires Segment(head) && Legal(rest) && room >= 2
    requires Forward(rest, room - 1).Read?
    ensures Legal(head + ":" + rest)
    ensures Forward(head + ":" + rest, room) == Read([LeftValue(head)] + Forward(rest, room - 1).groups)
  {
    hide Decode, Forward, Counted;
    var s, p := head + ":" + rest, |head|;
    CountedIs(p);
    ColonIs(s, p);
    ForwardUnfold(s, p, Counted(p), room);
    assert s[p - Counted(p)..p] == head[p - Counted(p)..];
    assert s[p + 1..] == rest;
  }

  lemma {:induction false} ForwardOfJoin(ts: seq<string>, room: nat)
    requires 1 <= |ts| <= room && AllSegments(ts)
    ensures Legal(Joined(ts)) && Forward(Joined(ts), room) == Read(LeftValues(ts))
  {
    hide LeftValue, Forward, Segment;
    if |ts| == 1 {
      ForwardLast(ts[0], room);
      assert LeftValues(ts) == [LeftValue(ts[0])];
    } else {
      ForwardOfJoin(ts[1..], room - 1);
      ForwardCons(ts[0], Joined(ts[1..]), room);
      assert LeftValues(ts) == [LeftValue(ts[0])] + LeftValues(ts[1..]);
    }
  }

  lemma BackwardFirst(tail: string, room: nat)
    requires Segment(tail) && room >= 1
    ensures Legal(tail) && Backward(tail, room) == Read([RightValue(tail)])
  {
    hide Decode, Backward, Counted;
    CountedIs(|tail|);
    SegmentIs(tail, 0);
    BackwardUnfold(tail, 0, Counted(|tail|), room);
    assert tail[0..Counted(|tail|)] == tail[..Counted(|tail|)];
  }

  lemma BackwardSnoc(front: string, tail: string, room: nat)
    requires Segment(tail) && Legal(front) && room >= 2
    requires Backward(front, room - 1).Read?
    ensures Legal(front + ":" + tail)
    ensures Backward(front + ":" + tail, room) == Read(Backward(front, room - 1).groups + [RightValue(tail)])
  {
    hide Decode, Backward, Counted;
    var s, q, n := front + ":" + tail, |front| + 1, Counted(|tail|);
    CountedIs(|tail|);
    assert forall i :: q <= i < |s| ==> s[i] == tail[i - q];
    SegmentIs(s, q);
    BackwardUnfold(s, q, n, room);
    assert s[q..q + n] == tail[..n];
    assert s[..q - 1] == front;
  }

  lemma {:induction false} BackwardOfJoin(ts: seq<string>, room: nat)
    requires 1 <= |ts| <= room && AllSegments(ts)
    ensures Legal(Joined(ts)) && Backward(Joined(ts), room) == Read(RightValues(ts))
    decreases |ts|
  {
    hide RightValue, Backward, Segment;
    var front, last := ts[..|ts| - 1], ts[|ts| - 1];
    assert ts == front + [last];
    if front == [] {
      BackwardFirst(last, room);
      assert RightValues(ts) == [RightValue(last)];
    } else {
      hide Joined;
      JoinedSnoc(front, last);
      BackwardOfJoin(front, room - 1);
      BackwardSnoc(Joined(front), last, room);
      assert RightValues(ts) == RightValues(front) + [RightValue(last)];
    }
  }

  // ----- Counting segments -----

  lemma {:induction false} CountsOverDigits(s: string, digits: string)
    requires AllHex(digits)
    ensures Closed(s + digits) == Closed(s) && Colons(s + digits) == Colons(s)
    decreases |digits|
  {
    if digits == "" {
      assert s + digits == s;
    } else {
      var n := |digits|;
      CountsOverDigits(s, digits[..n - 1]);
      assert (s + digits)[..|s| + n - 1] == s + digits[..n - 1];
      assert IsHex(digits[n - 1]);
      assert (s + digits)[|s| + n - 1] != ':';
    }
  }

  lemma CountsOverColon(s: string)
    requires s != ""
    ensures Colons(s + ":") == Colons(s) + 1
    ensures Closed(s + ":") == Closed(s) + if s[|s| - 1] != ':' then 1 else 0
  {
    assert (s + ":")[..|s|] == s;
  }

  /** Joined segments add one closed segment less than there are. */
  lemma {:induction false} CountsOverJoin(s: string, ts: seq<string>)
    requires ts != [] && AllSegments(ts)
    ensures Closed(s + Joined(ts)) == Closed(s) + |ts| - 1
    ensures Colons(s + Joined(ts)) == Colons(s) + |ts| - 1
    decreases |ts|
  {
    hide Closed, Colons, AllHex;
    var front, last := ts[..|ts| - 1], ts[|ts| - 1];
    assert ts == front + [last];
    if front == [] {
      CountsOverDigits(s, last);
    } else {
      hide Joined;
      JoinedSnoc(front, last);
      CountsOverJoin(s, front);
      JoinTidy(front);
      var t := s + Joined(front);
      CountsOverColon(t);
      CountsOverDigits(t + ":", last);
      assert t + ":" + last == s + Joined(ts);
    }
  }

  lemma {:induction false} LastDoubleIs(s: string, d: nat)
    requires d + 2 <= |s| && s[d] == ':' && s[d + 1] == ':'
    requires forall i :: d < i < |s| - 1 ==> s[i] != ':' || s[i + 1] != ':'
    ensures LastDouble(s) == d
    decreases |s|
  {
    if d + 2 < |s| {
      assert s[|s| - 2] != ':' || s[|s| - 1] != ':';
      LastDoubleIs(s[..|s| - 1], d);
    }
  }

  lemma NoDouble(s: string)
    requires forall i :: 0 <= i < |s| - 1 ==> s[i] != ':' || s[i + 1] != ':'
    ensures LastDouble(s) == -1
  {
    var d := LastDouble(s);
  }

  // ----- The compressed form -----

  /** Joined groups, possibly none. */
  predicate Side(s: string) { s == "" || Tidy(s) }

  lemma CompressedShape(left: string, right: string)
    requires Side(left) && Side(right)
    ensures var s := left + "::" + right;
      Legal(s) && !Triple(s) && LastDouble(s) == |left|
  {
    var s, d := left + "::" + right, |left|;
    forall i | 0 <= i < |s| - 1 && i != d ensures s[i] != ':' || s[i + 1] != ':' {
      if i < d - 1 {
        assert s[i] == left[i] && s[i + 1] == left[i + 1];
      } else if i > d + 1 {
        assert s[i] == right[i - d - 2] && s[i + 1] == right[i - d - 1];
      }
    }
    LastDoubleIs(s, d);
    forall i | 0 <= i < |s| - 2 ensures s[i] != ':' || s[i + 1] != ':' || s[i + 2] != ':' {
      assert i != d || i + 1 != d;
    }
  }

  lemma CompressedCount(left: seq<string>, right: seq<string>)
    requires AllSegments(left) && AllSegments(right)
    ensures Closed(Joined(left) + "::" + Joined(right)) ==
      |left| + if right == [] then 0 else |right| - 1
  {
    hide Closed, Colons, Joined, AllSegments;
    JoinedNothing();
    var l := Joined(left);
    CountsOverLeft(left);
    if right == [] {
      assert l + "::" + Joined(right) == l + "::";
    } else {
      CountsOverJoin(l + "::", right);
    }
  }

  lemma CountsOverLeft(left: seq<string>)
    requires AllSegments(left)
    ensures Closed(Joined(left) + "::") == |left|
  {
    hide Closed, Colons, Joined, AllSegments;
    JoinedNothing();
    ClosedNothing();
    var l := Joined(left);
    if left == [] {
      assert l + "::" == "::";
    } else {
      CountsOverJoin("", left);
      assert "" + l == l;
      JoinTidy(left);
      CountsOverColon(l);
      CountsOverColon(l + ":");
      assert l + ":" + ":" == l + "::";
    }
  }

  lemma JoinedNothing()
    ensures Joined([]) == ""
  {
  }

  lemma ClosedNothing()
    ensures Closed("") == 0 && Colons("") == 0 && Closed("::") == 0
  {
    assert "::"[..1] == ":";
  }

  lemma JoinSide(ts: seq<string>)
    requires AllSegments(ts)
    ensures Side(Joined(ts))
    ensures Joined(ts) == "" <==> ts == []
  {
    if ts != [] { JoinTidy(ts); }
  }

  /** How many segments the parser accepts around "::": seven groups besides it, or eight when the whole
      text ends in "::". */
  predicate Fits(left: nat, right: nat, endsDouble: bool) {
    left + (if right == 0 then 1 else right) <= if endsDouble then 8 else 7
  }

  /** The compressed form: segments around "::". */
  lemma SegmentsParsed(left: seq<string>, right: seq<string>, endsDouble: bool, scope: u32)
    requires |left| <= 8 && |right| <= 8 && AllSegments(left) && AllSegments(right)
    ensures ParseBody(Joined(left) + "::" + Joined(right), endsDouble, scope) ==
      if Fits(|left|, |right|, endsDouble) then Parsed(Overlay(LeftValues(left), RightValues(right)), scope)
      else Rejected
  {
    hide Joined, Closed, Forward, Backward, Overlay, Legal, Triple, LastDouble, Side, AllSegments;
    var l, r := Joined(left), Joined(right);
    var body, d := l + "::" + r, |l|;
    JoinSide(left);
    JoinSide(right);
    CompressedShape(l, r);
    CompressedCount(left, right);
    assert body[..d] == l && body[d + 2..] == r;
    if left != [] { ForwardOfJoin(left, 8); } else { assert LeftValues(left) == []; }
    if right != [] { BackwardOfJoin(right, 8); } else { assert RightValues(right) == []; }
  }

  lemma ParseCompressed(left: seq<Group>, right: seq<Group>, endsDouble: bool, scope: u32)
    requires |left| + |right| <= 7
    ensures ParseBody(Join(left) + "::" + Join(right), endsDouble, scope) ==
      if |left| == 7 && !endsDouble then Rejected else Parsed(Overlay(left, right), scope)
  {
    hide ParseBody, Join, Joined, Overlay, AllSegments, LeftValues, RightValues, TextsOf;
    PrintedSegments(left);
    PrintedSegments(right);
    SegmentsParsed(TextsOf(left), TextsOf(right), endsDouble, scope);
  }

  lemma TidyIsPlain(s: string)
    requires Tidy(s)
    ensures Legal(s) && !Triple(s) && LastDouble(s) == -1
  {
    NoDouble(s);
  }

  /** The full form: eight segments. */
  lemma EightParsed(ts: seq<string>, endsDouble: bool, scope: u32)
    requires |ts| == 8 && AllSegments(ts)
    ensures ParseBody(Joined(ts), endsDouble, scope) == Parsed(Overlay(LeftValues(ts), []), scope)
  {
    hide Joined, Closed, Colons, Forward, Overlay, LastDouble, Triple, Tidy, AllSegments;
    var s := Joined(ts);
    JoinTidy(ts);
    TidyIsPlain(s);
    CountsOverJoin("", ts);
    ClosedNothing();
    assert "" + s == s;
    ForwardOfJoin(ts, 8);
  }

  lemma ParseFull(gs: seq<Group>, endsDouble: bool, scope: u32)
    requires |gs| == 8
    ensures ParseBody(Join(gs), endsDouble, scope) == Parsed(Overlay(gs, []), scope)
  {
    hide ParseBody, Join, Joined, Overlay, AllSegments, LeftValues, TextsOf;
    PrintedSegments(gs);
    EightParsed(TextsOf(gs), endsDouble, scope);
  }

  lemma OverlayRestores(a: Address, from: nat, to: nat)
    requires from <= to <= 8
    requires forall i :: from <= i < to ==> IsZero(Groups(a)[i])
    ensures Overlay(Groups(a)[..from], Groups(a)[to..]) == a
  {
    var gs := Groups(a);
    var b := Overlay(gs[..from], gs[to..]);
    forall i | 0 <= i < 16 ensures b[i] == a[i] {
      var k := i / 2;
      assert i == 2 * k || i == 2 * k + 1;
      assert gs[k] == Group(a[2 * k], a[2 * k + 1]);
      if k >= to {
        assert gs[to..][k - to] == gs[k];
      } else if k < from {
        assert gs[..from][k] == gs[k];
      } else {
        assert IsZero(gs[k]);
      }
    }
  }

  /** The only zero group, or the first one, is the last. */
  predicate OnlyLastZero(a: Address) { FirstZero(Groups(a)) == 7 }

  lemma ParsePrintedBody(a: Address, endsDouble: bool, scope: u32)
    ensures ParseBody(Print(a), endsDouble, scope) ==
      if OnlyLastZero(a) && !endsDouble then Rejected else Parsed(a, scope)
  {
    hide Join, ParseBody, Overlay, Groups, ZeroRun;
    var gs := Groups(a);
    var from, to := FirstZero(gs), RunEnd(gs);
    if from == 8 {
      ParseFull(gs, endsDouble, scope);
      OverlayRestores(a, 8, 8);
      assert gs[..8] == gs && gs[8..] == [];
    } else {
      ParseCompressed(gs[..from], gs[to..], endsDouble, scope);
      RunIsZero(gs);
      OverlayRestores(a, from, to);
    }
  }

  lemma RunIsZero(gs: seq<Group>)
    ensures forall i :: FirstZero(gs) <= i < RunEnd(gs) ==> IsZero(gs[i])
  {
    var from, to := FirstZero(gs), RunEnd(gs);
    forall i | from <= i < to ensures IsZero(gs[i]) {
      assert gs[from..][i - from] == gs[i];
    }
  }

  // ----- Whole texts -----

  lemma PrintedShape(a: Address)
    ensures Legal(Print(a)) && Print(a) != ""
    ensures OnlyLastZero(a) ==> EndsDouble(Print(a))
    ensures Print(a) == "::" ==> a == Overlay([], []) && !OnlyLastZero(a)
  {
    hide Overlay, Print, Legal, EndsDouble, OnlyLastZero;
    ParsePrintedBody(a, true, 0);
    PrintedNonEmpty(a);
    if Print(a) == "::" {
      ParsePrintedBody(a, false, 0);
      DoubleColonAlone();
    }
  }

  lemma DoubleColonAlone()
    ensures ParseBody("::", true, 0) == ParseBody("::", false, 0) == Parsed(Overlay([], []), 0)
  {
    hide ParseBody, Overlay;
    JoinNothing();
    assert Join([]) + "::" + Join([]) == "::";
    ParseCompressed([], [], true, 0);
    ParseCompressed([], [], false, 0);
  }

  lemma PrintedNothing(gs: seq<Group>)
    ensures Join(gs) == "" <==> gs == []
  {
    hide Join, Joined, AllSegments;
    PrintedSegments(gs);
    JoinSide(TextsOf(gs));
  }

  lemma PrintedNonEmpty(a: Address)
    ensures Print(a) != ""
    ensures OnlyLastZero(a) ==> EndsDouble(Print(a))
  {
    hide Groups, Join, RunEnd, FirstZero;
    var gs := Groups(a);
    PrintedNothing(gs);
    if OnlyLastZero(a) {
      assert gs[8..] == [];
      JoinNothing();
      var left := Join(gs[..7]);
      assert Print(a) == left + "::";
      assert (left + "::")[|left|..] == "::";
    }
  }

  lemma ScopeIsLastPercent(text: string, k: nat)
    requires k == 0 || (k < |text| && text[k] == '%')
    requires forall i :: k < i < |text| ==> text[i] != '%'
    ensures ScopeStart(text) == k
  {
  }

  /** Parsing what was printed gives back the address, with no scope. */
  lemma RoundTrip(a: Address, interfaceIndex: string -> Lookup)
    ensures Parse(Print(a), interfaceIndex) == Parsed(a, 0)
  {
    hide Print, ParseBody, Overlay;
    var text := Print(a);
    PrintedShape(a);
    ScopeIsLastPercent(text, 0);
    assert text[..|text|] == text;
    ParsePrintedBody(a, EndsDouble(text), 0);
  }

  /** In brackets, as in a URL, the parser misses one family: seven groups followed by "::". Its segment
      count corrects for a final "::" only at the very end of the text. */
  lemma BracketedRoundTrip(a: Address, interfaceIndex: string -> Lookup)
    ensures Parse("[" + Print(a) + "]", interfaceIndex) == if OnlyLastZero(a) then Rejected else Parsed(a, 0)
  {
    hide Print, ParseBody, Overlay, ScopeStart, EndsDouble;
    var inner := Print(a);
    var text := "[" + inner + "]";
    PrintedShape(a);
    BracketShape(inner);
    ParsePrintedBody(a, false, 0);
  }

  lemma BracketShape(inner: string)
    requires Legal(inner)
    ensures var text := "[" + inner + "]";
      && ScopeStart(text) == 0 && !EndsDouble(text)
      && text[1..|text| - 1] == inner
      && (text == "[::]" <==> inner == "::")
  {
    var text := "[" + inner + "]";
    forall i | 0 <= i < |text| ensures text[i] != '%' {
      assert 1 <= i < |text| - 1 ==> text[i] == inner[i - 1];
    }
    ScopeIsLastPercent(text, 0);
    assert text[|text| - 2..][1] == ']';
    assert text[1..|text| - 1] == inner;
    assert "[::]"[1..3] == "::";
  }

  /** With a scope the same family is missed, and the scope's index is the operating system's. */
  lemma ScopedRoundTrip(a: Address, name: string, interfaceIndex: string -> Lookup)
    requires name != "" && forall i :: 0 <= i < |name| ==> name[i] != '%'
    ensures Parse(Print(a) + "%" + name, interfaceIndex) ==
      match interfaceIndex(name)
      case Unknown => Rejected
      case Found(id) => if OnlyLastZero(a) && !EndsDouble(name) then Rejected else Parsed(a, id)
  {
    hide Print, ParseBody, Overlay, ScopeStart, EndsDouble;
    var inner := Print(a);
    var k := |inner|;
    var text := inner + "%" + name;
    PrintedShape(a);
    ScopeAfter(inner, name);
    assert text[..k] == inner && text[k + 1..] == name;
    assert text[0] == inner[0] && text[k - 1] == inner[k - 1];
    if interfaceIndex(name).Found? {
      ParsePrintedBody(a, EndsDouble(text), interfaceIndex(name).id);
    }
  }

  /** Where the scope starts in a scoped text, and what the final "::" test sees. */
  lemma ScopeAfter(inner: string, name: string)
    requires inner != "" && name != "" && forall i :: 0 <= i < |name| ==> name[i] != '%'
    ensures var text := inner + "%" + name;
      ScopeStart(text) == |inner| && EndsDouble(text) == EndsDouble(name) && text != "::" && text != "[::]"
  {
    var text, k := inner + "%" + name, |inner|;
    assert text[k] == '%';
    forall i | k < i < |text| ensures text[i] != '%' {
      assert text[i] == name[i - k - 1];
    }
    ScopeIsLastPercent(text, k);
    if |name| >= 2 {
      assert text[|text| - 2..] == name[|name| - 2..];
    } else {
      assert text[|text| - 2..][0] == '%';
    }
  }

  /** The missed family is not empty: 101:101:101:101:101:101:101:: in brackets is refused. */
  lemma BracketsRefuseAnAddress(interfaceIndex: string -> Lookup)
    ensures exists a: Address :: Parse(Print(a), interfaceIndex) == Parsed(a, 0)
                              && Parse("[" + Print(a) + "]", interfaceIndex) == Rejected
  {
    hide Print, Parse;
    var a: seq<u8> := [1, 1, 1, 1, 1, 1, 1, 1, 1, 1, 1, 1, 1, 1, 0, 0];
    var b: Address := a;
    var gs := Groups(b);
    assert forall i :: 0 <= i < 7 ==> gs[i].hi == 1;
    assert gs[7] == Group(0, 0);
    RunIs(gs, 7, 8);
    RoundTrip(b, interfaceIndex);
    BracketedRoundTrip(b, interfaceIndex);
  }

  /** Two addresses never print alike. */
  lemma PrintInjective(a: Address, b: Address)
    requires Print(a) == Print(b)
    ensures a == b
  {
    RoundTrip(a, _ => Unknown);
    RoundTrip(b, _ => Unknown);
  }
}
