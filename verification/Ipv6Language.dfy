/** Exactly which texts the IPv6 parser accepts, and as what. */
module Ipv6Language {
  import opened Machine
  import opened Hexadecimal
  import opened Ipv6
  import opened Ipv6Grammar
  import opened Ipv6Parser
  import opened Ipv6RoundTrip
  import opened Ipv6Spinning

  /** Eight segments. */
  ghost predicate IsFull(body: string, a: Address) {
    exists ts: seq<string> ::
      |ts| == 8 && AllSegments(ts) && body == Joined(ts) && a == Overlay(LeftValues(ts), [])
  }

  /** Segments around one "::", no more than fit. */
  ghost predicate IsCompressed(body: string, endsDouble: bool, a: Address) {
    exists left: seq<string>, right: seq<string> ::
      && AllSegments(left) && AllSegments(right) && Fits(|left|, |right|, endsDouble)
      && body == Joined(left) + "::" + Joined(right)
      && a == Overlay(LeftValues(left), RightValues(right))
  }

  // ----- What a walk has read -----

  lemma SingleSegment(t: string)
    ensures Joined([t]) == t
    ensures Segment(t) ==> AllSegments([t])
    ensures Segment(t) ==> LeftValues([t]) == [LeftValue(t)] && RightValues([t]) == [RightValue(t)]
  {
    hide LeftValue, RightValue;
  }

  /** A forward walk that reads has read all segments of the text, or as many as there is room for. */
  lemma {:induction false} ForwardSound(s: string, room: nat) returns (ts: seq<string>)
    requires Legal(s) && room >= 1 && Forward(s, room).Read?
    ensures AllSegments(ts) && 1 <= |ts| <= room
    ensures s == Joined(ts) || (|ts| == room && Joined(ts) + ":" <= s)
    ensures Forward(s, room).groups == LeftValues(ts)
    decreases |s|
  {
    hide Decode, Forward, AllHex, Legal, Joined, AllSegments, LeftValues, ColonFree, Colon;
    var p := Colon(s);
    ForwardUnfold(s, p, p % 256, room);
    CountedIs(p);
    var t := s[..p];
    FirstIsSegment(s, t);
    SingleSegment(t);
    assert s[p - p % 256..p] == t[p - p % 256..];
    ts := [t];
    if p < |s| && room > 1 {
      var rest := ForwardSound(s[p + 1..], room - 1);
      ts := [t] + rest;
      ConsJoined(t, rest);
      assert s == t + ":" + s[p + 1..];
      ColonPrefix(t, s[p + 1..], Joined(rest));
    } else {
      assert p < |s| ==> t + ":" == s[..p + 1];
    }
  }

  lemma ConsJoined(t: string, rest: seq<string>)
    requires Segment(t) && rest != [] && AllSegments(rest)
    ensures AllSegments([t] + rest) && LeftValues([t] + rest) == [LeftValue(t)] + LeftValues(rest)
    ensures Joined([t] + rest) == t + ":" + Joined(rest)
  {
    hide Segment, LeftValue;
    assert ([t] + rest)[1..] == rest;
  }

  lemma ColonPrefix(t: string, s: string, prefix: string)
    ensures prefix + ":" <= s ==> t + ":" + prefix + ":" <= t + ":" + s
  {
    if prefix + ":" <= s {
      assert s == prefix + ":" + s[|prefix| + 1..];
      assert t + ":" + s == t + ":" + prefix + ":" + s[|prefix| + 1..];
    }
  }

  lemma FirstIsSegment(s: string, t: string)
    requires Legal(s) && t == s[..Colon(s)] && Usable(|t|)
    ensures Segment(t)
    ensures Colon(s) < |s| ==> Legal(s[Colon(s) + 1..])
  {
    DigitsIn(s, 0, Colon(s));
    assert s[0..Colon(s)] == t;
    if Colon(s) < |s| { LegalIn(s, Colon(s) + 1, |s|); }
  }

  lemma {:induction false} BackwardSound(s: string, room: nat) returns (ts: seq<string>, rest: string)
    requires Legal(s) && room >= 1 && Backward(s, room).Read?
    ensures AllSegments(ts) && 1 <= |ts| <= room
    ensures s == Joined(ts) || (|ts| == room && s == rest + ":" + Joined(ts))
    ensures Backward(s, room).groups == RightValues(ts)
    decreases |s|
  {
    hide Decode, Backward, AllHex, Legal, Joined, AllSegments, RightValues, ColonFree, LastSegment;
    var q := LastSegment(s);
    SingleSegment(s[q..]);
    BackwardUnfold(s, q, (|s| - q) % 256, room);
    CountedIs(|s| - q);
    var t := s[q..];
    LastIsSegment(s, t);
    assert s[q..q + (|s| - q) % 256] == t[..(|s| - q) % 256];
    ts, rest := [t], if q > 0 then s[..q - 1] else "";
    if q > 0 {
      assert s == s[..q - 1] + ":" + t;
      if room > 1 {
        var front;
        front, rest := BackwardSound(s[..q - 1], room - 1);
        ts := front + [t];
        SnocJoined(s[..q - 1], front, rest, t);
      }
    }
  }

  lemma SnocJoined(s: string, front: seq<string>, rest: string, t: string)
    requires front != [] && AllSegments(front) && Segment(t)
    ensures AllSegments(front + [t]) && RightValues(front + [t]) == RightValues(front) + [RightValue(t)]
    ensures s == Joined(front) ==> s + ":" + t == Joined(front + [t])
    ensures s == rest + ":" + Joined(front) ==> s + ":" + t == rest + ":" + Joined(front + [t])
  {
    hide Segment, RightValue, Joined;
    JoinedSnoc(front, t);
    assert rest + ":" + (Joined(front) + ":" + t) == rest + ":" + Joined(front) + ":" + t;
  }

  lemma LastIsSegment(s: string, t: string)
    requires Legal(s) && t == s[LastSegment(s)..] && Usable(|t|)
    ensures Segment(t)
    ensures LastSegment(s) > 0 ==> Legal(s[..LastSegment(s) - 1])
  {
    DigitsIn(s, LastSegment(s), |s|);
    assert s[LastSegment(s)..|s|] == t;
    if LastSegment(s) > 0 { LegalIn(s, 0, LastSegment(s) - 1); }
  }

  // ----- Counting what was not read -----

  lemma {:induction false} CountsGrow(s: string, t: string)
    requires s <= t
    ensures Closed(s) <= Closed(t) && Colons(s) <= Colons(t)
    decreases |t|
  {
    if s != t {
      CountsGrow(s, t[..|t| - 1]);
    }
  }

  /** Eight segments and a colon close eight. */
  lemma EightClosed(ts: seq<string>, s: string)
    requires |ts| == 8 && AllSegments(ts) && Joined(ts) + ":" <= s
    ensures Closed(s) >= 8 && Colons(s) >= 8
  {
    hide Closed, Colons, Joined, AllSegments;
    CountsOverJoin("", ts);
    ClosedNothing();
    assert "" + Joined(ts) == Joined(ts);
    JoinTidy(ts);
    CountsOverColon(Joined(ts));
    CountsGrow(Joined(ts) + ":", s);
  }

  lemma EightClosedAfter(front: string, ts: seq<string>)
    requires |ts| == 8 && AllSegments(ts) && front != "" && front[|front| - 1] != ':'
    ensures Closed(front + ":" + Joined(ts)) >= 8
  {
    hide Closed, Colons, Joined, AllSegments;
    CountsOverColon(front);
    CountsOverJoin(front + ":", ts);
  }

  // ----- The body -----

  lemma FullSound(body: string, a: Address, endsDouble: bool, scope: u32)
    requires ParseBody(body, endsDouble, scope) == Parsed(a, scope) && LastDouble(body) < 0
    ensures IsFull(body, a)
  {
    hide Forward, Backward, Overlay, Closed, Colons, Joined, AllSegments, LeftValues, Legal, Triple;
    var ts := ForwardSound(body, 8);
    if body != Joined(ts) { EightClosed(ts, body); }
    JoinedColons(ts);
  }

  lemma JoinedColons(ts: seq<string>)
    requires ts != [] && AllSegments(ts)
    ensures Colons(Joined(ts)) == |ts| - 1
  {
    hide Closed, Colons, Joined, AllSegments;
    CountsOverJoin("", ts);
    ClosedNothing();
    assert "" + Joined(ts) == Joined(ts);
  }

  /** The walks left and right of the last "::". */
  function LeftWalk(body: string): (w: Walk)
    requires Legal(body) && LastDouble(body) >= 0
    ensures w.Read? ==> |w.groups| <= 8
  {
    var d := LastDouble(body);
    LegalIn(body, 0, d);
    if d == 0 then Read([]) else Forward(body[..d], 8)
  }

  function RightWalk(body: string): (w: Walk)
    requires Legal(body) && LastDouble(body) >= 0
    ensures w.Read? ==> |w.groups| <= 8
  {
    var d := LastDouble(body);
    LegalIn(body, d + 2, |body|);
    if d + 2 == |body| then Read([]) else Backward(body[d + 2..], 8)
  }

  lemma Sides(body: string, endsDouble: bool, scope: u32)
    requires Legal(body) && LastDouble(body) >= 0
    ensures ParseBody(body, endsDouble, scope) ==
      if Triple(body) || Closed(body) > (if endsDouble then 7 else 6) then Rejected
      else if LeftWalk(body).Read? && RightWalk(body).Read? then
        Parsed(Overlay(LeftWalk(body).groups, RightWalk(body).groups), scope)
      else Rejected
  {
    hide Forward, Backward, Overlay, Closed, Colons, Legal, Triple, LastDouble;
  }

  lemma CompressedSound(body: string, a: Address, endsDouble: bool, scope: u32)
    requires ParseBody(body, endsDouble, scope) == Parsed(a, scope) && LastDouble(body) >= 0
    ensures IsCompressed(body, endsDouble, a)
  {
    assert Legal(body);
    hide *;
    Sides(body, endsDouble, scope);
    var left := LeftSegments(body);
    var right := RightSegments(body);
    AroundDouble(body, left, right, endsDouble, a);
  }

  lemma AroundDouble(body: string, left: seq<string>, right: seq<string>, endsDouble: bool, a: Address)
    requires LastDouble(body) >= 0 && Closed(body) <= (if endsDouble then 7 else 6)
    requires AllSegments(left) && AllSegments(right) && |left| <= 8 && |right| <= 8
    requires body[..LastDouble(body)] == Joined(left) && body[LastDouble(body) + 2..] == Joined(right)
    requires a == Overlay(LeftValues(left), RightValues(right))
    ensures IsCompressed(body, endsDouble, a)
  {
    hide Overlay, Closed, Joined, AllSegments, LeftValues, RightValues, LastDouble;
    assert body == body[..LastDouble(body)] + "::" + body[LastDouble(body) + 2..];
    CompressedCount(left, right);
    assert Fits(|left|, |right|, endsDouble);
  }

  lemma LeftSegments(body: string) returns (ts: seq<string>)
    requires Legal(body) && LastDouble(body) >= 0 && Closed(body) <= 7 && LeftWalk(body).Read?
    ensures AllSegments(ts) && |ts| <= 8 && body[..LastDouble(body)] == Joined(ts)
    ensures LeftWalk(body).groups == LeftValues(ts)
  {
    hide Forward, Closed, Colons, Joined, Legal, Segment, LeftValue, LastDouble;
    var d := LastDouble(body);
    LegalIn(body, 0, d);
    JoinedNothing();
    ts := [];
    if d > 0 {
      ts := ForwardSound(body[..d], 8);
      if body[..d] != Joined(ts) { EightClosed(ts, body); }
    }
  }

  lemma RightSegments(body: string) returns (ts: seq<string>)
    requires Legal(body) && !Triple(body) && LastDouble(body) >= 0 && Closed(body) <= 7 && RightWalk(body).Read?
    ensures AllSegments(ts) && |ts| <= 8 && body[LastDouble(body) + 2..] == Joined(ts)
    ensures RightWalk(body).groups == RightValues(ts)
  {
    hide Backward, Closed, Colons, Joined, Legal, Segment, RightValue, LastDouble, Triple;
    var d := LastDouble(body);
    LegalIn(body, d + 2, |body|);
    JoinedNothing();
    ts := [];
    if d + 2 < |body| {
      var rest: string;
      ts, rest := BackwardSound(body[d + 2..], 8);
      if body[d + 2..] != Joined(ts) {
        var front := body[..d + 2] + rest;
        assert body == body[..d + 2] + body[d + 2..] == front + ":" + Joined(ts);
        FrontEnds(body, d, front);
        EightClosedAfter(front, ts);
      }
    }
  }

  /** No colon follows or ends a segment after the last "::". */
  lemma FrontEnds(body: string, d: nat, front: string)
    requires !Triple(body) && d == LastDouble(body) && d + 2 <= |front| && front + ":" <= body
    ensures front[|front| - 1] != ':'
  {
    var k := |front| - 1;
    assert body[k] == front[k] && body[k + 1] == ':';
    if front[k] == ':' {
      NoDoubleAfter(body, d);
    }
  }

  /** The part between brackets and before the scope is accepted exactly in these forms. */
  lemma BodyParsesExactly(body: string, endsDouble: bool, scope: u32, a: Address)
    ensures ParseBody(body, endsDouble, scope) == Parsed(a, scope) <==>
      IsFull(body, a) || IsCompressed(body, endsDouble, a)
  {
    hide ParseBody, Overlay, AllSegments, LeftValues, RightValues, Joined;
    if IsFull(body, a) {
      var ts: seq<string> :|
        |ts| == 8 && AllSegments(ts) && body == Joined(ts) && a == Overlay(LeftValues(ts), []);
      EightParsed(ts, endsDouble, scope);
    }
    if IsCompressed(body, endsDouble, a) {
      var left: seq<string>, right: seq<string> :|
        && AllSegments(left) && AllSegments(right) && Fits(|left|, |right|, endsDouble)
        && body == Joined(left) + "::" + Joined(right)
        && a == Overlay(LeftValues(left), RightValues(right));
      SegmentsParsed(left, right, endsDouble, scope);
    }
    if ParseBody(body, endsDouble, scope) == Parsed(a, scope) {
      if LastDouble(body) < 0 {
        FullSound(body, a, endsDouble, scope);
      } else {
        CompressedSound(body, a, endsDouble, scope);
      }
    }
  }

  // ----- Whole texts -----

  function ScopeId(text: string, interfaceIndex: string -> Lookup): u32
    requires ScopeFound(text, interfaceIndex)
  {
    var k := ScopeStart(text);
    if k != 0 && k + 1 < |text| then interfaceIndex(text[k + 1..]).id else 0
  }

  /** Main result: a text is parsed as an address if and only if its scope is known, its brackets match, and
      what they enclose is eight segments or no more than fit around one "::", with that value. */
  lemma ParsesExactly(text: string, interfaceIndex: string -> Lookup, a: Address, id: u32)
    ensures Parse(text, interfaceIndex) == Parsed(a, id) <==>
      && ScopeFound(text, interfaceIndex) && id == ScopeId(text, interfaceIndex) && Matched(text)
      && (IsFull(Inside(text), a) || IsCompressed(Inside(text), EndsDouble(text), a))
  {
    hide ParseBody, Overlay, ScopeStart, EndsDouble, IsFull, IsCompressed;
    if text == "::" || text == "[::]" {
      DoubleColonInside(text);
      DoubleColonAlone();
      BodyParsesExactly("::", EndsDouble(text), 0, a);
    } else if Matched(text) && ScopeFound(text, interfaceIndex) {
      BodyParsesExactly(Inside(text), EndsDouble(text), ScopeId(text, interfaceIndex), a);
      ScopeKept(Inside(text), EndsDouble(text), ScopeId(text, interfaceIndex));
    }
  }

  lemma DoubleColonInside(text: string)
    requires text == "::" || text == "[::]"
    ensures ScopeStart(text) == 0 && Matched(text) && Inside(text) == "::"
  {
    ScopeIsLastPercent(text, 0);
  }

  lemma ScopeKept(body: string, endsDouble: bool, scope: u32)
    ensures ParseBody(body, endsDouble, scope).Parsed? ==> ParseBody(body, endsDouble, scope).scope == scope
  {
    hide Forward, Backward, Overlay, Closed, Colons, LastDouble, Triple, Legal;
  }
}
