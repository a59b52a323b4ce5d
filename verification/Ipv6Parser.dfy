/** The parser's loops over the text and the 16-byte array, proved against `Ipv6Grammar.Parse`. */
module Ipv6Parser {
  import opened Machine
  import opened Hexadecimal
  import opened Ipv6
  import opened Ipv6Grammar

  datatype Status = Done | Raised | Endless

  function StatusOf(w: Walk): Status {
    match w
    case Read(_) => Done
    case Invalid => Raised
    case Stuck => Endless
  }

  function Nibble(c: char): (d: u8)
    requires IsHex(c)
    ensures d < 16
  {
    HexValue(c) as u8
  }

  /** The two bytes of a segment, by its length. */
  lemma DecodeBytes(digits: string)
    requires AllHex(digits) && 1 <= |digits| <= 4
    ensures |digits| == 1 ==> Decode(digits) == Group(0, Nibble(digits[0]))
    ensures |digits| == 2 ==> Decode(digits) == Group(0, Nibble(digits[0]) * 16 + Nibble(digits[1]))
    ensures |digits| == 3 ==>
      Decode(digits) == Group(Nibble(digits[0]), Nibble(digits[1]) * 16 + Nibble(digits[2]))
    ensures |digits| == 4 ==>
      Decode(digits) ==
        Group(Nibble(digits[0]) * 16 + Nibble(digits[1]), Nibble(digits[2]) * 16 + Nibble(digits[3]))
  {
    hide ParseHex, HexValue, IsHex;
    ParseHexBound(digits);
  }

  /** What the eight-bit digit counter holds after `len` digits. */
  predicate Wrapped(count: nat, len: int) { len >= 0 && count == len % 256 }

  lemma WrappedAtStart()
    ensures Wrapped(0, 0)
  {
  }

  lemma WrappedNext(count: nat, len: int)
    requires Wrapped(count, len)
    ensures count < 256 && count <= len && (count == 0 ==> len == 0 || len >= 256)
    ensures Wrapped((count + 1) % 256, len + 1)
  {
  }

  // ----- Reading from the left -----

  /** The groups read so far are at the front, the rest is still zero. */
  ghost predicate Front(bytes: seq<u8>, done: seq<Group>) {
    |done| <= 8 && bytes == Overlay(done, [])
  }

  /** The four decoding cases of the forward loops. The high byte of a short group is skipped, not written. */
  method PutForward(s: string, idx: nat, count: nat, ipv6: array<u8>, aIdx: nat) returns (at: nat, aNext: nat)
    requires 1 <= count <= 4 && idx + count <= |s| && AllHex(s[idx..idx + count])
    requires ipv6.Length == 16 && aIdx + 2 <= 16 && ipv6[aIdx] == 0
    modifies ipv6
    ensures at == idx + count - 1 && aNext == aIdx + 2
    ensures Group(ipv6[aIdx], ipv6[aIdx + 1]) == Decode(s[idx..idx + count])
    ensures forall j :: 0 <= j < 16 && j != aIdx && j != aIdx + 1 ==> ipv6[j] == old(ipv6[j])
  {
    hide Decode, Nibble;
    ghost var digits := s[idx..idx + count];
    assert forall i :: 0 <= i < count ==> digits[i] == s[idx + i];
    DecodeBytes(digits);
    at, aNext := idx, aIdx;
    if count == 1 {
      aNext := aNext + 1;
      ipv6[aNext] := Nibble(s[at]);
    } else if count == 2 {
      var byte := Nibble(s[at]) * 16;
      at := at + 1;
      byte := byte + Nibble(s[at]);
      aNext := aNext + 1;
      ipv6[aNext] := byte;
    } else if count == 3 {
      ipv6[aNext] := Nibble(s[at]);
      aNext := aNext + 1;
      at := at + 1;
      var byte := Nibble(s[at]) * 16;
      at := at + 1;
      ipv6[aNext] := byte + Nibble(s[at]);
    } else {
      var byte := Nibble(s[at]) * 16;
      at := at + 1;
      ipv6[aNext] := byte + Nibble(s[at]);
      aNext := aNext + 1;
      at := at + 1;
      byte := Nibble(s[at]) * 16;
      at := at + 1;
      ipv6[aNext] := byte + Nibble(s[at]);
    }
    aNext := aNext + 1;
  }

  /** A finished segment in front of the rest. */
  lemma ForwardSegment(s: string, b: nat, p: nat, room: nat)
    requires Legal(s) && b <= p <= |s| && room >= 1
    requires forall i :: b <= i < p ==> s[i] != ':'
    requires p < |s| ==> s[p] == ':'
    ensures AllHex(s[b..p])
    ensures (p - b) % 256 == 0 ==>
      Forward(s[b..], room) == if OnlyColons(s[p..]) then Stuck else Invalid
    ensures (p - b) % 256 > 4 ==> Forward(s[b..], room) == Invalid
    ensures 1 <= (p - b) % 256 <= 4 ==>
      var g := Decode(s[p - (p - b) % 256..p]);
      Forward(s[b..], room) ==
        if room == 1 || p == |s| then Read([g]) else Before([g], Forward(s[p + 1..], room - 1))
  {
    hide Decode, Forward, Colon, Before, OnlyColons;
    var t, k := s[b..], p - b;
    var n := k % 256;
    ColonIs(t, k);
    ForwardUnfold(t, k, n, room);
    assert t[k..] == s[p..];
    assert t[k - n..k] == s[p - n..p];
    if p < |s| {
      assert t[k + 1..] == s[p + 1..];
    }
  }

  lemma BeforeBefore(done: seq<Group>, g: Group, w: Walk)
    ensures Before(done, Before([g], w)) == Before(done + [g], w)
  {
    if w.Read? {
      assert done + ([g] + w.groups) == done + [g] + w.groups;
    }
  }

  lemma FrontSnoc(bytes: seq<u8>, after: seq<u8>, done: seq<Group>, g: Group)
    requires Front(bytes, done) && |done| < 8 && |after| == 16
    requires Group(after[2 * |done|], after[2 * |done| + 1]) == g
    requires forall j :: 0 <= j < 16 && j != 2 * |done| && j != 2 * |done| + 1 ==> after[j] == bytes[j]
    ensures Front(after, done + [g])
  {
    var all := done + [g];
    forall i | 0 <= i < 16 ensures after[i] == Overlay(all, [])[i] {
      if i < 2 * |done| {
        assert i / 2 < |done| && all[i / 2] == done[i / 2];
      } else if i < 2 * |all| {
        assert i / 2 == |done|;
      }
    }
  }

  /** `s[b..]` is still to be read and completes `goal`. */
  ghost predicate Ahead(s: string, b: nat, done: seq<Group>, goal: Walk)
    requires b <= |s|
  {
    && |done| < 8
    && Legal(s[b..])
    && goal == Before(done, Forward(s[b..], 8 - |done|))
  }

  lemma AheadAtStart(s: string)
    requires Legal(s)
    ensures Ahead(s, 0, [], Forward(s, 8))
  {
    hide Forward;
    assert s[0..] == s;
  }

  /** A segment the counter cannot use: whether a digit is left decides how the walk ends. */
  lemma AheadFails(s: string, b: nat, p: nat, n: nat, done: seq<Group>, goal: Walk)
    requires b <= p <= |s| && Legal(s) && Ahead(s, b, done, goal)
    requires forall i :: b <= i < p ==> s[i] != ':'
    requires p < |s| ==> s[p] == ':'
    requires Wrapped(n, p - b) && (n == 0 || n > 4)
    ensures goal == if n == 0 && OnlyColons(s[p..]) then Stuck else Invalid
  {
    hide Forward, OnlyColons;
    ForwardSegment(s, b, p, 8 - |done|);
  }

  lemma AheadStep(s: string, b: nat, p: nat, n: nat, done: seq<Group>, goal: Walk) returns (g: Group)
    requires b <= p <= |s| && Legal(s) && Ahead(s, b, done, goal)
    requires forall i :: b <= i < p ==> s[i] != ':'
    requires p < |s| ==> s[p] == ':'
    requires Wrapped(n, p - b) && 1 <= n <= 4
    ensures b + n <= p
    ensures AllHex(s[p - n..p]) && g == Decode(s[p - n..p])
    ensures |done| == 7 || p == |s| ==> goal == Read(done + [g])
    ensures |done| < 7 && p < |s| ==> Ahead(s, p + 1, done + [g], goal)
  {
    hide Forward, Decode, AllHex;
    ForwardSegment(s, b, p, 8 - |done|);
    DigitsOf(s, b, p, n);
    g := Decode(s[p - n..p]);
    if |done| < 7 && p < |s| {
      BeforeBefore(done, g, Forward(s[p + 1..], 7 - |done|));
    }
  }

  /** The loop of the full form over `s`, and of the left side of "::" where `s` is the text before it. */
  method ParseForward(s: string, ipv6: array<u8>) returns (status: Status)
    requires Legal(s) && ipv6.Length == 16 && Front(ipv6[..], [])
    modifies ipv6
    ensures status == StatusOf(Forward(s, 8))
    ensures Forward(s, 8).Read? ==> Front(ipv6[..], Forward(s, 8).groups)
  {
    hide Forward, Decode, Front, OnlyColons, Ahead, AllHex, Legal, Wrapped;
    var idx, aIdx, count: nat, checking := 0, 0, 0, true;
    WrappedAtStart();
    ghost var goal := Forward(s, 8);
    ghost var done: seq<Group> := [];
    ghost var b, p := 0, 0;
    AheadAtStart(s);
    while true
      invariant 0 <= b <= |s| && aIdx == 2 * |done| < 16
      invariant Front(ipv6[..], done)
      invariant Ahead(s, b, done, goal)
      invariant checking ==> b <= idx <= |s| && Wrapped(count, idx - b)
      invariant checking ==> forall i :: b <= i < idx ==> s[i] != ':'
      invariant !checking ==> b <= p <= |s| && Wrapped(count, p - b) && (p < |s| ==> s[p] == ':')
      invariant !checking ==> forall i :: b <= i < p ==> s[i] != ':'
      invariant !checking && count > 0 ==> b <= idx == p - count
      invariant !checking && count == 0 ==> p <= idx <= |s| && forall i :: p <= i < idx ==> s[i] == ':'
      decreases |s| - b, if checking then 1 else 0, |s| - idx
    {
      if idx >= |s| || s[idx] == ':' {
        if checking {
          WrappedNext(count, idx - b);
          p := idx;
          idx := idx - count;
          checking := false;
          continue;
        }
        if idx >= |s| {
          // The index only grows from here on.
          AheadFails(s, b, p, count, done, goal);
          AllColons(s, p);
          return Endless;
        }
      } else if checking {
        WrappedNext(count, idx - b);
        count := (count + 1) % 256;
      } else {
        if count == 0 || count > 4 {
          AheadFails(s, b, p, count, done, goal);
          if p <= idx { SomeDigit(s, p, idx); }
          return Raised;
        }
        ghost var g := AheadStep(s, b, p, count, done, goal);
        FrontIsZero(ipv6[..], done);
        ghost var before := ipv6[..];
        idx, aIdx := PutForward(s, idx, count, ipv6, aIdx);
        FrontSnoc(before, ipv6[..], done, g);
        done := done + [g];
        count, checking := 0, true;
        idx := idx + 1;
        if aIdx >= 16 || idx >= |s| {
          return Done;
        } else if s[idx] != ':' {
          return Raised;
        }
        b := p + 1;
      }
      idx := idx + 1;
    }
  }

  lemma AllColons(s: string, p: nat)
    requires p <= |s| && forall i :: p <= i < |s| ==> s[i] == ':'
    ensures OnlyColons(s[p..])
  {
  }

  lemma SomeDigit(s: string, p: nat, idx: nat)
    requires p <= idx < |s| && s[idx] != ':'
    ensures !OnlyColons(s[p..])
  {
    assert s[p..][idx - p] != ':';
  }

  lemma DigitsOf(s: string, b: nat, p: nat, count: nat)
    requires b <= p <= |s| && count <= p - b && AllHex(s[b..p])
    ensures AllHex(s[p - count..p])
  {
    var whole, part := s[b..p], s[p - count..p];
    forall i | 0 <= i < count ensures IsHex(part[i]) {
      assert part[i] == whole[p - count - b + i];
    }
  }

  lemma FrontIsZero(bytes: seq<u8>, done: seq<Group>)
    requires Front(bytes, done) && |done| < 8
    ensures bytes[2 * |done|] == 0
  {
  }

  // ----- Reading from the right -----

  /** The decoding cases of the backward loop; `idx` is the last digit. */
  method PutBackward(s: string, idx: nat, count: nat, ipv6: array<u8>, aIdx: nat) returns (at: nat, aNext: int)
    requires 1 <= count <= 4 && count - 1 <= idx < |s| && AllHex(s[idx - count + 1..idx + 1])
    requires ipv6.Length == 16 && 1 <= aIdx < 16 && ipv6[aIdx - 1] == 0
    modifies ipv6
    ensures at == idx - count + 1 && aNext == aIdx - 2
    ensures Group(ipv6[aIdx - 1], ipv6[aIdx]) == Decode(s[at..idx + 1])
    ensures forall j :: 0 <= j < 16 && j != aIdx - 1 && j != aIdx ==> ipv6[j] == old(ipv6[j])
  {
    hide Decode, Nibble;
    ghost var first := idx - count + 1;
    ghost var digits := s[first..idx + 1];
    assert forall i :: 0 <= i < count ==> digits[i] == s[first + i];
    DecodeBytes(digits);
    at, aNext := idx, aIdx;
    if count == 1 {
      ipv6[aNext] := Nibble(s[at]);
      aNext := aNext - 1;
    } else if count == 2 {
      var byte := Nibble(s[at]);
      at := at - 1;
      ipv6[aNext] := byte + Nibble(s[at]) * 16;
      aNext := aNext - 1;
    } else if count == 3 {
      var byte := Nibble(s[at]);
      at := at - 1;
      ipv6[aNext] := byte + Nibble(s[at]) * 16;
      aNext := aNext - 1;
      at := at - 1;
      ipv6[aNext] := Nibble(s[at]);
    } else {
      var byte := Nibble(s[at]);
      at := at - 1;
      ipv6[aNext] := byte + Nibble(s[at]) * 16;
      aNext := aNext - 1;
      at := at - 1;
      byte := Nibble(s[at]);
      at := at - 1;
      ipv6[aNext] := byte + Nibble(s[at]) * 16;
    }
    aNext := aNext - 1;
  }

  lemma SliceOfSlice(s: string, from: nat, e: nat, a: nat, b: nat)
    requires from <= e <= |s| && a <= b <= e - from
    ensures s[from..e][a..b] == s[from + a..from + b]
  {
    var t := s[from..e];
    assert forall i :: 0 <= i < b - a ==> t[a..b][i] == t[a + i] == s[from + a + i];
  }

  /** A finished segment `[q, e)` behind the rest, which starts at `from`. */
  lemma BackwardSegment(s: string, from: nat, q: nat, e: nat, room: nat)
    requires Legal(s) && from <= q <= e <= |s| && room >= 1
    requires forall i :: q <= i < e ==> s[i] != ':'
    requires q > from ==> s[q - 1] == ':'
    ensures AllHex(s[q..e])
    ensures (e - q) % 256 == 0 || (e - q) % 256 > 4 ==> Backward(s[from..e], room) == Invalid
    ensures 1 <= (e - q) % 256 <= 4 ==>
      var g := Decode(s[q..q + (e - q) % 256]);
      Backward(s[from..e], room) ==
        if room == 1 || q == from then Read([g]) else After(Backward(s[from..q - 1], room - 1), [g])
  {
    hide Decode, Backward, After, LastSegment;
    var t, k, n := s[from..e], q - from, (e - q) % 256;
    forall i | k <= i < |t| ensures t[i] != ':' {
      assert t[i] == s[from + i];
    }
    SegmentIs(t, k);
    BackwardUnfold(t, k, n, room);
    SliceOfSlice(s, from, e, k, k + n);
    if q > from {
      SliceOfSlice(s, from, e, 0, k - 1);
      assert t[0..k - 1] == t[..k - 1];
    }
  }

  lemma AfterAfter(w: Walk, g: Group, done: seq<Group>)
    ensures After(After(w, [g]), done) == After(w, [g] + done)
  {
    if w.Read? {
      assert w.groups + [g] + done == w.groups + ([g] + done);
    }
  }

  lemma AfterEnds(w: Walk, g: Group, done: seq<Group>)
    ensures After(w, []) == w
    ensures After(Read([g]), done) == Read([g] + done)
  {
    if w.Read? {
      assert w.groups + [] == w.groups;
    }
  }

  lemma AfterInvalid(done: seq<Group>)
    ensures After(Invalid, done) == Invalid
  {
  }

  lemma HeadDigits(s: string, q: nat, e: nat, count: nat)
    requires q + count <= e <= |s| && AllHex(s[q..e])
    ensures AllHex(s[q..q + count])
  {
    var whole, part := s[q..e], s[q..q + count];
    forall i | 0 <= i < count ensures IsHex(part[i]) {
      assert part[i] == whole[i];
    }
  }

  /** Left and right groups are in place and do not meet. */
  ghost predicate Ends(bytes: seq<u8>, left: seq<Group>, done: seq<Group>) {
    |left| + |done| <= 8 && bytes == Overlay(left, done)
  }

  lemma EndsCons(bytes: seq<u8>, after: seq<u8>, left: seq<Group>, done: seq<Group>, g: Group)
    requires Ends(bytes, left, done) && |left| + |done| < 8 && |after| == 16
    requires Group(after[14 - 2 * |done|], after[15 - 2 * |done|]) == g
    requires forall j :: 0 <= j < 16 && j != 14 - 2 * |done| && j != 15 - 2 * |done| ==> after[j] == bytes[j]
    ensures Ends(after, left, [g] + done)
  {
    var all, k := [g] + done, 14 - 2 * |done|;
    forall i | 0 <= i < 16 ensures after[i] == Overlay(left, all)[i] {
      if i >= k + 2 {
        assert all[(i - k) / 2] == done[(i - k - 2) / 2];
      }
    }
  }

  lemma EndsGap(bytes: seq<u8>, left: seq<Group>, done: seq<Group>)
    requires Ends(bytes, left, done) && |left| + |done| < 8
    ensures bytes[14 - 2 * |done|] == 0
  {
  }

  /** Closing a segment uses up one of the counted segments. */
  lemma ClosedSegment(s: string, from: nat, q: nat, e: nat)
    requires from < q < e <= |s|
    requires forall i :: q <= i < e ==> s[i] != ':'
    requires s[q - 1] == ':' && from < q - 1 && s[q - 2] != ':'
    ensures Closed(s[from..e]) == Closed(s[from..q - 1]) + 1
  {
    ClosedOverDigits(s, from, q, e);
    ClosedLast(s, from, q);
  }

  lemma {:induction false} ClosedOverDigits(s: string, from: nat, q: nat, e: nat)
    requires from <= q <= e <= |s|
    requires forall i :: q <= i < e ==> s[i] != ':'
    ensures Closed(s[from..e]) == Closed(s[from..q])
    decreases e
  {
    if q < e {
      hide Closed;
      ClosedOverDigits(s, from, q, e - 1);
      ClosedLast(s, from, e);
    }
  }

  lemma ClosedLast(s: string, from: nat, e: nat)
    requires from < e <= |s|
    ensures Closed(s[from..e]) ==
      Closed(s[from..e - 1]) + if e - from >= 2 && s[e - 1] == ':' && s[e - 2] != ':' then 1 else 0
  {
    var t := s[from..e];
    assert t[..|t| - 1] == s[from..e - 1];
    assert t[|t| - 1] == s[e - 1];
    assert |t| >= 2 ==> t[|t| - 2] == s[e - 2];
  }

  /** What the right side still has to read once its last segment is decoded. */
  lemma GroupReadBack(s: string, from: nat, q: nat, e: nat, left: seq<Group>, done: seq<Group>) returns (g: Group)
    requires Legal(s) && from <= q <= e <= |s| && |left| + |done| < 8
    requires forall i :: q <= i < e ==> s[i] != ':'
    requires q > from ==> s[q - 1] == ':'
    requires 1 <= (e - q) % 256 <= 4
    ensures AllHex(s[q..q + (e - q) % 256]) && g == Decode(s[q..q + (e - q) % 256])
    ensures After(Backward(s[from..e], 8 - |done|), done) ==
      if |done| == 7 || q == from then Read([g] + done)
      else After(Backward(s[from..q - 1], 7 - |done|), [g] + done)
  {
    hide Backward, Decode, After;
    BackwardSegment(s, from, q, e, 8 - |done|);
    HeadDigits(s, q, e, (e - q) % 256);
    g := Decode(s[q..q + (e - q) % 256]);
    AfterEnds(Invalid, g, done);
    if q > from && |done| < 7 {
      AfterAfter(Backward(s[from..q - 1], 7 - |done|), g, done);
    }
  }

  predicate Separated(s: string) { forall i :: 0 <= i < |s| - 1 ==> s[i] != ':' || s[i + 1] != ':' }

  /** `[from, e)` is still to be read, has few enough segments, and completes `goal`. */
  ghost predicate Pending(s: string, from: nat, e: nat, left: seq<Group>, done: seq<Group>, goal: Walk)
    requires from <= e <= |s|
  {
    && Legal(s[from..e])
    && |left| + |done| + Closed(s[from..e]) + 1 <= 8
    && goal == After(Backward(s[from..e], 8 - |done|), done)
  }

  lemma LegalFrom(s: string, from: nat)
    requires from <= |s| && Legal(s)
    ensures Legal(s[from..])
  {
  }

  lemma PendingAtStart(s: string, from: nat, left: seq<Group>)
    requires from <= |s| && Legal(s) && |left| + Closed(s[from..]) + 1 <= 8
    ensures Pending(s, from, |s|, left, [], Backward(s[from..], 8))
  {
    hide Backward, After;
    assert s[from..|s|] == s[from..];
    AfterEnds(Backward(s[from..], 8), Group(0, 0), []);
  }

  lemma PendingFails(s: string, from: nat, q: nat, e: nat, n: nat, left: seq<Group>, done: seq<Group>, goal: Walk)
    requires from <= q <= e <= |s| && Legal(s) && Pending(s, from, e, left, done, goal)
    requires forall i :: q <= i < e ==> s[i] != ':'
    requires q > from ==> s[q - 1] == ':'
    requires Wrapped(n, e - q) && (n == 0 || n > 4)
    ensures goal == Invalid
  {
    hide Backward, After;
    BackwardSegment(s, from, q, e, 8 - |done|);
    AfterInvalid(done);
  }

  lemma PendingStep(s: string, from: nat, q: nat, e: nat, left: seq<Group>, done: seq<Group>, goal: Walk, n: nat)
    returns (g: Group)
    requires 0 < from <= q <= e <= |s| && Legal(s) && Pending(s, from, e, left, done, goal)
    requires forall i :: q <= i < e ==> s[i] != ':'
    requires s[from - 1] == ':' && Separated(s[from - 1..])
    requires q > from ==> s[q - 1] == ':'
    requires Wrapped(n, e - q) && 1 <= n <= 4
    ensures q + n <= e && AllHex(s[q..q + n]) && g == Decode(s[q..q + n])
    ensures |left| + |done| < 8
    ensures |done| == 7 || q == from ==> goal == Read([g] + done)
    ensures q > from ==> from < q - 1 && Pending(s, from, q - 1, left, [g] + done, goal)
  {
    hide Backward, Decode, After, Closed, Legal, Separated, AllHex;
    g := GroupReadBack(s, from, q, e, left, done);
    if q > from {
      PendingRest(s, from, q, e, left, done);
    }
  }

  /** The rest keeps within the segment count. */
  lemma PendingRest(s: string, from: nat, q: nat, e: nat, left: seq<Group>, done: seq<Group>)
    requires 0 < from < q < e <= |s| && Legal(s)
    requires |left| + |done| + Closed(s[from..e]) + 1 <= 8
    requires forall i :: q <= i < e ==> s[i] != ':'
    requires s[from - 1] == ':' && s[q - 1] == ':' && Separated(s[from - 1..])
    ensures from < q - 1 && Legal(s[from..q - 1])
    ensures |left| + |done| + 1 + Closed(s[from..q - 1]) + 1 <= 8
  {
    hide Closed, Separated;
    NotDoubled(s, from, q);
    ClosedSegment(s, from, q, e);
  }

  lemma NotDoubled(s: string, from: nat, q: nat)
    requires 0 < from < q <= |s| && s[from - 1] == ':' && s[q - 1] == ':' && Separated(s[from - 1..])
    ensures from < q - 1 && s[q - 2] != ':'
  {
    var t, k := s[from - 1..], q - from;
    assert t[k - 1] == s[q - 2] && t[k] == s[q - 1];
  }

  /** The loop of the right side of "::", which stands at `d`. The array already holds the left groups. */
  method ParseBackward(body: string, d: nat, ipv6: array<u8>, ghost left: seq<Group>) returns (status: Status)
    requires Legal(body) && d + 2 < |body| && body[d] == ':' && body[d + 1] == ':'
    requires Separated(body[d + 1..])
    requires ipv6.Length == 16 && Ends(ipv6[..], left, [])
    requires |left| + Closed(body[d + 2..]) + 1 <= 8
    modifies ipv6
    ensures status == StatusOf(Backward(body[d + 2..], 8))
    ensures status == Done ==> Ends(ipv6[..], left, Backward(body[d + 2..], 8).groups)
  {
    hide Backward, Decode, Ends, Pending, AllHex, Closed, Legal, Separated, Wrapped;
    var idx: int, aIdx: int, count: nat, checking := |body| - 1, 15, 0, true;
    WrappedAtStart();
    ghost var from := d + 2;
    assert Legal(body[from..]) by { LegalFrom(body, from); }
    ghost var goal := Backward(body[from..], 8);
    ghost var done: seq<Group> := [];
    ghost var e, q := |body|, |body|;
    PendingAtStart(body, from, left);
    while true
      invariant from <= e <= |body| && aIdx == 15 - 2 * |done|
      invariant Pending(body, from, e, left, done, goal)
      invariant Ends(ipv6[..], left, done)
      invariant checking ==> from - 1 <= idx < e && Wrapped(count, e - 1 - idx)
      invariant checking ==> forall i :: idx < i < e ==> body[i] != ':'
      invariant !checking ==> from <= q <= e && Wrapped(count, e - q) && (q > from ==> body[q - 1] == ':')
      invariant !checking ==> forall i :: q <= i < e ==> body[i] != ':'
      invariant !checking && count > 0 ==> q - 1 + count == idx < e
      invariant !checking && count == 0 ==> -1 <= idx < q
      decreases e, if checking then 1 else 0, idx + 1
    {
      if idx < 0 {
        PendingFails(body, from, q, e, count, left, done, goal);
        return Raised;
      }
      if body[idx] == ':' {
        if checking {
          WrappedNext(count, e - 1 - idx);
          q := idx + 1;
          idx := idx + count;
          checking := false;
          continue;
        }
      } else if checking {
        WrappedNext(count, e - 1 - idx);
        count := (count + 1) % 256;
      } else {
        if count == 0 || count > 4 {
          PendingFails(body, from, q, e, count, left, done, goal);
          return Raised;
        }
        ghost var g := PendingStep(body, from, q, e, left, done, goal, count);
        EndsGap(ipv6[..], left, done);
        ghost var before := ipv6[..];
        idx, aIdx := PutBackward(body, idx, count, ipv6, aIdx);
        EndsCons(before, ipv6[..], left, done, g);
        done := [g] + done;
        count, checking := 0, true;
        idx := idx - 1;
        if aIdx < 0 || idx < d + 2 {
          return Done;
        } else if body[idx] != ':' {
          return Raised;
        }
        e := q - 1;
      }
      idx := idx - 1;
    }
  }

  // ----- Counting -----

  method CheckCharacters(body: string) returns (ok: bool)
    ensures ok <==> Legal(body)
  {
    for idx := 0 to |body|
      invariant Legal(body[..idx])
    {
      var c := body[idx];
      if !(c == ':' || 'a' <= c <= 'f' || 'A' <= c <= 'F' || '0' <= c <= '9') {
        return false;
      }
      assert body[..idx + 1] == body[..idx] + [c];
    }
    assert body[..|body|] == body;
    return true;
  }

  /** Looks for "::"; three colons in a row raise, otherwise the last "::" wins. */
  method FindDouble(body: string) returns (raised: bool, at: int)
    ensures raised <==> Triple(body)
    ensures !raised ==> at == LastDouble(body)
  {
    hide LastDouble, Triple;
    at := -1;
    var colons := 0;
    assert LastDouble(body[..0]) == -1 && !Triple(body[..0]) by { NothingYet(body[..0]); }
    for idx := 0 to |body|
      invariant 0 <= colons <= 2 && colons <= idx
      invariant colons >= 1 ==> body[idx - 1] == ':'
      invariant colons == 2 ==> body[idx - 2] == ':'
      invariant colons == 0 && idx >= 1 ==> body[idx - 1] != ':'
      invariant colons == 1 && idx >= 2 ==> body[idx - 2] != ':'
      invariant !Triple(body[..idx])
      invariant at == LastDouble(body[..idx])
    {
      OneMore(body, idx);
      if body[idx] == ':' {
        colons := colons + 1;
        if colons == 2 {
          at := idx - 1;
        } else if colons > 2 {
          TripleStays(body, idx + 1);
          return true, at;
        }
      } else {
        colons := 0;
      }
    }
    assert body[..|body|] == body;
    return false, at;
  }

  lemma NothingYet(s: string)
    requires s == ""
    ensures LastDouble(s) == -1 && !Triple(s)
  {
  }

  /** What one more character adds. */
  lemma OneMore(s: string, idx: nat)
    requires idx < |s|
    ensures LastDouble(s[..idx + 1]) ==
      if idx >= 1 && s[idx] == ':' && s[idx - 1] == ':' then idx - 1 else LastDouble(s[..idx])
    ensures Triple(s[..idx + 1]) <==>
      Triple(s[..idx]) || (idx >= 2 && s[idx] == ':' && s[idx - 1] == ':' && s[idx - 2] == ':')
  {
    var t, u := s[..idx + 1], s[..idx];
    assert t[..idx] == u;
    if idx >= 2 && s[idx] == ':' && s[idx - 1] == ':' && s[idx - 2] == ':' {
      var i := idx - 2;
      assert t[i] == ':' && t[i + 1] == ':' && t[i + 2] == ':';
    }
    if Triple(u) {
      var i :| 0 <= i < |u| - 2 && u[i] == ':' && u[i + 1] == ':' && u[i + 2] == ':';
      assert t[i] == ':' && t[i + 1] == ':' && t[i + 2] == ':';
    }
    if Triple(t) {
      var i :| 0 <= i < |t| - 2 && t[i] == ':' && t[i + 1] == ':' && t[i + 2] == ':';
      assert i < idx - 2 ==> u[i] == ':' && u[i + 1] == ':' && u[i + 2] == ':';
    }
  }

  lemma TripleStays(s: string, idx: nat)
    requires idx <= |s| && Triple(s[..idx])
    ensures Triple(s)
  {
    var t := s[..idx];
    var i :| 0 <= i < |t| - 2 && t[i] == ':' && t[i + 1] == ':' && t[i + 2] == ':';
    assert s[i] == ':' && s[i + 1] == ':' && s[i + 2] == ':';
  }

  /** The segment count of the compressed form, before the correction for a final "::". */
  method CountSegments(body: string) returns (count: nat)
    ensures count == 1 + Closed(body)
  {
    count := 1;
    var reachedColon, reachedValue := false, false;
    for idx := 0 to |body|
      invariant count == 1 + Closed(body[..idx])
      invariant reachedValue <==> !OnlyColons(body[..idx])
      invariant reachedColon <==> reachedValue && body[idx - 1] == ':'
    {
      var next := body[..idx + 1];
      assert next[..idx] == body[..idx];
      assert forall i :: 0 <= i < idx ==> next[i] == body[..idx][i];
      if body[idx] == ':' {
        if !reachedColon && reachedValue {
          count := count + 1;
          reachedColon := true;
        }
      } else {
        assert next[idx] != ':';
        reachedColon := false;
        reachedValue := true;
      }
    }
    assert body[..|body|] == body;
  }

  method CountColons(body: string) returns (count: nat)
    ensures count == 1 + Colons(body)
  {
    count := 1;
    for idx := 0 to |body|
      invariant count == 1 + Colons(body[..idx])
    {
      assert body[..idx + 1][..idx] == body[..idx];
      if body[idx] == ':' {
        count := count + 1;
      }
    }
    assert body[..|body|] == body;
  }

  lemma {:induction false} ClosedSplit(s: string, k: nat)
    requires k <= |s|
    ensures Closed(s) >= Closed(s[..k]) + Closed(s[k..])
    decreases |s|
  {
    if k == |s| {
      assert s[..k] == s;
    } else {
      var n := |s| - 1;
      ClosedSplit(s[..n], k);
      assert s[..n][..k] == s[..k];
      assert s[..n][k..] == s[k..][..n - k];
    }
  }

  /** A counted segment for every group read. */
  lemma {:induction false} ForwardCounted(s: string, room: nat)
    requires Legal(s) && room >= 1 && Forward(s, room).Read?
    ensures |Forward(s, room).groups| <= Closed(s) + 1
    decreases |s|
  {
    hide Decode, Forward;
    var p := Colon(s);
    ForwardUnfold(s, p, p % 256, room);
    if room > 1 && p < |s| {
      ForwardCounted(s[p + 1..], room - 1);
      ClosedSplit(s, p + 1);
      assert s[..p + 1][..p] == s[..p];
    }
  }

  /** The two sides of an accepted text do not meet. */
  lemma SidesFit(body: string, d: nat)
    requires Legal(body) && !Triple(body) && LastDouble(body) == d && 1 + Closed(body) <= 8
    requires d > 0 && Forward(body[..d], 8).Read?
    ensures |Forward(body[..d], 8).groups| + Closed(body[d + 2..]) + 1 <= 8
  {
    hide Forward;
    ForwardCounted(body[..d], 8);
    ClosedSplit(body, d + 1);
    assert body[..d + 1][..d] == body[..d];
    NotTripled(body, d);
    RightFits(body, d);
  }

  lemma NotTripled(s: string, d: nat)
    requires 0 < d <= |s| - 2 && s[d] == ':' && s[d + 1] == ':' && !Triple(s)
    ensures s[d - 1] != ':'
  {
    var i := d - 1;
    assert s[i + 1] == ':' && s[i + 2] == ':';
  }

  lemma RightFits(body: string, d: nat)
    requires d + 2 <= |body|
    ensures Closed(body[d + 1..]) >= Closed(body[d + 2..])
    ensures Closed(body) >= Closed(body[d + 2..])
  {
    ClosedSplit(body[d + 1..], 1);
    assert body[d + 1..][1..] == body[d + 2..];
    ClosedSplit(body, d + 2);
  }

  lemma {:induction false} NoDoubleAfter(s: string, d: int)
    requires LastDouble(s) == d
    ensures forall i :: 0 <= i < |s| - 1 && d < i ==> s[i] != ':' || s[i + 1] != ':'
    decreases |s|
  {
    if |s| >= 2 && d != |s| - 2 {
      var t := s[..|s| - 1];
      NoDoubleAfter(t, d);
      forall i | 0 <= i < |s| - 1 && d < i ensures s[i] != ':' || s[i + 1] != ':' {
        if i < |s| - 2 {
          assert t[i] == s[i] && t[i + 1] == s[i + 1];
        }
      }
    }
  }

  lemma RightSeparated(body: string, d: nat)
    requires !Triple(body) && LastDouble(body) == d
    ensures Separated(body[d + 1..])
  {
    NoDoubleAfter(body, d);
    var t := body[d + 1..];
    forall i | 0 <= i < |t| - 1 ensures t[i] != ':' || t[i + 1] != ':' {
      assert t[i] == body[d + 1 + i] && t[i + 1] == body[d + 1 + i + 1];
    }
  }

  // ----- The whole parser -----

  /** The two sides of "::" at `d`. */
  method ParseSides(body: string, d: nat, ipv6: array<u8>) returns (ok: bool)
    requires Legal(body) && !Triple(body) && LastDouble(body) == d && 1 + Closed(body) <= 8
    requires ipv6.Length == 16 && Front(ipv6[..], [])
    modifies ipv6
    ensures var left := if d == 0 then Read([]) else Forward(body[..d], 8);
      var right := if d + 2 == |body| then Read([]) else Backward(body[d + 2..], 8);
      && (ok <==> left.Read? && right.Read?)
      && (ok ==> ipv6[..] == Overlay(left.groups, right.groups))
  {
    hide Forward, Backward, Closed, Triple, LastDouble, Separated, Overlay;
    ghost var left: seq<Group> := [];
    if d > 0 {
      var status := ParseForward(body[..d], ipv6);
      if status != Done {
        return false;
      }
      left := Forward(body[..d], 8).groups;
      SidesFit(body, d);
    } else {
      RightFits(body, d);
    }
    if d + 2 >= |body| {
      return true;
    }
    RightSeparated(body, d);
    var status := ParseBackward(body, d, ipv6, left);
    return status == Done;
  }

  method ParseInside(body: string, endsDouble: bool, scope: u32) returns (r: Outcome)
    ensures r == ParseBody(body, endsDouble, scope)
  {
    hide Forward, Backward, Closed, Triple, LastDouble, Colons, Legal;
    var legal := CheckCharacters(body);
    if !legal {
      return Rejected;
    }
    var raised, d := FindDouble(body);
    if raised {
      return Rejected;
    }
    var ipv6 := new u8[16](_ => 0);
    assert ipv6[..] == Overlay([], []);
    if d >= 0 {
      var count: int := CountSegments(body);
      if endsDouble {
        count := count - 1;
      }
      if count > 7 {
        return Rejected;
      }
      var ok := ParseSides(body, d, ipv6);
      return if ok then Parsed(ipv6[..], scope) else Rejected;
    }
    var count := CountColons(body);
    if count != 8 {
      return Rejected;
    }
    var status := ParseForward(body, ipv6);
    return match status
      case Done => Parsed(ipv6[..], scope)
      case Raised => Rejected
      case Endless => Spinning;
  }

  method FindScope(text: string) returns (k: nat)
    ensures k == ScopeStart(text)
  {
    var idx := |text|;
    assert text[..idx] == text;
    while idx > 0
      invariant 0 <= idx <= |text| && ScopeStart(text) == ScopeStart(text[..idx])
    {
      idx := idx - 1;
      if text[idx] == '%' {
        return idx;
      }
      assert text[..idx + 1][..idx] == text[..idx];
    }
    return 0;
  }

  method StrToAddr(text: string, interfaceIndex: string -> Lookup) returns (r: Outcome)
    ensures r == Parse(text, interfaceIndex)
  {
    hide ParseBody, ScopeStart, Overlay, EndsDouble;
    var k := FindScope(text);
    var scope: u32 := 0;
    if k != 0 && k + 1 < |text| {
      match interfaceIndex(text[k + 1..])
      case Unknown => return Rejected;
      case Found(id) => scope := id;
    }
    if text == "::" || text == "[::]" {
      return Parsed(Overlay([], []), scope);
    }
    if text == "" {
      return Rejected;
    }
    var end := if k != 0 then k else |text|;
    if text[0] == '[' {
      if text[end - 1] != ']' {
        return Rejected;
      }
      r := ParseInside(text[1..end - 1], EndsDouble(text), scope);
    } else if text[end - 1] == ']' {
      return Rejected;
    } else {
      r := ParseInside(text[..end], EndsDouble(text), scope);
    }
  }
}
