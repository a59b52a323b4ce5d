/** Splitting a payload into wire packets of at most 0xFFFFFF bytes. */
module Packets {
  import opened Common
  import opened Bytes

  const MAX := 0xFF_FFFF

  datatype Packet = Packet(length: nat, seqId: Byte, body: seq<Byte>)

  function Next(s: Byte): Byte { (s + 1) % 256 }

  /** The packets of a payload: full ones, then a shorter one that may be empty. */
  function Split(data: seq<Byte>, s: Byte): seq<Packet> {
    if data == [] then []
    else if |data| < MAX then [Packet(|data|, s, data)]
    else if |data| == MAX then [Packet(MAX, s, data), Packet(0, Next(s), [])]
    else [Packet(MAX, s, data[..MAX])] + Split(data[MAX..], Next(s))
  }

  /** `create_packets`; the sequence number is updated in place and wraps at 256. */
  method CreatePackets(data: seq<Byte>, seqIn: Byte) returns (ret: seq<Packet>, seqOut: Byte)
    ensures ret == Split(data, seqIn)
    ensures seqOut == (seqIn + |ret|) % 256
  {
    hide Split, Next;
    ret, seqOut := [], seqIn;
    var offset, dataSize := 0, |data|;
    SplitAt(data, 0, seqIn);
    while dataSize != 0
      invariant 0 <= offset <= |data| && dataSize == |data| - offset
      invariant seqOut == (seqIn + |ret|) % 256
      invariant dataSize != 0 ==> ret + Split(data[offset..], seqOut) == Split(data, seqIn)
      invariant dataSize == 0 ==> ret == Split(data, seqIn)
      decreases dataSize
    {
      SplitAt(data, offset, seqOut);
      CountStep(seqIn, |ret|);
      CountStep(seqIn, |ret| + 1);
      if dataSize >= MAX {
        ret := ret + [Packet(MAX, seqOut, data[offset..offset + MAX])];
        seqOut := Next(seqOut);
        offset := offset + MAX;
        dataSize := dataSize - MAX;
        if dataSize == 0 {
          ret := ret + [Packet(0, seqOut, [])];
          seqOut := Next(seqOut);
        }
      } else {
        ret := ret + [Packet(dataSize, seqOut, data[offset..offset + dataSize])];
        seqOut := Next(seqOut);
        offset := offset + dataSize;
        dataSize := 0;
      }
    }
  }

  lemma CountStep(s: Byte, n: nat)
    ensures Next((s + n) % 256) == (s + (n + 1)) % 256
  {
  }

  /** One turn of the packet loop at an offset. */
  lemma SplitAt(data: seq<Byte>, offset: nat, s: Byte)
    requires offset <= |data|
    ensures var n := |data| - offset;
      Split(data[offset..], s) ==
        if n == 0 then []
        else if n < MAX then [Packet(n, s, data[offset..offset + n])]
        else if n == MAX then [Packet(MAX, s, data[offset..offset + MAX])] + [Packet(0, Next(s), [])]
        else [Packet(MAX, s, data[offset..offset + MAX])] + Split(data[offset + MAX..], Next(s))
    ensures data[0..] == data
  {
    var rest, n := data[offset..], |data| - offset;
    if n >= MAX {
      assert rest[..MAX] == data[offset..offset + MAX];
      if n == MAX {
        assert rest[..MAX] == rest;
      } else {
        assert rest[MAX..] == data[offset + MAX..];
      }
    } else {
      assert data[offset..offset + n] == rest;
    }
  }

  /** Full packets, then exactly one shorter packet, numbered consecutively modulo 256, bodies matching
      their length fields. */
  predicate Shaped(ps: seq<Packet>, s: Byte) {
    && ps != []
    && (forall i :: 0 <= i < |ps| ==> ps[i].length == |ps[i].body| && ps[i].seqId == (s + i) % 256)
    && (forall i :: 0 <= i < |ps| - 1 ==> ps[i].length == MAX)
    && ps[|ps| - 1].length < MAX
  }

  lemma {:induction false} SplitShape(data: seq<Byte>, s: Byte)
    requires data != []
    ensures Shaped(Split(data, s), s)
    decreases |data|
  {
    if |data| > MAX {
      hide Shaped;
      SplitShape(data[MAX..], Next(s));
      ShapedCons(Packet(MAX, s, data[..MAX]), Split(data[MAX..], Next(s)), s);
    } else if |data| == MAX {
      assert Shaped([Packet(0, Next(s), [])], Next(s));
      ShapedCons(Packet(MAX, s, data), [Packet(0, Next(s), [])], s);
    }
  }

  lemma ShapedCons(p: Packet, qs: seq<Packet>, s: Byte)
    requires p.length == MAX == |p.body| && p.seqId == s && Shaped(qs, Next(s))
    ensures Shaped([p] + qs, s)
  {
    var ps := [p] + qs;
    forall i | 0 <= i < |ps| ensures ps[i].length == |ps[i].body| && ps[i].seqId == (s + i) % 256 {
      if i > 0 {
        assert ps[i] == qs[i - 1];
        ModShift(s, i - 1);
      }
    }
    forall i | 0 <= i < |ps| - 1 ensures ps[i].length == MAX {
      if i > 0 { assert ps[i] == qs[i - 1]; }
    }
  }

  lemma ModShift(s: nat, i: nat)
    ensures ((s + 1) % 256 + i) % 256 == (s + (i + 1)) % 256
  {
  }

  // ----- The wire form and its reader -----

  function Frame(p: Packet): seq<Byte> { LittleEndian(p.length, 3) + [p.seqId] + p.body }

  /** `packets_to_parts`, concatenated. */
  function Wire(ps: seq<Packet>): seq<Byte> {
    if ps == [] then [] else Frame(ps[0]) + Wire(ps[1..])
  }

  /** A reader that checks sequence numbers and joins packets until one is not full. */
  function ReadPayload(stream: seq<Byte>, s: Byte): Option<(seq<Byte>, seq<Byte>)>
    decreases |stream|
  {
    if |stream| < 4 then None
    else
      var n := FromLittleEndian(stream[..3]);
      if stream[3] != s || |stream| < 4 + n then None
      else if n < MAX then Some((stream[4..4 + n], stream[4 + n..]))
      else
        match ReadPayload(stream[4 + n..], Next(s))
        case None => None
        case Some((more, rest)) => Some((stream[4..4 + n] + more, rest))
  }

  lemma FrameParts(p: Packet, rest: seq<Byte>)
    requires p.length == |p.body| <= MAX
    ensures var stream := Frame(p) + rest;
      && |stream| >= 4 + p.length && FromLittleEndian(stream[..3]) == p.length && stream[3] == p.seqId
      && stream[4..4 + p.length] == p.body && stream[4 + p.length..] == rest
  {
    hide FromLittleEndian, LittleEndian, Pow256;
    PowerValues();
    LittleEndianInverse(p.length, 3);
    var head := LittleEndian(p.length, 3);
    var stream := Frame(p) + rest;
    assert stream[..3] == head;
    assert stream == (head + [p.seqId]) + (p.body + rest);
  }

  /** Sending a payload and joining packets until the short one recovers it, whatever follows. */
  lemma {:induction false} ReadBack(data: seq<Byte>, s: Byte, rest: seq<Byte>)
    requires data != []
    ensures ReadPayload(Wire(Split(data, s)) + rest, s) == Some((data, rest))
    decreases |data|
  {
    hide Frame, FromLittleEndian;
    if |data| < MAX {
      var p := Packet(|data|, s, data);
      WireOne(p, []);
      assert Wire([p]) + rest == Frame(p) + rest;
      FrameParts(p, rest);
    } else {
      var first := Packet(MAX, s, data[..MAX]);
      var tail := if |data| == MAX then [Packet(0, Next(s), [])] else Split(data[MAX..], Next(s));
      assert data[..MAX] + data[MAX..] == data;
      assert |data| == MAX ==> data[..MAX] == data;
      assert Split(data, s) == [first] + tail;
      WireOne(first, tail);
      assert Wire([first] + tail) + rest == Frame(first) + (Wire(tail) + rest);
      FrameParts(first, Wire(tail) + rest);
      if |data| == MAX {
        WireOne(tail[0], []);
        assert Wire(tail) + rest == Frame(tail[0]) + rest;
        FrameParts(tail[0], rest);
      } else {
        ReadBack(data[MAX..], Next(s), rest);
      }
    }
  }

  lemma WireOne(p: Packet, ps: seq<Packet>)
    ensures Wire([p] + ps) == Frame(p) + Wire(ps)
    ensures ps == [] ==> Wire([p]) == Frame(p)
  {
    hide Frame;
    assert ([p] + ps)[1..] == ps;
    assert [p][1..] == [];
    assert Frame(p) + [] == Frame(p);
  }
}
