/** The parameter block of an execute packet. */
module Params {
  import opened Common
  import opened Bytes

  /** A bound parameter; a double is its eight bytes. */
  datatype Value = Null | Str(bytes: seq<Byte>) | SignedInt(i: int) | UnsignedInt(u: nat) | Double(bits: seq<Byte>)

  ghost predicate Fits(v: Value) {
    match v
    case Null => true
    case Str(bytes) => |bytes| < 0x1_0000_0000_0000_0000
    case SignedInt(i) => -0x8000_0000_0000_0000 <= i < 0x8000_0000_0000_0000
    case UnsignedInt(u) => u < 0x1_0000_0000_0000_0000
    case Double(bits) => |bits| == 8
  }

  function TypeBytes(v: Value): (bs: seq<Byte>)
    ensures |bs| == 2
  {
    match v
    case Null => [6, 0]
    case Str(_) => [254, 0]
    case SignedInt(_) => [8, 0]
    case UnsignedInt(_) => [8, 128]
    case Double(_) => [5, 0]
  }

  function TwosComplement(i: int): nat {
    i % 0x1_0000_0000_0000_0000
  }

  function ValueBytes(v: Value): seq<Byte> {
    match v
    case Null => []
    case Str(bytes) => EncodeLength(|bytes|) + bytes
    case SignedInt(i) => LittleEndian(TwosComplement(i), 8)
    case UnsignedInt(u) => LittleEndian(u, 8)
    case Double(bits) => bits
  }

  function AllTypes(ps: seq<Value>): (bs: seq<Byte>)
    ensures |bs| == 2 * |ps|
  {
    if ps == [] then [] else TypeBytes(ps[0]) + AllTypes(ps[1..])
  }

  function AllValues(ps: seq<Value>): seq<Byte> {
    if ps == [] then [] else ValueBytes(ps[0]) + AllValues(ps[1..])
  }

  // ----- The NULL bitmap -----

  /** Byte j of the bitmap, from bit o upwards. */
  function NullBits(ps: seq<Value>, j: nat, o: nat): (b: nat)
    requires o <= 8
    decreases 8 - o
  {
    if o == 8 then 0
    else (if 8 * j + o < |ps| && ps[8 * j + o].Null? then Pow2(o) else 0) + NullBits(ps, j, o + 1)
  }

  lemma {:induction false} NullBitsMultiple(ps: seq<Value>, j: nat, o: nat) returns (q: nat)
    requires o <= 8
    ensures NullBits(ps, j, o) == Pow2(o) * q
    ensures NullBits(ps, j, o) <= 256 - Pow2(o)
    ensures o < 8 ==> (q % 2 == 1 <==> 8 * j + o < |ps| && ps[8 * j + o].Null?)
    decreases 8 - o
  {
    SmallPowers();
    if o == 8 {
      q := 0;
    } else {
      var r := NullBitsMultiple(ps, j, o + 1);
      var bit := if 8 * j + o < |ps| && ps[8 * j + o].Null? then 1 else 0;
      q := bit + 2 * r;
      TwiceTimes(Pow2(o), r, bit);
    }
  }

  lemma TwiceTimes(p: nat, r: nat, bit: nat)
    ensures p * (bit + 2 * r) == p * bit + (2 * p) * r
  {
  }

  lemma {:induction false} NullBitsSplit(ps: seq<Value>, j: nat, o: nat) returns (low: nat)
    requires o <= 8
    ensures NullBits(ps, j, 0) == low + NullBits(ps, j, o) && low < Pow2(o)
    decreases o
  {
    SmallPowers();
    if o == 0 {
      low := 0;
    } else {
      var l := NullBitsSplit(ps, j, o - 1);
      low := l + (if 8 * j + (o - 1) < |ps| && ps[8 * j + (o - 1)].Null? then Pow2(o - 1) else 0);
    }
  }

  /** A bit of a bitmap byte is set exactly when its parameter exists and is NULL. */
  lemma BitIsNull(ps: seq<Value>, j: nat, o: nat)
    requires o < 8
    ensures NullBits(ps, j, 0) < 256
    ensures Bit(NullBits(ps, j, 0), o) <==> 8 * j + o < |ps| && ps[8 * j + o].Null?
  {
    SmallPowers();
    var low := NullBitsSplit(ps, j, o);
    var q := NullBitsMultiple(ps, j, o);
    var all := NullBitsMultiple(ps, j, 0);
    ModUnique(Pow2(o), NullBits(ps, j, 0), q, low);
  }

  function NullBitmap(ps: seq<Value>): (bs: seq<Byte>)
    ensures |bs| == (|ps| + 7) / 8
  {
    seq((|ps| + 7) / 8, j requires 0 <= j < (|ps| + 7) / 8 => BitIsNull(ps, j, 0); NullBits(ps, j, 0))
  }

  /** The whole parameter block; nothing at all when there are no parameters. */
  function ParamBytes(ps: seq<Value>): seq<Byte> {
    if ps == [] then [] else NullBitmap(ps) + [1] + AllTypes(ps) + AllValues(ps)
  }

  // ----- The encoder as written -----

  /** The bitmap loop: one byte and bit offset per parameter. */
  method BuildNullBitmap(ps: seq<Value>) returns (bitmap: seq<nat>)
    ensures bitmap == NullBitmap(ps)
  {
    hide NullBits, Pow2;
    bitmap := seq((|ps| + 7) / 8, _ => 0);
    forall j | 0 <= j < |bitmap| ensures NullBits([], j, 0) == 0 { NoNullBits(j, 0); }
    assert ps[..0] == [];
    for pidx := 0 to |ps|
      invariant |bitmap| == (|ps| + 7) / 8
      invariant forall j :: 0 <= j < |bitmap| ==> bitmap[j] == NullBits(ps[..pidx], j, 0)
    {
      ghost var was := bitmap;
      if ps[pidx].Null? {
        var bitmapByte, offset := 0, pidx;
        while offset > 7
          invariant offset >= 0 && 8 * bitmapByte + offset == pidx
        {
          bitmapByte := bitmapByte + 1;
          offset := offset - 8;
        }
        bitmap := bitmap[bitmapByte := bitmap[bitmapByte] + Pow2(offset)];
      }
      forall j | 0 <= j < |bitmap| ensures bitmap[j] == NullBits(ps[..pidx + 1], j, 0) {
        NullBitsGrow(ps, pidx, j, 0);
      }
    }
    assert ps[..|ps|] == ps;
  }

  lemma {:induction false} NoNullBits(j: nat, o: nat)
    requires o <= 8
    ensures NullBits([], j, o) == 0
    decreases 8 - o
  {
    if o < 8 { NoNullBits(j, o + 1); }
  }

  /** One more parameter sets at most its own bit. */
  lemma {:induction false} NullBitsGrow(ps: seq<Value>, i: nat, j: nat, o: nat)
    requires i < |ps| && o <= 8
    ensures NullBits(ps[..i + 1], j, o) == NullBits(ps[..i], j, o)
      + (if ps[i].Null? && 8 * j + o <= i < 8 * j + 8 then Pow2(i - 8 * j) else 0)
    decreases 8 - o
  {
    hide Pow2;
    if o < 8 { NullBitsGrow(ps, i, j, o + 1); }
  }

  method EncodeParams(ps: seq<Value>) returns (bytes: seq<Byte>)
    ensures bytes == ParamBytes(ps)
  {
    hide NullBitmap, ValueBytes, TypeBytes;
    bytes := [];
    if ps != [] {
      var bitmap := BuildNullBitmap(ps);
      bytes := bitmap + [1];
      ghost var head := bytes;
      assert ps[0..] == ps;
      for pidx := 0 to |ps|
        invariant bytes + AllTypes(ps[pidx..]) == head + AllTypes(ps)
      {
        assert AllTypes(ps[pidx..]) == TypeBytes(ps[pidx]) + AllTypes(ps[pidx + 1..]);
        bytes := bytes + TypeBytes(ps[pidx]);
      }
      assert ps[|ps|..] == [] && bytes == head + AllTypes(ps);
      head := bytes;
      for pidx := 0 to |ps|
        invariant bytes + AllValues(ps[pidx..]) == head + AllValues(ps)
      {
        assert AllValues(ps[pidx..]) == ValueBytes(ps[pidx]) + AllValues(ps[pidx + 1..]);
        bytes := bytes + ValueBytes(ps[pidx]);
      }
      assert bytes == head + AllValues(ps);
    }
  }

  // ----- Decoding, the server's view -----

  function Unsign(n: nat): int {
    if n >= 0x8000_0000_0000_0000 then n - 0x1_0000_0000_0000_0000 else n
  }

  /** Reads one value that is not NULL, of the given two type bytes. */
  function DecodeValue(kind: seq<Byte>, data: seq<Byte>): Option<(Value, seq<Byte>)> {
    if kind == [254, 0] then
      match ParseLength(data)
      case Overread => None
      case Length(n, read) =>
        if |data| < read + n then None else Some((Str(data[read..read + n]), data[read + n..]))
    else if |data| < 8 then None
    else if kind == [8, 0] then Some((SignedInt(Unsign(FromLittleEndian(data[..8]))), data[8..]))
    else if kind == [8, 128] then Some((UnsignedInt(FromLittleEndian(data[..8])), data[8..]))
    else if kind == [5, 0] then Some((Double(data[..8]), data[8..]))
    else None
  }

  function DecodeNext(marked: bool, kind: seq<Byte>, data: seq<Byte>): Option<(Value, seq<Byte>)> {
    if marked then Some((Null, data)) else DecodeValue(kind, data)
  }

  /** Reads the values from parameter i on; the bitmap says which ones are NULL. */
  function DecodeValues(n: nat, i: nat, bitmap: seq<Byte>, kinds: seq<Byte>, data: seq<Byte>):
    Option<(seq<Value>, seq<Byte>)>
    requires i <= n <= 8 * |bitmap| && |kinds| == 2 * n
    decreases n - i
  {
    if i == n then Some(([], data))
    else
      match DecodeNext(Bit(bitmap[i / 8], i % 8), kinds[2 * i..2 * i + 2], data)
      case None => None
      case Some((v, rest)) =>
        match DecodeValues(n, i + 1, bitmap, kinds, rest)
        case None => None
        case Some((vs, end)) => Some(([v] + vs, end))
  }

  /** Decodes a block of n parameters from its bitmap, the type bytes and the values. */
  function DecodeParams(n: nat, data: seq<Byte>): Option<(seq<Value>, seq<Byte>)> {
    if n == 0 then Some(([], data))
    else
      var size := (n + 7) / 8;
      var at := size + 1;
      if |data| < at + 2 * n then None
      else DecodeValues(n, 0, data[..size], data[at..at + 2 * n], data[at + 2 * n..])
  }

  lemma DecodeOne(v: Value, rest: seq<Byte>)
    requires Fits(v) && !v.Null?
    ensures DecodeValue(TypeBytes(v), ValueBytes(v) + rest) == Some((v, rest))
  {
    hide LittleEndian, FromLittleEndian, ParseLength, EncodeLength, Pow256;
    var data := ValueBytes(v) + rest;
    PowerValues();
    match v {
      case Str(bytes) =>
        var head := EncodeLength(|bytes|);
        assert data == head + (bytes + rest);
        ParseEncodedLength(|bytes|, bytes + rest);
        assert data[|head|..|head| + |bytes|] == bytes && data[|head| + |bytes|..] == rest;
      case SignedInt(i) =>
        assert data[..8] == ValueBytes(v) && data[8..] == rest;
        LittleEndianInverse(TwosComplement(i), 8);
        assert i < 0 ==> TwosComplement(i) == i + 0x1_0000_0000_0000_0000;
      case UnsignedInt(u) =>
        assert data[..8] == ValueBytes(v) && data[8..] == rest;
        LittleEndianInverse(u, 8);
      case Double(bits) =>
        assert data[..8] == bits && data[8..] == rest;
    }
  }

  lemma {:induction false} TypesAt(ps: seq<Value>, i: nat)
    requires i < |ps|
    ensures AllTypes(ps)[2 * i..2 * i + 2] == TypeBytes(ps[i])
  {
    hide TypeBytes;
    var all := AllTypes(ps);
    if i == 0 {
      assert all[0..2] == TypeBytes(ps[0]);
    } else {
      TypesAt(ps[1..], i - 1);
      assert all[2..] == AllTypes(ps[1..]);
      assert all[2 * i..2 * i + 2] == all[2..][2 * (i - 1)..2 * (i - 1) + 2];
    }
  }

  /** The bitmap marks parameter i exactly if it is NULL. */
  lemma MarkedIsNull(ps: seq<Value>, i: nat)
    requires i < |ps|
    ensures Bit(NullBitmap(ps)[i / 8], i % 8) <==> ps[i].Null?
  {
    hide NullBits, Bit;
    BitIsNull(ps, i / 8, i % 8);
    assert 8 * (i / 8) + i % 8 == i;
  }

  lemma {:induction false} DecodeAll(ps: seq<Value>, i: nat, rest: seq<Byte>)
    requires i <= |ps| && forall k :: 0 <= k < |ps| ==> Fits(ps[k])
    ensures DecodeValues(|ps|, i, NullBitmap(ps), AllTypes(ps), AllValues(ps[i..]) + rest) == Some((ps[i..], rest))
    decreases |ps| - i
  {
    hide DecodeValue, ValueBytes, TypeBytes, Fits, NullBitmap, AllTypes, Bit;
    if i == |ps| {
      assert AllValues(ps[i..]) + rest == rest;
    } else {
      var data, next := AllValues(ps[i..]) + rest, AllValues(ps[i + 1..]) + rest;
      assert ps[i..][1..] == ps[i + 1..] && ps[i..] == [ps[i]] + ps[i + 1..];
      assert data == ValueBytes(ps[i]) + next;
      MarkedIsNull(ps, i);
      TypesAt(ps, i);
      if ps[i].Null? {
        NullIsNothing(next);
      } else {
        DecodeOne(ps[i], next);
      }
      DecodeAll(ps, i + 1, rest);
    }
  }

  lemma NullIsNothing(data: seq<Byte>)
    ensures ValueBytes(Null) + data == data
  {
  }

  /** The server reads back exactly the parameters that were bound, whatever follows. */
  lemma DecodeEncoded(ps: seq<Value>, rest: seq<Byte>)
    requires forall i :: 0 <= i < |ps| ==> Fits(ps[i])
    ensures DecodeParams(|ps|, ParamBytes(ps) + rest) == Some((ps, rest))
  {
    hide NullBitmap, Fits, DecodeValues, AllTypes, AllValues;
    if ps != [] {
      var data := ParamBytes(ps) + rest;
      var head, types := NullBitmap(ps) + [1], AllTypes(ps);
      assert data == head + (types + (AllValues(ps) + rest));
      var at := |head|;
      assert data[..at - 1] == NullBitmap(ps);
      assert data[at..] == types + (AllValues(ps) + rest);
      assert data[at..at + 2 * |ps|] == types;
      assert data[at + 2 * |ps|..] == AllValues(ps) + rest;
      assert ps[0..] == ps;
      DecodeAll(ps, 0, rest);
    } else {
      assert ParamBytes(ps) + rest == rest;
    }
  }

  /** For a fixed parameter count the encoding is injective. */
  lemma EncodingInjective(ps: seq<Value>, qs: seq<Value>)
    requires forall i :: 0 <= i < |ps| ==> Fits(ps[i])
    requires forall i :: 0 <= i < |qs| ==> Fits(qs[i])
    requires |ps| == |qs| && ParamBytes(ps) == ParamBytes(qs)
    ensures ps == qs
  {
    DecodeEncoded(ps, []);
    DecodeEncoded(qs, []);
  }
}
