/** Bytes and little-endian integers, as the wire code lays them out. */
module Bytes {
  import opened Common

  type Byte = x: int | 0 <= x < 256

  function Pow256(k: nat): (p: nat)
    ensures p >= 1
  {
    if k == 0 then 1 else 256 * Pow256(k - 1)
  }

  /** The k low bytes of n, least significant first. */
  function LittleEndian(n: nat, k: nat): (bs: seq<Byte>)
    ensures |bs| == k
  {
    if k == 0 then [] else [n % 256] + LittleEndian(n / 256, k - 1)
  }

  function FromLittleEndian(bs: seq<Byte>): nat {
    if bs == [] then 0 else bs[0] + 256 * FromLittleEndian(bs[1..])
  }

  lemma {:induction false} LittleEndianInverse(n: nat, k: nat)
    requires n < Pow256(k)
    ensures FromLittleEndian(LittleEndian(n, k)) == n
  {
    if k > 0 {
      LittleEndianInverse(n / 256, k - 1);
    }
  }

  lemma PowerValues()
    ensures Pow256(2) == 0x1_0000 && Pow256(3) == 0x100_0000 && Pow256(8) == 0x1_0000_0000_0000_0000
  {
    assert Pow256(1) == 256 * Pow256(0);
    assert Pow256(2) == 256 * Pow256(1);
    assert Pow256(3) == 256 * Pow256(2);
    assert Pow256(4) == 256 * Pow256(3);
    assert Pow256(5) == 256 * Pow256(4);
    assert Pow256(6) == 256 * Pow256(5);
    assert Pow256(7) == 256 * Pow256(6);
    assert Pow256(8) == 256 * Pow256(7);
  }

  // ----- Length-encoded integers -----

  /** The length prefixes the client writes. */
  function EncodeLength(n: nat): (bs: seq<Byte>)
    ensures bs != []
  {
    if n < 0xFB then [n]
    else if n <= 0xFFFF then [0xFC] + LittleEndian(n, 2)
    else if n <= 0xFF_FFFF then [0xFD] + LittleEndian(n, 3)
    else [0xFE] + LittleEndian(n, 8)
  }

  /** `parse_len_enc_int`; `Overread` when the integer runs past the bytes given. */
  datatype LengthResult = Length(value: nat, read: nat) | Overread

  function ParseLength(data: seq<Byte>): (r: LengthResult)
    ensures r.Length? ==> r.read <= |data|
  {
    if data == [] then Overread
    else if data[0] < 0xFB then Length(data[0], 1)
    else if data[0] == 0xFB then Length(0, 1)
    else if data[0] == 0xFC then Fixed(data, 2)
    else if data[0] == 0xFD then Fixed(data, 3)
    else if data[0] == 0xFE then Fixed(data, 8)
    else Length(0, 0)
  }

  function Fixed(data: seq<Byte>, k: nat): (r: LengthResult)
    ensures r.Length? ==> r.read <= |data|
  {
    if |data| < 1 + k then Overread else Length(FromLittleEndian(data[1..1 + k]), 1 + k)
  }

  /** Parsing inverts every length prefix, whatever bytes follow. */
  lemma ParseEncodedLength(n: nat, rest: seq<Byte>)
    requires n < 0x1_0000_0000_0000_0000
    ensures ParseLength(EncodeLength(n) + rest) == Length(n, |EncodeLength(n)|)
  {
    hide LittleEndian, FromLittleEndian, Pow256;
    PowerValues();
    var k := if n <= 0xFFFF then 2 else if n <= 0xFF_FFFF then 3 else 8;
    if n >= 0xFB {
      var data := EncodeLength(n) + rest;
      assert data[1..1 + k] == LittleEndian(n, k);
      LittleEndianInverse(n, k);
    }
  }

  // ----- Bits -----

  predicate Bit(b: nat, o: nat) { b / Pow2(o) % 2 == 1 }
}
