/** What the bytes of a row denote: a server's encoding of a row, and exactly when the client reads it back. */
module RowValues {
  import opened Common
  import opened Bytes
  import opened Rows
  import Params

  // ----- The encoding of one field -----

  /** How many bytes a fixed-width column takes. */
  function Width(kind: Byte): nat {
    match kind
    case 1 => 1
    case 2 => 2
    case 3 => 4
    case 4 => 4
    case 5 => 8
    case 8 => 8
    case 9 => 4
    case _ => 0
  }

  predicate IsInteger(kind: Byte) { kind == 1 || kind == 2 || kind == 3 || kind == 8 || kind == 9 }

  /** How many bytes follow the length byte of a date or time. */
  predicate TemporalSize(kind: Byte, n: nat) {
    match kind
    case 10 => n == 0 || n == 4
    case 11 => n == 0 || n == 8 || n == 12
    case 12 => n == 0 || n == 4 || n == 7 || n == 11
    case _ => false
  }

  /** The values a column of the given type and flags can hold. */
  ghost predicate Holds(cell: Cell, kind: Byte, detail: nat) {
    match cell
    case NullCell => true
    case Text(bytes) => 252 <= kind <= 254 && |bytes| < 0x1_0000_0000_0000_0000
    case Unsigned(n) => IsInteger(kind) && Bit(detail, 5) && n < Pow256(Width(kind))
    case Signed(i) => IsInteger(kind) && !Bit(detail, 5) && 0 <= 2 * i + Pow256(Width(kind)) < 2 * Pow256(Width(kind))
    case Floating(raw) => (kind == 4 || kind == 5) && |raw| == Width(kind)
    case Temporal(k, raw) => k == kind && TemporalSize(kind, |raw|)
    case DecimalText(digits) => kind == 0 && |digits| < 0x1_0000_0000_0000_0000
  }

  function CellBytes(cell: Cell, kind: Byte): seq<Byte> {
    match cell
    case NullCell => []
    case Text(bytes) => EncodeLength(|bytes|) + bytes
    case Unsigned(n) => LittleEndian(n, Width(kind))
    case Signed(i) => LittleEndian(i % Pow256(Width(kind)), Width(kind))
    case Floating(raw) => raw
    case Temporal(_, raw) => [|raw| % 256] + raw
    case DecimalText(digits) => EncodeLength(|digits|) + digits
  }

  /** The fields whose end the client compares with its buffer size. */
  predicate Bounded(cell: Cell) { cell.Unsigned? || cell.Signed? || cell.Floating? || cell.DecimalText? }

  /** What the client makes of a field: a DECIMAL is read as NULL. */
  function AsRead(cell: Cell): Cell { if cell.DecimalText? then NullCell else cell }

  function AllAsRead(cells: seq<Cell>): (r: seq<Cell>)
    ensures |r| == |cells|
  {
    seq(|cells|, b requires 0 <= b < |cells| => AsRead(cells[b]))
  }

  // ----- The encoding of a row -----

  function Values(cells: seq<Cell>, types: seq<Byte>): seq<Byte>
    requires |cells| == |types|
  {
    if cells == [] then [] else CellBytes(cells[0], types[0]) + Values(cells[1..], types[1..])
  }

  /** The bitmap marks column b at bit b + 2. */
  function Marks(cells: seq<Cell>): (ps: seq<Params.Value>)
    ensures |ps| == |cells| + 2
  {
    [Params.Str([]), Params.Str([])]
      + seq(|cells|, i requires 0 <= i < |cells| => if cells[i].NullCell? then Params.Null else Params.Str([]))
  }

  function EncodeRow(cells: seq<Cell>, types: seq<Byte>): (bytes: seq<Byte>)
    requires |cells| == |types|
    ensures bytes != []
  {
    [0] + Params.NullBitmap(Marks(cells)) + Values(cells, types)
  }

  /** Every bounded field, the first one starting at idx, ends below the client's buffer size. */
  predicate EndBelow(cells: seq<Cell>, types: seq<Byte>, idx: nat)
    requires |cells| == |types|
  {
    cells == [] ||
    (var end := idx + |CellBytes(cells[0], types[0])|;
     (Bounded(cells[0]) ==> end < BUFFER) && EndBelow(cells[1..], types[1..], end))
  }

  // ----- One field -----

  lemma IntegerDecoded(buf: seq<Byte>, idx: nat, cell: Cell, kind: Byte, detail: nat, rest: seq<Byte>)
    requires idx <= |buf| && buf[idx..] == CellBytes(cell, kind) + rest
    requires Holds(cell, kind, detail) && (cell.Signed? || cell.Unsigned?)
    ensures var end := idx + Width(kind);
      FixedInt(buf, idx, Width(kind), detail) == if end >= BUFFER then Bad else Good(cell, end)
  {
    hide LittleEndian, FromLittleEndian, Pow256, Bit;
    var k := Width(kind);
    var n := if cell.Signed? then cell.i % Pow256(k) else cell.n;
    Slice(buf, idx, 0, k);
    assert (LittleEndian(n, k) + rest)[0..k] == LittleEndian(n, k);
    LittleEndianInverse(n, k);
    if cell.Signed? { SignRestored(cell.i, k); }
  }

  lemma SignRestored(i: int, k: nat)
    requires 0 <= 2 * i + Pow256(k) < 2 * Pow256(k)
    ensures 0 <= i % Pow256(k) < Pow256(k) && ToSigned(i % Pow256(k), k) == i
  {
    hide Pow256;
    if i < 0 {
      ModUnique(Pow256(k), i, -1, i + Pow256(k));
    } else {
      ModUnique(Pow256(k), i, 0, i);
    }
  }

  lemma RawDecoded(buf: seq<Byte>, idx: nat, raw: seq<Byte>, rest: seq<Byte>)
    requires idx <= |buf| && buf[idx..] == raw + rest
    ensures var end := idx + |raw|;
      FixedRaw(buf, idx, |raw|) == if end >= BUFFER then Bad else Good(Floating(raw), end)
  {
    Slice(buf, idx, 0, |raw|);
    assert (raw + rest)[0..|raw|] == raw;
  }

  lemma Slice(buf: seq<Byte>, idx: nat, a: nat, b: nat)
    requires idx <= |buf| && a <= b <= |buf| - idx
    ensures buf[idx + a..idx + b] == buf[idx..][a..b]
  {
    var t := buf[idx..];
    assert forall i :: 0 <= i < b - a ==> t[a..b][i] == t[a + i] == buf[idx + a + i];
  }

  lemma TextDecoded(buf: seq<Byte>, idx: nat, bytes: seq<Byte>, rest: seq<Byte>)
    requires idx <= |buf| && buf[idx..] == EncodeLength(|bytes|) + bytes + rest
    requires |bytes| < 0x1_0000_0000_0000_0000
    ensures LengthString(buf, idx) == Good(Text(bytes), idx + |EncodeLength(|bytes|)| + |bytes|)
  {
    hide EncodeLength, ParseLength;
    var head := EncodeLength(|bytes|);
    var start := idx + |head|;
    assert buf[idx..] == head + (bytes + rest);
    ParseEncodedLength(|bytes|, bytes + rest);
    Slice(buf, idx, |head|, |head| + |bytes|);
    assert (head + (bytes + rest))[|head|..|head| + |bytes|] == bytes;
  }

  lemma TemporalDecoded(buf: seq<Byte>, idx: nat, kind: Byte, raw: seq<Byte>, rest: seq<Byte>)
    requires idx <= |buf| && buf[idx..] == [|raw|] + raw + rest && TemporalSize(kind, |raw|)
    ensures var end := idx + 1 + |raw|;
      && (kind == 10 ==> Date(buf, idx) == Good(Temporal(10, raw), end))
      && (kind == 11 ==> Time(buf, idx) == Good(Temporal(11, raw), end))
      && (kind == 12 ==> DateTime(buf, idx) == Good(Temporal(12, raw), end))
  {
    var end := idx + 1 + |raw|;
    assert buf[idx] == buf[idx..][0] == |raw|;
    assert |buf| - idx >= 1 + |raw|;
    Slice(buf, idx, 1, 1 + |raw|);
    assert ([|raw|] + raw + rest)[1..1 + |raw|] == raw;
  }

  lemma DecimalSkipped(buf: seq<Byte>, idx: nat, digits: seq<Byte>, rest: seq<Byte>)
    requires idx <= |buf| && buf[idx..] == EncodeLength(|digits|) + digits + rest
    requires |digits| < 0x1_0000_0000_0000_0000 && |buf| < 0x1_0000_0000_0000_0000
    ensures var end := idx + |EncodeLength(|digits|)| + |digits|;
      Decimal(buf, idx) == if end >= BUFFER then Bad else Good(NullCell, end)
  {
    hide EncodeLength, ParseLength;
    assert buf[idx..] == EncodeLength(|digits|) + (digits + rest);
    ParseEncodedLength(|digits|, digits + rest);
  }

  /** The client reads a field's bytes as the value they encode, a DECIMAL as NULL, or rejects a bounded field
      that ends too late. */
  lemma CellDecoded(buf: seq<Byte>, idx: nat, cell: Cell, kind: Byte, detail: nat, rest: seq<Byte>)
    requires idx <= |buf| && buf[idx..] == CellBytes(cell, kind) + rest
    requires Holds(cell, kind, detail) && !cell.NullCell?
    requires cell.DecimalText? ==> |buf| < 0x1_0000_0000_0000_0000
    ensures var end := idx + |CellBytes(cell, kind)|;
      && end <= |buf|
      && DecodeCell(buf, idx, kind, detail) == if Bounded(cell) && end >= BUFFER then Bad else Good(AsRead(cell), end)
  {
    hide LengthString, Date, Time, DateTime, FixedInt, FixedRaw, Decimal, Pow256, LittleEndian, EncodeLength, Bit;
    assert |buf| - idx == |CellBytes(cell, kind)| + |rest|;
    match cell {
      case Text(bytes) => TextDecoded(buf, idx, bytes, rest);
      case Temporal(_, raw) => TemporalDecoded(buf, idx, kind, raw, rest);
      case DecimalText(digits) => DecimalSkipped(buf, idx, digits, rest);
      case Floating(raw) => RawDecoded(buf, idx, raw, rest);
      case _ => IntegerDecoded(buf, idx, cell, kind, detail, rest);
    }
  }

  // ----- The row -----

  lemma MarkIsNull(cells: seq<Cell>, types: seq<Byte>, b: nat)
    requires b < |cells| == |types|
    ensures 1 + (b + 2) / 8 < |EncodeRow(cells, types)|
    ensures IsNull(EncodeRow(cells, types), b) <==> cells[b].NullCell?
  {
    hide Bit, Params.NullBits, EncodeRow, Marks;
    var ps := Marks(cells);
    var j, o := (b + 2) / 8, (b + 2) % 8;
    BitmapByte(cells, types, j);
    Params.BitIsNull(ps, j, o);
    assert 8 * j + o == b + 2;
    MarkOf(cells, b);
  }

  lemma BitmapByte(cells: seq<Cell>, types: seq<Byte>, j: nat)
    requires |cells| == |types| && 8 * j < |cells| + 2
    ensures 1 + j < |EncodeRow(cells, types)|
    ensures EncodeRow(cells, types)[1 + j] == Params.NullBits(Marks(cells), j, 0)
  {
    hide Params.NullBits, Values, Marks;
    assert Params.NullBitmap(Marks(cells))[j] == Params.NullBits(Marks(cells), j, 0);
  }

  lemma MarkOf(cells: seq<Cell>, b: nat)
    requires b < |cells|
    ensures Marks(cells)[b + 2].Null? <==> cells[b].NullCell?
  {
  }

  ghost predicate RowHolds(cells: seq<Cell>, types: seq<Byte>, details: seq<nat>)
    requires |cells| == |types| == |details|
  {
    forall b :: 0 <= b < |cells| ==> Holds(cells[b], types[b], details[b])
  }

  predicate NoDecimal(cells: seq<Cell>) { forall b :: 0 <= b < |cells| ==> !cells[b].DecimalText? }

  /** The size of a row is a 64-bit number, which matters for the DECIMAL fields only. */
  predicate Sized(cells: seq<Cell>, types: seq<Byte>)
    requires |cells| == |types|
  {
    NoDecimal(cells) || |EncodeRow(cells, types)| < 0x1_0000_0000_0000_0000
  }

  lemma {:induction false} CellsDecoded(
    buf: seq<Byte>, cells: seq<Cell>, types: seq<Byte>, details: seq<nat>, b: nat, idx: nat)
    requires |cells| == |types| == |details| && b <= |cells| && RowHolds(cells, types, details)
    requires Sized(cells, types)
    requires buf == EncodeRow(cells, types) && 1 + BitmapSize(|types|) <= |buf|
    requires idx <= |buf| && buf[idx..] == Values(cells[b..], types[b..])
    ensures DecodeCells(buf, types, details, b, idx) ==
      if EndBelow(cells[b..], types[b..], idx) then Row(AllAsRead(cells[b..])) else BadRow
    decreases |cells| - b
  {
    hide EncodeRow, IsNull, DecodeCell, CellBytes, Holds, Bounded;
    if b < |cells| {
      MarkIsNull(cells, types, b);
      var rest := Values(cells[b + 1..], types[b + 1..]);
      assert cells[b..][1..] == cells[b + 1..] && types[b..][1..] == types[b + 1..];
      assert buf[idx..] == CellBytes(cells[b], types[b]) + rest;
      var end := idx + |CellBytes(cells[b], types[b])|;
      assert buf[end..] == buf[idx..][end - idx..] == rest;
      assert AllAsRead(cells[b..]) == [AsRead(cells[b])] + AllAsRead(cells[b + 1..]);
      if cells[b].NullCell? {
        NullTakesNothing(types[b]);
      } else {
        CellDecoded(buf, idx, cells[b], types[b], details[b], rest);
      }
      CellsDecoded(buf, cells, types, details, b + 1, end);
    }
  }

  lemma NullTakesNothing(kind: Byte)
    ensures CellBytes(NullCell, kind) == [] && !Bounded(NullCell) && AsRead(NullCell) == NullCell
  {
  }

  /** At least one value byte follows the bitmap, the values start below the client's buffer size, and every
      bounded field ends below it. */
  predicate Accepted(cells: seq<Cell>, types: seq<Byte>)
    requires |cells| == |types|
  {
    var start := 1 + BitmapSize(|types|);
    Values(cells, types) != [] && start < BUFFER && EndBelow(cells, types, start)
  }

  /** Under exactly this condition the client accepts an encoded row, with NULL for every DECIMAL; otherwise it
      rejects the row. */
  lemma RowRead(cells: seq<Cell>, types: seq<Byte>, details: seq<nat>)
    requires |cells| == |types| == |details| && RowHolds(cells, types, details) && Sized(cells, types)
    ensures DecodeRow(EncodeRow(cells, types), types, details) ==
      if Accepted(cells, types) then Row(AllAsRead(cells)) else BadRow
  {
    hide Params.NullBitmap, Values, EndBelow, RowHolds, DecodeCells, Sized;
    var buf, start := EncodeRow(cells, types), 1 + BitmapSize(|types|);
    assert buf[start..] == Values(cells, types);
    assert cells[0..] == cells && types[0..] == types;
    if Values(cells, types) != [] && start < BUFFER {
      CellsDecoded(buf, cells, types, details, 0, start);
    }
  }

  /** A row is read back as the values it encodes if and only if it is accepted and has no DECIMAL value. */
  lemma RowReadBack(cells: seq<Cell>, types: seq<Byte>, details: seq<nat>)
    requires |cells| == |types| == |details| && RowHolds(cells, types, details) && Sized(cells, types)
    ensures DecodeRow(EncodeRow(cells, types), types, details) == Row(cells) <==>
      Accepted(cells, types) && NoDecimal(cells)
  {
    hide DecodeRow, EncodeRow, Accepted, Sized, RowHolds;
    RowRead(cells, types, details);
    ReadAsThemselves(cells);
  }

  lemma ReadAsThemselves(cells: seq<Cell>)
    ensures AllAsRead(cells) == cells <==> NoDecimal(cells)
  {
    var read := AllAsRead(cells);
    assert forall b :: 0 <= b < |cells| ==> (read[b] == cells[b] <==> !cells[b].DecimalText?);
  }

  /** For instance the DECIMAL 1.5 is accepted and read as NULL. */
  lemma DecimalReadAsNull()
    ensures EncodeRow([DecimalText([49, 46, 53])], [0]) == [0, 0, 3, 49, 46, 53]
    ensures DecodeRow([0, 0, 3, 49, 46, 53], [0], [0]) == Row([NullCell])
  {
    var cells, types := [DecimalText([49, 46, 53])], [0];
    PlainBitmap(Marks(cells));
    assert Values(cells, types) == [3, 49, 46, 53] by {
      assert cells[1..] == [];
    }
    assert EncodeRow(cells, types) == [0] + [0] + [3, 49, 46, 53];
    RowRead(cells, types, [0]);
    assert AllAsRead(cells) == [NullCell];
  }

  /** Up to eight columns without NULL have the bitmap byte zero. */
  lemma PlainBitmap(ps: seq<Params.Value>)
    requires 0 < |ps| <= 8 && forall i :: 0 <= i < |ps| ==> !ps[i].Null?
    ensures Params.NullBitmap(ps) == [0]
  {
    NoBits(ps, 0);
  }

  lemma {:induction false} NoBits(ps: seq<Params.Value>, o: nat)
    requires o <= 8 && forall i :: 0 <= i < |ps| ==> !ps[i].Null?
    ensures Params.NullBits(ps, 0, o) == 0
    decreases 8 - o
  {
    if o < 8 { NoBits(ps, o + 1); }
  }

  /** A row of NULLs only is rejected, whatever its columns. */
  lemma NullRowRefused(types: seq<Byte>, details: seq<nat>)
    requires |types| == |details|
    ensures DecodeRow(EncodeRow(seq(|types|, _ => NullCell), types), types, details) == BadRow
  {
    var cells := seq(|types|, _ => NullCell);
    NullsTakeNothing(cells, types);
    assert RowHolds(cells, types, details) && NoDecimal(cells);
    RowRead(cells, types, details);
  }

  lemma {:induction false} NullsTakeNothing(cells: seq<Cell>, types: seq<Byte>)
    requires |cells| == |types| && forall b :: 0 <= b < |cells| ==> cells[b] == NullCell
    ensures Values(cells, types) == []
  {
    if cells != [] { NullsTakeNothing(cells[1..], types[1..]); }
  }

  /** For instance one NULL string column, whose row is the header and the bitmap alone. */
  lemma OneNullRefused()
    ensures EncodeRow([NullCell], [254]) == [0, 4]
    ensures DecodeRow([0, 4], [254], [0]) == BadRow
  {
    var ps := Marks([NullCell]);
    var bits := Params.NullBits(ps, 0, 0);
    SmallPowers();
    assert bits == Params.NullBits(ps, 0, 1) == Params.NullBits(ps, 0, 2) == 4 + Params.NullBits(ps, 0, 3);
    assert Params.NullBits(ps, 0, 3) == Params.NullBits(ps, 0, 4) == Params.NullBits(ps, 0, 5);
    assert Params.NullBits(ps, 0, 5) == Params.NullBits(ps, 0, 6);
    assert Params.NullBits(ps, 0, 6) == Params.NullBits(ps, 0, 7) == Params.NullBits(ps, 0, 8) == 0;
    assert Params.NullBitmap(ps) == [4];
  }

  /** A DECIMAL field that runs past the end of the row is accepted if and only if the 64-bit index wraps to a
      position inside the row and below the buffer size. */
  lemma DecimalWrapsExactly(buf: seq<Byte>, idx: nat, n: nat, read: nat)
    requires idx <= |buf| < 0x1_0000_0000_0000_0000 && ParseLength(buf[idx..]) == Length(n, read)
    ensures var end := idx + read + n;
      var wrapped := end % 0x1_0000_0000_0000_0000;
      (Decimal(buf, idx).Good? && end > |buf|) <==>
        (end >= 0x1_0000_0000_0000_0000 && wrapped <= |buf| && wrapped < BUFFER)
  {
  }

  /** For instance a length of 2^64 - 1 moves the index to one byte before the end of its own prefix. */
  lemma DecimalLengthWraps(buf: seq<Byte>, idx: nat)
    requires idx + 9 <= |buf| && idx + 8 < BUFFER
    requires buf[idx..idx + 9] == [0xFE] + LittleEndian(0xFFFF_FFFF_FFFF_FFFF, 8)
    ensures Decimal(buf, idx) == Good(NullCell, idx + 8)
  {
    hide LittleEndian, FromLittleEndian, Pow256;
    var n := 0xFFFF_FFFF_FFFF_FFFF;
    var data := buf[idx..];
    assert EncodeLength(n) == buf[idx..idx + 9];
    assert data == EncodeLength(n) + buf[idx + 9..];
    ParseEncodedLength(n, buf[idx + 9..]);
  }

  // ----- The parser -----

  /** The bytes are a server's encoding of the values. */
  ghost predicate Encodes(cells: seq<Cell>, types: seq<Byte>, details: seq<nat>, buf: seq<Byte>)
    requires |cells| == |types| == |details|
  {
    RowHolds(cells, types, details) && Sized(cells, types) && buf == EncodeRow(cells, types)
  }

  lemma EncodedRead(cells: seq<Cell>, types: seq<Byte>, details: seq<nat>, buf: seq<Byte>)
    requires |cells| == |types| == |details| && buf != [] && Encodes(cells, types, details, buf)
    ensures DecodeRow(buf, types, details) == if Accepted(cells, types) then Row(AllAsRead(cells)) else BadRow
  {
    hide RowHolds, Sized, DecodeRow, EncodeRow, Accepted, AllAsRead;
    RowRead(cells, types, details);
  }

  /** `parse_row_pkt`: the column loop. A row that encodes values is read as those
      values, DECIMALs as NULL, or rejected. */
  method ParseRowPkt(buf: seq<Byte>, types: seq<Byte>, details: seq<nat>) returns (r: RowResult)
    requires buf != [] && |types| == |details|
    ensures r == DecodeRow(buf, types, details)
    ensures forall cells :: |cells| == |types| && Encodes(cells, types, details, buf) ==>
      r == if Accepted(cells, types) then Row(AllAsRead(cells)) else BadRow
  {
    hide DecodeCell, Bit, Extend, Prepend, Encodes, Accepted, AllAsRead;
    forall cells | |cells| == |types| && Encodes(cells, types, details, buf)
      ensures DecodeRow(buf, types, details) == if Accepted(cells, types) then Row(AllAsRead(cells)) else BadRow
    {
      EncodedRead(cells, types, details, buf);
    }
    if buf[0] != 0 { return BadRow; }
    var idx: nat := 1 + BitmapSize(|types|);
    if idx >= |buf| || idx >= BUFFER { return BadRow; }
    var out: seq<Cell> := [];
    ghost var start: nat := idx;
    ExtendFresh(DecodeCells(buf, types, details, 0, start));
    for b := 0 to |types|
      invariant idx <= |buf| && start == 1 + BitmapSize(|types|) < |buf|
      invariant Extend(out, DecodeCells(buf, types, details, b, idx)) == DecodeCells(buf, types, details, 0, start)
    {
      var bufIdx, bit := BitPosition(b);
      ghost var before, idxBefore := out, idx;
      if Bit(buf[1 + bufIdx], bit) {
        out := out + [NullCell];
        ExtendStep(before, NullCell, DecodeCells(buf, types, details, b + 1, idx));
      } else {
        match DecodeCell(buf, idx, types[b], details[b]) {
          case Bad => ExtendFailure(out); return BadRow;
          case CellOverread => ExtendFailure(out); return RowOverread;
          case Good(cell, next) =>
            out := out + [cell];
            idx := next;
            ExtendStep(before, cell, DecodeCells(buf, types, details, b + 1, idx));
        }
      }
    }
    ExtendNothing(out);
    return Row(out);
  }

  /** The subtraction loop that finds a column's bit in the NULL bitmap. */
  method BitPosition(b: nat) returns (bufIdx: nat, bit: nat)
    ensures bufIdx == (b + 2) / 8 && bit == (b + 2) % 8
  {
    var adjusted: int := b;
    bufIdx := 0;
    while adjusted + 2 >= 8
      invariant adjusted + 2 >= 0 && 8 * bufIdx + adjusted == b
    {
      bufIdx := bufIdx + 1;
      adjusted := adjusted - 8;
    }
    bit := adjusted + 2;
  }

  lemma ExtendNothing(out: seq<Cell>)
    ensures Extend(out, Row([])) == Row(out)
  {
    assert out + [] == out;
  }

  lemma ExtendFailure(out: seq<Cell>)
    ensures Extend(out, BadRow) == BadRow && Extend(out, RowOverread) == RowOverread
  {
  }

  lemma ExtendFresh(r: RowResult)
    ensures Extend([], r) == r
  {
  }

  ghost function Extend(out: seq<Cell>, r: RowResult): RowResult {
    if r.Row? then Row(out + r.cells) else r
  }

  lemma ExtendStep(out: seq<Cell>, c: Cell, r: RowResult)
    ensures Extend(out + [c], r) == Extend(out, Prepend(c, r))
  {
    if r.Row? { assert out + [c] + r.cells == out + ([c] + r.cells); }
  }
}
