/** Decoding of result-set packets: column count, column definitions and rows. Every function here
    depends on the bytes of its own packet only. */
module Rows {
  import opened Bytes

  /** The value of a field. Dates and times keep the bytes they were built from. A DECIMAL is sent as text;
      the code skips it and never produces one. */
  datatype Cell =
    | NullCell
    | Text(bytes: seq<Byte>)
    | Signed(i: int)
    | Unsigned(n: nat)
    | Floating(raw: seq<Byte>)
    | Temporal(kind: Byte, raw: seq<Byte>)
    | DecimalText(digits: seq<Byte>)

  /** The code checks some bounds only after reading, and some never. A read past the packet that a
      later check is certain to reject is `Bad`; one that could reach the result is `Overread`. */
  datatype CellResult = Good(cell: Cell, next: nat) | Bad | CellOverread

  const BUFFER := 4096

  function ToSigned(n: nat, k: nat): int {
    if 2 * n >= Pow256(k) then n - Pow256(k) else n
  }

  /** A k-byte integer, unsigned when the column's flag bit says so. */
  function FixedInt(buf: seq<Byte>, idx: nat, k: nat, detail: nat): (r: CellResult) {
    if idx + k > |buf| || idx + k >= BUFFER then Bad
    else
      var n := FromLittleEndian(buf[idx..idx + k]);
      Good(if Bit(detail, 5) then Unsigned(n) else Signed(ToSigned(n, k)), idx + k)
  }

  function FixedRaw(buf: seq<Byte>, idx: nat, k: nat): CellResult {
    if idx + k > |buf| || idx + k >= BUFFER then Bad else Good(Floating(buf[idx..idx + k]), idx + k)
  }

  function LengthString(buf: seq<Byte>, idx: nat): CellResult
    requires idx <= |buf|
  {
    match ParseLength(buf[idx..])
    case Overread => CellOverread
    case Length(n, read) =>
      var start := idx + read;
      if start + n > |buf| then CellOverread else Good(Text(buf[start..start + n]), start + n)
  }

  function Decimal(buf: seq<Byte>, idx: nat): CellResult
    requires idx <= |buf|
  {
    match ParseLength(buf[idx..])
    // A prefix of eight unread bytes can be anything, and even wrap the index.
    case Overread => if idx == |buf| || buf[idx] == 0xFE then CellOverread else Bad
    case Length(n, read) =>
      // The 64-bit index wraps before the bounds are compared.
      var end := (idx + read + n) % 0x1_0000_0000_0000_0000;
      if end > |buf| || end >= BUFFER then Bad else Good(NullCell, end)
  }

  function Date(buf: seq<Byte>, idx: nat): CellResult
    requires idx <= |buf|
  {
    if idx == |buf| then CellOverread
    else if buf[idx] == 0 then Good(Temporal(10, []), idx + 1)
    else if buf[idx] != 4 || idx + 5 > |buf| then Bad
    else Good(Temporal(10, buf[idx + 1..idx + 5]), idx + 5)
  }

  function Time(buf: seq<Byte>, idx: nat): CellResult
    requires idx <= |buf|
  {
    if idx == |buf| then CellOverread
    else if buf[idx] == 0 then Good(Temporal(11, []), idx + 1)
    else
      var end := if buf[idx] > 8 then idx + 13 else idx + 9;
      if end > |buf| then Bad else Good(Temporal(11, buf[idx + 1..end]), end)
  }

  function DateTime(buf: seq<Byte>, idx: nat): CellResult
    requires idx <= |buf|
  {
    if idx == |buf| then CellOverread
    else if buf[idx] == 0 then Good(Temporal(12, []), idx + 1)
    else if buf[idx] < 4 then Bad
    else
      var end := if buf[idx] <= 4 then idx + 5 else if buf[idx] <= 7 then idx + 8 else idx + 12;
      if end > |buf| then Bad else Good(Temporal(12, buf[idx + 1..end]), end)
  }

  function DecodeCell(buf: seq<Byte>, idx: nat, kind: Byte, detail: nat): (r: CellResult)
    requires idx <= |buf|
    ensures r.Good? ==> r.next <= |buf|
  {
    match kind
    case 0 => Decimal(buf, idx)
    case 1 => FixedInt(buf, idx, 1, detail)
    case 2 => FixedInt(buf, idx, 2, detail)
    case 3 => FixedInt(buf, idx, 4, detail)
    case 4 => FixedRaw(buf, idx, 4)
    case 5 => FixedRaw(buf, idx, 8)
    case 8 => FixedInt(buf, idx, 8, detail)
    case 9 => FixedInt(buf, idx, 4, detail)
    case 10 => Date(buf, idx)
    case 11 => Time(buf, idx)
    case 12 => DateTime(buf, idx)
    case 252 => LengthString(buf, idx)
    case 253 => LengthString(buf, idx)
    case 254 => LengthString(buf, idx)
    case _ => Bad
  }

  datatype RowResult = Row(cells: seq<Cell>) | BadRow | RowOverread

  /** Column b of a row is NULL when bit b + 2 of the bitmap after the packet header is set. */
  predicate IsNull(buf: seq<Byte>, b: nat)
    requires 1 + (b + 2) / 8 < |buf|
  {
    Bit(buf[1 + (b + 2) / 8], (b + 2) % 8)
  }

  function BitmapSize(columns: nat): nat { (7 + 2 + columns) / 8 }

  /** The cells from column b on. */
  function DecodeCells(buf: seq<Byte>, types: seq<Byte>, details: seq<nat>, b: nat, idx: nat): (r: RowResult)
    requires |types| == |details| && b <= |types| && idx <= |buf| && 1 + BitmapSize(|types|) <= |buf|
    ensures r.Row? ==> |r.cells| == |types| - b
    decreases |types| - b
  {
    if b == |types| then Row([])
    else if IsNull(buf, b) then Prepend(NullCell, DecodeCells(buf, types, details, b + 1, idx))
    else
      match DecodeCell(buf, idx, types[b], details[b])
      case Bad => BadRow
      case CellOverread => RowOverread
      case Good(cell, next) => Prepend(cell, DecodeCells(buf, types, details, b + 1, next))
  }

  function Prepend(c: Cell, r: RowResult): RowResult {
    if r.Row? then Row([c] + r.cells) else r
  }

  /** What a row packet means: a success has exactly one cell per column. */
  function DecodeRow(buf: seq<Byte>, types: seq<Byte>, details: seq<nat>): (r: RowResult)
    requires buf != [] && |types| == |details|
    ensures r.Row? ==> |r.cells| == |types|
  {
    var start := 1 + BitmapSize(|types|);
    if buf[0] != 0 || start >= |buf| || start >= BUFFER then BadRow
    else DecodeCells(buf, types, details, 0, start)
  }

  // ----- The other packets -----

  /** `parse_column_count_pkt`. */
  function ColumnCount(buf: seq<Byte>): (r: LengthResult)
    requires buf != []
  {
    match ParseLength(buf)
    case Overread => Overread
    case Length(n, read) => if read != |buf| then Overread else Length(n, read)
  }

  /** `handle_ok_pkt`: true when the code accepts the packet. */
  predicate OkPacket(buf: seq<Byte>)
    requires buf != []
  {
    (buf[0] == 0 || buf[0] == 0xFE) && 1 < |buf| &&
    var rows := ParseLength(buf[1..]);
    rows.Length? && 1 + rows.read < |buf| &&
    var last := ParseLength(buf[1 + rows.read..]);
    last.Length? &&
    var at := 1 + rows.read + last.read;
    at < |buf| && at + 2 < |buf| && at + 4 <= |buf| &&
    (at + 4 == |buf| ||
     var info := ParseLength(buf[at + 4..]);
     info.Length? && at + 4 + info.read + info.value <= |buf|)
  }

  datatype ColumnResult = Column(kind: Byte, detail: nat) | BadColumn

  /** Skips one length-encoded string; the code requires bytes to remain after it. */
  function SkipString(buf: seq<Byte>, idx: nat): (next: nat)
    requires idx < |buf|
    ensures next == 0 || idx <= next < |buf|
  {
    match ParseLength(buf[idx..])
    case Overread => 0
    case Length(n, read) =>
      var end := idx + read + n;
      if end >= |buf| || end >= BUFFER then 0 else end
  }

  /** `parse_col_type_pkt`: catalog "def", five strings, then the fixed part. */
  function ColumnDef(buf: seq<Byte>): ColumnResult
    requires buf != []
  {
    match ParseLength(buf)
    case Overread => BadColumn
    case Length(n, read) =>
      if n != 3 || read + 3 >= |buf| || buf[read..read + 3] != [100, 101, 102] then BadColumn else
      var schema := SkipString(buf, read + 3);
      if schema == 0 then BadColumn else
      var alias := SkipString(buf, schema);
      if alias == 0 then BadColumn else
      var table := SkipString(buf, alias);
      if table == 0 then BadColumn else
      var columnAlias := SkipString(buf, table);
      if columnAlias == 0 then BadColumn else
      var at := SkipString(buf, columnAlias);
      if at == 0 || buf[at] != 0xC then BadColumn
      else if at + 13 > |buf| || at + 13 >= BUFFER then BadColumn
      else Column(buf[at + 7], FromLittleEndian(buf[at + 8..at + 10]))
  }
}
