/** What a response means: a server's encoding of a result set, and exactly what the client makes of it. */
module ResponseValues {
  import opened Common
  import opened Bytes
  import opened Rows
  import Params
  import opened RowValues
  import opened Framing

  // ----- Column definitions -----

  datatype ColumnSpec = ColumnSpec(
    schema: seq<Byte>, tableAlias: seq<Byte>, table: seq<Byte>, alias: seq<Byte>, name: seq<Byte>,
    charset: nat, maxSize: nat, kind: Byte, flags: nat, decimals: Byte)

  ghost predicate ColumnFits(c: ColumnSpec) {
    && |c.schema| < 0x100_0000 && |c.tableAlias| < 0x100_0000 && |c.table| < 0x100_0000
    && |c.alias| < 0x100_0000 && |c.name| < 0x100_0000
    && c.charset < 0x1_0000 && c.maxSize < 0x1_0000_0000 && c.flags < 0x1_0000
  }

  function Prefixed(text: seq<Byte>): seq<Byte> { EncodeLength(|text|) + text }

  /** What follows the names: a constant, character set, size, type, flags, decimals and two spare bytes. */
  function FixedPart(c: ColumnSpec): (bytes: seq<Byte>)
    ensures |bytes| == 13
  {
    [0xC] + LittleEndian(c.charset, 2) + LittleEndian(c.maxSize, 4) + [c.kind]
      + LittleEndian(c.flags, 2) + [c.decimals] + [0, 0]
  }

  /** "def", five names, and the fixed part. */
  function EncodeColumn(c: ColumnSpec): (bytes: seq<Byte>)
    ensures |bytes| >= 17 && bytes[0] == 3
  {
    [3, 100, 101, 102] + (Prefixed(c.schema) + (Prefixed(c.tableAlias) + (Prefixed(c.table)
      + (Prefixed(c.alias) + (Prefixed(c.name) + FixedPart(c))))))
  }

  /** One name is skipped, or the definition is too long. */
  lemma NameSkipped(buf: seq<Byte>, idx: nat, text: seq<Byte>, rest: seq<Byte>)
    requires idx < |buf| && buf[idx..] == Prefixed(text) + rest && rest != [] && |text| < 0x100_0000
    ensures var end := idx + |Prefixed(text)|;
      && idx < end < |buf| && buf[end..] == rest
      && SkipString(buf, idx) == if end >= BUFFER then 0 else end
  {
    hide EncodeLength, ParseLength;
    ParseEncodedLength(|text|, text + rest);
    assert buf[idx..] == EncodeLength(|text|) + (text + rest);
    var end := idx + |Prefixed(text)|;
    assert |buf| - idx == |Prefixed(text)| + |rest|;
    assert buf[end..] == buf[idx..][|Prefixed(text)|..] == rest;
  }

  lemma FixedRead(buf: seq<Byte>, at: nat, c: ColumnSpec)
    requires at + 13 == |buf| && buf[at..] == FixedPart(c) && c.flags < 0x1_0000
    ensures buf[at] == 0xC && buf[at + 7] == c.kind && FromLittleEndian(buf[at + 8..at + 10]) == c.flags
  {
    hide LittleEndian, FromLittleEndian;
    var part := FixedPart(c);
    assert buf[at] == buf[at..][0];
    assert buf[at + 7] == buf[at..][7] == part[7] == c.kind;
    Slice(buf, at, 8, 10);
    assert part[8..10] == LittleEndian(c.flags, 2);
    PowerValues();
    LittleEndianInverse(c.flags, 2);
  }

  function Reached(end: nat): nat { if end >= BUFFER then 0 else end }

  lemma NamesSkipped(c: ColumnSpec) returns (e1: nat, e2: nat, e3: nat, e4: nat, e5: nat)
    requires ColumnFits(c)
    ensures var buf := EncodeColumn(c);
      && 4 < e1 < e2 < e3 < e4 < e5 && e5 + 13 == |buf|
      && SkipString(buf, 4) == Reached(e1) && SkipString(buf, e1) == Reached(e2) && SkipString(buf, e2) == Reached(e3)
      && SkipString(buf, e3) == Reached(e4) && SkipString(buf, e4) == Reached(e5)
      && buf[1..4] == [100, 101, 102] && buf[e5..] == FixedPart(c)
  {
    hide SkipString, FixedPart, Prefixed;
    var buf := EncodeColumn(c);
    var r5 := FixedPart(c);
    var r4 := Prefixed(c.name) + r5;
    var r3 := Prefixed(c.alias) + r4;
    var r2 := Prefixed(c.table) + r3;
    var r1 := Prefixed(c.tableAlias) + r2;
    assert buf[4..] == Prefixed(c.schema) + r1;
    NameSkipped(buf, 4, c.schema, r1);
    e1 := 4 + |Prefixed(c.schema)|;
    NameSkipped(buf, e1, c.tableAlias, r2);
    e2 := e1 + |Prefixed(c.tableAlias)|;
    NameSkipped(buf, e2, c.table, r3);
    e3 := e2 + |Prefixed(c.table)|;
    NameSkipped(buf, e3, c.alias, r4);
    e4 := e3 + |Prefixed(c.alias)|;
    NameSkipped(buf, e4, c.name, r5);
    e5 := e4 + |Prefixed(c.name)|;
    assert |buf[e5..]| == 13;
  }

  /** The client takes type and flags from a definition of less than its buffer size, and rejects others. */
  lemma ColumnRead(c: ColumnSpec)
    requires ColumnFits(c)
    ensures ColumnDef(EncodeColumn(c)) ==
      if |EncodeColumn(c)| < BUFFER then Column(c.kind, c.flags) else BadColumn
  {
    hide SkipString, FixedPart, EncodeColumn, FromLittleEndian;
    var buf := EncodeColumn(c);
    var e1, e2, e3, e4, e5 := NamesSkipped(c);
    FixedRead(buf, e5, c);
  }

  // ----- The packets that end a response -----

  /** An OK packet, or one that ends a result set; the message is optional. */
  datatype Okay = Okay(affected: nat, lastId: nat, status: nat, warnings: nat, message: Option<seq<Byte>>)

  ghost predicate OkayFits(o: Okay) {
    && o.affected < 0x1_0000_0000_0000_0000 && o.lastId < 0x1_0000_0000_0000_0000
    && (o.message.Some? ==> |o.message.value| < 0x100_0000)
  }

  function EncodeOkay(head: Byte, o: Okay): (bytes: seq<Byte>)
    ensures |bytes| >= 7 && bytes[0] == head
  {
    [head] + (EncodeLength(o.affected) + (EncodeLength(o.lastId)
      + (LittleEndian(o.status, 2) + LittleEndian(o.warnings, 2) + MessageBytes(o.message))))
  }

  function MessageBytes(message: Option<seq<Byte>>): seq<Byte> {
    match message
    case None => []
    case Some(text) => Prefixed(text)
  }

  lemma OkayParts(head: Byte, o: Okay) returns (a: nat, at: nat)
    requires OkayFits(o)
    ensures var buf := EncodeOkay(head, o);
      && 1 < a < at && at + 4 + |MessageBytes(o.message)| == |buf|
      && ParseLength(buf[1..]) == Length(o.affected, a - 1) && ParseLength(buf[a..]) == Length(o.lastId, at - a)
      && buf[at + 4..] == MessageBytes(o.message)
  {
    hide EncodeLength, ParseLength, LittleEndian, MessageBytes;
    var buf, end := EncodeOkay(head, o), MessageBytes(o.message);
    var fixed := LittleEndian(o.status, 2) + LittleEndian(o.warnings, 2);
    var r2 := fixed + end;
    var r1 := EncodeLength(o.lastId) + r2;
    assert buf[1..] == EncodeLength(o.affected) + r1;
    ParseEncodedLength(o.affected, r1);
    a := 1 + |EncodeLength(o.affected)|;
    assert buf[a..] == buf[1..][a - 1..] == r1;
    ParseEncodedLength(o.lastId, r2);
    at := a + |EncodeLength(o.lastId)|;
    assert buf[at..] == r1[at - a..] == r2;
    assert buf[at + 4..] == r2[4..] == end;
  }

  lemma MessageRead(message: Option<seq<Byte>>)
    requires message.Some? ==> |message.value| < 0x100_0000
    ensures message.None? ==> MessageBytes(message) == []
    ensures message.Some? ==>
      var r := ParseLength(MessageBytes(message));
      MessageBytes(message) != [] && r.Length? && r.read + r.value == |MessageBytes(message)|
  {
    hide EncodeLength, ParseLength;
    if message.Some? {
      ParseEncodedLength(|message.value|, message.value);
    }
  }

  lemma OkayAccepted(head: Byte, o: Okay)
    requires (head == 0 || head == 0xFE) && OkayFits(o)
    ensures OkPacket(EncodeOkay(head, o))
  {
    hide EncodeOkay, ParseLength, MessageBytes;
    var a, at := OkayParts(head, o);
    MessageRead(o.message);
  }

  function EncodeError(code: nat, message: seq<Byte>): (bytes: seq<Byte>)
    ensures |bytes| >= 3 && bytes[0] == 0xFF
  {
    [0xFF] + LittleEndian(code, 2) + message
  }

  /** How a response ends: well, or with an error of the server. */
  datatype Ending = Good(o: Okay) | Failing(code: nat, message: seq<Byte>)

  ghost predicate EndingFits(e: Ending) {
    match e
    case Good(o) => OkayFits(o)
    case Failing(code, message) => code < 0x1_0000
  }

  function EncodeEnding(head: Byte, e: Ending): (bytes: seq<Byte>)
    ensures bytes != []
  {
    match e
    case Good(o) => EncodeOkay(head, o)
    case Failing(code, message) => EncodeError(code, message)
  }

  /** A deadlock (1213) or lock timeout (1205) is tried again; other errors fail. */
  function EndingOutcome(e: Ending, rows: seq<seq<Cell>>): Outcome {
    match e
    case Good(_) => Result(rows)
    case Failing(code, _) => if code == 1213 || code == 1205 then Retry else Failure
  }

  lemma EndingRead(st: State, head: Byte, e: Ending)
    requires |st.types| == |st.details| && EndingFits(e)
    requires head == 0xFE || (head == 0 && st.phase == ColumnCounting)
    ensures React(st, EncodeEnding(head, e)) == Done(EndingOutcome(e, st.rows))
  {
    hide OkPacket, LittleEndian, FromLittleEndian, OkayFits, EncodeOkay;
    match e {
      case Good(o) => OkayAccepted(head, o);
      case Failing(code, message) =>
        assert EncodeError(code, message)[1..3] == LittleEndian(code, 2);
        PowerValues();
        LittleEndianInverse(code, 2);
    }
  }

  // ----- Packets -----

  /** A payload with its header; the client does not insist on the sequence number. */
  function Packed(payload: seq<Byte>, seqId: Byte): seq<Byte> { LittleEndian(|payload|, 3) + [seqId] + payload }

  function Onward(r: Reaction, rest: seq<Byte>): Outcome
    requires r.Continue? ==> |r.state.types| == |r.state.details|
  {
    if r.Done? then r.outcome else ParseResponse(r.state, rest)
  }

  lemma PacketRead(st: State, payload: seq<Byte>, seqId: Byte, rest: seq<Byte>)
    requires |st.types| == |st.details| && 0 < |payload| < 0x100_0000
    ensures ParseResponse(st, Packed(payload, seqId) + rest) == Onward(React(st, payload), rest)
  {
    hide React, LittleEndian, FromLittleEndian;
    var bytes := Packed(payload, seqId) + rest;
    assert bytes[..3] == LittleEndian(|payload|, 3);
    PowerValues();
    LittleEndianInverse(|payload|, 3);
    assert bytes[4..4 + |payload|] == payload && bytes[4 + |payload|..] == rest;
  }

  // ----- Result sets -----

  function Following(seqId: Byte): Byte { (seqId + 1) % 256 }

  function Kinds(columns: seq<ColumnSpec>): (r: seq<Byte>)
    ensures |r| == |columns|
  {
    seq(|columns|, i requires 0 <= i < |columns| => columns[i].kind)
  }

  function Flags(columns: seq<ColumnSpec>): (r: seq<nat>)
    ensures |r| == |columns|
  {
    seq(|columns|, i requires 0 <= i < |columns| => columns[i].flags)
  }

  function Definitions(columns: seq<ColumnSpec>, seqId: Byte): seq<Byte> {
    if columns == [] then [] else Packed(EncodeColumn(columns[0]), seqId) + Definitions(columns[1..], Following(seqId))
  }

  predicate Rectangular(rows: seq<seq<Cell>>, types: seq<Byte>) {
    forall i :: 0 <= i < |rows| ==> |rows[i]| == |types|
  }

  function RowPackets(rows: seq<seq<Cell>>, types: seq<Byte>, seqId: Byte): seq<Byte>
    requires Rectangular(rows, types)
  {
    if rows == [] then []
    else Packed(EncodeRow(rows[0], types), seqId) + RowPackets(rows[1..], types, Following(seqId))
  }

  /** A result set: the column count, the definitions, the rows, and the ending. */
  datatype ResultSet = ResultSet(columns: seq<ColumnSpec>, rows: seq<seq<Cell>>, ending: Ending)

  ghost predicate SetFits(r: ResultSet) {
    && 1 <= |r.columns| < 0x100_0000 && Rectangular(r.rows, Kinds(r.columns))
    && ColumnsFit(r.columns) && RowsFit(r.rows, Kinds(r.columns), Flags(r.columns))
    && EndingFits(r.ending) && |EncodeEnding(0xFE, r.ending)| < 0x100_0000
  }

  ghost predicate ColumnsFit(columns: seq<ColumnSpec>) {
    forall i :: 0 <= i < |columns| ==> ColumnFits(columns[i]) && |EncodeColumn(columns[i])| < 0x100_0000
  }

  ghost predicate RowsFit(rows: seq<seq<Cell>>, types: seq<Byte>, details: seq<nat>)
    requires Rectangular(rows, types) && |types| == |details|
  {
    forall i :: 0 <= i < |rows| ==> RowHolds(rows[i], types, details) && |EncodeRow(rows[i], types)| < 0x100_0000
  }

  function EncodeSet(r: ResultSet, seqId: Byte): seq<Byte>
    requires Rectangular(r.rows, Kinds(r.columns))
  {
    Packed(EncodeLength(|r.columns|), seqId)
      + (Definitions(r.columns, Following(seqId))
         + (RowPackets(r.rows, Kinds(r.columns), seqId) + Packed(EncodeEnding(0xFE, r.ending), seqId)))
  }

  predicate AllShort(columns: seq<ColumnSpec>) {
    forall i :: 0 <= i < |columns| ==> |EncodeColumn(columns[i])| < BUFFER
  }

  predicate AllAccepted(rows: seq<seq<Cell>>, types: seq<Byte>)
    requires Rectangular(rows, types)
  {
    forall i :: 0 <= i < |rows| ==> Accepted(rows[i], types)
  }

  function RowsAsRead(rows: seq<seq<Cell>>): (r: seq<seq<Cell>>)
    ensures |r| == |rows|
  {
    seq(|rows|, i requires 0 <= i < |rows| => AllAsRead(rows[i]))
  }

  // ----- What the client makes of a result set -----

  lemma CountRead(n: nat)
    requires 1 <= n < 0x100_0000
    ensures 0 < |EncodeLength(n)| < 0x100_0000
    ensures React(INITIAL, EncodeLength(n)) == Continue(State(ColumnDefs, n, [], [], []))
  {
    hide LittleEndian, ParseLength;
    ParseEncodedLength(n, []);
    assert EncodeLength(n) + [] == EncodeLength(n);
  }

  /** What the client knows after the first k definitions. */
  function Known(columns: seq<ColumnSpec>, k: nat): State
    requires k <= |columns|
  {
    State(if k == |columns| then RowData else ColumnDefs, |columns|, Kinds(columns[..k]), Flags(columns[..k]), [])
  }

  lemma DefinitionRead(columns: seq<ColumnSpec>, k: nat)
    requires k < |columns| && ColumnsFit(columns)
    ensures React(Known(columns, k), EncodeColumn(columns[k])) ==
      if |EncodeColumn(columns[k])| < BUFFER then Continue(Known(columns, k + 1)) else Done(Failure)
  {
    hide EncodeColumn, ColumnDef;
    ColumnRead(columns[k]);
    assert Kinds(columns[..k + 1]) == Kinds(columns[..k]) + [columns[k].kind];
    assert Flags(columns[..k + 1]) == Flags(columns[..k]) + [columns[k].flags];
  }

  lemma {:induction false} DefinitionsRead(columns: seq<ColumnSpec>, k: nat, seqId: Byte, rest: seq<Byte>)
    requires k <= |columns| && ColumnsFit(columns)
    ensures ParseResponse(Known(columns, k), Definitions(columns[k..], seqId) + rest) ==
      if AllShort(columns[k..]) then ParseResponse(Known(columns, |columns|), rest) else Failure
    decreases |columns| - k
  {
    hide EncodeColumn, React, ParseResponse, Packed, Known, ColumnFits;
    KnownMatches(columns, k);
    if k == |columns| {
      assert Definitions(columns[k..], seqId) + rest == rest;
    } else {
      KnownMatches(columns, k + 1);
      var more := Definitions(columns[k + 1..], Following(seqId)) + rest;
      assert columns[k..][1..] == columns[k + 1..];
      assert Definitions(columns[k..], seqId) + rest == Packed(EncodeColumn(columns[k]), seqId) + more;
      PacketRead(Known(columns, k), EncodeColumn(columns[k]), seqId, more);
      DefinitionRead(columns, k);
      DefinitionsRead(columns, k + 1, Following(seqId), rest);
      ShortFirst(columns, k);
    }
  }

  lemma KnownMatches(columns: seq<ColumnSpec>, k: nat)
    requires k <= |columns|
    ensures |Known(columns, k).types| == |Known(columns, k).details|
  {
  }

  lemma ShortFirst(columns: seq<ColumnSpec>, k: nat)
    requires k < |columns|
    ensures AllShort(columns[k..]) <==> |EncodeColumn(columns[k])| < BUFFER && AllShort(columns[k + 1..])
  {
    hide EncodeColumn;
    var a, b := columns[k..], columns[k + 1..];
    assert forall i :: 0 <= i < |b| ==> b[i] == a[i + 1];
    assert forall i :: 0 < i < |a| ==> a[i] == b[i - 1];
  }

  lemma OneRowRead(st: State, row: seq<Cell>)
    requires st.phase == RowData && |row| == |st.types| == |st.details| && RowHolds(row, st.types, st.details)
    requires |EncodeRow(row, st.types)| < 0x100_0000
    ensures React(st, EncodeRow(row, st.types)) ==
      if Accepted(row, st.types) then Continue(st.(rows := st.rows + [AllAsRead(row)])) else Done(Failure)
  {
    hide DecodeRow, EncodeRow, Accepted, RowHolds;
    RowStartsWithZero(row, st.types);
    RowRead(row, st.types, st.details);
  }

  lemma RowStartsWithZero(row: seq<Cell>, types: seq<Byte>)
    requires |row| == |types|
    ensures EncodeRow(row, types)[0] == 0
  {
    hide Params.NullBitmap, Values;
  }

  lemma {:induction false} RowsRead(st: State, rows: seq<seq<Cell>>, seqId: Byte, rest: seq<Byte>)
    requires st.phase == RowData && |st.types| == |st.details|
    requires Rectangular(rows, st.types) && RowsFit(rows, st.types, st.details)
    ensures ParseResponse(st, RowPackets(rows, st.types, seqId) + rest) ==
      if AllAccepted(rows, st.types) then ParseResponse(st.(rows := st.rows + RowsAsRead(rows)), rest) else Failure
    decreases |rows|
  {
    hide EncodeRow, React, ParseResponse, Packed, Accepted, RowHolds;
    if rows == [] {
      assert RowPackets(rows, st.types, seqId) + rest == rest;
      assert st.rows + RowsAsRead(rows) == st.rows;
    } else {
      var more := RowPackets(rows[1..], st.types, Following(seqId)) + rest;
      assert RowPackets(rows, st.types, seqId) + rest == Packed(EncodeRow(rows[0], st.types), seqId) + more;
      PacketRead(st, EncodeRow(rows[0], st.types), seqId, more);
      OneRowRead(st, rows[0]);
      var next := st.(rows := st.rows + [AllAsRead(rows[0])]);
      RowsRead(next, rows[1..], Following(seqId), rest);
      assert RowsAsRead(rows) == [AllAsRead(rows[0])] + RowsAsRead(rows[1..]);
      assert next.rows + RowsAsRead(rows[1..]) == st.rows + RowsAsRead(rows);
      AcceptedFirst(rows, st.types);
    }
  }

  lemma AcceptedFirst(rows: seq<seq<Cell>>, types: seq<Byte>)
    requires rows != [] && Rectangular(rows, types)
    ensures Rectangular(rows[1..], types)
    ensures AllAccepted(rows, types) <==> Accepted(rows[0], types) && AllAccepted(rows[1..], types)
  {
    hide Accepted;
    assert forall i :: 0 < i < |rows| ==> rows[i] == rows[1..][i - 1];
  }

  /** Main result: a result set gives exactly its rows, in order and as read, and then its ending, if and only
      if every definition is shorter than the buffer and every row is accepted; otherwise it fails. */
  lemma SetRead(r: ResultSet, seqId: Byte, rest: seq<Byte>)
    requires SetFits(r)
    ensures ParseResponse(INITIAL, EncodeSet(r, seqId) + rest) ==
      if AllShort(r.columns) && AllAccepted(r.rows, Kinds(r.columns)) then EndingOutcome(r.ending, RowsAsRead(r.rows))
      else Failure
  {
    hide React, ParseResponse, Packed, EncodeLength, Definitions, RowPackets, EncodeEnding;
    hide ColumnsFit, RowsFit, AllShort, AllAccepted, EndingFits, EndingOutcome;
    var types := Kinds(r.columns);
    var last := Packed(EncodeEnding(0xFE, r.ending), seqId) + rest;
    var third := RowPackets(r.rows, types, seqId) + last;
    var second := Definitions(r.columns, Following(seqId)) + third;
    assert EncodeSet(r, seqId) + rest == Packed(EncodeLength(|r.columns|), seqId) + second;
    CountRead(|r.columns|);
    PacketRead(INITIAL, EncodeLength(|r.columns|), seqId, second);
    assert r.columns[0..] == r.columns && r.columns[..|r.columns|] == r.columns && r.columns[..0] == [];
    assert Known(r.columns, 0) == State(ColumnDefs, |r.columns|, [], [], []);
    DefinitionsRead(r.columns, 0, Following(seqId), third);
    if AllShort(r.columns) {
      var st := Known(r.columns, |r.columns|);
      RowsRead(st, r.rows, seqId, last);
      if AllAccepted(r.rows, types) {
        var end := st.(rows := st.rows + RowsAsRead(r.rows));
        assert end.rows == RowsAsRead(r.rows);
        EndingRead(end, 0xFE, r.ending);
        PacketRead(end, EncodeEnding(0xFE, r.ending), seqId, rest);
      }
    }
  }

  /** A statement without a result set ends at once. */
  lemma StatementRead(e: Ending, head: Byte, seqId: Byte, rest: seq<Byte>)
    requires (head == 0 || head == 0xFE) && EndingFits(e) && |EncodeEnding(head, e)| < 0x100_0000
    ensures ParseResponse(INITIAL, Packed(EncodeEnding(head, e), seqId) + rest) == EndingOutcome(e, [])
  {
    hide React, ParseResponse, Packed, EncodeEnding;
    EndingRead(INITIAL, head, e);
    PacketRead(INITIAL, EncodeEnding(head, e), seqId, rest);
  }

  /** However an acceptable result set is cut into reads without pauses, the client gets its rows. */
  lemma SetDelivered(r: ResultSet, seqId: Byte, trace: seq<ReadResult>)
    requires SetFits(r) && AllShort(r.columns) && AllAccepted(r.rows, Kinds(r.columns))
    requires Delivered(trace) == EncodeSet(r, seqId) && forall i :: 0 <= i < |trace| ==> trace[i] != WouldBlock
    ensures ParseResponse(INITIAL, Seen(trace, false)) == EndingOutcome(r.ending, RowsAsRead(r.rows))
  {
    hide ParseResponse, EncodeSet, AllShort, AllAccepted, ColumnsFit, RowsFit, EndingFits, EncodeEnding;
    hide Delivered, Seen, EndingOutcome, RowsAsRead, Kinds;
    SteadyOutcome(trace);
    SetRead(r, seqId, []);
    assert EncodeSet(r, seqId) + [] == EncodeSet(r, seqId);
  }
}
