/** The incremental response loop of `execute_stmt`. */
module Framing {
  import opened Common
  import opened Bytes
  import opened Rows

  datatype Phase = ColumnCounting | ColumnDefs | RowData

  datatype State = State(phase: Phase, colCount: nat, types: seq<Byte>, details: seq<nat>, rows: seq<seq<Cell>>)

  /** `Retry` re-executes the statement after a deadlock or lock timeout; `Undefined` is the result of
      reading past a packet. */
  datatype Outcome = Result(rows: seq<seq<Cell>>) | Failure | Retry | Undefined

  datatype Reaction = Continue(state: State) | Done(outcome: Outcome)

  const INITIAL := State(ColumnCounting, 0, [], [], [])

  /** What every step of the loop keeps. */
  ghost predicate Consistent(st: State) {
    && |st.types| == |st.details|
    && (st.phase == RowData ==> |st.types| == st.colCount)
    && (forall i :: 0 <= i < |st.rows| ==> |st.rows[i]| == st.colCount)
    && (st.phase != RowData ==> st.rows == [])
  }

  /** How the loop reacts to one complete non-empty packet. */
  function React(st: State, packet: seq<Byte>): (r: Reaction)
    requires packet != [] && |st.types| == |st.details|
    ensures r.Continue? ==> |r.state.types| == |r.state.details|
  {
    if packet[0] == 0xFF then
      if |packet| >= 3 && FromLittleEndian(packet[1..3]) in {1213, 1205} then Done(Retry) else Done(Failure)
    else if packet[0] == 0xFE || (packet[0] == 0 && st.phase == ColumnCounting) then
      Done(if OkPacket(packet) then Result(st.rows) else Failure)
    else
      match st.phase
      case ColumnCounting =>
        (match ColumnCount(packet)
         case Overread => Done(Failure)
         case Length(n, _) => Continue(st.(phase := ColumnDefs, colCount := n)))
      case ColumnDefs =>
        (match ColumnDef(packet)
         case BadColumn => Done(Failure)
         case Column(kind, detail) =>
           var st' := st.(types := st.types + [kind], details := st.details + [detail]);
           if |st'.types| > st.colCount then Done(Failure)
           else if |st'.types| == st.colCount then Continue(st'.(phase := RowData))
           else Continue(st'))
      case RowData =>
        (match DecodeRow(packet, st.types, st.details)
         case BadRow => Done(Failure)
         case RowOverread => Done(Undefined)
         case Row(cells) => Continue(st.(rows := st.rows + [cells])))
  }

  function PacketSize(bytes: seq<Byte>): nat
    requires |bytes| >= 4
  {
    FromLittleEndian(bytes[..3])
  }

  /** No complete packet at the front. */
  predicate Incomplete(bytes: seq<Byte>) {
    |bytes| < 4 || |bytes| - 4 < PacketSize(bytes)
  }

  /** The reference: parse the whole response in one go. A response that stops before its OK packet
      fails; so does an empty packet, in whatever phase it comes. */
  function ParseResponse(st: State, bytes: seq<Byte>): Outcome
    requires |st.types| == |st.details|
    decreases |bytes|
  {
    if Incomplete(bytes) then Failure
    else
      var n := PacketSize(bytes);
      if n == 0 then Failure
      else
        match React(st, bytes[4..4 + n])
        case Done(o) => o
        case Continue(st') => ParseResponse(st', bytes[4 + n..])
  }

  // ----- The loop over a non-blocking socket -----

  /** What one `read` gives: some bytes, nothing yet, the end of the stream, or an error. A read of no bytes
      is the end of the stream, too, and so is the end of a trace. */
  datatype ReadResult = Bytes(data: seq<Byte>) | WouldBlock | Eof | Broken

  /** All bytes a trace delivers, whatever the pauses between them. */
  function Delivered(trace: seq<ReadResult>): seq<Byte> {
    if trace == [] then []
    else
      match trace[0]
      case Bytes(data) => if data == [] then [] else data + Delivered(trace[1..])
      case WouldBlock => Delivered(trace[1..])
      case _ => []
  }

  /** The bytes the loop gets to see: pauses are waited out before the first data only. */
  function Seen(trace: seq<ReadResult>, fetchMore: bool): seq<Byte> {
    if trace == [] then []
    else
      match trace[0]
      case Bytes(data) => if data == [] then [] else data + Seen(trace[1..], true)
      case WouldBlock => if fetchMore then [] else Seen(trace[1..], false)
      case _ => []
  }

  /** The loop as written: each read is joined to the unparsed rest of the previous ones. However the
      response is cut into reads, the outcome is that of parsing in one go what comes before the first
      pause after data. */
  method ReadResponse(trace: seq<ReadResult>) returns (outcome: Outcome)
    ensures outcome == ParseResponse(INITIAL, Seen(trace, false))
  {
    hide PacketSize, ParseResponse;
    var st, continuePart: seq<Byte>, fetchMore := INITIAL, [], false;
    assert trace[0..] == trace && [] + Seen(trace, false) == Seen(trace, false);
    for i := 0 to |trace|
      invariant |st.types| == |st.details| && Incomplete(continuePart)
      invariant ParseResponse(st, continuePart + Seen(trace[i..], fetchMore)) ==
        ParseResponse(INITIAL, Seen(trace, false))
    {
      SeenStep(trace, i, fetchMore);
      if trace[i] == WouldBlock && !fetchMore { continue; }
      if !trace[i].Bytes? || trace[i].data == [] {
        assert continuePart + Seen(trace[i..], fetchMore) == continuePart;
        IncompleteFails(st, continuePart);
        return Failure;
      }
      fetchMore := true;
      var recvPart := continuePart + trace[i].data;
      ghost var later := Seen(trace[i + 1..], true);
      assert continuePart + (trace[i].data + later) == recvPart + later;
      var decided;
      decided, st, continuePart := ParsePackets(st, recvPart, later);
      if decided.Some? { return decided.value; }
    }
    assert trace[|trace|..] == [] && continuePart + [] == continuePart;
    IncompleteFails(st, continuePart);
    return Failure;
  }

  /** The packets that are complete in what has been received; `later` is what is still to come. */
  method ParsePackets(start: State, recvPart: seq<Byte>, ghost later: seq<Byte>)
    returns (decided: Option<Outcome>, st: State, rest: seq<Byte>)
    requires |start.types| == |start.details|
    ensures |st.types| == |st.details|
    ensures decided.Some? ==> decided.value == ParseResponse(start, recvPart + later)
    ensures decided.None? ==>
      Incomplete(rest) && ParseResponse(st, rest + later) == ParseResponse(start, recvPart + later)
  {
    hide React, FromLittleEndian, ParseResponse, PacketSize;
    st := start;
    var idx := 0;
    assert recvPart[0..] == recvPart;
    while !Incomplete(recvPart[idx..])
      invariant idx <= |recvPart| && |st.types| == |st.details|
      invariant ParseResponse(st, recvPart[idx..] + later) == ParseResponse(start, recvPart + later)
      decreases |recvPart| - idx
    {
      var left := recvPart[idx..];
      var size := PacketSize(left);
      FrontPacket(st, left, later);
      if size == 0 { return Some(Failure), st, left; }
      var reaction := React(st, left[4..4 + size]);
      match reaction {
        case Done(o) => return Some(o), st, left;
        case Continue(next) =>
          assert left[4 + size..] == recvPart[idx + 4 + size..];
          st := next;
          idx := idx + 4 + size;
      }
    }
    return None, st, recvPart[idx..];
  }

  lemma SeenStep(trace: seq<ReadResult>, i: nat, fetchMore: bool)
    requires i < |trace|
    ensures Seen(trace[i..], fetchMore) ==
      match trace[i]
      case Bytes(data) => if data == [] then [] else data + Seen(trace[i + 1..], true)
      case WouldBlock => if fetchMore then [] else Seen(trace[i + 1..], false)
      case _ => []
  {
    assert trace[i..][1..] == trace[i + 1..];
  }

  lemma IncompleteFails(st: State, bytes: seq<Byte>)
    requires |st.types| == |st.details| && Incomplete(bytes)
    ensures ParseResponse(st, bytes) == Failure
  {
  }

  /** A complete front packet is handled the same whatever follows it. */
  lemma FrontPacket(st: State, left: seq<Byte>, later: seq<Byte>)
    requires |st.types| == |st.details| && !Incomplete(left)
    ensures var n := PacketSize(left);
      ParseResponse(st, left + later) ==
        if n == 0 then Failure
        else match React(st, left[4..4 + n])
          case Done(o) => o
          case Continue(st') => ParseResponse(st', left[4 + n..] + later)
  {
    hide React, FromLittleEndian;
    var all, n := left + later, PacketSize(left);
    assert all[..3] == left[..3];
    assert all[4..4 + n] == left[4..4 + n];
    assert all[4 + n..] == left[4 + n..] + later;
  }

  // ----- When two deliveries of one response agree -----

  /** How many bytes are parsed before the outcome is decided. */
  function Needed(st: State, bytes: seq<Byte>): (r: Option<nat>)
    requires |st.types| == |st.details|
    ensures r.Some? ==> 4 <= r.value <= |bytes|
    decreases |bytes|
  {
    if Incomplete(bytes) then None
    else
      var n := PacketSize(bytes);
      if n == 0 then Some(4)
      else
        match React(st, bytes[4..4 + n])
        case Done(_) => Some(4 + n)
        case Continue(st') =>
          match Needed(st', bytes[4 + n..])
          case None => None
          case Some(k) => Some(4 + n + k)
  }

  /** A beginning of a response fails unless it contains all the bytes that decide. */
  lemma {:induction false} PrefixOutcome(st: State, a: seq<Byte>, b: seq<Byte>)
    requires |st.types| == |st.details|
    ensures var k := Needed(st, a + b);
      ParseResponse(st, a) == if k.Some? && k.value <= |a| then ParseResponse(st, a + b) else Failure
    decreases |a|
  {
    hide React, FromLittleEndian;
    if !Incomplete(a) {
      var n := PacketSize(a);
      assert (a + b)[..3] == a[..3];
      if n != 0 {
        assert (a + b)[4..4 + n] == a[4..4 + n];
        assert (a + b)[4 + n..] == a[4 + n..] + b;
        var r := React(st, a[4..4 + n]);
        if r.Continue? { PrefixOutcome(r.state, a[4 + n..], b); }
      }
    } else {
      assert |a| >= 4 ==> (a + b)[..3] == a[..3];
    }
  }

  lemma {:induction false} SeenIsBeginning(trace: seq<ReadResult>, fetchMore: bool)
    ensures Seen(trace, fetchMore) <= Delivered(trace)
  {
    if trace != [] && (trace[0].Bytes? || trace[0].WouldBlock?) {
      SeenIsBeginning(trace[1..], trace[0].Bytes? || fetchMore);
    }
  }

  /** No pause comes between the first data and the last byte that decides. */
  predicate InTime(trace: seq<ReadResult>) {
    var k := Needed(INITIAL, Delivered(trace));
    k.Some? && k.value <= |Seen(trace, false)|
  }

  /** A delivery has the outcome of its bytes parsed in one go if and only if it is in time, or the response
      fails anyway. */
  lemma OutcomeExactly(trace: seq<ReadResult>)
    ensures var whole := ParseResponse(INITIAL, Delivered(trace));
      ParseResponse(INITIAL, Seen(trace, false)) == if InTime(trace) then whole else Failure
  {
    hide ParseResponse, Needed;
    SeenIsBeginning(trace, false);
    var seen, all := Seen(trace, false), Delivered(trace);
    assert all == seen + all[|seen|..];
    PrefixOutcome(INITIAL, seen, all[|seen|..]);
  }

  /** Two deliveries of one response agree if and only if the response fails anyway, or both are in time, or
      neither is. */
  method CompareCuts(trace: seq<ReadResult>, other: seq<ReadResult>) returns (a: Outcome, b: Outcome)
    requires Delivered(trace) == Delivered(other)
    ensures var whole := ParseResponse(INITIAL, Delivered(trace));
      a == b <==> whole == Failure || (InTime(trace) <==> InTime(other))
    ensures InTime(trace) ==> a == ParseResponse(INITIAL, Delivered(trace))
  {
    hide ParseResponse, InTime;
    a := ReadResponse(trace);
    b := ReadResponse(other);
    OutcomeExactly(trace);
    OutcomeExactly(other);
  }

  lemma {:induction false} SteadySeesAll(trace: seq<ReadResult>, fetchMore: bool)
    requires forall i :: 0 <= i < |trace| ==> trace[i] != WouldBlock
    ensures Seen(trace, fetchMore) == Delivered(trace)
  {
    if trace != [] { SteadySeesAll(trace[1..], true); }
  }

  /** A delivery without pauses has the outcome of its bytes, however they are cut. */
  lemma SteadyOutcome(trace: seq<ReadResult>)
    requires forall i :: 0 <= i < |trace| ==> trace[i] != WouldBlock
    ensures ParseResponse(INITIAL, Seen(trace, false)) == ParseResponse(INITIAL, Delivered(trace))
  {
    SteadySeesAll(trace, false);
  }

  /** A pause inside any response makes it fail, wherever between its first and its last needed byte. */
  lemma PauseFails(bytes: seq<Byte>, m: nat)
    requires Needed(INITIAL, bytes).Some? && 0 < m < Needed(INITIAL, bytes).value
    ensures var trace := [Bytes(bytes[..m]), WouldBlock, Bytes(bytes[m..])];
      Delivered(trace) == bytes && ParseResponse(INITIAL, Seen(trace, false)) == Failure
  {
    hide ParseResponse, Needed;
    var trace := [Bytes(bytes[..m]), WouldBlock, Bytes(bytes[m..])];
    var last := [Bytes(bytes[m..])];
    assert bytes[m..] != [] && last[1..] == [];
    assert Delivered(last) == bytes[m..] + [] == bytes[m..];
    var paused := [WouldBlock, Bytes(bytes[m..])];
    assert paused[1..] == last && trace[1..] == paused;
    assert Delivered(trace) == bytes[..m] + bytes[m..] == bytes;
    assert Seen(trace, false) == bytes[..m] + [];
    OutcomeExactly(trace);
  }

  const OK_RESPONSE: seq<Byte> := [7, 0, 0, 1, 0, 0, 0, 2, 0, 0, 0]

  /** For instance an OK response succeeds in one read and fails with a pause after its header. */
  lemma PauseMatters()
    ensures ParseResponse(INITIAL, Seen([Bytes(OK_RESPONSE)], false)) == Result([])
    ensures var paused := [Bytes(OK_RESPONSE[..4]), WouldBlock, Bytes(OK_RESPONSE[4..])];
      ParseResponse(INITIAL, Seen(paused, false)) == Failure
  {
    OkIsNeeded();
    hide ParseResponse, Needed;
    assert [Bytes(OK_RESPONSE)][1..] == [];
    assert Seen([Bytes(OK_RESPONSE)], false) == OK_RESPONSE + [] == OK_RESPONSE;
    PauseFails(OK_RESPONSE, 4);
  }

  lemma OkIsNeeded()
    ensures Needed(INITIAL, OK_RESPONSE) == Some(11) && ParseResponse(INITIAL, OK_RESPONSE) == Result([])
  {
    var packet := OK_RESPONSE[4..11];
    assert packet == [0, 0, 0, 2, 0, 0, 0];
    SizeOfOk();
    assert packet[1..][0] == 0 && packet[2..][0] == 0;
    assert OkPacket(packet);
  }

  lemma SizeOfOk()
    ensures PacketSize(OK_RESPONSE) == 7
  {
    assert OK_RESPONSE[..3] == [7, 0, 0];
    assert [7, 0, 0][1..] == [0, 0] && [0, 0][1..] == [0] && [0][1..] == [];
  }

  // ----- The shape of successful results -----

  lemma ReactConsistent(st: State, packet: seq<Byte>)
    requires packet != [] && Consistent(st)
    ensures var r := React(st, packet);
      && (r.Continue? ==> Consistent(r.state) && (st.phase != ColumnCounting ==> r.state.colCount == st.colCount))
      && (r.Done? && r.outcome.Result? ==> r.outcome.rows == st.rows)
  {
    hide ColumnDef, ColumnCount, OkPacket, FromLittleEndian;
  }

  lemma {:induction false} RowsHaveColumnCount(st: State, bytes: seq<Byte>)
    requires Consistent(st) && st.phase != ColumnCounting
    ensures var o := ParseResponse(st, bytes);
      o.Result? ==> forall i :: 0 <= i < |o.rows| ==> |o.rows[i]| == st.colCount
    decreases |bytes|
  {
    hide React;
    if !Incomplete(bytes) && PacketSize(bytes) != 0 {
      var n := PacketSize(bytes);
      ReactConsistent(st, bytes[4..4 + n]);
      var r := React(st, bytes[4..4 + n]);
      if r.Continue? && r.state.phase != ColumnCounting {
        RowsHaveColumnCount(r.state, bytes[4 + n..]);
      } else if r.Continue? {
        NoReturnToCounting(st, bytes[4..4 + n]);
      }
    }
  }

  lemma NoReturnToCounting(st: State, packet: seq<Byte>)
    requires packet != [] && |st.types| == |st.details| && React(st, packet).Continue?
    ensures React(st, packet).state.phase != ColumnCounting
  {
  }

  /** Every row returned on success has exactly the column count the first packet announced. */
  lemma RowsMatchAnnouncement(bytes: seq<Byte>)
    ensures var o := ParseResponse(INITIAL, bytes);
      o.Result? && o.rows != [] ==>
        && |bytes| >= 4
        && var n := PacketSize(bytes);
        && 0 < n <= |bytes| - 4
        && ColumnCount(bytes[4..4 + n]).Length?
        && forall i :: 0 <= i < |o.rows| ==> |o.rows[i]| == ColumnCount(bytes[4..4 + n]).value
  {
    hide React, FromLittleEndian, ColumnCount;
    if !Incomplete(bytes) && PacketSize(bytes) != 0 {
      var n := PacketSize(bytes);
      var packet := bytes[4..4 + n];
      var r := React(INITIAL, packet);
      FirstPacket(packet);
      if r.Continue? {
        RowsHaveColumnCount(r.state, bytes[4 + n..]);
      }
    }
  }

  /** The first packet either decides without rows or announces the column count. */
  lemma FirstPacket(packet: seq<Byte>)
    requires packet != []
    ensures match React(INITIAL, packet)
      case Done(o) => o.Result? ==> o.rows == []
      case Continue(st) =>
        && Consistent(st) && st.phase != ColumnCounting
        && ColumnCount(packet).Length? && st.colCount == ColumnCount(packet).value
  {
    hide OkPacket, FromLittleEndian;
  }
}
