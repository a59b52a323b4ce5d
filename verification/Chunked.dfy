/** Re-encoding an upstream body as chunks (section 7.1 of RFC 9112) over a socket that may accept only
    part of what is written. Bytes are modelled as characters. */
module Chunked {
  import opened Common
  import opened Hexadecimal

  // ----- The chunked coding -----

  const CRLF := "\r\n"

  const LAST_CHUNK := "0\r\n\r\n"

  function Chunk(data: string): string { Hex(|data|, Lower) + CRLF + data + CRLF }

  function Encode(segments: seq<string>): string {
    if segments == [] then "" else Encode(segments[..|segments| - 1]) + Chunk(segments[|segments| - 1])
  }

  function Flatten(segments: seq<string>): string {
    if segments == [] then "" else Flatten(segments[..|segments| - 1]) + segments[|segments| - 1]
  }

  /** The longest prefix of hexadecimal digits. */
  function HexPrefix(s: string): (p: string)
    ensures |p| <= |s| && s[..|p|] == p && AllHex(p)
  {
    if s == "" || !IsHex(s[0]) then "" else [s[0]] + HexPrefix(s[1..])
  }

  /** A recipient's decoder: the body, and what follows the last chunk. */
  function Decode(s: string): Option<(string, string)>
    decreases |s|
  {
    var size := HexPrefix(s);
    if size == "" || |s| < |size| + 2 || s[|size|..|size| + 2] != CRLF then None
    else
      var n, at := ParseHex(size), |size| + 2;
      if |s| < at + n + 2 || s[at + n..at + n + 2] != CRLF then None
      else if n == 0 then Some(("", s[at + 2..]))
      else
        match Decode(s[at + n + 2..])
        case None => None
        case Some((body, rest)) => Some((s[at..at + n] + body, rest))
  }

  lemma {:induction false} PrefixOfHex(digits: string, rest: string)
    requires AllHex(digits) && rest != "" && !IsHex(rest[0])
    ensures HexPrefix(digits + rest) == digits
  {
    if digits == "" {
      assert digits + rest == rest;
    } else {
      assert (digits + rest)[1..] == digits[1..] + rest;
      PrefixOfHex(digits[1..], rest);
    }
  }

  lemma DecodeChunk(data: string, rest: string)
    requires data != ""
    ensures Decode(Chunk(data) + rest) == match Decode(rest)
      case None => None
      case Some((body, after)) => Some((data + body, after))
  {
    hide HexPrefix, ParseHex, Hex;
    var size, n := Hex(|data|, Lower), |data|;
    var tail := CRLF + data + CRLF + rest;
    var s := Chunk(data) + rest;
    assert s == size + tail;
    PrefixOfHex(size, tail);
    ParseOfHex(n, Lower);
    var at := |size| + 2;
    assert s[|size|..at] == CRLF;
    assert s[at..at + n] == data;
    assert s[at + n..at + n + 2] == CRLF;
    assert s[at + n + 2..] == rest;
  }

  lemma DecodeLast(rest: string)
    ensures Decode(LAST_CHUNK + rest) == Some(("", rest))
  {
    hide HexPrefix, ParseHex, Hex;
    var s := LAST_CHUNK + rest;
    var tail := CRLF + CRLF + rest;
    assert "0" == Hex(0, Lower) by { HexOfZero(Lower); }
    assert s == "0" + tail;
    PrefixOfHex("0", tail);
    ParseOfHex(0, Lower);
    assert s[1..3] == CRLF && s[3..5] == CRLF && s[5..] == rest;
  }

  lemma {:induction false} DecodeAfter(segments: seq<string>, tail: string)
    requires forall i :: 0 <= i < |segments| ==> segments[i] != ""
    ensures Decode(Encode(segments) + tail) == match Decode(tail)
      case None => None
      case Some((body, after)) => Some((Flatten(segments) + body, after))
    decreases |segments|
  {
    hide Decode, Chunk;
    if segments == [] {
      assert Encode(segments) + tail == tail;
      if Decode(tail).Some? { assert "" + Decode(tail).value.0 == Decode(tail).value.0; }
    } else {
      var init, last := segments[..|segments| - 1], segments[|segments| - 1];
      assert Encode(segments) + tail == Encode(init) + (Chunk(last) + tail);
      DecodeAfter(init, Chunk(last) + tail);
      DecodeChunk(last, tail);
      if Decode(tail).Some? {
        var body := Decode(tail).value.0;
        assert Flatten(init) + (last + body) == Flatten(segments) + body;
      }
    }
  }

  /** However the body is cut, a complete transmission decodes to exactly the body. */
  lemma DecodeComplete(segments: seq<string>, rest: string)
    requires forall i :: 0 <= i < |segments| ==> segments[i] != ""
    ensures Decode(Encode(segments) + LAST_CHUNK + rest) == Some((Flatten(segments), rest))
  {
    hide Decode, Encode, Flatten;
    assert Encode(segments) + LAST_CHUNK + rest == Encode(segments) + (LAST_CHUNK + rest);
    DecodeLast(rest);
    DecodeAfter(segments, LAST_CHUNK + rest);
    assert Flatten(segments) + "" == Flatten(segments);
  }

  // ----- The client socket -----

  /** What one `write` does: nothing yet, an error, or up to `count` bytes (none: the peer closed). */
  datatype WriteResult = Again | Failed | Accept(count: nat)

  /** What is left of a trace of write results once n bytes are written, or nothing if the writing fails. */
  function Written(script: seq<WriteResult>, n: nat): Option<seq<WriteResult>>
    decreases |script|
  {
    if n == 0 then Some(script)
    else if script == [] then None
    else
      match script[0]
      case Again => Written(script[1..], n)
      case Failed => None
      case Accept(count) =>
        if count == 0 then None else if count >= n then Some(script[1..]) else Written(script[1..], n - count)
  }

  /** The client side of a connection. `script` is the trace of coming write results; a write past its
      end fails. */
  class Client {
    var sent: string
    var script: seq<WriteResult>

    constructor (script: seq<WriteResult>)
      ensures sent == "" && this.script == script
    {
      sent := "";
      this.script := script;
    }

    /** One system call on non-empty data. */
    method Write(data: string) returns (r: WriteResult)
      modifies this
      ensures old(script) == [] ==> r == Failed && script == []
      ensures old(script) != [] ==> script == old(script[1..])
      ensures old(script) != [] ==>
        r == if old(script[0]).Accept? && old(script[0]).count > |data| then Accept(|data|) else old(script[0])
      ensures sent == old(sent) + if r.Accept? then data[..r.count] else ""
    {
      if script == [] { return Failed; }
      r := script[0];
      script := script[1..];
      if r.Accept? {
        r := Accept(if r.count < |data| then r.count else |data|);
        sent := sent + data[..r.count];
      }
    }

    /** The offset loops of the forwarder: retry until everything is written, or fail. */
    method WriteAll(data: string) returns (ok: bool, ghost k: nat)
      requires data != ""
      modifies this
      ensures k <= |data| && sent == old(sent) + data[..k]
      ensures ok ==> k == |data|
      ensures ok <==> Written(old(script), |data|).Some?
      ensures ok ==> script == Written(old(script), |data|).value
    {
      var offset := 0;
      k := 0;
      assert data[..0] == "";
      while offset < |data|
        invariant offset <= |data| && k == offset && sent == old(sent) + data[..offset]
        invariant Written(script, |data| - offset) == Written(old(script), |data|)
        decreases |script| + |data| - offset
      {
        if script == [] { assert Written(script, |data| - offset) == None; }
        var r := Write(data[offset..]);
        match r {
          case Again =>
          case Failed => return false, offset;
          case Accept(count) =>
            assert data[..offset] + data[offset..][..count] == data[..offset + count];
            if count == 0 { return false, offset; }
            offset := offset + count;
        }
        k := offset;
      }
      return true, k;
    }
  }

  // ----- The forwarding loop after the response headers -----

  /** What one `read` from upstream gives. */
  datatype ReadResult = Data(bytes: string) | WouldBlock | Eof | ReadError

  datatype Outcome = Completed | Unfinished | Aborted

  function Received(upstream: seq<ReadResult>): string {
    if upstream == [] then ""
    else
      var last := upstream[|upstream| - 1];
      Received(upstream[..|upstream| - 1]) + (if last.Data? then last.bytes else "")
  }

  /** The length still expected, when a positive Content-Length was announced. */
  ghost predicate Accounted(announced: Option<nat>, left: Option<nat>, segments: seq<string>) {
    match announced
    case None => left == None
    case Some(total) => left.Some? && left.value + |Flatten(segments)| == total
  }

  // ----- What decides the outcome -----

  /** The bytes of each read that delivered some, in order. */
  function SegmentsOf(upstream: seq<ReadResult>): seq<string> {
    if upstream == [] then []
    else
      var last := upstream[|upstream| - 1];
      SegmentsOf(upstream[..|upstream| - 1]) + (if last.Data? then [last.bytes] else [])
  }

  /** How many reads in a row, up to the last, would have blocked. */
  function Waits(upstream: seq<ReadResult>): nat {
    if upstream == [] || upstream[|upstream| - 1] != WouldBlock then 0
    else 1 + Waits(upstream[..|upstream| - 1])
  }

  /** The size line and the data line are written one after the other. */
  function ChunkWritten(script: seq<WriteResult>, data: string): Option<seq<WriteResult>> {
    match Written(script, |Hex(|data|, Lower)| + 2)
    case None => None
    case Some(rest) => Written(rest, |data| + 2)
  }

  /** What is left of the client's trace once all segments are written. */
  function AllWritten(script: seq<WriteResult>, segments: seq<string>): Option<seq<WriteResult>> {
    if segments == [] then Some(script)
    else
      match AllWritten(script, segments[..|segments| - 1])
      case None => None
      case Some(rest) => ChunkWritten(rest, segments[|segments| - 1])
  }

  /** The five bytes of the last chunk are taken by one write. */
  predicate EndTaken(script: seq<WriteResult>) {
    script != [] && script[0].Accept? && script[0].count >= 5
  }

  /** No more has been received than was announced, or exactly as much. */
  predicate NotTooMuch(announced: Option<nat>, upstream: seq<ReadResult>) {
    announced.Some? ==> |Received(upstream)| <= announced.value
  }

  predicate AllThere(announced: Option<nat>, upstream: seq<ReadResult>) {
    announced.Some? && |Received(upstream)| == announced.value
  }

  /** A transfer: what the server delivers, what it announced, how long the proxy waits, what the client takes. */
  datatype Transfer = Transfer(
    upstream: seq<ReadResult>, announced: Option<nat>, ticks: nat, script: seq<WriteResult>)

  /** The loop is still reading when it comes to read e. */
  predicate Reads(t: Transfer, e: nat)
    requires e <= |t.upstream|
  {
    e < |t.upstream| && Waits(t.upstream[..e]) < t.ticks
  }

  /** Read e ends the body: the end of the stream, or a pause when everything announced is there. */
  predicate Ends(t: Transfer, e: nat)
    requires e < |t.upstream|
  {
    t.upstream[e] == Eof || (t.upstream[e] == WouldBlock && AllThere(t.announced, t.upstream[..e]))
  }

  /** Read e is passed and the loop goes on: a pause within the body, or data that fits the announcement and
      that the client takes. */
  predicate Passes(t: Transfer, e: nat)
    requires e < |t.upstream|
  {
    && Reads(t, e) && !Ends(t, e)
    && match t.upstream[e]
       case WouldBlock => true
       case Data(_) =>
         && NotTooMuch(t.announced, t.upstream[..e + 1])
         && AllWritten(t.script, SegmentsOf(t.upstream[..e + 1])).Some?
       case _ => false
  }

  /** All reads before e are passed. */
  ghost predicate Reaches(t: Transfer, e: nat)
    requires e <= |t.upstream|
  {
    forall i :: 0 <= i < e ==> Passes(t, i)
  }

  /** What becomes of a transfer that stops at read e. */
  function Verdict(t: Transfer, e: nat): Outcome
    requires e <= |t.upstream|
  {
    if !Reads(t, e) then Unfinished
    else
      var client := AllWritten(t.script, SegmentsOf(t.upstream[..e]));
      if Ends(t, e) && client.Some? && EndTaken(client.value) then Completed else Aborted
  }

  /** The transfer completes: some read ends the body, all reads before it are passed, and the client takes
      the last chunk. */
  ghost predicate Completes(t: Transfer) {
    exists e :: 0 <= e < |t.upstream| && Reaches(t, e) && Verdict(t, e) == Completed
  }

  /** A transfer stops at one read only. */
  lemma StopsOnce(t: Transfer, d: nat, e: nat)
    requires d < |t.upstream| && e <= |t.upstream| && Reaches(t, d) && Reaches(t, e)
    requires !Passes(t, d) && (e < |t.upstream| ==> !Passes(t, e))
    ensures d == e
  {
    hide Passes;
  }

  // ----- Transfers that complete -----

  /** Every write of this client takes all it is given. */
  predicate Eager(script: seq<WriteResult>, most: nat) {
    forall i :: 0 <= i < |script| ==> script[i].Accept? && script[i].count >= most
  }

  lemma {:induction false} EagerTakesAll(script: seq<WriteResult>, segments: seq<string>, most: nat)
    requires Eager(script, most) && 2 * |segments| <= |script|
    requires forall i :: 0 <= i < |segments| ==> |segments[i]| + 2 <= most && |Hex(|segments[i]|, Lower)| + 2 <= most
    ensures AllWritten(script, segments) == Some(script[2 * |segments|..])
    decreases |segments|
  {
    hide Hex;
    if segments != [] {
      var k := 2 * (|segments| - 1);
      EagerTakesAll(script, segments[..|segments| - 1], most);
      var rest := script[k..];
      assert rest[1..] == script[k + 1..] && rest[1..][1..] == script[k + 2..];
    }
  }

  lemma {:induction false} EarlierWritten(t: Transfer, e: nat, d: nat)
    requires d <= e <= |t.upstream| && AllWritten(t.script, SegmentsOf(t.upstream[..e])).Some?
    ensures AllWritten(t.script, SegmentsOf(t.upstream[..d])).Some?
    decreases e
  {
    hide AllWritten, SegmentsOf, Received, Waits;
    if d < e {
      OneMoreRead(t.upstream, e - 1);
      var earlier := SegmentsOf(t.upstream[..e - 1]);
      assert earlier + [] == earlier;
      if t.upstream[e - 1].Data? { FirstWritten(t.script, earlier, t.upstream[e - 1].bytes); }
      EarlierWritten(t, e - 1, d);
    }
  }

  lemma FirstWritten(script: seq<WriteResult>, segments: seq<string>, data: string)
    requires AllWritten(script, segments + [data]).Some?
    ensures AllWritten(script, segments).Some?
  {
    assert (segments + [data])[..|segments|] == segments;
  }

  lemma {:induction false} ReceivedGrows(upstream: seq<ReadResult>, d: nat, e: nat)
    requires d <= e <= |upstream|
    ensures |Received(upstream[..d])| <= |Received(upstream[..e])|
    decreases e
  {
    if d < e {
      OneMoreRead(upstream, e - 1);
      ReceivedGrows(upstream, d, e - 1);
    }
  }

  /** A body that comes without pauses, fits its announcement and is taken by the client is transferred
      completely; one of exactly the announced length, too, when a pause follows instead of the end. */
  lemma SteadyTransferCompletes(t: Transfer, e: nat)
    requires e < |t.upstream| && t.ticks > 0
    requires forall i :: 0 <= i < e ==> t.upstream[i].Data?
    requires NotTooMuch(t.announced, t.upstream[..e])
    requires t.upstream[e] == Eof || (t.upstream[e] == WouldBlock && AllThere(t.announced, t.upstream[..e]))
    requires AllWritten(t.script, SegmentsOf(t.upstream[..e])).Some?
    requires EndTaken(AllWritten(t.script, SegmentsOf(t.upstream[..e])).value)
    ensures Completes(t)
  {
    hide AllWritten, SegmentsOf, Received, EndTaken;
    assert forall i :: 0 < i <= e ==> t.upstream[..i][i - 1].Data?;
    forall i | 0 <= i < e ensures Passes(t, i) {
      EarlierWritten(t, e, i + 1);
      ReceivedGrows(t.upstream, i + 1, e);
    }
    assert Reaches(t, e) && Verdict(t, e) == Completed;
  }

  /** Forwards a non-chunked body. For every pattern of reads and partial writes the client has been sent
      the chunk coding of the bytes of the reads used, and after it the last chunk if the transfer is
      completed, nothing if it is unfinished, and a beginning of the last chunk or of the next read's
      chunk if it is aborted; and the remaining length plus the accounted bytes is the announced length. */
  method ForwardBody(client: Client, upstream: seq<ReadResult>, announced: Option<nat>, timeoutTicks: nat)
    returns (
      outcome: Outcome, left: Option<nat>, ghost segments: seq<string>, used: nat, ghost extra: string, ghost stop: nat)
    requires client.sent == ""
    requires forall i :: 0 <= i < |upstream| && upstream[i].Data? ==> upstream[i].bytes != ""
    modifies client
    ensures used <= |upstream|
    ensures forall i :: 0 <= i < |segments| ==> segments[i] != ""
    ensures Accounted(announced, left, segments)
    ensures client.sent == Encode(segments) + extra
    ensures Flatten(segments) == Received(upstream[..used])
    ensures outcome == Completed ==> extra == LAST_CHUNK
    ensures outcome == Completed ==> Decode(client.sent) == Some((Received(upstream[..used]), ""))
    ensures outcome == Unfinished ==> extra == ""
    ensures outcome == Aborted ==>
      extra <= LAST_CHUNK || (used < |upstream| && upstream[used].Data? && extra <= Chunk(upstream[used].bytes))
    ensures var t := Transfer(upstream, announced, timeoutTicks, old(client.script));
      && stop <= |upstream| && Reaches(t, stop) && (stop < |upstream| ==> !Passes(t, stop))
      && outcome == Verdict(t, stop)
      && (outcome == Completed <==> Completes(t))
  {
    hide Decode, Chunk, Encode, Flatten, Received, Passes, Verdict, AllWritten, SegmentsOf, Accounted, EndTaken;
    segments, extra, used, left := [], "", 0, announced;
    ghost var t := Transfer(upstream, announced, timeoutTicks, client.script);
    NothingYet(upstream, announced, client.script);
    var waitTicks := 0;
    stop := 0;
    while waitTicks < timeoutTicks && used < |upstream|
      invariant used == stop <= |upstream| && extra == "" && waitTicks == Waits(upstream[..used])
      invariant forall i :: 0 <= i < |segments| ==> segments[i] != ""
      invariant Accounted(announced, left, segments)
      invariant client.sent == Encode(segments)
      invariant Flatten(segments) == Received(upstream[..used]) && segments == SegmentsOf(upstream[..used])
      invariant AllWritten(t.script, segments) == Some(client.script)
      invariant Reaches(t, stop)
      decreases |upstream| - used
    {
      OneMoreRead(upstream, used);
      LeftOver(announced, left, segments, upstream[..used]);
      var read := upstream[used];
      if read == ReadError {
        StopsHere(t, stop);
        Settled(t, stop);
        return Aborted, left, segments, used, "", stop;
      } else if read == Eof || (read == WouldBlock && left == Some(0)) {
        ghost var before := client.script;
        var ok;
        ok, extra := FinishBody(client);
        EndsHere(t, stop, before);
        Settled(t, stop);
        used := used + 1;
        if !ok { return Aborted, left, segments, used, extra, stop; }
        DecodeComplete(segments, "");
        assert Encode(segments) + LAST_CHUNK + "" == client.sent;
        return Completed, left, segments, used, extra, stop;
      } else if read == WouldBlock {
        PausesHere(t, stop);
        waitTicks := waitTicks + 1;
      } else {
        waitTicks := 0;
        ghost var before := client.script;
        OneMoreSegment(segments, read.bytes);
        MoreWritten(t.script, segments, read.bytes);
        var ok;
        ok, extra := SendChunk(client, read.bytes);
        if !ok {
          StopsHere(t, stop);
          Settled(t, stop);
          return Aborted, left, segments, used, extra, stop;
        }
        if left.Some? {
          if left.value >= |read.bytes| {
            AccountedMore(announced, left.value, segments, read.bytes);
            left := Some(left.value - |read.bytes|);
          } else {
            TooMuch(announced, upstream, used);
            StopsHere(t, stop);
            Settled(t, stop);
            return Aborted, left, segments, used, extra, stop;
          }
        }
        NoLimit(announced, segments, read.bytes);
        TakesHere(t, stop);
        segments := segments + [read.bytes];
        extra := "";
      }
      used := used + 1;
      stop := stop + 1;
    }
    CompletedReads(t, stop);
    Settled(t, stop);
    return Unfinished, left, segments, used, "", stop;
  }

  lemma NothingYet(upstream: seq<ReadResult>, announced: Option<nat>, script: seq<WriteResult>)
    ensures Encode([]) == "" && Flatten([]) == "" && Received(upstream[..0]) == "" && SegmentsOf(upstream[..0]) == []
    ensures Accounted(announced, announced, []) && AllWritten(script, []) == Some(script)
  {
  }

  lemma OneMoreSegment(segments: seq<string>, data: string)
    ensures Encode(segments + [data]) == Encode(segments) + Chunk(data)
    ensures Flatten(segments + [data]) == Flatten(segments) + data
  {
    hide Chunk;
    assert (segments + [data])[..|segments|] == segments;
  }

  lemma OneMoreRead(upstream: seq<ReadResult>, used: nat)
    requires used < |upstream|
    ensures Received(upstream[..used + 1]) ==
      Received(upstream[..used]) + if upstream[used].Data? then upstream[used].bytes else ""
    ensures SegmentsOf(upstream[..used + 1]) ==
      SegmentsOf(upstream[..used]) + if upstream[used].Data? then [upstream[used].bytes] else []
    ensures Waits(upstream[..used + 1]) == if upstream[used] == WouldBlock then 1 + Waits(upstream[..used]) else 0
  {
    assert upstream[..used + 1][..used] == upstream[..used];
  }

  lemma LeftOver(announced: Option<nat>, left: Option<nat>, segments: seq<string>, earlier: seq<ReadResult>)
    requires Accounted(announced, left, segments) && Flatten(segments) == Received(earlier)
    ensures left == Some(0) <==> AllThere(announced, earlier)
    ensures left.Some? <==> announced.Some?
    ensures left.Some? ==> left.value + |Received(earlier)| == announced.value
  {
  }

  lemma AccountedMore(announced: Option<nat>, left: nat, segments: seq<string>, data: string)
    requires Accounted(announced, Some(left), segments) && left >= |data|
    ensures Accounted(announced, Some(left - |data|), segments + [data])
  {
    OneMoreSegment(segments, data);
  }

  lemma NoLimit(announced: Option<nat>, segments: seq<string>, data: string)
    ensures Accounted(announced, None, segments) ==> Accounted(announced, None, segments + [data])
  {
  }

  lemma MoreWritten(script: seq<WriteResult>, segments: seq<string>, data: string)
    requires AllWritten(script, segments).Some?
    ensures AllWritten(script, segments + [data]) == ChunkWritten(AllWritten(script, segments).value, data)
  {
    assert (segments + [data])[..|segments|] == segments;
  }

  lemma TooMuch(announced: Option<nat>, upstream: seq<ReadResult>, used: nat)
    requires used < |upstream| && announced.Some?
    requires |Received(upstream[..used + 1])| > announced.value
    ensures !NotTooMuch(announced, upstream[..used + 1])
  {
  }

  /** A read error, or data that does not fit or is not taken. */
  lemma StopsHere(t: Transfer, e: nat)
    requires e < |t.upstream| && Reads(t, e)
    requires t.upstream[e] == ReadError ||
      (t.upstream[e].Data? &&
       (!NotTooMuch(t.announced, t.upstream[..e + 1]) || AllWritten(t.script, SegmentsOf(t.upstream[..e + 1])).None?))
    ensures !Passes(t, e) && Verdict(t, e) == Aborted
  {
    hide AllWritten, SegmentsOf, Received, Waits;
  }

  lemma EndsHere(t: Transfer, e: nat, script: seq<WriteResult>)
    requires e < |t.upstream| && Reads(t, e) && Ends(t, e)
    requires AllWritten(t.script, SegmentsOf(t.upstream[..e])) == Some(script)
    ensures !Passes(t, e) && Verdict(t, e) == if EndTaken(script) then Completed else Aborted
  {
    hide AllWritten, SegmentsOf, Received, Waits;
  }

  lemma PausesHere(t: Transfer, e: nat)
    requires e < |t.upstream| && Reads(t, e) && t.upstream[e] == WouldBlock && !Ends(t, e)
    ensures Passes(t, e)
  {
    hide AllWritten, SegmentsOf, Received, Waits;
  }

  lemma TakesHere(t: Transfer, e: nat)
    requires e < |t.upstream| && Reads(t, e) && t.upstream[e].Data?
    requires NotTooMuch(t.announced, t.upstream[..e + 1])
    requires AllWritten(t.script, SegmentsOf(t.upstream[..e + 1])).Some?
    ensures Passes(t, e)
  {
    hide AllWritten, SegmentsOf, Received, Waits;
  }

  /** Where a transfer stops decides whether it completes. */
  lemma Settled(t: Transfer, e: nat)
    requires e <= |t.upstream| && Reaches(t, e) && (e < |t.upstream| ==> Reads(t, e) ==> !Passes(t, e))
    ensures e < |t.upstream| ==> !Passes(t, e)
    ensures Verdict(t, e) == Completed <==> Completes(t)
  {
    hide AllWritten, SegmentsOf, Received, Waits, Verdict;
    assert Verdict(t, e) == Completed ==> e < |t.upstream| by { CompletedReads(t, e); }
    assert e < |t.upstream| ==> !Passes(t, e);
    if Completes(t) {
      var d :| 0 <= d < |t.upstream| && Reaches(t, d) && Verdict(t, d) == Completed;
      CompletedReads(t, d);
      StopsOnce(t, d, e);
    }
  }

  lemma CompletedReads(t: Transfer, e: nat)
    requires e <= |t.upstream|
    ensures Verdict(t, e) == Completed ==> e < |t.upstream| && !Passes(t, e)
    ensures !Reads(t, e) <==> Verdict(t, e) == Unfinished
  {
    hide AllWritten, SegmentsOf, Received, Waits;
  }

  /** The size line, then the data with its line end. */
  method SendChunk(client: Client, data: string) returns (ok: bool, ghost sent: string)
    requires data != ""
    modifies client
    ensures client.sent == old(client.sent) + sent && sent <= Chunk(data)
    ensures ok ==> sent == Chunk(data)
    ensures ok <==> ChunkWritten(old(client.script), data).Some?
    ensures ok ==> client.script == ChunkWritten(old(client.script), data).value
  {
    var head, body := Hex(|data|, Lower) + CRLF, data + CRLF;
    assert Chunk(data) == head + body;
    ghost var k;
    ok, k := client.WriteAll(head);
    sent := head[..k];
    if ok {
      ghost var before := client.sent;
      ok, k := client.WriteAll(body);
      sent := head + body[..k];
    }
  }

  /** The terminating chunk is written with a single call that must take all five bytes. */
  method FinishBody(client: Client) returns (ok: bool, ghost sent: string)
    modifies client
    ensures client.sent == old(client.sent) + sent && sent <= LAST_CHUNK
    ensures ok ==> sent == LAST_CHUNK
    ensures ok <==> EndTaken(old(client.script))
  {
    var r := client.Write(LAST_CHUNK);
    ok := r == Accept(5);
    sent := if r.Accept? then LAST_CHUNK[..r.count] else "";
  }
}
