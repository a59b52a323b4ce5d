/** The text form of IPv6 addresses (section 2.2 of RFC 4291): groups, and the printer that compresses the
    first run of zero groups. */
module Ipv6 {
  import opened Machine
  import opened Hexadecimal

  type Address = s: seq<u8> | |s| == 16 witness seq(16, _ => 0)

  /** Two bytes of an address. */
  datatype Group = Group(hi: u8, lo: u8)

  function Number(g: Group): nat { 256 * g.hi as nat + g.lo as nat }

  predicate IsZero(g: Group) { g.hi == 0 && g.lo == 0 }

  function Groups(a: Address): (gs: seq<Group>)
    ensures |gs| == 8
  {
    seq(8, i requires 0 <= i < 8 => Group(a[2 * i], a[2 * i + 1]))
  }

  function Flatten(gs: seq<Group>): (s: seq<u8>)
    ensures |s| == 2 * |gs|
  {
    seq(2 * |gs|, i requires 0 <= i < 2 * |gs| => if i % 2 == 0 then gs[i / 2].hi else gs[i / 2].lo)
  }

  // ----- What the printer writes -----

  /** A group without leading zeros. */
  function GroupText(g: Group): string { Hex(Number(g), Upper) }

  function Join(gs: seq<Group>): string {
    if gs == [] then ""
    else if |gs| == 1 then GroupText(gs[0])
    else GroupText(gs[0]) + ":" + Join(gs[1..])
  }

  /** Where the first zero group stands, `|gs|` when there is none. */
  function FirstZero(gs: seq<Group>): (k: nat)
    ensures k <= |gs|
    ensures forall i :: 0 <= i < k ==> !IsZero(gs[i])
    ensures k < |gs| ==> IsZero(gs[k])
  {
    if gs == [] || IsZero(gs[0]) then 0 else 1 + FirstZero(gs[1..])
  }

  function ZeroRun(gs: seq<Group>): (k: nat)
    ensures k <= |gs|
    ensures forall i :: 0 <= i < k ==> IsZero(gs[i])
    ensures k < |gs| ==> !IsZero(gs[k])
  {
    if gs == [] || !IsZero(gs[0]) then 0 else 1 + ZeroRun(gs[1..])
  }

  function RunEnd(gs: seq<Group>): (k: nat)
    ensures FirstZero(gs) <= k <= |gs|
    ensures FirstZero(gs) < |gs| ==> FirstZero(gs) < k
  {
    FirstZero(gs) + ZeroRun(gs[FirstZero(gs)..])
  }

  function Print(a: Address): string {
    var gs := Groups(a);
    if FirstZero(gs) == |gs| then Join(gs)
    else Join(gs[..FirstZero(gs)]) + "::" + Join(gs[RunEnd(gs)..])
  }

  lemma JoinNothing()
    ensures Join([]) == ""
  {
  }

  lemma {:induction false} JoinSnoc(gs: seq<Group>, g: Group)
    requires gs != []
    ensures Join(gs + [g]) == Join(gs) + ":" + GroupText(g)
  {
    hide GroupText;
    var all := gs + [g];
    if |gs| == 1 {
      assert all[1..] == [g];
      assert gs == [all[0]];
    } else {
      JoinSnoc(gs[1..], g);
      assert all[1..] == gs[1..] + [g];
    }
  }

  // ----- The printer -----

  /** The zero-run scan: byte offsets of the first run of zero groups, or -1 and -1. */
  method FindZeroRun(a: Address) returns (from: int, to: int)
    ensures FirstZero(Groups(a)) == 8 ==> from == -1 && to == -1
    ensures FirstZero(Groups(a)) < 8 ==> from == 2 * FirstZero(Groups(a)) && to == 2 * RunEnd(Groups(a))
  {
    from, to := -1, -1;
    var hold := -2;
    ghost var gs := Groups(a);
    var idx := 0;
    while idx < 16
      invariant 0 <= idx <= 16
      invariant from == -1 ==> to == -1 && forall k :: 0 <= k < idx / 2 ==> !IsZero(gs[k])
      invariant from != -1 ==> 0 <= from < to <= idx && from % 2 == 0 && to % 2 == 0
      invariant from != -1 ==> forall k :: 0 <= k < from / 2 ==> !IsZero(gs[k])
      invariant from != -1 ==> forall k :: from / 2 <= k < to / 2 ==> IsZero(gs[k])
      invariant from != -1 && to / 2 < idx / 2 ==> !IsZero(gs[to / 2])
      invariant hold == -2 || 0 <= hold < idx
      invariant idx % 2 == 1 ==> hold == if a[idx - 1] == 0 then idx - 1 else -2
    {
      if idx % 2 == 0 {
        hold := if a[idx] == 0 then idx else -2;
      } else {
        assert gs[idx / 2] == Group(a[idx - 1], a[idx]);
      }
      if hold + 1 == idx && a[idx] == 0 {
        if from == -1 {
          from, to := hold, idx + 1;
        } else if to + 1 == idx {
          to := idx + 1;
        }
      }
      idx := idx + 1;
    }
    if from != -1 {
      RunIs(gs, from / 2, to / 2);
    } else {
      assert FirstZero(gs) == 8;
    }
  }

  /** The first run is determined by what lies before, in and after it. */
  lemma RunIs(gs: seq<Group>, from: nat, to: nat)
    requires from < to <= |gs|
    requires forall k :: 0 <= k < from ==> !IsZero(gs[k])
    requires forall k :: from <= k < to ==> IsZero(gs[k])
    requires to < |gs| ==> !IsZero(gs[to])
    ensures FirstZero(gs) == from && RunEnd(gs) == to
  {
    var k := FirstZero(gs);
    assert IsZero(gs[from]);
    assert k == from;
    var rest := gs[k..];
    var n := ZeroRun(rest);
    assert n < |rest| ==> rest[n] == gs[k + n];
    assert to < |gs| ==> rest[to - k] == gs[to];
  }

  /** `%X` of a byte. */
  function ByteToHex(b: u8): string { Hex(b as nat, Upper) }

  lemma ByteHexShape(b: u8)
    ensures ByteToHex(b) == if b < 16 then [HexChar(b as nat, Upper)]
                            else [HexChar(b as nat / 16, Upper), HexChar(b as nat % 16, Upper)]
    ensures ByteToHex(b) == "0" <==> b == 0
  {
    if b < 16 {
      assert HexValue(ByteToHex(b)[0]) == b as nat;
    } else {
      assert Hex(b as nat / 16, Upper) == [HexChar(b as nat / 16, Upper)];
    }
  }

  /** A group is its high byte, if any, and then its low byte, in two digits when the high byte was written. */
  lemma GroupTextBytes(g: Group)
    ensures g.hi == 0 ==> GroupText(g) == ByteToHex(g.lo)
    ensures g.hi != 0 ==>
      GroupText(g) == ByteToHex(g.hi) + (if g.lo < 16 then "0" else "") + ByteToHex(g.lo)
  {
    ByteHexShape(g.lo);
    if g.hi != 0 {
      var n, hi, lo := Number(g), g.hi as nat, g.lo as nat;
      assert n / 16 == 16 * hi + lo / 16 && n % 16 == lo % 16;
      assert n / 16 / 16 == hi && n / 16 % 16 == lo / 16;
      assert Hex(n / 16, Upper) == Hex(hi, Upper) + [HexChar(lo / 16, Upper)];
      assert HexChar(0, Upper) == '0';
      assert GroupText(g) == Hex(hi, Upper) + [HexChar(lo / 16, Upper)] + [HexChar(lo % 16, Upper)];
    }
  }

  /** One of the two printing loops: the bytes `[from, to)`, whole groups separated by colons. */
  method PrintSide(a: Address, from: nat, to: nat) returns (text: string)
    requires from <= to <= 16 && from % 2 == 0 && to % 2 == 0
    ensures text == Join(Groups(a)[from / 2..to / 2])
  {
    hide Hex, Join, GroupText, Opened, ByteToHex, HexChar, Groups, Number;
    ghost var gs := Groups(a);
    text := "";
    assert gs[from / 2..from / 2] == [];
    OpenedNothing();
    var prevHasColon, prevHadValue := true, false;
    var idx := from;
    while idx < to
      invariant from <= idx <= to
      invariant prevHasColon <==> idx % 2 == 0
      invariant idx % 2 == 0 ==> !prevHadValue
      invariant idx % 2 == 0 ==> text == Opened(gs[from / 2..idx / 2], idx < to)
      invariant idx % 2 == 1 ==> (prevHadValue <==> a[idx - 1] != 0)
      invariant idx % 2 == 1 ==> text == Opened(gs[from / 2..idx / 2], true)
                                       + if a[idx - 1] != 0 then ByteToHex(a[idx - 1]) else ""
    {
      ghost var before := text;
      ByteHexShape(a[idx]);
      var byteText := ByteToHex(a[idx]);
      if byteText != "0" || idx % 2 == 1 {
        if prevHadValue && |byteText| == 1 {
          text := text + "0";
        }
        text := text + byteText;
        prevHadValue := idx % 2 == 0;
      } else {
        prevHadValue := false;
      }
      if !prevHasColon && idx + 1 != to {
        text := text + ":";
      }
      prevHasColon := idx % 2 == 1;
      if idx % 2 == 1 {
        GroupWritten(gs[from / 2..idx / 2], a[idx - 1], a[idx], before, idx + 1 < to);
        GroupAdded(a, from / 2, idx / 2);
      }
      idx := idx + 1;
    }
    OpenedDone(gs[from / 2..to / 2]);
  }

  lemma GroupAdded(a: Address, from: nat, k: nat)
    requires from <= k < 8
    ensures Groups(a)[from..k] + [Group(a[2 * k], a[2 * k + 1])] == Groups(a)[from..k + 1]
  {
    var gs := Groups(a);
    assert gs[k] == Group(a[2 * k], a[2 * k + 1]);
    hide Groups;
    assert gs[from..k] + [gs[k]] == gs[from..k + 1];
  }

  lemma OpenedNothing()
    ensures Opened([], true) == "" == Opened([], false)
  {
  }

  lemma OpenedDone(gs: seq<Group>)
    ensures Opened(gs, false) == Join(gs)
  {
  }

  /** The low byte completes the group whose high byte is already written. */
  lemma GroupWritten(done: seq<Group>, hi: u8, lo: u8, before: string, more: bool)
    requires before == Opened(done, true) + if hi != 0 then ByteToHex(hi) else ""
    ensures before + (if hi != 0 && |ByteToHex(lo)| == 1 then "0" else "") + ByteToHex(lo) + (if more then ":" else "")
         == Opened(done + [Group(hi, lo)], more)
  {
    hide Opened, GroupText, ByteToHex;
    var g := Group(hi, lo);
    GroupTextBytes(g);
    ByteHexShape(lo);
    OpenedSnoc(done, g, more);
  }

  /** A joined prefix with the colon that separates it from what follows. */
  function Opened(gs: seq<Group>, more: bool): string {
    if gs == [] || !more then Join(gs) else Join(gs) + ":"
  }

  lemma OpenedSnoc(gs: seq<Group>, g: Group, more: bool)
    ensures Opened(gs, true) + GroupText(g) + (if more then ":" else "") == Opened(gs + [g], more)
  {
    if gs != [] {
      JoinSnoc(gs, g);
    } else {
      assert gs + [g] == [g];
    }
  }

  method AddrToStr(a: Address) returns (text: string)
    ensures text == Print(a)
  {
    hide Join, FirstZero, RunEnd, Groups;
    ghost var gs := Groups(a);
    var from, to := FindZeroRun(a);
    JoinNothing();
    if from == 0 && to == 16 {
      assert gs[..0] == [] && gs[8..] == [];
      return "::";
    }
    text := "";
    if from > 0 {
      text := PrintSide(a, 0, from);
      assert gs[0..from / 2] == gs[..from / 2];
    }
    if from >= 0 {
      assert from == 0 ==> gs[..from / 2] == [];
      text := text + "::";
    }
    var right := PrintSide(a, if to > 0 then to else 0, 16);
    text := text + right;
    assert gs[(if to > 0 then to else 0) / 2..8] == gs[(if to > 0 then to else 0) / 2..];
    if from < 0 {
      assert gs[0..] == gs;
    }
  }
}
