/** `validate_client_response`: the order and shape check on a client's answer. */
module Validator {
  import opened Common
  import opened Decimal
  import opened Runs

  datatype Mode = Num | Amt | Whitespace

  datatype State = State(mode: Mode, num: nat, maxNum: nat)

  datatype Scan = Stuck | At(state: State)

  const INITIAL := State(Num, 0, 0)

  predicate IsSpace(c: char) {
    c as int in {9, 10, 11, 12, 13, 32, 0x85, 0xA0, 0x1680, 0x2028, 0x2029, 0x202F, 0x205F, 0x3000}
    || 0x2000 <= c as int <= 0x200A
  }

  /** `num * 10 + digit` on a u64, as release builds compute it. */
  function Accumulate(num: nat, d: nat): nat { (num * 10 + d) % 0x1_0000_0000_0000_0000 }

  function Step(st: State, c: char): Scan {
    match st.mode
    case Num =>
      if IsNumeral(c) then At(st.(num := Accumulate(st.num, c as int - '0' as int)))
      else if c == 'x' then
        if st.maxNum >= st.num then Stuck else At(State(Amt, 0, st.num))
      else Stuck
    case Amt =>
      if IsNumeral(c) then At(st) else if IsSpace(c) then At(st.(mode := Whitespace)) else Stuck
    case Whitespace =>
      if IsSpace(c) then At(st)
      else if IsNumeral(c) then At(State(Num, c as int - '0' as int, st.maxNum))
      else Stuck
  }

  function Run(st: State, s: string): Scan
    decreases |s|
  {
    if s == "" then At(st)
    else match Step(st, s[0])
      case Stuck => Stuck
      case At(next) => Run(next, s[1..])
  }

  predicate Accepts(s: string) {
    Run(INITIAL, s).At? && Run(INITIAL, s).state.mode == Amt
  }

  method ValidateClientResponse(resp: string) returns (ok: bool)
    ensures ok <==> Accepts(resp)
    ensures ok <==> exists es: seq<Entry> :: es != [] && WellFormed(es) && resp == Render(es)
  {
    AcceptsExactlyWellFormed(resp);
    var st := INITIAL;
    for i := 0 to |resp|
      invariant Run(st, resp[i..]) == Run(INITIAL, resp)
    {
      var c := resp[i];
      assert resp[i..][0] == c && resp[i..][1..] == resp[i + 1..];
      match Step(st, c) {
        case Stuck => return false;
        case At(next) => st := next;
      }
    }
    assert resp[|resp|..] == "";
    return st.mode == Amt;
  }

  // ----- Which printed lists are accepted -----

  lemma {:induction false} RunConcat(st: State, a: string, b: string)
    ensures Run(st, a + b) == match Run(st, a) case Stuck => Stuck case At(mid) => Run(mid, b)
    decreases |a|
  {
    hide Step;
    if a == "" {
      assert a + b == b;
    } else {
      assert (a + b)[1..] == a[1..] + b;
      if Step(st, a[0]).At? { RunConcat(Step(st, a[0]).state, a[1..], b); }
    }
  }

  /** A numeral read where a number may start leaves its value. */
  lemma {:induction false} RunNumeral(st: State, n: nat)
    requires n < 0x1_0000_0000_0000_0000
    requires st.mode == Whitespace || (st.mode == Num && st.num == 0)
    ensures Run(st, Numeral(n)) == At(State(Num, n, st.maxNum))
  {
    if n < 10 {
      assert [DigitChar(n)][1..] == "";
    } else {
      RunNumeral(st, n / 10);
      RunConcat(st, Numeral(n / 10), [DigitChar(n % 10)]);
      assert n == n / 10 * 10 + n % 10;
      assert Accumulate(n / 10, n % 10) == n;
      assert [DigitChar(n % 10)][1..] == "";
    }
  }

  lemma {:induction false} RunAmount(st: State, s: string)
    requires st.mode == Amt && forall i :: 0 <= i < |s| ==> IsNumeral(s[i])
    ensures Run(st, s) == At(st)
  {
    if s != "" {
      RunAmount(st, s[1..]);
    }
  }

  lemma RunOneRun(st: State, r: Runs.Run)
    requires r.prime < 0x1_0000_0000_0000_0000
    requires st.mode == Whitespace || (st.mode == Num && st.num == 0)
    ensures Run(st, RunText(r)) == if st.maxNum < r.prime then At(State(Amt, 0, r.prime)) else Stuck
  {
    hide Numeral;
    RunNumeral(st, r.prime);
    var rest := "x" + Numeral(r.count);
    assert RunText(r) == Numeral(r.prime) + rest;
    RunConcat(st, Numeral(r.prime), rest);
    assert rest[0] == 'x' && rest[1..] == Numeral(r.count);
    if st.maxNum < r.prime {
      RunAmount(State(Amt, 0, r.prime), Numeral(r.count));
    }
  }

  ghost predicate Ordered(rs: seq<Runs.Run>) {
    Ascending(rs) && forall i :: 0 <= i < |rs| ==> rs[i].prime > 0
  }

  lemma {:induction false} RunList(rs: seq<Runs.Run>)
    requires rs != [] && forall i :: 0 <= i < |rs| ==> rs[i].prime < 0x1_0000_0000_0000_0000
    ensures Run(INITIAL, Text(rs)) == if Ordered(rs) then At(State(Amt, 0, rs[|rs| - 1].prime)) else Stuck
  {
    hide Step, RunText;
    var r := rs[|rs| - 1];
    if |rs| == 1 {
      RunOneRun(INITIAL, r);
    } else {
      var init := rs[..|rs| - 1];
      RunList(init);
      TextStep(rs);
      var rest := " " + RunText(r);
      assert Text(rs) == Text(init) + rest;
      RunConcat(INITIAL, Text(init), rest);
      if Ordered(init) {
        var mid := State(Amt, 0, init[|init| - 1].prime);
        SpaceStep(mid);
        assert rest[0] == ' ' && rest[1..] == RunText(r);
        RunOneRun(mid.(mode := Whitespace), r);
        assert Ordered(rs) <==> init[|init| - 1].prime < r.prime;
      }
    }
  }

  lemma SpaceStep(st: State)
    requires st.mode == Amt
    ensures Step(st, ' ') == At(st.(mode := Whitespace))
  {
  }

  /** A printed list is accepted exactly when its numbers are positive and strictly ascending; the
      empty list, which prints as the empty string, is rejected. */
  lemma AcceptsExactlyOrdered(rs: seq<Runs.Run>)
    requires forall i :: 0 <= i < |rs| ==> rs[i].prime < 0x1_0000_0000_0000_0000
    ensures Accepts(Text(rs)) <==> rs != [] && Ordered(rs)
  {
    if rs != [] {
      RunList(rs);
    } else {
      assert Text([]) == "";
    }
  }

  // ----- The accepted language, for all strings -----

  /** One entry of an answer: white space before it, the digits of a number, an x, the digits of an amount. */
  datatype Entry = Entry(gap: string, digits: string, amount: string)

  predicate AllSpace(s: string) { forall i :: 0 <= i < |s| ==> IsSpace(s[i]) }

  function Render(es: seq<Entry>): string {
    if es == [] then ""
    else
      var e := es[|es| - 1];
      Render(es[..|es| - 1]) + e.gap + e.digits + "x" + e.amount
  }

  /** The number an entry stands for, in 64 bits. */
  function NumberOf(digits: string): nat
    requires AllNumerals(digits)
  {
    Parse(digits) % 0x1_0000_0000_0000_0000
  }

  /** The number before the next entry, zero at the start. */
  function Latest(es: seq<Entry>): nat
    requires es != [] ==> AllNumerals(es[|es| - 1].digits)
  {
    if es == [] then 0 else NumberOf(es[|es| - 1].digits)
  }

  /** Numbers strictly ascending from above zero modulo 2^64, no white space at the start, some between any two
      entries, and amounts that may be empty. */
  predicate WellFormed(es: seq<Entry>) {
    es == [] ||
    (var e, front := es[|es| - 1], es[..|es| - 1];
     && WellFormed(front)
     && AllSpace(e.gap) && (e.gap == "" <==> front == [])
     && AllNumerals(e.digits) && e.digits != "" && AllNumerals(e.amount)
     && Latest(front) < NumberOf(e.digits))
  }

  lemma NumberSnoc(d: string, c: char)
    requires AllNumerals(d) && IsNumeral(c)
    ensures AllNumerals(d + [c])
    ensures NumberOf(d + [c]) == Accumulate(NumberOf(d), c as int - '0' as int)
  {
    hide Parse;
    ParseSnoc(d, c);
    TimesTen(Parse(d), c as int - '0' as int);
  }

  lemma ParseSnoc(d: string, c: char)
    requires AllNumerals(d) && IsNumeral(c)
    ensures Parse(d + [c]) == Parse(d) * 10 + (c as int - '0' as int)
  {
    assert (d + [c])[..|d|] == d;
  }

  /** Accumulating in 64 bits loses only multiples of 2^64. */
  lemma TimesTen(p: nat, d: nat)
    ensures Accumulate(p % 0x1_0000_0000_0000_0000, d) == (p * 10 + d) % 0x1_0000_0000_0000_0000
  {
    var m := 0x1_0000_0000_0000_0000;
    var q, x := p / m, p % m * 10 + d;
    ModUnique(m, p * 10 + d, 10 * q + x / m, x % m);
  }

  lemma NumberOfNothing()
    ensures NumberOf("") == 0
  {
  }

  // ----- Every well-formed answer is accepted -----

  lemma {:induction false} RunSpaces(st: State, gap: string)
    requires AllSpace(gap) && (st.mode == Amt || st.mode == Whitespace)
    ensures Run(st, gap) == At(if gap == "" then st else st.(mode := Whitespace))
    decreases |gap|
  {
    if gap != "" {
      SpaceNotNumeral(gap[0]);
      RunSpaces(st.(mode := Whitespace), gap[1..]);
    }
  }

  lemma SpaceNotNumeral(c: char)
    requires IsSpace(c)
    ensures !IsNumeral(c)
  {
  }

  lemma {:induction false} RunDigits(st: State, d: string)
    requires AllNumerals(d) && d != "" && (st.mode == Whitespace || (st.mode == Num && st.num == 0))
    ensures Run(st, d) == At(State(Num, NumberOf(d), st.maxNum))
    decreases |d|
  {
    hide NumberOf, IsSpace;
    var t, c := d[..|d| - 1], d[|d| - 1];
    assert d == t + [c];
    NumberSnoc(t, c);
    RunConcat(st, t, [c]);
    assert [c][1..] == "";
    if t == "" {
      NumberOfNothing();
      RunNothing(st);
      if IsSpace(c) { SpaceNotNumeral(c); }
    } else {
      RunDigits(st, t);
    }
  }

  lemma RunEntry(st: State, e: Entry)
    requires AllSpace(e.gap) && AllNumerals(e.digits) && e.digits != "" && AllNumerals(e.amount)
    requires if e.gap == "" then st == INITIAL else st.mode == Amt && st.num == 0
    requires st.maxNum < NumberOf(e.digits)
    ensures Run(st, e.gap + e.digits + "x" + e.amount) == At(State(Amt, 0, NumberOf(e.digits)))
  {
    hide NumberOf, IsSpace;
    var rest := "x" + e.amount;
    assert e.gap + e.digits + "x" + e.amount == e.gap + (e.digits + rest);
    RunConcat(st, e.gap, e.digits + rest);
    if e.gap != "" { RunSpaces(st, e.gap); }
    var mid := if e.gap == "" then st else st.(mode := Whitespace);
    RunConcat(mid, e.digits, rest);
    RunDigits(mid, e.digits);
    assert rest[0] == 'x' && rest[1..] == e.amount;
    RunAmount(State(Amt, 0, NumberOf(e.digits)), e.amount);
  }

  lemma {:induction false} RunEntries(es: seq<Entry>)
    requires WellFormed(es)
    ensures Run(INITIAL, Render(es)) == At(if es == [] then INITIAL else State(Amt, 0, Latest(es)))
    decreases |es|
  {
    hide Run, NumberOf, IsSpace;
    if es == [] {
      RunNothing(INITIAL);
    } else {
      var e, front := es[|es| - 1], es[..|es| - 1];
      RunEntries(front);
      var rest := e.gap + e.digits + "x" + e.amount;
      assert Render(es) == Render(front) + rest;
      RunConcat(INITIAL, Render(front), rest);
      RunEntry(if front == [] then INITIAL else State(Amt, 0, Latest(front)), e);
    }
  }

  lemma RunNothing(st: State)
    ensures Run(st, "") == At(st)
  {
  }

  // ----- And nothing else is -----

  /** What the state after a prefix says about the prefix. */
  ghost predicate Describes(s: string, st: State, es: seq<Entry>, gap: string, digits: string) {
    && WellFormed(es) && st.maxNum == Latest(es) && AllSpace(gap)
    && match st.mode
       case Amt => es != [] && s == Render(es) && st.num == 0
       case Whitespace => es != [] && gap != "" && s == Render(es) + gap
       case Num =>
         && AllNumerals(digits) && st.num == NumberOf(digits)
         && (gap == "" <==> es == []) && (es != [] ==> digits != "")
         && s == Render(es) + gap + digits
  }

  lemma {:induction false} Describe(s: string) returns (es: seq<Entry>, gap: string, digits: string)
    requires Run(INITIAL, s).At?
    ensures Describes(s, Run(INITIAL, s).state, es, gap, digits)
    decreases |s|
  {
    hide Describes, Step;
    if s == "" {
      es, gap, digits := [], "", "";
      DescribesStart();
    } else {
      var t, c := s[..|s| - 1], s[|s| - 1];
      assert s == t + [c];
      RunConcat(INITIAL, t, [c]);
      var mid := Run(INITIAL, t).state;
      es, gap, digits := Describe(t);
      assert [c][1..] == "";
      es, gap, digits := DescribeStep(t, mid, es, gap, digits, c);
    }
  }

  lemma DescribesStart()
    ensures Describes("", INITIAL, [], "", "")
  {
    NumberOfNothing();
  }

  lemma DescribeStep(t: string, st: State, es: seq<Entry>, gap: string, digits: string, c: char)
    returns (es': seq<Entry>, gap': string, digits': string)
    requires Describes(t, st, es, gap, digits) && Step(st, c).At?
    ensures Describes(t + [c], Step(st, c).state, es', gap', digits')
  {
    hide NumberOf, WellFormed, Render, IsSpace;
    es', gap', digits' := es, gap, digits;
    match st.mode {
      case Num =>
        if IsNumeral(c) {
          NumberSnoc(digits, c);
          digits' := digits + [c];
          assert t + [c] == Render(es) + gap + digits';
        } else {
          NumberOfNothing();
          es' := es + [Entry(gap, digits, "")];
          EntryEnds(es, Entry(gap, digits, ""));
          gap' := "";
          assert t + [c] == Render(es) + gap + digits + "x" + "";
        }
      case Amt =>
        if IsNumeral(c) {
          es' := AmountGrows(es, c);
        } else {
          gap' := [c];
        }
      case Whitespace =>
        if IsSpace(c) {
          gap' := gap + [c];
          assert t + [c] == Render(es) + gap';
        } else {
          NumberOfNothing();
          NumberSnoc("", c);
          assert "" + [c] == [c];
          digits' := [c];
        }
    }
  }

  lemma EntryEnds(es: seq<Entry>, e: Entry)
    requires WellFormed(es) && AllSpace(e.gap) && (e.gap == "" <==> es == [])
    requires AllNumerals(e.digits) && e.digits != "" && AllNumerals(e.amount) && Latest(es) < NumberOf(e.digits)
    ensures WellFormed(es + [e]) && Latest(es + [e]) == NumberOf(e.digits)
    ensures Render(es + [e]) == Render(es) + e.gap + e.digits + "x" + e.amount
  {
    assert (es + [e])[..|es|] == es;
  }

  lemma AmountGrows(es: seq<Entry>, c: char) returns (es': seq<Entry>)
    requires WellFormed(es) && es != [] && IsNumeral(c)
    ensures WellFormed(es') && es' != [] && Latest(es') == Latest(es) && Render(es') == Render(es) + [c]
  {
    var e, front := es[|es| - 1], es[..|es| - 1];
    var e' := e.(amount := e.amount + [c]);
    es' := front + [e'];
    EntryEnds(front, e');
    assert Render(es') == Render(es) + [c];
  }

  /** The accepted strings are exactly the well-formed answers. */
  lemma AcceptsExactlyWellFormed(s: string)
    ensures Accepts(s) <==> exists es: seq<Entry> :: es != [] && WellFormed(es) && s == Render(es)
  {
    hide WellFormed, Render, Run;
    if Accepts(s) {
      var es, gap, digits := Describe(s);
    }
    if es: seq<Entry> :| es != [] && WellFormed(es) && s == Render(es) {
      RunEntries(es);
    }
  }

  /** Amounts may be missing. */
  lemma AmountCanBeMissing()
    ensures Accepts("2x")
  {
    assert "2x"[1..] == "x" && "x"[1..] == "";
  }
}
