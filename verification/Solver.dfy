/** The browser's solver: long division of base-64 numbers and trial division. */
module Solver {
  import opened Common
  import opened Alphabet
  import opened Bignum
  import opened Decimal
  import opened Primes
  import opened Runs

  const TICKS := 1_000_000

  /** `revb64_long_div_mod`: one pass from the most significant digit. On digit strings it yields the
      canonical quotient and the remainder. */
  method LongDivMod(s: string, val: nat) returns (result: string, rem: nat)
    requires val > 0
    ensures IsDigits(s) ==> Canonical(result) && rem < val
    ensures IsDigits(s) ==> Value(s) == val * Value(result) + rem
    ensures IsDigits(s) ==> Value(result) == Value(s) / val && rem == Value(s) % val
  {
    hide ToChar, ToValue;
    result, rem := "", 0;
    for idx := 0 to |s|
      invariant IsDigits(s) ==> Canonical(result) && rem < val
      invariant IsDigits(s) ==> Value(s[|s| - idx..]) == val * Value(result) + rem
    {
      var digit := ToValue(s[|s| - 1 - idx]);
      var b64Val := digit + rem * 64;
      var innerResult := JsToChar(b64Val / val);
      ghost var before := result;
      if |result| != 0 || innerResult != 'A' {
        result := [innerResult] + result;
      }
      if IsDigits(s) {
        DivisionStep(s, idx, val, before, rem, b64Val / val, b64Val % val);
      }
      rem := b64Val % val;
    }
    assert s[0..] == s;
    if IsDigits(s) {
      ModUnique(val, Value(s), Value(result), rem);
    }
  }

  lemma DivisionStep(s: string, idx: nat, val: nat, result: string, rem: nat, q: nat, r: nat)
    requires IsDigits(s) && idx < |s| && val > 0
    requires Canonical(result) && rem < val
    requires Value(s[|s| - idx..]) == val * Value(result) + rem
    requires ToValue(s[|s| - 1 - idx]) + rem * 64 == val * q + r && r < val
    ensures var c := JsToChar(q);
      var result' := if |result| != 0 || c != 'A' then [c] + result else result;
      Canonical(result') && Value(s[|s| - 1 - idx..]) == val * Value(result') + r
  {
    hide ToChar, ToValue;
    QuotientIsDigit(val, q, r, ToValue(s[|s| - 1 - idx]), rem);
    var c := JsToChar(q);
    assert ToValue(c) == q && IsDigit(c);
    var rest := s[|s| - 1 - idx..];
    assert rest[1..] == s[|s| - idx..] && rest[0] == s[|s| - 1 - idx];
    MulDistributes(val, q, Value(result));
    MulCommutes(q, val);
    if |result| != 0 || c != 'A' {
      assert ([c] + result)[1..] == result;
    } else {
      assert q == 0;
    }
  }

  lemma QuotientIsDigit(val: nat, q: nat, r: nat, digit: nat, rem: nat)
    requires digit < 64 && rem < val && digit + rem * 64 == val * q + r
    ensures q < 64
  {
    MulLower64(val, q);
  }

  lemma MulLower64(val: nat, q: int)
    ensures q >= 64 ==> val * q >= 64 * val
  {
    if q >= 64 {
      MulSplit(val, 64, q - 64);
    }
  }

  // ----- Trial division on numbers -----

  function Push(runs: seq<Run>, d: nat, c: nat): seq<Run> {
    if c != 0 then runs + [Run(d, c)] else runs
  }

  function NextDivisor(d: nat): nat { if d == 2 then d + 1 else d + 2 }

  /** The divisor loop of `getFactors`, on the number the digit string denotes. */
  function Trial(n: nat, d: nat, c: nat, runs: seq<Run>, ticks: nat): seq<Run>
    requires d >= 2 && ticks >= 1
    decreases ticks
  {
    if n == 1 then Push(runs, d, c)
    else if n % d == 0 then
      if ticks == 1 then Push(runs, d, c + 1) else Trial(n / d, d, c + 1, runs, ticks - 1)
    else
      if ticks == 1 then Push(runs, d, c) else Trial(n, NextDivisor(d), 0, Push(runs, d, c), ticks - 1)
  }

  // ----- The solver as written -----

  function TrimRight(s: string): string {
    if s != [] && s[|s| - 1] == ' ' then TrimRight(s[..|s| - 1]) else s
  }

  function TrimLeft(s: string): string {
    if s != [] && s[0] == ' ' then TrimLeft(s[1..]) else s
  }

  lemma {:induction false} JoinEnds(rs: seq<Run>)
    requires rs != []
    ensures |Text(rs)| >= 1 && Text(rs)[0] != ' ' && Text(rs)[|Text(rs)| - 1] != ' '
  {
    RunTextShape(rs[|rs| - 1]);
    if |rs| >= 2 {
      TextStep(rs);
      JoinEnds(rs[..|rs| - 1]);
    }
  }

  /** The final loop: every run followed by a space, then `trim()`. */
  method JoinAndTrim(result: seq<string>, ghost rs: seq<Run>) returns (text: string)
    requires result == Texts(rs)
    ensures text == Text(rs)
  {
    hide TrimLeft, TrimRight, Texts;
    var str := "";
    for idx := 0 to |result|
      invariant str == if idx == 0 then "" else Join(result[..idx]) + " "
    {
      assert result[..idx + 1][..idx] == result[..idx];
      str := str + result[idx] + " ";
    }
    assert result[..|result|] == result;
    text := TrimRight(TrimLeft(str));
    TrimJoined(rs);
  }

  /** Trimming removes exactly the final space. */
  lemma TrimJoined(rs: seq<Run>)
    ensures TrimRight(TrimLeft("")) == "" == Text([])
    ensures rs != [] ==> TrimRight(TrimLeft(Text(rs) + " ")) == Text(rs)
    ensures |Texts(rs)| == |rs|
  {
    hide Text;
    assert Text([]) == "" by { TextSpace([]); }
    if rs != [] {
      JoinEnds(rs);
      var t := Text(rs);
      var str := t + " ";
      assert TrimLeft(str) == str;
      assert str[..|str| - 1] == t;
      assert TrimRight(str) == TrimRight(t) == t;
    }
  }

  /** `getFactors`. For every canonical challenge the answer is the printed trial-division run. */
  method GetFactors(challenge: string) returns (answer: string)
    ensures Canonical(challenge) ==> answer == Text(Trial(Value(challenge), 2, 0, [], TICKS))
  {
    hide Trial, Texts;
    var ret := challenge;
    var current, currentCount := 2, 0;
    var result: seq<string> := [];
    ghost var runs: seq<Run> := [];
    var ticks: nat := TICKS;
    ghost var good := Canonical(challenge);
    ghost var target := if good then Trial(Value(challenge), 2, 0, [], TICKS) else [];
    ghost var done := false;
    TextsEmpty();
    while ret != "B"
      invariant 0 <= ticks <= TICKS && current >= 2 && result == Texts(runs) && !done && ticks >= 1
      invariant good ==> Canonical(ret) && Trial(Value(ret), current, currentCount, runs, ticks) == target
      decreases ticks
    {
      var inner, rem := LongDivMod(ret, current);
      if good { TrialStep(ret, current, currentCount, runs, ticks); }
      if rem == 0 {
        currentCount := currentCount + 1;
        ret := inner;
      } else {
        if currentCount != 0 {
          TextsPush(runs, Run(current, currentCount));
          result := result + [Numeral(current) + "x" + Numeral(currentCount)];
          runs := runs + [Run(current, currentCount)];
        }
        if current == 2 {
          current := current + 1;
        } else {
          current := current + 2;
        }
        currentCount := 0;
      }
      ticks := ticks - 1;
      if ticks == 0 {
        done := true;
        break;
      }
    }
    if good && !done { TrialAtOne(current, currentCount, runs, ticks); }
    if currentCount != 0 {
      TextsPush(runs, Run(current, currentCount));
      result := result + [Numeral(current) + "x" + Numeral(currentCount)];
      runs := runs + [Run(current, currentCount)];
    }
    answer := JoinAndTrim(result, runs);
  }

  lemma TextsEmpty()
    ensures Texts([]) == []
  {
  }

  lemma TrialStep(ret: string, d: nat, c: nat, runs: seq<Run>, ticks: nat)
    requires Canonical(ret) && ret != "B" && d >= 2 && ticks >= 1
    ensures Trial(Value(ret), d, c, runs, ticks) ==
      if Value(ret) % d == 0 then
        if ticks == 1 then Push(runs, d, c + 1) else Trial(Value(ret) / d, d, c + 1, runs, ticks - 1)
      else
        if ticks == 1 then Push(runs, d, c) else Trial(Value(ret), NextDivisor(d), 0, Push(runs, d, c), ticks - 1)
  {
    if Value(ret) == 1 {
      assert Value("B") == 1;
      CanonicalUnique(ret, "B");
    }
  }

  lemma TrialAtOne(d: nat, c: nat, runs: seq<Run>, ticks: nat)
    requires d >= 2 && ticks >= 1
    ensures Trial(Value("B"), d, c, runs, ticks) == Push(runs, d, c)
  {
    assert Value("B") == 1;
  }

  // ----- Completeness on generated numbers -----

  /** How often the divisor advances on its way from d to q. */
  function Steps(d: nat, q: nat): int {
    if d == 2 then (if q == 2 then 0 else (q - 1) / 2) else (q - d) / 2
  }

  /** One tick for every factor and for every advance up to the largest one. */
  ghost predicate Enough(m: multiset<nat>, d: nat, ticks: nat) {
    forall q :: q in m ==> |m| + Steps(d, q) <= ticks
  }

  /** The factors of m that the loop divides out before its ticks are used up. */
  ghost function Found(m: multiset<nat>, d: nat, ticks: nat): multiset<nat>
    requires ticks >= 1
    decreases ticks
  {
    if m == multiset{} then multiset{}
    else if d in m then multiset{d} + if ticks == 1 then multiset{} else Found(m - multiset{d}, d, ticks - 1)
    else if ticks == 1 then multiset{} else Found(m, NextDivisor(d), ticks - 1)
  }

  ghost predicate SortedBelow(runs: seq<Run>, d: nat) {
    Ascending(runs) && Positive(runs) && forall i :: 0 <= i < |runs| ==> runs[i].prime < d
  }

  lemma PushSorted(runs: seq<Run>, d: nat, c: nat)
    requires SortedBelow(runs, d)
    ensures IsRunLength(Push(runs, d, c), Tally(runs) + Repeat(d, c))
    ensures SortedBelow(Push(runs, d, c), NextDivisor(d))
  {
    hide Tally, Repeat;
    RepeatOne(d, c);
    TallyPush(runs, Run(d, c));
    assert c == 0 ==> Tally(runs) + Repeat(d, c) == Tally(runs);
  }

  lemma MembersPrime(m: multiset<nat>)
    requires Drawn(m)
    ensures forall q :: q in m ==> IsPrime(q) && 2 <= q <= 59 && (q == 2 || q % 2 == 1)
  {
    hide IsPrime, Choice;
    forall q | q in m ensures IsPrime(q) && 2 <= q <= 59 && (q == 2 || q % 2 == 1) {
      var r: nat :| r < 17 && Choice(r) == q;
      ChoiceIsPrime(r);
    }
  }

  /** Whatever the budget, trial division lists in order the factors it gets to. */
  lemma {:induction false} TrialFinds(m: multiset<nat>, d: nat, c: nat, runs: seq<Run>, ticks: nat)
    requires Drawn(m) && d >= 2 && (d == 2 || d % 2 == 1)
    requires forall q :: q in m ==> q >= d
    requires SortedBelow(runs, d) && ticks >= 1
    ensures IsRunLength(Trial(Product(m), d, c, runs, ticks), Tally(runs) + Repeat(d, c) + Found(m, d, ticks))
    decreases ticks, 1
  {
    hide Product, Tally, Repeat, IsRunLength, SortedBelow, Drawn, IsPrime;
    MembersPrime(m);
    ProductOne(m);
    if m == multiset{} {
      PushSorted(runs, d, c);
      assert Tally(runs) + Repeat(d, c) + Found(m, d, ticks) == Tally(runs) + Repeat(d, c);
    } else {
      DividesIffMember(m, d);
      if d in m {
        TrialDivides(m, d, c, runs, ticks);
      } else {
        TrialAdvances(m, d, c, runs, ticks);
      }
    }
  }

  lemma {:induction false} TrialDivides(m: multiset<nat>, d: nat, c: nat, runs: seq<Run>, ticks: nat)
    requires Drawn(m) && d >= 2 && (d == 2 || d % 2 == 1)
    requires forall q :: q in m ==> q >= d
    requires SortedBelow(runs, d) && ticks >= 1
    requires d in m && Product(m) % d == 0 && Product(m) != 1
    ensures IsRunLength(Trial(Product(m), d, c, runs, ticks), Tally(runs) + Repeat(d, c) + Found(m, d, ticks))
    decreases ticks, 0
  {
    hide Product, Tally, Repeat, IsRunLength, SortedBelow, IsPrime;
    var rest := m - multiset{d};
    ProductRemove(m, d);
    ModUnique(d, Product(m), Product(rest), 0);
    RepeatOne(d, c);
    if ticks == 1 {
      PushSorted(runs, d, c + 1);
      assert Tally(runs) + Repeat(d, c + 1) == Tally(runs) + Repeat(d, c) + Found(m, d, ticks);
    } else {
      TrialFinds(rest, d, c + 1, runs, ticks - 1);
      assert Tally(runs) + Repeat(d, c + 1) + Found(rest, d, ticks - 1)
          == Tally(runs) + Repeat(d, c) + Found(m, d, ticks);
    }
  }

  lemma TrialMiss(n: nat, d: nat, c: nat, runs: seq<Run>, ticks: nat)
    requires d >= 2 && n != 1 && n % d != 0 && ticks >= 1
    ensures ticks > 1 ==>
      Trial(n, d, c, runs, ticks) == Trial(n, NextDivisor(d), 0, Push(runs, d, c), ticks - 1)
    ensures ticks == 1 ==> Trial(n, d, c, runs, ticks) == Push(runs, d, c)
  {
  }

  lemma {:induction false} TrialAdvances(m: multiset<nat>, d: nat, c: nat, runs: seq<Run>, ticks: nat)
    requires Drawn(m) && d >= 2 && (d == 2 || d % 2 == 1)
    requires forall q :: q in m ==> q >= d
    requires SortedBelow(runs, d) && ticks >= 1
    requires d !in m && m != multiset{} && Product(m) % d != 0 && Product(m) != 1
    ensures IsRunLength(Trial(Product(m), d, c, runs, ticks), Tally(runs) + Repeat(d, c) + Found(m, d, ticks))
    decreases ticks, 0
  {
    hide Product, IsPrime, Tally, Repeat, Push, Drawn, Trial, SortedBelow, IsRunLength;
    TrialMiss(Product(m), d, c, runs, ticks);
    PushSorted(runs, d, c);
    if ticks == 1 {
      assert Tally(runs) + Repeat(d, c) + Found(m, d, ticks) == Tally(runs) + Repeat(d, c);
    } else {
      AdvanceSkips(m, d);
      RepeatOne(NextDivisor(d), 0);
      var next := Push(runs, d, c);
      PushTally(runs, d, c);
      TrialFinds(m, NextDivisor(d), 0, next, ticks - 1);
      assert Tally(next) + Repeat(NextDivisor(d), 0) + Found(m, NextDivisor(d), ticks - 1)
          == Tally(runs) + Repeat(d, c) + Found(m, d, ticks);
    }
  }

  lemma PushTally(runs: seq<Run>, d: nat, c: nat)
    requires SortedBelow(runs, d)
    ensures Tally(Push(runs, d, c)) == Tally(runs) + Repeat(d, c)
  {
    PushSorted(runs, d, c);
  }

  /** Skipping a divisor that is not a member loses no member and is one step towards each. */
  lemma AdvanceSkips(m: multiset<nat>, d: nat)
    requires Drawn(m) && d >= 2 && (d == 2 || d % 2 == 1)
    requires d !in m && forall q :: q in m ==> q >= d
    ensures NextDivisor(d) % 2 == 1
    ensures forall q :: q in m ==> q >= NextDivisor(d) && Steps(d, q) == 1 + Steps(NextDivisor(d), q)
  {
    hide IsPrime, Drawn;
    MembersPrime(m);
  }

  /** The loop gets to every factor exactly when the ticks are enough. */
  lemma {:induction false} FoundAll(m: multiset<nat>, d: nat, ticks: nat)
    requires Drawn(m) && d >= 2 && (d == 2 || d % 2 == 1) && ticks >= 1
    requires forall q :: q in m ==> q >= d
    ensures Found(m, d, ticks) == m <==> Enough(m, d, ticks)
    decreases ticks, 1
  {
    hide Drawn;
    if m != multiset{} {
      var q :| q in m;
      assert |m| >= 1 by { assert multiset{q} <= m; }
      if d in m {
        FoundFirst(m, d, ticks);
      } else {
        AdvanceSkips(m, d);
        assert |m| + Steps(d, q) > 1;
        if ticks > 1 {
          FoundAll(m, NextDivisor(d), ticks - 1);
        }
      }
    }
  }

  lemma {:induction false} FoundFirst(m: multiset<nat>, d: nat, ticks: nat)
    requires Drawn(m) && d >= 2 && (d == 2 || d % 2 == 1) && ticks >= 1
    requires d in m && forall q :: q in m ==> q >= d
    ensures Found(m, d, ticks) == m <==> Enough(m, d, ticks)
    decreases ticks, 0
  {
    hide Drawn, Enough, Found;
    var rest := m - multiset{d};
    DrawnRest(m, d);
    EnoughFirst(m, d, ticks);
    FoundUnfold(m, d, ticks);
    assert m == multiset{d} + rest;
    if ticks == 1 {
      SamePart(d, multiset{}, rest);
    } else {
      FoundAll(rest, d, ticks - 1);
      SamePart(d, Found(rest, d, ticks - 1), rest);
      assert rest == multiset{} ==> Enough(rest, d, ticks - 1) by { NothingIsEnough(d, ticks - 1); }
    }
  }

  lemma NothingIsEnough(d: nat, ticks: nat)
    ensures Enough(multiset{}, d, ticks)
  {
  }

  lemma FoundUnfold(m: multiset<nat>, d: nat, ticks: nat)
    requires d in m && ticks >= 1
    ensures Found(m, d, ticks) == multiset{d} + if ticks == 1 then multiset{} else Found(m - multiset{d}, d, ticks - 1)
  {
  }

  lemma DrawnRest(m: multiset<nat>, d: nat)
    requires Drawn(m)
    ensures Drawn(m - multiset{d})
  {
    hide Choice;
  }

  lemma SamePart(d: nat, a: multiset<nat>, b: multiset<nat>)
    ensures multiset{d} + a == multiset{d} + b <==> a == b
  {
    if multiset{d} + a == multiset{d} + b {
      assert a == multiset{d} + a - multiset{d};
    }
  }

  lemma EnoughFirst(m: multiset<nat>, d: nat, ticks: nat)
    requires Drawn(m) && d >= 2 && (d == 2 || d % 2 == 1) && ticks >= 1
    requires d in m && forall q :: q in m ==> q >= d
    ensures var rest := m - multiset{d};
      Enough(m, d, ticks) <==> rest == multiset{} || (ticks > 1 && Enough(rest, d, ticks - 1))
  {
    hide Drawn, IsPrime;
    MembersPrime(m);
    var rest := m - multiset{d};
    assert |m| == 1 + |rest|;
    assert forall q :: q in m <==> q == d || q in rest;
    assert Steps(d, d) == 0 && forall q :: q in m ==> Steps(d, q) >= 0;
    if rest != multiset{} {
      var q :| q in rest;
      assert multiset{q} <= rest;
      assert |rest| >= 1;
    }
  }
}
