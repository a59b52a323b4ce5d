/** Run-length lists of factors: the content of an answer such as "2x5 3x9 5x4". */
module Runs {
  import opened Decimal

  datatype Run = Run(prime: nat, count: nat)

  ghost predicate Ascending(rs: seq<Run>) {
    forall i, j :: 0 <= i < j < |rs| ==> rs[i].prime < rs[j].prime
  }

  ghost predicate Positive(rs: seq<Run>) {
    forall i :: 0 <= i < |rs| ==> rs[i].count > 0
  }

  ghost function Repeat(p: nat, c: nat): multiset<nat> { multiset{}[p := c] }

  lemma RepeatOne(p: nat, c: nat)
    ensures Repeat(p, 0) == multiset{} && Repeat(p, 1) == multiset{p}
    ensures Repeat(p, c + 1) == Repeat(p, c) + multiset{p}
  {
  }

  /** The multiset a list of runs stands for. */
  ghost function Tally(rs: seq<Run>): multiset<nat> {
    if rs == [] then multiset{}
    else Tally(rs[..|rs| - 1]) + Repeat(rs[|rs| - 1].prime, rs[|rs| - 1].count)
  }

  /** rs lists the members of m in strictly ascending order, each once with its multiplicity. */
  ghost predicate IsRunLength(rs: seq<Run>, m: multiset<nat>) {
    Ascending(rs) && Positive(rs) && Tally(rs) == m
  }

  lemma TallyPush(rs: seq<Run>, r: Run)
    ensures Tally(rs + [r]) == Tally(rs) + Repeat(r.prime, r.count)
  {
    assert (rs + [r])[..|rs|] == rs;
  }

  lemma {:induction false} TallyBound(rs: seq<Run>, b: nat)
    requires forall i :: 0 <= i < |rs| ==> rs[i].prime < b
    ensures forall x :: x in Tally(rs) ==> x < b
  {
    if rs != [] { TallyBound(rs[..|rs| - 1], b); }
  }

  /** The last run carries the largest member and its full multiplicity. */
  lemma LastRun(rs: seq<Run>, m: multiset<nat>)
    requires IsRunLength(rs, m) && rs != []
    ensures var r := rs[|rs| - 1];
      && r.prime in m && m[r.prime] == r.count
      && (forall x :: x in m ==> x <= r.prime)
      && IsRunLength(rs[..|rs| - 1], m[r.prime := 0])
  {
    var r, init := rs[|rs| - 1], rs[..|rs| - 1];
    TallyBound(init, r.prime);
    assert Tally(init) == m[r.prime := 0];
  }

  /** Every run's prime is a member. */
  lemma {:induction false} RunsAreMembers(rs: seq<Run>, m: multiset<nat>)
    requires IsRunLength(rs, m)
    ensures forall i :: 0 <= i < |rs| ==> rs[i].prime in m
    decreases |rs|
  {
    if rs != [] {
      hide IsRunLength;
      LastRun(rs, m);
      RunsAreMembers(rs[..|rs| - 1], m[rs[|rs| - 1].prime := 0]);
    }
  }

  /** A multiset has exactly one run-length list. */
  lemma {:induction false} RunLengthUnique(rs: seq<Run>, ss: seq<Run>, m: multiset<nat>)
    requires IsRunLength(rs, m) && IsRunLength(ss, m)
    ensures rs == ss
    decreases |rs|
  {
    if rs == [] || ss == [] {
      if rs != [] { LastRun(rs, m); }
      if ss != [] { LastRun(ss, m); }
    } else {
      LastRun(rs, m);
      LastRun(ss, m);
      var p := rs[|rs| - 1].prime;
      RunLengthUnique(rs[..|rs| - 1], ss[..|ss| - 1], m[p := 0]);
      assert rs == rs[..|rs| - 1] + [rs[|rs| - 1]];
      assert ss == ss[..|ss| - 1] + [ss[|ss| - 1]];
    }
  }

  // ----- Text -----

  function RunText(r: Run): string {
    Numeral(r.prime) + "x" + Numeral(r.count)
  }

  function Join(parts: seq<string>): string {
    if parts == [] then ""
    else if |parts| == 1 then parts[0]
    else Join(parts[..|parts| - 1]) + " " + parts[|parts| - 1]
  }

  function Texts(rs: seq<Run>): (ts: seq<string>)
    ensures |ts| == |rs|
    ensures forall i :: 0 <= i < |rs| ==> ts[i] == RunText(rs[i])
  {
    seq(|rs|, i requires 0 <= i < |rs| => RunText(rs[i]))
  }

  function Text(rs: seq<Run>): string { Join(Texts(rs)) }

  lemma TextsPush(rs: seq<Run>, r: Run)
    ensures Texts(rs + [r]) == Texts(rs) + [RunText(r)]
  {
  }

  lemma TextStep(rs: seq<Run>)
    requires |rs| >= 2
    ensures Text(rs) == Text(rs[..|rs| - 1]) + " " + RunText(rs[|rs| - 1])
  {
    assert Texts(rs)[..|rs| - 1] == Texts(rs[..|rs| - 1]);
  }

  // ----- Different lists print differently -----

  lemma RunTextShape(r: Run)
    ensures |RunText(r)| >= 3 && ' ' !in RunText(r)
    ensures IsNumeral(RunText(r)[0])
  {
  }

  /** Splitting at the last occurrence of a separator is unambiguous. */
  lemma SplitLast(a: string, b: string, a': string, b': string, sep: char)
    requires a + [sep] + b == a' + [sep] + b'
    requires sep !in b && sep !in b'
    ensures a == a' && b == b'
  {
    if |a'| < |a| {
      SeparatorInside(a, b, a', b', sep);
    } else if |a| < |a'| {
      SeparatorInside(a', b', a, b, sep);
    } else {
      var s := a + [sep] + b;
      assert a == s[..|a|] == a' && b == s[|a| + 1..] == b';
    }
  }

  /** Where one split has the longer left part, the other's right part contains the separator. */
  lemma SeparatorInside(a: string, b: string, a': string, b': string, sep: char)
    requires a + [sep] + b == a' + [sep] + b'
    requires |a'| < |a|
    ensures sep in b'
  {
    var s := a + [sep] + b;
    assert s[|a|] == sep;
    assert s[|a|] == b'[|a| - |a'| - 1];
  }

  lemma RunTextInjective(r: Run, q: Run)
    requires RunText(r) == RunText(q)
    ensures r == q
  {
    SplitLast(Numeral(r.prime), Numeral(r.count), Numeral(q.prime), Numeral(q.count), 'x');
    NumeralInjective(r.prime, q.prime);
    NumeralInjective(r.count, q.count);
  }

  lemma TextSpace(rs: seq<Run>)
    ensures ' ' in Text(rs) <==> |rs| >= 2
    ensures Text(rs) == "" <==> rs == []
  {
    if |rs| >= 2 {
      TextStep(rs);
      assert Text(rs)[|Text(rs[..|rs| - 1])|] == ' ';
    } else if |rs| == 1 {
      RunTextShape(rs[0]);
    }
  }

  lemma {:induction false} TextInjective(rs: seq<Run>, ss: seq<Run>)
    requires Text(rs) == Text(ss)
    ensures rs == ss
    decreases |rs|
  {
    TextSpace(rs);
    TextSpace(ss);
    if |rs| == 1 {
      RunTextInjective(rs[0], ss[0]);
      assert rs == [rs[0]] && ss == [ss[0]];
    } else if |rs| >= 2 {
      hide Text, RunText;
      var r, q := rs[|rs| - 1], ss[|ss| - 1];
      TextStep(rs);
      TextStep(ss);
      RunTextShape(r);
      RunTextShape(q);
      SplitLast(Text(rs[..|rs| - 1]), RunText(r), Text(ss[..|ss| - 1]), RunText(q), ' ');
      RunTextInjective(r, q);
      TextInjective(rs[..|rs| - 1], ss[..|ss| - 1]);
      assert rs == rs[..|rs| - 1] + [r];
      assert ss == ss[..|ss| - 1] + [q];
    }
  }

  /** Different factor multisets have different answer strings. */
  lemma DistinctMultisetsPrintDistinctly(rs: seq<Run>, m: multiset<nat>, ss: seq<Run>, n: multiset<nat>)
    requires IsRunLength(rs, m) && IsRunLength(ss, n)
    ensures Text(rs) == Text(ss) <==> m == n
  {
    if m == n {
      RunLengthUnique(rs, ss, m);
    } else if Text(rs) == Text(ss) {
      TextInjective(rs, ss);
    }
  }
}
