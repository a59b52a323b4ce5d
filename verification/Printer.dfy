/** The server's answer printer. */
module Printer {
  import opened Decimal
  import opened Heap
  import opened Runs

  /** A factor of zero would be skipped by the printer. */
  ghost function NonZero(m: multiset<nat>): multiset<nat> { m[0 := 0] }

  /** `snprintf(buf, size, ...)`: writes at most size - 1 characters of the text. */
  function Truncated(size: nat, text: string): string
    requires size >= 1
  {
    if |text| < size then text else text[..size - 1]
  }

  /** Prints one run. The computed buffer size is exactly what the text needs. */
  method PrintRun(current: nat, count: nat) returns (str: string)
    requires current != 0 && count != 0
    ensures str == RunText(Run(current, count))
  {
    var currentDigits := CountDigits(current);
    var countDigits := CountDigits(count);
    var digits := currentDigits + countDigits + 2;
    str := Truncated(digits, RunText(Run(current, count)));
    assert |str| == digits - 1;
  }

  /** The pops so far are the finished runs plus the open one, and no smaller key remains. */
  ghost predicate Popping(runs: seq<Run>, current: nat, count: nat, total: multiset<nat>, left: multiset<nat>) {
    && left <= total
    && Ascending(runs) && Positive(runs)
    && (forall i :: 0 <= i < |runs| ==> 0 < runs[i].prime < current)
    && (current != 0 ==> count > 0)
    && (current == 0 ==> runs == [])
    && (forall k :: k in left ==> current <= k)
    && NonZero(total - left) == Tally(runs) + (if current == 0 then multiset{} else Repeat(current, count))
  }

  ghost function Close(runs: seq<Run>, current: nat, count: nat): seq<Run> {
    if current != 0 then runs + [Run(current, count)] else runs
  }

  lemma PopOne(runs: seq<Run>, current: nat, count: nat, total: multiset<nat>, left: multiset<nat>, v: nat)
    requires Popping(runs, current, count, total, left)
    requires v in left && forall k :: k in left ==> v <= k
    ensures v != current ==> Popping(Close(runs, current, count), v, 1, total, left - multiset{v})
    ensures v == current ==> Popping(runs, current, count + 1, total, left - multiset{v})
  {
    hide Tally, NonZero, Repeat;
    PopTally(total, left, v);
    RepeatOne(v, count);
    if v != current && current != 0 { TallyPush(runs, Run(current, count)); }
  }

  lemma PopTally(total: multiset<nat>, left: multiset<nat>, v: nat)
    requires left <= total && v in left
    ensures left - multiset{v} <= total
    ensures NonZero(total - (left - multiset{v}))
         == NonZero(total - left) + (if v == 0 then multiset{} else multiset{v})
  {
    assert total - (left - multiset{v}) == (total - left) + multiset{v};
  }

  lemma PopDone(runs: seq<Run>, current: nat, count: nat, total: multiset<nat>)
    requires Popping(runs, current, count, total, multiset{})
    ensures IsRunLength(Close(runs, current, count), NonZero(total))
  {
    assert total - multiset{} == total;
    if current != 0 { TallyPush(runs, Run(current, count)); }
  }

  /** The pop loop: the runs of the heap, each as text, in ascending order. */
  method CollectRuns(factors: PriorityHeap) returns (parts: seq<string>, ghost runs: seq<Run>)
    ensures IsRunLength(runs, NonZero(factors.keys))
    ensures parts == Texts(runs)
    ensures forall rs :: IsRunLength(rs, NonZero(factors.keys)) ==> parts == Texts(rs)
  {
    var clone := factors.Clone();
    ghost var total := factors.keys;
    parts, runs := [], [];
    var current, count := 0, 0;
    while clone.keys != multiset{}
      invariant fresh(clone) && factors.keys == total
      invariant Popping(runs, current, count, total, clone.keys)
      invariant parts == Texts(runs)
      decreases |clone.keys|
    {
      ghost var left := clone.keys;
      var value := clone.Pop();
      PopOne(runs, current, count, total, left, value);
      if current != value {
        if current != 0 {
          var str := PrintRun(current, count);
          TextsPush(runs, Run(current, count));
          parts := parts + [str];
          runs := runs + [Run(current, count)];
        }
        current := value;
        count := 1;
      } else {
        count := count + 1;
      }
    }
    PopDone(runs, current, count, total);
    if current != 0 && count != 0 {
      var str := PrintRun(current, count);
      TextsPush(runs, Run(current, count));
      parts := parts + [str];
      runs := runs + [Run(current, count)];
    }
    OnlyListing(runs, NonZero(factors.keys));
  }

  /** There is no other listing the output could be the text of. */
  lemma OnlyListing(runs: seq<Run>, m: multiset<nat>)
    requires IsRunLength(runs, m)
    ensures forall rs :: IsRunLength(rs, m) ==> rs == runs
  {
    forall rs | IsRunLength(rs, m) ensures rs == runs {
      RunLengthUnique(rs, runs, m);
    }
  }

  /** `memcpy(out + at, str, |str|)`. */
  method CopyInto(out: array<char>, at: nat, str: string)
    requires at + |str| <= out.Length
    modifies out
    ensures out[..at + |str|] == old(out[..at]) + str
    ensures out[at + |str|..] == old(out[at + |str|..])
  {
    for i := 0 to |str|
      invariant forall k :: at + |str| <= k < out.Length ==> out[k] == old(out[k])
      invariant out[..at] == old(out[..at])
      invariant out[at..at + i] == str[..i]
    {
      out[at + i] := str[i];
      assert out[at..at + i + 1] == out[at..at + i] + [str[i]];
    }
    assert out[..at + |str|] == out[..at] + out[at..at + |str|];
  }

  lemma JoinStep(parts: seq<string>, i: nat)
    requires i < |parts|
    ensures Join(parts[..i + 1]) == Join(parts[..i]) + (if i == 0 then "" else " ") + parts[i]
  {
    assert parts[..i + 1][..i] == parts[..i];
  }

  lemma {:induction false} JoinGrows(parts: seq<string>, i: nat, j: nat)
    requires i <= j <= |parts|
    ensures |Join(parts[..i])| <= |Join(parts[..j])|
    decreases j
  {
    if i < j {
      JoinGrows(parts, i, j - 1);
      JoinStep(parts, j - 1);
    }
  }

  /** The sizing loop: the joined length plus one for the terminator. */
  method MeasureParts(parts: seq<string>) returns (count: nat)
    ensures count == |Join(parts)| + 1
  {
    count := 0;
    var first := true;
    for i := 0 to |parts|
      invariant first <==> i == 0
      invariant count == |Join(parts[..i])|
    {
      JoinStep(parts, i);
      count := count + |parts[i]|;
      if first { first := false; } else { count := count + 1; }
    }
    count := count + 1;
    assert parts[..|parts|] == parts;
  }

  /** The filling loop writes exactly the measured buffer. */
  method FillParts(parts: seq<string>, count: nat) returns (out: array<char>)
    requires count == |Join(parts)| + 1
    ensures out[..] == Join(parts) + "\0"
  {
    hide Join;
    out := new char[count];
    var temp, first := 0, true;
    assert parts[..|parts|] == parts;
    JoinEmpty(parts);
    for i := 0 to |parts|
      invariant first <==> i == 0
      invariant temp == |Join(parts[..i])| < count == out.Length
      invariant out[..temp] == Join(parts[..i])
    {
      JoinStep(parts, i);
      JoinGrows(parts, i + 1, |parts|);
      if first {
        first := false;
      } else {
        CopyInto(out, temp, " ");
        temp := temp + 1;
      }
      CopyInto(out, temp, parts[i]);
      temp := temp + |parts[i]|;
    }
    out[count - 1] := '\0';
    assert out[..] == out[..count - 1] + [out[count - 1]];
  }

  lemma JoinEmpty(parts: seq<string>)
    ensures Join(parts[..0]) == ""
  {
  }

  /** `work_factors_factors_to_str2`: prints the heap's run-length text and a terminator into a
      buffer of exactly the computed size. */
  method FactorsToStr(factors: PriorityHeap) returns (out: array<char>, ghost runs: seq<Run>)
    ensures IsRunLength(runs, NonZero(factors.keys))
    ensures out[..] == Text(runs) + "\0"
    ensures forall rs :: IsRunLength(rs, NonZero(factors.keys)) ==> out[..] == Text(rs) + "\0"
  {
    var parts;
    parts, runs := CollectRuns(factors);
    var count := MeasureParts(parts);
    out := FillParts(parts, count);
    OnlyListing(runs, NonZero(factors.keys));
  }
}
