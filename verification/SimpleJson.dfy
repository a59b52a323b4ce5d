/** `parse_simple_json`: quoted keys and quoted values, everything between them skipped. */
module SimpleJson {
  import opened Runs

  datatype Mode = PreGetKey | GetKey | GetMiddle | PreGetValue | GetValue

  datatype State = State(mode: Mode, key: string, val: string, pairs: map<string, string>)

  datatype Scan = InvalidState | At(state: State)

  const INITIAL := State(PreGetKey, "", "", map[])

  function Emplace(m: map<string, string>, k: string, v: string): map<string, string> {
    if k in m then m else m[k := v]
  }

  function Step(st: State, c: char): Scan {
    match st.mode
    case PreGetKey => if c == '"' then At(st.(mode := GetKey)) else At(st)
    case GetKey =>
      if c == '"' then
        if st.key == "" then InvalidState else At(st.(mode := GetMiddle))
      else At(st.(key := st.key + [c]))
    case GetMiddle => if c == ':' then At(st.(mode := PreGetValue)) else At(st)
    case PreGetValue => if c == '"' then At(st.(mode := GetValue)) else At(st)
    case GetValue =>
      if c == '"' then
        if st.val == "" then InvalidState
        else At(State(PreGetKey, "", "", Emplace(st.pairs, st.key, st.val)))
      else At(st.(val := st.val + [c]))
  }

  function Run(st: State, s: string): Scan
    decreases |s|
  {
    if s == "" then At(st)
    else match Step(st, s[0])
      case InvalidState => InvalidState
      case At(next) => Run(next, s[1..])
  }

  method ParseSimpleJson(json: string) returns (ok: bool, pairs: map<string, string>)
    ensures match Run(INITIAL, json)
      case InvalidState => !ok && pairs == map[]
      case At(st) => ok && pairs == st.pairs
  {
    var st := INITIAL;
    for idx := 0 to |json|
      invariant Run(st, json[idx..]) == Run(INITIAL, json)
    {
      assert json[idx..][0] == json[idx] && json[idx..][1..] == json[idx + 1..];
      match Step(st, json[idx]) {
        case InvalidState => return false, map[];
        case At(next) => st := next;
      }
    }
    assert json[|json|..] == "";
    return true, st.pairs;
  }

  lemma {:induction false} RunConcat(st: State, a: string, b: string)
    ensures Run(st, a + b) == match Run(st, a) case InvalidState => InvalidState case At(mid) => Run(mid, b)
    decreases |a|
  {
    hide Step;
    if a == "" {
      assert a + b == b;
    } else {
      assert (a + b)[1..] == a[1..] + b;
      if Step(st, a[0]).At? { RunConcat(Step(st, a[0]).state, a[1..], b); }
    }
  }

  /** Text without quotes is collected verbatim. */
  lemma {:induction false} CollectKey(st: State, k: string)
    requires st.mode == GetKey && '"' !in k
    ensures Run(st, k) == At(st.(key := st.key + k))
    decreases |k|
  {
    if k == "" {
      assert st.key + k == st.key;
    } else {
      CollectKey(st.(key := st.key + [k[0]]), k[1..]);
      assert st.key + [k[0]] + k[1..] == st.key + k;
    }
  }

  lemma {:induction false} CollectValue(st: State, v: string)
    requires st.mode == GetValue && '"' !in v
    ensures Run(st, v) == At(st.(val := st.val + v))
    decreases |v|
  {
    if v == "" {
      assert st.val + v == st.val;
    } else {
      CollectValue(st.(val := st.val + [v[0]]), v[1..]);
      assert st.val + [v[0]] + v[1..] == st.val + v;
    }
  }

  lemma {:induction false} Skip(st: State, t: string)
    requires (st.mode == PreGetKey || st.mode == PreGetValue) ==> '"' !in t
    requires st.mode == GetMiddle ==> ':' !in t
    requires st.mode != GetKey && st.mode != GetValue
    ensures Run(st, t) == At(st)
  {
    if t != "" { Skip(st, t[1..]); }
  }

  /** A member of an object with whatever stands before it, before its colon and after it. */
  datatype Entry = Entry(lead: string, key: string, middle: string, gap: string, value: string)

  function Render(e: Entry): string {
    e.lead + ("\"" + (e.key + ("\"" + (e.middle + (":" + (e.gap + ("\"" + (e.value + "\""))))))))
  }

  /** No quotes where they would be taken for delimiters, and no early colon. */
  predicate Plain(e: Entry) {
    '"' !in e.lead && '"' !in e.key && ':' !in e.middle && '"' !in e.gap && '"' !in e.value
  }

  /** A member is read whatever the spacing; an empty key or value is an error. */
  lemma RunEntry(e: Entry, pairs: map<string, string>)
    requires Plain(e)
    ensures Run(State(PreGetKey, "", "", pairs), Render(e)) ==
      if e.key == "" || e.value == "" then InvalidState
      else At(State(PreGetKey, "", "", Emplace(pairs, e.key, e.value)))
  {
    hide Run, Emplace;
    var s0 := State(PreGetKey, "", "", pairs);
    var rest := "\"" + (e.middle + (":" + (e.gap + ("\"" + (e.value + "\"")))));
    RunConcat(s0, e.lead, "\"" + (e.key + rest));
    Skip(s0, e.lead);
    RunConcat(s0, "\"", e.key + rest);
    RunOne(s0, '"');
    var s1 := s0.(mode := GetKey);
    RunConcat(s1, e.key, rest);
    CollectKey(s1, e.key);
    assert "" + e.key == e.key;
    RunValue(s1.(key := e.key), e);
  }

  /** From the closing quote of the key to that of the value. */
  lemma RunValue(st: State, e: Entry)
    requires Plain(e) && st.mode == GetKey && st.key == e.key && st.val == ""
    ensures Run(st, "\"" + (e.middle + (":" + (e.gap + ("\"" + (e.value + "\"")))))) ==
      if e.key == "" || e.value == "" then InvalidState
      else At(State(PreGetKey, "", "", Emplace(st.pairs, e.key, e.value)))
  {
    hide Run, Emplace;
    var last := "\"" + (e.value + "\"");
    RunConcat(st, "\"", e.middle + (":" + (e.gap + last)));
    RunOne(st, '"');
    if e.key != "" {
      var s2 := st.(mode := GetMiddle);
      RunConcat(s2, e.middle, ":" + (e.gap + last));
      Skip(s2, e.middle);
      RunConcat(s2, ":", e.gap + last);
      RunOne(s2, ':');
      var s3 := st.(mode := PreGetValue);
      RunConcat(s3, e.gap, last);
      Skip(s3, e.gap);
      RunConcat(s3, "\"", e.value + "\"");
      RunOne(s3, '"');
      var s4 := st.(mode := GetValue);
      RunConcat(s4, e.value, "\"");
      CollectValue(s4, e.value);
      assert "" + e.value == e.value;
      RunOne(s4.(val := e.value), '"');
    }
  }

  function RenderAll(es: seq<Entry>): string {
    if es == [] then "" else RenderAll(es[..|es| - 1]) + Render(es[|es| - 1])
  }

  /** The pairs of a list of members; the first of two members with the same key counts. */
  function Pairs(es: seq<Entry>): map<string, string> {
    if es == [] then map[] else Emplace(Pairs(es[..|es| - 1]), es[|es| - 1].key, es[|es| - 1].value)
  }

  /** Every object of string members is read, whatever its spacing, and whatever follows without a quote. */
  lemma {:induction false} ObjectRead(es: seq<Entry>, tail: string)
    requires forall i :: 0 <= i < |es| ==> Plain(es[i]) && es[i].key != "" && es[i].value != ""
    requires '"' !in tail
    ensures Run(INITIAL, RenderAll(es) + tail) == At(State(PreGetKey, "", "", Pairs(es)))
    decreases |es|
  {
    hide Run, Render, Emplace, Plain;
    var st := State(PreGetKey, "", "", Pairs(es));
    Skip(st, tail);
    RunConcat(INITIAL, RenderAll(es), tail);
    if es == [] {
      Skip(INITIAL, "");
    } else {
      var front, e := es[..|es| - 1], es[|es| - 1];
      ObjectRead(front, "");
      assert RenderAll(front) + "" == RenderAll(front);
      RunConcat(INITIAL, RenderAll(front), Render(e));
      RunEntry(e, Pairs(front));
    }
  }

  lemma RunOne(st: State, c: char)
    ensures Run(st, [c]) == Step(st, c)
  {
    hide Step;
    assert [c][1..] == "";
  }

  /** One member as `JSON.stringify` writes it, after a separator character. */
  function Member(sep: char, k: string, v: string): string {
    [sep, '"'] + (k + ("\":\"" + (v + "\"")))
  }

  lemma RunMember(sep: char, k: string, v: string, pairs: map<string, string>)
    requires sep != '"' && '"' !in k && '"' !in v && k != ""
    ensures Run(State(PreGetKey, "", "", pairs), Member(sep, k, v)) ==
      if v == "" then InvalidState else At(State(PreGetKey, "", "", Emplace(pairs, k, v)))
  {
    hide Run, Emplace;
    var e := Entry([sep], k, "", "", v);
    assert Member(sep, k, v) == Render(e);
    RunEntry(e, pairs);
  }

  /** The object the solver posts. */
  function Posted(id: string, factors: string): string {
    Member('{', "type", "factors") + (Member(',', "id", id) + (Member(',', "factors", factors) + "}"))
  }

  /** The posted object parses back to its three members; an empty id or answer is an error. */
  lemma PostedSurvives(id: string, factors: string)
    requires '"' !in id && '"' !in factors
    ensures Run(INITIAL, Posted(id, factors)) ==
      if id == "" || factors == "" then InvalidState
      else At(State(PreGetKey, "", "", map["type" := "factors", "id" := id, "factors" := factors]))
  {
    hide Run, Member;
    var m1, m2, m3 := Member('{', "type", "factors"), Member(',', "id", id), Member(',', "factors", factors);
    var p1 := map["type" := "factors"];
    assert "type" != "id" && "type" != "factors" && "id" != "factors" by {
      assert |"type"| == 4 && |"id"| == 2 && |"factors"| == 7;
    }
    RunConcat(INITIAL, m1, m2 + (m3 + "}"));
    RunMember('{', "type", "factors", map[]);
    assert Emplace(map[], "type", "factors") == p1;
    var s1 := State(PreGetKey, "", "", p1);
    RunConcat(s1, m2, m3 + "}");
    RunMember(',', "id", id, p1);
    if id != "" {
      var p2 := p1["id" := id];
      assert Emplace(p1, "id", id) == p2;
      var s2 := State(PreGetKey, "", "", p2);
      RunConcat(s2, m3, "}");
      RunMember(',', "factors", factors, p2);
      if factors != "" {
        var p3 := p2["factors" := factors];
        assert Emplace(p2, "factors", factors) == p3;
        RunOne(State(PreGetKey, "", "", p3), '}');
        assert p3 == map["type" := "factors", "id" := id, "factors" := factors];
      }
    }
  }

  lemma {:induction false} TextHasNoQuote(rs: seq<Runs.Run>)
    ensures '"' !in Text(rs)
  {
    if |rs| == 1 {
      assert '"' !in RunText(rs[0]);
    } else if |rs| > 1 {
      TextStep(rs);
      TextHasNoQuote(rs[..|rs| - 1]);
      assert '"' !in RunText(rs[|rs| - 1]);
    }
  }

  /** Every printed non-empty answer reaches the server unchanged. */
  lemma AnswerSurvives(id: string, rs: seq<Runs.Run>)
    requires '"' !in id && id != "" && rs != []
    ensures var r := Run(INITIAL, Posted(id, Text(rs)));
      r.At? && r.state.pairs == map["type" := "factors", "id" := id, "factors" := Text(rs)]
  {
    TextHasNoQuote(rs);
    TextSpace(rs);
    PostedSurvives(id, Text(rs));
  }
}
