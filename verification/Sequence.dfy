/** `get_next_seq_id` on MySQL: sessions drawing numbers from a one-row table under a table lock. */
module Sequence {
  import opened Common

  type Sid = nat

  /** From this number on the table is reset to 1 instead of being incremented. */
  const LAST := 0xFFFF_FFFF_FFFF_FFFF - 1

  datatype Row = Row(id: nat, seqId: nat)

  datatype Pc =
    | Locking
    | Selecting
    | Trimming(extra: seq<Row>, last: Row)
    | Adding
    | Updating(seqId: nat)
    | Unlocking(result: Option<nat>)
    | Returned(result: Option<nat>)

  datatype Draw = Draw(who: Sid, number: nat)

  /** `issued` lists, in order, the numbers whose successor was written, and for whom. */
  datatype State = State(rows: seq<Row>, lock: Option<Sid>, sessions: map<Sid, Pc>, issued: seq<Draw>)

  ghost predicate Init(s: State) { s == State([], None, map[], []) }

  function Successor(seqId: nat): nat { if seqId >= LAST then 1 else seqId + 1 }

  function SetAll(rows: seq<Row>, v: nat): (r: seq<Row>)
    ensures |r| == |rows| && forall i :: 0 <= i < |r| ==> r[i] == Row(rows[i].id, v)
  {
    seq(|rows|, i requires 0 <= i < |rows| => Row(rows[i].id, v))
  }

  function DeleteId(rows: seq<Row>, id: nat): seq<Row> {
    if rows == [] then [] else (if rows[0].id == id then [] else [rows[0]]) + DeleteId(rows[1..], id)
  }

  function Go(s: State, x: Sid, pc: Pc): State { s.(sessions := s.sessions[x := pc]) }

  /** One statement of session x; `rowId` is the database's auto-increment choice. */
  ghost predicate SessionStep(s: State, s': State, x: Sid, rowId: nat)
    requires x in s.sessions
  {
    match s.sessions[x]
    case Locking =>
      || (s.lock == None && s' == Go(s, x, Selecting).(lock := Some(x)))
      || s' == Go(s, x, Returned(None))
    case Selecting =>
      || s' == Go(s, x,
           if s.rows == [] then Adding
           else if |s.rows| > 1 then Trimming(s.rows[..|s.rows| - 1], s.rows[|s.rows| - 1])
           else Updating(s.rows[0].seqId))
      || s' == Go(s, x, Unlocking(None))
    case Trimming(extra, last) =>
      // The outcome of each DELETE is ignored.
      if extra == [] then s' == Go(s, x, Updating(last.seqId))
      else
        || s' == Go(s, x, Trimming(extra[1..], last)).(rows := DeleteId(s.rows, extra[0].id))
        || s' == Go(s, x, Trimming(extra[1..], last))
    case Adding =>
      || s' == Go(s, x, Unlocking(Some(0))).(rows := s.rows + [Row(rowId, 1)], issued := s.issued + [Draw(x, 0)])
      || s' == Go(s, x, Unlocking(None))
    case Updating(seqId) =>
      || s' == Go(s, x, Unlocking(Some(seqId)))
           .(rows := SetAll(s.rows, Successor(seqId)), issued := s.issued + [Draw(x, seqId)])
      || s' == Go(s, x, Unlocking(None))
    case Unlocking(result) => s' == Go(s, x, Returned(result)).(lock := None)
    case Returned(_) => false
  }

  datatype Event = Begin(x: Sid) | Step(x: Sid, rowId: nat) | Lose(x: Sid)

  ghost predicate Next(s: State, s': State, e: Event) {
    match e
    case Begin(x) => x !in s.sessions && s' == Go(s, x, Locking)
    case Step(x, rowId) => x in s.sessions && SessionStep(s, s', x, rowId)
    case Lose(x) =>
      && x in s.sessions
      && s' == Go(s, x, Returned(None)).(lock := if s.lock == Some(x) then None else s.lock)
  }

  ghost predicate Run(states: seq<State>, events: seq<Event>) {
    && |states| == |events| + 1 && Init(states[0])
    && forall i :: 0 <= i < |events| ==> Next(states[i], states[i + 1], events[i])
  }

  /** The k-th number: 0, 1, ..., LAST, then round again from 1. */
  function NumberAt(k: nat): nat { if k == 0 then 0 else (k - 1) % LAST + 1 }

  lemma NumberSuccessor(k: nat)
    ensures NumberAt(k + 1) == Successor(NumberAt(k))
  {
    if k > 0 {
      ModStep(k - 1, LAST);
    }
  }

  lemma ModStep(n: nat, m: nat)
    requires m > 1
    ensures (n + 1) % m == if n % m == m - 1 then 0 else n % m + 1
  {
    var q, r := n / m, n % m;
    assert n == m * q + r;
    if r == m - 1 {
      assert n + 1 == m * (q + 1);
      ModUnique(m, n + 1, q + 1, 0);
    } else {
      ModUnique(m, n + 1, q, r + 1);
    }
  }

  predicate HoldsLock(pc: Pc) { pc.Selecting? || pc.Trimming? || pc.Adding? || pc.Updating? || pc.Unlocking? }

  /** The table holds the next number; the lock serializes the sessions. */
  ghost predicate Inv(s: State) {
    && (forall k :: 0 <= k < |s.issued| ==> s.issued[k].number == NumberAt(k))
    && (if s.issued == [] then s.rows == [] else |s.rows| == 1 && s.rows[0].seqId == NumberAt(|s.issued|))
    && (s.lock.Some? ==> s.lock.value in s.sessions && HoldsLock(s.sessions[s.lock.value]))
    && (forall x :: x in s.sessions && HoldsLock(s.sessions[x]) ==> s.lock == Some(x))
    && (forall x :: x in s.sessions ==> Informed(s, s.sessions[x]))
  }

  /** What a session has read still stands when it writes. */
  ghost predicate Informed(s: State, pc: Pc) {
    match pc
    case Adding => s.issued == []
    case Updating(seqId) => s.issued != [] && seqId == NumberAt(|s.issued|)
    case Trimming(_, _) => false
    case _ => true
  }

  function ResultOf(pc: Pc): Option<nat> {
    if pc.Unlocking? || pc.Returned? then pc.result else None
  }

  /** A session that has a number drew it. */
  ghost predicate Drawn(s: State) {
    forall x :: x in s.sessions && ResultOf(s.sessions[x]).Some? ==> Drew(s.issued, x, ResultOf(s.sessions[x]).value)
  }

  ghost predicate Drew(issued: seq<Draw>, x: Sid, v: nat) { Draw(x, v) in issued }

  lemma NextKeepsDrawn(s: State, s': State, e: Event)
    requires Drawn(s) && Next(s, s', e)
    ensures Drawn(s')
  {
    hide Successor, SetAll, DeleteId;
  }

  lemma StepKeepsInv(s: State, s': State, x: Sid, rowId: nat)
    requires Inv(s) && x in s.sessions && SessionStep(s, s', x, rowId)
    ensures Inv(s')
  {
    hide Inv, SessionStep;
    match s.sessions[x] {
      case Locking => LockingKeepsInv(s, s', x, rowId);
      case Selecting => SelectingKeepsInv(s, s', x, rowId);
      case Trimming(_, _) => NeverTrims(s, x);
      case Adding => AddingKeepsInv(s, s', x, rowId);
      case Updating(_) => UpdatingKeepsInv(s, s', x, rowId);
      case Unlocking(_) => UnlockingKeepsInv(s, s', x, rowId);
      case Returned(_) => ReturnedIsOver(s, s', x, rowId);
    }
  }

  lemma LockingKeepsInv(s: State, s': State, x: Sid, rowId: nat)
    requires Inv(s) && x in s.sessions && SessionStep(s, s', x, rowId) && s.sessions[x].Locking?
    ensures Inv(s')
  {
    hide NumberAt;
  }

  lemma SelectingKeepsInv(s: State, s': State, x: Sid, rowId: nat)
    requires Inv(s) && x in s.sessions && SessionStep(s, s', x, rowId) && s.sessions[x].Selecting?
    ensures Inv(s')
  {
    hide NumberAt;
  }

  lemma NeverTrims(s: State, x: Sid)
    requires Inv(s) && x in s.sessions
    ensures !s.sessions[x].Trimming?
  {
    hide NumberAt;
    assert Informed(s, s.sessions[x]);
  }

  lemma AddingKeepsInv(s: State, s': State, x: Sid, rowId: nat)
    requires Inv(s) && x in s.sessions && SessionStep(s, s', x, rowId) && s.sessions[x].Adding?
    ensures Inv(s')
  {
    hide NumberAt;
    assert Informed(s, s.sessions[x]);
    FirstNumbers();
  }

  lemma UpdatingKeepsInv(s: State, s': State, x: Sid, rowId: nat)
    requires Inv(s) && x in s.sessions && SessionStep(s, s', x, rowId) && s.sessions[x].Updating?
    ensures Inv(s')
  {
    hide NumberAt, Successor;
    assert Informed(s, s.sessions[x]);
    NumberSuccessor(|s.issued|);
  }

  lemma UnlockingKeepsInv(s: State, s': State, x: Sid, rowId: nat)
    requires Inv(s) && x in s.sessions && SessionStep(s, s', x, rowId) && s.sessions[x].Unlocking?
    ensures Inv(s')
  {
    hide NumberAt;
  }

  lemma ReturnedIsOver(s: State, s': State, x: Sid, rowId: nat)
    requires x in s.sessions && s.sessions[x].Returned?
    ensures !SessionStep(s, s', x, rowId)
  {
  }

  lemma FirstNumbers()
    ensures NumberAt(0) == 0 && NumberAt(1) == 1
  {
  }

  lemma NextKeepsInv(s: State, s': State, e: Event)
    requires Inv(s) && Next(s, s', e)
    ensures Inv(s')
  {
    hide NumberAt, SessionStep;
    match e {
      case Step(x, rowId) =>
        hide Inv;
        StepKeepsInv(s, s', x, rowId);
      case _ =>
    }
  }

  lemma {:induction false} RunKeepsInv(states: seq<State>, events: seq<Event>, i: nat)
    requires Run(states, events) && i < |states|
    ensures Inv(states[i]) && Drawn(states[i])
  {
    if i > 0 {
      hide Next, Inv, Drawn;
      RunKeepsInv(states, events, i - 1);
      NextKeepsInv(states[i - 1], states[i], events[i - 1]);
      NextKeepsDrawn(states[i - 1], states[i], events[i - 1]);
    }
  }

  /** In every reachable state the table has at most one row, and the k-th number handed out is k until
      the wrap-around at 2^64 - 2, after which the numbers 1 to 2^64 - 2 repeat in order. */
  lemma SequenceIsExact(states: seq<State>, events: seq<Event>, i: nat)
    requires Run(states, events) && i < |states|
    ensures |states[i].rows| <= 1
    ensures forall k :: 0 <= k < |states[i].issued| ==> states[i].issued[k].number == NumberAt(k)
    ensures forall x :: x in states[i].sessions && states[i].sessions[x].Returned? ==> states[i].lock != Some(x)
  {
    RunKeepsInv(states, events, i);
  }

  /** Before the wrap-around no two calls return the same number. */
  lemma NumbersAreDistinct(states: seq<State>, events: seq<Event>, i: nat, x: Sid, y: Sid, v: nat)
    requires Run(states, events) && i < |states| && |states[i].issued| <= LAST + 1
    requires x in states[i].sessions && states[i].sessions[x] == Returned(Some(v))
    requires y in states[i].sessions && states[i].sessions[y] == Returned(Some(v))
    ensures x == y
  {
    hide Inv, Run, NumberAt;
    RunKeepsInv(states, events, i);
    SequenceIsExact(states, events, i);
    var issued := states[i].issued;
    assert Drew(issued, x, v) && Drew(issued, y, v);
    var j :| 0 <= j < |issued| && issued[j] == Draw(x, v);
    var k :| 0 <= k < |issued| && issued[k] == Draw(y, v);
    EarlyNumber(j);
    EarlyNumber(k);
  }

  lemma EarlyNumber(k: nat)
    requires k <= LAST
    ensures NumberAt(k) == k
  {
    if k > 0 { ModUnique(LAST, k - 1, 0, k - 1); }
  }
}
