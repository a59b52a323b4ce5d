/** The order of matches, deletions and acceptances of one challenge on MySQL: what a failed DELETE allows,
    and what it does not. */
module GateMatches {
  import opened Gate
  import opened GateLocks
  import opened GateOneShot

  // ----- Matches -----

  /** The program counter between a session's SELECT of challenge u and its DELETE. */
  predicate Matched(pc: Pc, u: Uid) { pc.Answering? && pc.a.VDelete? && pc.a.row.uid == u }

  /** Event i is the statement with which session x selects the row of challenge u. */
  ghost predicate Matches(states: seq<State>, events: seq<Event>, i: nat, x: Sid, u: Uid)
    requires |states| == |events| + 1
  {
    i < |events| && events[i].Step? && events[i].sid == x && Matched(events[i].m.pc, u)
  }

  /** Past the match of challenge u, not accepted yet. */
  predicate Pursues(pc: Pc, u: Uid) {
    pc.Answering? && (pc.a.VDelete? || pc.a.VUnlock? || pc.a.VInsert?) && pc.a.row.uid == u
  }

  /** Session x has matched challenge u, and is on its way or accepted. */
  ghost predicate Took(s: State, x: Sid, u: Uid) {
    || (x in s.sessions && Pursues(s.sessions[x].pc, u))
    || (x in s.d.h.accepted && s.d.h.accepted[x].chal == u)
  }

  // ----- What one event does to a session and to the histories of challenges -----

  /** How an answering session goes on: what it pursues it has matched, it spends and is accepted for what it
      matched, and it deletes once. */
  ghost predicate Goes(pc: Pc, m: Move) {
    && (forall u :: Pursues(m.pc, u) ==> Matched(m.pc, u) || Pursues(pc, u))
    && (m.data.InsertAllow? ==> Pursues(pc, m.data.row.chal))
    && (m.data.SpendChallenge? ==> Matched(pc, m.data.uid))
    && (CanSpend(m.pc) ==> CanSpend(pc) && !(pc.Answering? && pc.a.VDelete?))
  }

  ghost predicate Effect(s: State, s': State, e: Event) {
    match e
    case Step(x, _, m) =>
      && x in s.sessions && Goes(s.sessions[x].pc, m)
      && s'.sessions == s.sessions[x := Session(s.sessions[x].req, m.pc)]
      && s'.d.h.spent == (if m.data.SpendChallenge? then s.d.h.spent[x := m.data.uid] else s.d.h.spent)
      && s'.d.h.accepted == (if m.data.InsertAllow? then s.d.h.accepted[x := m.data.row] else s.d.h.accepted)
    case Begin(x, req, pc) =>
      && x !in s.sessions && (forall u :: !Pursues(pc, u)) && s'.sessions == s.sessions[x := Session(req, pc)]
      && s'.d.h.spent == s.d.h.spent && s'.d.h.accepted == s.d.h.accepted
    case _ => s'.sessions == s.sessions && s'.d.h.spent == s.d.h.spent && s'.d.h.accepted == s.d.h.accepted
  }

  lemma NextHasEffect(c: Config, s: State, s': State, e: Event)
    requires c.backend == MySql && Next(c, s, s', e)
    ensures Effect(s, s', e)
  {
    hide SessionMove, ApplyLocks, ApplyReaders, ApplyData, Goes;
    match e {
      case Step(x, choice, m) =>
        HistoryFrame(c, s.now, s.d, x, m.data);
        MoveGoes(c, s.now, s.d, s.sessions[x], choice, m);
      case _ =>
    }
  }

  lemma MoveGoes(c: Config, now: Time, d: Data, x: Session, choice: string, m: Move)
    requires c.backend == MySql && (SessionMove(c, now, d, x, choice, m) || m == LOST)
    ensures Goes(x.pc, m)
  {
    hide SessionMove, Holds, TouchesChallenges;
    MovesAreChalMoves(c, now, d, x, choice, m);
    if x.pc.Answering? && x.pc.a.VDelete? {
      DeleteSettles(c, now, d, x, choice, m);
    }
  }

  /** The statement after a match is the session's only DELETE. */
  lemma DeleteSettles(c: Config, now: Time, d: Data, x: Session, choice: string, m: Move)
    requires x.pc.Answering? && x.pc.a.VDelete? && (SessionMove(c, now, d, x, choice, m) || m == LOST)
    ensures !CanSpend(m.pc)
  {
    hide Key, IsAllowed;
  }

  lemma StepTakes(s: State, s': State, e: Event, x: Sid, u: Uid)
    requires Effect(s, s', e) && Took(s', x, u) && !Took(s, x, u)
    ensures e.Step? && e.sid == x && Matched(e.m.pc, u)
  {
  }

  /** Whoever took a challenge matched it at some event. */
  lemma {:induction false} TookMatched(c: Config, states: seq<State>, events: seq<Event>, k: nat, x: Sid, u: Uid)
    returns (i: nat)
    requires c.backend == MySql && Run(c, states, events) && k < |states| && Took(states[k], x, u)
    ensures i < k && Matches(states, events, i, x, u)
  {
    hide Took, Next, Effect;
    if k == 0 {
      StartTakesNothing(c, states[0], x, u);
    } else if Took(states[k - 1], x, u) {
      i := TookMatched(c, states, events, k - 1, x, u);
    } else {
      NextHasEffect(c, states[k - 1], states[k], events[k - 1]);
      StepTakes(states[k - 1], states[k], events[k - 1], x, u);
      i := k - 1;
    }
  }

  lemma StartTakesNothing(c: Config, s: State, x: Sid, u: Uid)
    requires Init(s)
    ensures !Took(s, x, u)
  {
  }

  // ----- Spent challenges -----

  lemma StepKeepsSpent(s: State, s': State, e: Event, x: Sid)
    requires Effect(s, s', e) && x in s.d.h.spent
    requires x in s.sessions && !CanSpend(s.sessions[x].pc)
    ensures x in s'.d.h.spent && s'.d.h.spent[x] == s.d.h.spent[x]
  {
  }

  lemma {:induction false} SpentStays(c: Config, states: seq<State>, events: seq<Event>, i: nat, j: nat, x: Sid)
    requires c.backend == MySql && Run(c, states, events) && i <= j < |states| && x in states[i].d.h.spent
    ensures x in states[j].d.h.spent && states[j].d.h.spent[x] == states[i].d.h.spent[x]
    decreases j
  {
    hide Next, TokenInv, Effect, ChalData, AcceptData, Selected, CanSpend, CanAccept;
    if i < j {
      SpentStays(c, states, events, i, j - 1, x);
      RunKeepsOneShot(c, states, events, j - 1);
      NextHasEffect(c, states[j - 1], states[j], events[j - 1]);
      StepKeepsSpent(states[j - 1], states[j], events[j - 1], x);
    }
  }

  /** The row a session selects is in the table. */
  lemma MatchSelects(c: Config, s: State, s': State, e: Event, x: Sid, u: Uid)
    requires c.backend == MySql && Next(c, s, s', e) && e.Step? && e.sid == x && Matched(e.m.pc, u)
    ensures x in s.sessions && s.sessions[x].pc.Answering? && s.sessions[x].pc.a.VSelect?
    ensures exists id :: id in s.d.chals && s.d.chals[id].uid == u
    ensures s'.sessions == s.sessions[x := Session(s.sessions[x].req, e.m.pc)] && s'.d == s.d
  {
    hide SessionMove, ApplyLocks, ApplyReaders, TouchesChallenges, CanSpend, CanAccept;
    MovesAreChalMoves(c, s.now, s.d, s.sessions[x], e.choice, e.m);
  }

  /** Once the DELETE of a challenge has executed, no later statement matches that challenge. */
  lemma SpentNeverMatched(c: Config, states: seq<State>, events: seq<Event>, i: nat, j: nat, x: Sid, y: Sid)
    requires c.backend == MySql && Run(c, states, events) && i <= j < |events| && x in states[i].d.h.spent
    ensures !Matches(states, events, j, y, states[i].d.h.spent[x])
    ensures forall id :: id in states[j].d.chals ==> states[j].d.chals[id].uid != states[i].d.h.spent[x]
  {
    hide Next, TokenInv, Selected, AcceptData;
    var u := states[i].d.h.spent[x];
    SpentStays(c, states, events, i, j, x);
    RunKeepsOneShot(c, states, events, j);
    assert forall id :: id in states[j].d.chals ==> id in ChalUids(states[j].d.chals);
    assert Next(c, states[j], states[j + 1], events[j]);
    if Matches(states, events, j, y, u) {
      MatchSelects(c, states[j], states[j + 1], events[j], y, u);
    }
  }

  // ----- The earlier match -----

  /** Session x is past its one DELETE without having spent anything. */
  ghost predicate Missed(s: State, x: Sid) {
    x in s.sessions && !CanSpend(s.sessions[x].pc) && x !in s.d.h.spent
  }

  lemma StepKeepsMissed(s: State, s': State, e: Event, x: Sid)
    requires Effect(s, s', e) && Missed(s, x)
    ensures Missed(s', x)
  {
  }

  lemma {:induction false} MissedStays(c: Config, states: seq<State>, events: seq<Event>, i: nat, j: nat, x: Sid)
    requires c.backend == MySql && Run(c, states, events) && i <= j < |states| && Missed(states[i], x)
    ensures Missed(states[j], x)
    decreases j
  {
    hide Next, Missed, Effect;
    if i < j {
      MissedStays(c, states, events, i, j - 1, x);
      NextHasEffect(c, states[j - 1], states[j], events[j - 1]);
      StepKeepsMissed(states[j - 1], states[j], events[j - 1], x);
    }
  }

  /** After its match of challenge u a session is before its DELETE, or has spent u, or has missed. */
  ghost predicate MatchedOrSettled(s: State, x: Sid, u: Uid) {
    || (x in s.sessions && Matched(s.sessions[x].pc, u) && x !in s.d.h.spent)
    || (x in s.d.h.spent && s.d.h.spent[x] == u)
    || Missed(s, x)
  }

  lemma StepKeepsSettled(s: State, s': State, e: Event, x: Sid, u: Uid)
    requires Effect(s, s', e) && MatchedOrSettled(s, x, u)
    requires x in s.d.h.spent ==> x in s.sessions && !CanSpend(s.sessions[x].pc)
    ensures MatchedOrSettled(s', x, u)
  {
  }

  lemma {:induction false} SettledStays(
    c: Config, states: seq<State>, events: seq<Event>, i: nat, j: nat, x: Sid, u: Uid)
    requires c.backend == MySql && Run(c, states, events) && i <= j < |states| && MatchedOrSettled(states[i], x, u)
    ensures MatchedOrSettled(states[j], x, u)
    decreases j
  {
    hide Next, MatchedOrSettled, TokenInv, Effect, ChalData, AcceptData, Selected, CanSpend, CanAccept;
    if i < j {
      SettledStays(c, states, events, i, j - 1, x, u);
      RunKeepsOneShot(c, states, events, j - 1);
      NextHasEffect(c, states[j - 1], states[j], events[j - 1]);
      StepKeepsSettled(states[j - 1], states[j], events[j - 1], x, u);
    }
  }

  /** Of two sessions that match the same challenge, the earlier one's DELETE fails for good. */
  lemma EarlierMatchMisses(
    c: Config, states: seq<State>, events: seq<Event>, i: nat, j: nat, k: nat, x: Sid, y: Sid, u: Uid)
    requires c.backend == MySql && Run(c, states, events) && i < j < k < |states| && x != y
    requires Matches(states, events, i, x, u) && Matches(states, events, j, y, u)
    ensures x !in states[k].d.h.spent
    ensures x in states[k].d.h.accepted ==> !states[k].d.h.accepted[x].deleted
  {
    hide Next, TokenInv, ChalInv, LockInv, MatchedOrSettled, Missed;
    assert Next(c, states[i], states[i + 1], events[i]);
    assert Next(c, states[j], states[j + 1], events[j]);
    RunKeepsOneShot(c, states, events, i);
    MatchSelects(c, states[i], states[i + 1], events[i], x, u);
    MatchSettles(c, states[i], states[i + 1], x, states[i].sessions[x].req, events[i].m.pc, u);
    SettledStays(c, states, events, i + 1, j, x, u);
    RunKeepsOneShot(c, states, events, j);
    RunKeepsLocks(c, states, events, j);
    MatchSelects(c, states[j], states[j + 1], events[j], y, u);
    MatchExcludes(c, states[j], x, y, u);
    MissedStays(c, states, events, j, k, x);
    RunKeepsOneShot(c, states, events, k);
    MissedNotDeleted(c, states[k], x);
  }

  predicate Selecting(s: State, x: Sid) {
    x in s.sessions && s.sessions[x].pc.Answering? && s.sessions[x].pc.a.VSelect?
  }

  lemma MatchSettles(c: Config, s: State, s': State, x: Sid, req: Req, pc: Pc, u: Uid)
    requires ChalInv(c, s) && Selecting(s, x) && Matched(pc, u)
    requires s'.sessions == s.sessions[x := Session(req, pc)] && s'.d == s.d
    ensures MatchedOrSettled(s', x, u)
  {
    hide ChalData, AcceptData, Selected;
  }

  /** While y selects u, x is no longer before its DELETE and has not spent u. */
  lemma MatchExcludes(c: Config, s: State, x: Sid, y: Sid, u: Uid)
    requires c.backend == MySql && ChalInv(c, s) && LockInv(c, s) && x != y && Selecting(s, y)
    requires exists id :: id in s.d.chals && s.d.chals[id].uid == u
    requires MatchedOrSettled(s, x, u)
    ensures Missed(s, x)
  {
    hide LockInv, AcceptData, Selected, Missed;
    assert forall id :: id in s.d.chals ==> id in ChalUids(s.d.chals);
    assert Holds(MySql, s.sessions[y].pc) == Write(Challenges);
    if x in s.sessions {
      OnlyWriter(c, s, y, x, Challenges);
    }
  }

  lemma MissedNotDeleted(c: Config, s: State, x: Sid)
    requires ChalInv(c, s) && Missed(s, x)
    ensures x !in s.d.h.spent && (x in s.d.h.accepted ==> !s.d.h.accepted[x].deleted)
  {
    hide ChalData, Selected, Young;
    assert x in s.d.h.accepted ==> AcceptedOnce(s.d.h, x);
  }

  /** Main result: if two answers are accepted for one challenge, both matched it, one after the other, and
      the DELETE of the one that matched first failed. */
  lemma SecondAcceptNeedsFailedDelete(c: Config, states: seq<State>, events: seq<Event>, k: nat, x: Sid, y: Sid)
    returns (first: Sid, second: Sid, i: nat, j: nat)
    requires c.backend == MySql && Run(c, states, events) && k < |states| && x != y
    requires var r := states[k].d.h.accepted; x in r && y in r && r[x].chal == r[y].chal
    ensures (first == x && second == y) || (first == y && second == x)
    ensures i < j < k
    ensures var u := states[k].d.h.accepted[x].chal;
      Matches(states, events, i, first, u) && Matches(states, events, j, second, u)
    ensures !states[k].d.h.accepted[first].deleted && first !in states[k].d.h.spent
  {
    hide Run;
    var u := states[k].d.h.accepted[x].chal;
    var ix := TookMatched(c, states, events, k, x, u);
    var iy := TookMatched(c, states, events, k, y, u);
    RunLength(c, states, events);
    if ix < iy {
      first, second, i, j := x, y, ix, iy;
    } else {
      first, second, i, j := y, x, iy, ix;
    }
    EarlierMatchMisses(c, states, events, i, j, k, first, second, u);
  }

  lemma RunLength(c: Config, states: seq<State>, events: seq<Event>)
    requires Run(c, states, events)
    ensures |states| == |events| + 1
  {
  }
}
