/** On MySQL, tokens and challenges are used at most once, however the sessions interleave. */
module GateOneShot {
  import opened Gate
  import opened GateLocks

  // ----- Rows that are used up -----

  /** Rows are numbered uniquely below the next number, a used number is gone from the table, and no
      two sessions used the same one. */
  ghost predicate UsedOnce(rows: map<string, Uid>, used: map<Sid, Uid>, next: Uid) {
    && (forall id :: id in rows ==> rows[id] < next)
    && (forall id, jd :: id in rows && jd in rows && rows[id] == rows[jd] ==> id == jd)
    && (forall x :: x in used ==> used[x] < next)
    && (forall x, id :: x in used && id in rows ==> rows[id] != used[x])
    && (forall x, y :: x in used && y in used && used[x] == used[y] ==> x == y)
  }

  /** How one data operation changes the three per-session histories. */
  lemma HistoryFrame(c: Config, now: Time, d: Data, sid: Sid, op: DataOp)
    ensures var h := ApplyData(c, now, d, sid, op).h;
      && h.redeemed == (if op.RedeemToken? then d.h.redeemed[sid := op.tokenUid] else d.h.redeemed)
      && h.spent == (if op.SpendChallenge? then d.h.spent[sid := op.uid] else d.h.spent)
      && h.accepted == (if op.InsertAllow? then d.h.accepted[sid := op.row] else d.h.accepted)
  {
    hide FreshTokens, FreshChallenges, FreshAllowed;
  }

  lemma UseShrink(rows: map<string, Uid>, rows': map<string, Uid>, used: map<Sid, Uid>, next: Uid, next': Uid)
    requires UsedOnce(rows, used, next) && next <= next'
    requires forall id :: id in rows' ==> id in rows && rows'[id] == rows[id]
    ensures UsedOnce(rows', used, next')
  {
  }

  lemma UseInsert(rows: map<string, Uid>, used: map<Sid, Uid>, next: Uid, id: string)
    requires UsedOnce(rows, used, next) && id !in rows
    ensures UsedOnce(rows[id := next], used, next + 1)
  {
  }

  lemma UseRow(rows: map<string, Uid>, used: map<Sid, Uid>, next: Uid, id: string, x: Sid)
    requires UsedOnce(rows, used, next) && id in rows && x !in used
    ensures UsedOnce(rows - {id}, used[x := rows[id]], next)
  {
  }

  // ----- Tokens -----

  /** Program counters from which a token can still be redeemed. */
  predicate CanRedeem(pc: Pc) {
    pc.Scripting? && (pc.t.SCleanup? || pc.t.TLock? || pc.t.TSelect? || pc.t.TDelete?)
  }

  function TokenUids(m: map<string, Token>): map<string, Uid> { map id | id in m :: m[id].uid }

  ghost predicate TokenData(d: Data) { UsedOnce(TokenUids(d.tokens), d.h.redeemed, d.h.nextUid) }

  ghost predicate TokenInv(s: State) {
    && TokenData(s.d)
    && (forall x :: x in s.d.h.redeemed ==> x in s.sessions && !CanRedeem(s.sessions[x].pc))
    && (forall x :: x in s.sessions ==> SelectedToken(s.d, s.sessions[x].pc))
  }

  /** Between SELECT and DELETE the selected row is still in the table. */
  ghost predicate SelectedToken(d: Data, pc: Pc) {
    pc.Scripting? && pc.t.TDelete? ==> pc.t.id in d.tokens && d.tokens[pc.t.id] == pc.t.row
  }

  predicate TouchesTokens(op: DataOp) { op.CleanTokens? || op.InsertToken? || op.RedeemToken? }

  ghost predicate TokenMove(d: Data, pc: Pc, m: Move) {
    && (TouchesTokens(m.data) ==> Holds(MySql, pc) == Write(Tokens))
    && (m.data.RedeemToken? ==>
          pc.Scripting? && pc.t.TDelete? && pc.t.id == m.data.id && pc.t.row.uid == m.data.tokenUid && !CanRedeem(m.pc))
    && (m.data.InsertToken? ==> m.data.tokenId !in d.tokens && m.data.token.uid == d.h.nextUid)
    && (m.pc.Scripting? && m.pc.t.TDelete? ==> m.data.NoData? && SelectedToken(d, m.pc))
    && (CanRedeem(m.pc) ==> CanRedeem(pc))
  }

  lemma MovesAreTokenMoves(c: Config, now: Time, d: Data, x: Session, choice: string, m: Move)
    requires c.backend == MySql && (SessionMove(c, now, d, x, choice, m) || m == LOST)
    ensures TokenMove(d, x.pc, m)
  {
    hide Key, IsAllowed;
  }

  lemma TokenMoveKeeps(c: Config, s: State, sid: Sid, m: Move)
    requires c.backend == MySql && LockInv(c, s) && TokenInv(s)
    requires sid in s.sessions && TokenMove(s.d, s.sessions[sid].pc, m)
    ensures TokenInv(Apply(c, s, sid, m))
  {
    hide ApplyLocks, ApplyReaders, LockInv, TokenData, Holds, ApplyData, SelectedToken;
    var s' := Apply(c, s, sid, m);
    HistoryFrame(c, s.now, s.d, sid, m.data);
    MoverToken(c, s.now, s.d, s.sessions[sid].pc, sid, m);
    TokenDataKept(c, s.now, s.d, s.sessions[sid].pc, sid, m);
    forall x | x in s'.sessions ensures SelectedToken(s'.d, s'.sessions[x].pc) {
      if x != sid {
        SelectionKept(c, s, sid, m, x);
      }
    }
  }

  lemma TokenDataKept(c: Config, now: Time, d: Data, pc: Pc, sid: Sid, m: Move)
    requires TokenData(d) && SelectedToken(d, pc) && TokenMove(d, pc, m)
    requires sid in d.h.redeemed ==> !CanRedeem(pc)
    ensures TokenData(ApplyData(c, now, d, sid, m.data))
  {
    hide Keep, Holds, UsedOnce;
    hide ApplyData, TokenUids;
    var rows, used, next := TokenUids(d.tokens), d.h.redeemed, d.h.nextUid;
    HistoryFrame(c, now, d, sid, m.data);
    TokenFrame(c, now, d, sid, m.data);
    match m.data {
      case InsertToken(id, _) => UseInsert(rows, used, next, id);
      case RedeemToken(id, _) => UseRow(rows, used, next, id, sid);
      case CleanTokens => UseShrink(rows, TokenUids(ApplyData(c, now, d, sid, m.data).tokens), used, next, next);
      case InsertChallenge(_, _) => UseShrink(rows, rows, used, next, next + 1);
      case _ =>
    }
  }

  /** How one data operation changes the row numbers of the table. */
  lemma TokenFrame(c: Config, now: Time, d: Data, sid: Sid, op: DataOp)
    ensures var rows, d' := TokenUids(d.tokens), ApplyData(c, now, d, sid, op);
      && rows.Keys == d.tokens.Keys && (forall id :: id in rows ==> rows[id] == d.tokens[id].uid)
      && d'.h.nextUid == d.h.nextUid + (if op.InsertToken? || op.InsertChallenge? then 1 else 0)
      && (op.InsertToken? ==> TokenUids(d'.tokens) == rows[op.tokenId := op.token.uid])
      && (op.RedeemToken? ==> TokenUids(d'.tokens) == rows - {op.id})
      && (op.CleanTokens? ==>
            forall id :: id in TokenUids(d'.tokens) ==> id in rows && TokenUids(d'.tokens)[id] == rows[id])
      && (!op.InsertToken? && !op.RedeemToken? && !op.CleanTokens? ==> d'.tokens == d.tokens)
  {
    hide Keep;
  }

  lemma MoverToken(c: Config, now: Time, d: Data, pc: Pc, sid: Sid, m: Move)
    requires TokenMove(d, pc, m)
    ensures SelectedToken(ApplyData(c, now, d, sid, m.data), m.pc)
  {
    hide Holds, FreshTokens, FreshChallenges, FreshAllowed;
  }

  lemma SelectionKept(c: Config, s: State, sid: Sid, m: Move, x: Sid)
    requires c.backend == MySql && LockInv(c, s) && sid in s.sessions && x in s.sessions && x != sid
    requires TokenMove(s.d, s.sessions[sid].pc, m) && SelectedToken(s.d, s.sessions[x].pc)
    ensures SelectedToken(ApplyData(c, s.now, s.d, sid, m.data), s.sessions[x].pc)
  {
    hide LockInv;
    if TouchesTokens(m.data) { OnlyWriter(c, s, sid, x, Tokens); }
  }

  /** Two different sessions never hold the same table for writing. */
  lemma OnlyWriter(c: Config, s: State, x: Sid, y: Sid, t: Table)
    requires c.backend == MySql && LockInv(c, s) && x in s.sessions && y in s.sessions && x != y
    requires Holds(MySql, s.sessions[x].pc) == Write(t)
    ensures Holds(MySql, s.sessions[y].pc) != Write(t)
  {
    hide Holds;
  }

  // ----- Challenges -----

  predicate CanSpend(pc: Pc) {
    pc.Answering? && (pc.a.VLock? || pc.a.VCleanup? || pc.a.VSelect? || pc.a.VDelete?)
  }

  predicate CanAccept(pc: Pc) {
    CanSpend(pc) || (pc.Answering? && (pc.a.VUnlock? || pc.a.VInsert?))
  }

  function ChalUids(m: map<string, Chal>): map<string, Uid> { map id | id in m :: m[id].uid }

  ghost predicate ChalData(d: Data) { UsedOnce(ChalUids(d.chals), d.h.spent, d.h.nextUid) }

  ghost predicate AcceptData(c: Config, d: Data) {
    forall x :: x in d.h.accepted ==>
      AcceptedOnce(d.h, x) && Young(c, d.h.accepted[x].chalAt, d.h.accepted[x].cleaned)
  }

  ghost predicate ChalInv(c: Config, s: State) {
    var d := s.d;
    && ChalData(d) && AcceptData(c, d)
    && (forall x :: x in d.h.spent ==> x in s.sessions && !CanSpend(s.sessions[x].pc))
    && (forall x :: x in d.h.accepted ==> x in s.sessions && !CanAccept(s.sessions[x].pc))
    && (forall x :: x in s.sessions ==> Selected(c, d, x, s.sessions[x].pc))
  }

  /** An accepted answer whose DELETE executed is the one that spent its challenge. */
  ghost predicate AcceptedOnce(h: History, x: Sid)
    requires x in h.accepted
  {
    h.accepted[x].deleted ==> x in h.spent && h.spent[x] == h.accepted[x].chal
  }

  predicate Young(c: Config, at: Time, cleaned: Time) { Minutes(at, cleaned) < c.challengeTimeout }

  ghost predicate Selected(c: Config, d: Data, x: Sid, pc: Pc) {
    match pc
    case Answering(a) =>
      (match a
       case VSelect(_, _, cleaned) => forall id :: id in d.chals ==> Young(c, d.chals[id].at, cleaned)
       case VDelete(id, _, cleaned, row) => id in d.chals && d.chals[id] == row && Young(c, row.at, cleaned)
       case VUnlock(_, cleaned, row, deleted) => Young(c, row.at, cleaned) && (deleted ==> Spent(d.h, x, row))
       case VInsert(_, cleaned, row, deleted) => Young(c, row.at, cleaned) && (deleted ==> Spent(d.h, x, row))
       case _ => true)
    case _ => true
  }

  ghost predicate Spent(h: History, x: Sid, row: Chal) { x in h.spent && h.spent[x] == row.uid }

  predicate TouchesChallenges(op: DataOp) { op.CleanChallenges? || op.InsertChallenge? || op.SpendChallenge? }

  ghost predicate ChalMove(c: Config, now: Time, d: Data, pc: Pc, m: Move) {
    && (TouchesChallenges(m.data) ==> Holds(MySql, pc) == Write(Challenges))
    && (m.data.SpendChallenge? ==>
          pc.Answering? && pc.a.VDelete? && pc.a.id == m.data.id && pc.a.row.uid == m.data.uid && !CanSpend(m.pc))
    && (m.data.InsertChallenge? ==> m.data.chalId !in d.chals && m.data.chal.uid == d.h.nextUid && !m.pc.Answering?)
    && (m.data.InsertAllow? ==>
          && pc.Answering? && pc.a.VInsert? && !CanAccept(m.pc)
          && m.data.row.deleted == pc.a.deleted && m.data.row.chal == pc.a.row.uid && m.data.row.cleaned == pc.a.cleaned
          && m.data.row.chalAt == pc.a.row.at)
    && (CanSpend(m.pc) ==> CanSpend(pc))
    && (CanAccept(m.pc) ==> CanAccept(pc))
    && AnswerFlow(d, now, pc, m)
  }

  /** How the answer program hands its row from statement to statement. */
  ghost predicate AnswerFlow(d: Data, now: Time, pc: Pc, m: Move) {
    m.pc.Answering? ==>
      match m.pc.a
      case VSelect(_, _, cleaned) => m.data.CleanChallenges? && cleaned == now
      case VDelete(id, _, cleaned, row) =>
        && m.data.NoData? && pc.Answering? && pc.a.VSelect? && pc.a.cleaned == cleaned
        && id in d.chals && d.chals[id] == row
      case VUnlock(_, cleaned, row, deleted) =>
        && pc.Answering? && pc.a.VDelete? && pc.a.cleaned == cleaned && pc.a.row == row
        && (deleted ==> m.data == SpendChallenge(pc.a.id, row.uid))
        && (!deleted ==> m.data.NoData?)
      case VInsert(_, cleaned, row, deleted) =>
        && m.data.NoData? && pc.Answering? && pc.a.VUnlock?
        && pc.a.cleaned == cleaned && pc.a.row == row && pc.a.deleted == deleted
      case VCleanup(_, _) => m.data.NoData?
      case VLock(_, _) => false
      case VCache => true
  }

  lemma MovesAreChalMoves(c: Config, now: Time, d: Data, x: Session, choice: string, m: Move)
    requires c.backend == MySql && (SessionMove(c, now, d, x, choice, m) || m == LOST)
    ensures ChalMove(c, now, d, x.pc, m)
  {
    hide Key, IsAllowed;
  }

  lemma ChalMoveKeeps(c: Config, s: State, sid: Sid, m: Move)
    requires c.backend == MySql && LockInv(c, s) && ChalInv(c, s)
    requires sid in s.sessions && ChalMove(c, s.now, s.d, s.sessions[sid].pc, m)
    ensures ChalInv(c, Apply(c, s, sid, m))
  {
    hide ApplyLocks, ApplyReaders, LockInv, Selected, Young, Holds, AnswerFlow, ChalData, AcceptData, ApplyData;
    var s' := Apply(c, s, sid, m);
    HistoryFrame(c, s.now, s.d, sid, m.data);
    forall x | x in s'.sessions ensures Selected(c, s'.d, x, s'.sessions[x].pc) {
      if x == sid {
        MoverSelected(c, s, sid, m);
      } else {
        OtherSelected(c, s, sid, m, x);
      }
    }
    ChalDataKept(c, s.now, s.d, s.sessions[sid].pc, sid, m);
    AcceptDataKept(c, s.now, s.d, s.sessions[sid].pc, sid, m);
  }

  lemma ChalDataKept(c: Config, now: Time, d: Data, pc: Pc, sid: Sid, m: Move)
    requires ChalData(d) && Selected(c, d, sid, pc) && ChalMove(c, now, d, pc, m)
    requires sid in d.h.spent ==> !CanSpend(pc)
    ensures ChalData(ApplyData(c, now, d, sid, m.data))
  {
    hide Keep, Holds, AnswerFlow, Young, UsedOnce;
    hide ApplyData, ChalUids;
    var rows, used, next := ChalUids(d.chals), d.h.spent, d.h.nextUid;
    HistoryFrame(c, now, d, sid, m.data);
    ChalFrame(c, now, d, sid, m.data);
    match m.data {
      case InsertChallenge(id, _) => UseInsert(rows, used, next, id);
      case SpendChallenge(id, _) => UseRow(rows, used, next, id, sid);
      case CleanChallenges => UseShrink(rows, ChalUids(ApplyData(c, now, d, sid, m.data).chals), used, next, next);
      case InsertToken(_, _) => UseShrink(rows, rows, used, next, next + 1);
      case _ =>
    }
  }

  /** How one data operation changes the row numbers of the table. */
  lemma ChalFrame(c: Config, now: Time, d: Data, sid: Sid, op: DataOp)
    ensures var rows, d' := ChalUids(d.chals), ApplyData(c, now, d, sid, op);
      && rows.Keys == d.chals.Keys && (forall id :: id in rows ==> rows[id] == d.chals[id].uid)
      && d'.h.nextUid == d.h.nextUid + (if op.InsertToken? || op.InsertChallenge? then 1 else 0)
      && (op.InsertChallenge? ==> ChalUids(d'.chals) == rows[op.chalId := op.chal.uid])
      && (op.SpendChallenge? ==> ChalUids(d'.chals) == rows - {op.id})
      && (op.CleanChallenges? ==>
            forall id :: id in ChalUids(d'.chals) ==> id in rows && ChalUids(d'.chals)[id] == rows[id])
      && (!op.InsertChallenge? && !op.SpendChallenge? && !op.CleanChallenges? ==> d'.chals == d.chals)
  {
    hide Keep;
  }

  lemma AcceptDataKept(c: Config, now: Time, d: Data, pc: Pc, sid: Sid, m: Move)
    requires AcceptData(c, d) && Selected(c, d, sid, pc) && ChalMove(c, now, d, pc, m)
    requires sid in d.h.spent ==> !CanSpend(pc)
    requires sid in d.h.accepted ==> !CanAccept(pc)
    ensures AcceptData(c, ApplyData(c, now, d, sid, m.data))
  {
    hide Holds, AnswerFlow, Young, ApplyData;
    HistoryFrame(c, now, d, sid, m.data);
  }

  lemma MoverSelected(c: Config, s: State, sid: Sid, m: Move)
    requires c.backend == MySql && sid in s.sessions && Selected(c, s.d, sid, s.sessions[sid].pc)
    requires ChalMove(c, s.now, s.d, s.sessions[sid].pc, m)
    ensures Selected(c, ApplyData(c, s.now, s.d, sid, m.data), sid, m.pc)
  {
    hide Holds;
  }

  lemma OtherSelected(c: Config, s: State, sid: Sid, m: Move, x: Sid)
    requires c.backend == MySql && LockInv(c, s)
    requires sid in s.sessions && x in s.sessions && x != sid && Selected(c, s.d, x, s.sessions[x].pc)
    requires ChalMove(c, s.now, s.d, s.sessions[sid].pc, m)
    ensures Selected(c, ApplyData(c, s.now, s.d, sid, m.data), x, s.sessions[x].pc)
  {
    hide LockInv, AnswerFlow, Keep, Young;
    if TouchesChallenges(m.data) { OnlyWriter(c, s, sid, x, Challenges); }
  }

  // ----- All states of a run -----

  lemma NextKeepsOneShot(c: Config, s: State, s': State, e: Event)
    requires c.backend == MySql && LockInv(c, s) && TokenInv(s) && ChalInv(c, s) && Next(c, s, s', e)
    ensures TokenInv(s') && ChalInv(c, s')
  {
    hide SessionMove, Apply, LockInv, TokenMove, ChalMove;
    match e {
      case Step(sid, choice, m) =>
        hide TokenInv, ChalInv;
        MovesAreTokenMoves(c, s.now, s.d, s.sessions[sid], choice, m);
        MovesAreChalMoves(c, s.now, s.d, s.sessions[sid], choice, m);
        TokenMoveKeeps(c, s, sid, m);
        ChalMoveKeeps(c, s, sid, m);
      case Begin(sid, req, pc) =>
        hide Selected, ChalData, AcceptData, TokenData, SelectedToken;
        StartSelected(c, s.d, sid, pc);
      case Tick(_) =>
      case ClearCache =>
        ClearKeeps(c, s);
    }
  }

  lemma ClearKeeps(c: Config, s: State)
    requires TokenInv(s) && ChalInv(c, s)
    ensures TokenInv(s.(d := s.d.(cache := map[]))) && ChalInv(c, s.(d := s.d.(cache := map[])))
  {
    hide Young, CanAccept, CanSpend, CanRedeem;
    var d' := s.d.(cache := map[]);
    assert forall x :: x in s.sessions ==> SelectedToken(d', s.sessions[x].pc);
    assert forall x :: x in s.sessions ==> Selected(c, d', x, s.sessions[x].pc);
  }

  lemma StartSelected(c: Config, d: Data, x: Sid, pc: Pc)
    requires c.backend == MySql && Starts(c, pc)
    ensures Selected(c, d, x, pc) && SelectedToken(d, pc)
  {
  }

  lemma {:induction false} RunKeepsOneShot(c: Config, states: seq<State>, events: seq<Event>, i: nat)
    requires c.backend == MySql && Run(c, states, events) && i < |states|
    ensures TokenInv(states[i]) && ChalInv(c, states[i])
  {
    if i > 0 {
      hide Next, TokenInv, ChalInv;
      RunKeepsOneShot(c, states, events, i - 1);
      RunKeepsLocks(c, states, events, i - 1);
      NextKeepsOneShot(c, states[i - 1], states[i], events[i - 1]);
    }
  }

  /** Each inserted token row is redeemed by at most one successful call. */
  lemma TokenRedeemedOnce(c: Config, states: seq<State>, events: seq<Event>, i: nat, x: Sid, y: Sid)
    requires c.backend == MySql && Run(c, states, events) && i < |states|
    requires var r := states[i].d.h.redeemed; x in r && y in r && r[x] == r[y]
    ensures x == y
    ensures forall id :: id in states[i].d.tokens ==> states[i].d.tokens[id].uid != states[i].d.h.redeemed[x]
  {
    RunKeepsOneShot(c, states, events, i);
    assert forall id :: id in states[i].d.tokens ==> id in TokenUids(states[i].d.tokens);
  }

  /** Of all answers accepted for one challenge, at most one had its DELETE executed: a challenge
      yields a second allowed row only after a failed DELETE. */
  lemma ChallengeAcceptedOnce(c: Config, states: seq<State>, events: seq<Event>, i: nat, x: Sid, y: Sid)
    requires c.backend == MySql && Run(c, states, events) && i < |states|
    requires var r := states[i].d.h.accepted; x in r && y in r && r[x].chal == r[y].chal && r[x].deleted && r[y].deleted
    ensures x == y
  {
    RunKeepsOneShot(c, states, events, i);
    var h := states[i].d.h;
    assert AcceptedOnce(h, x) && AcceptedOnce(h, y);
  }

  /** Every accepted answer matched a challenge that was younger than the challenge timeout when stale
      challenges were last deleted before the match. */
  lemma AcceptedInTime(c: Config, states: seq<State>, events: seq<Event>, i: nat, x: Sid)
    requires c.backend == MySql && Run(c, states, events) && i < |states| && x in states[i].d.h.accepted
    ensures var row := states[i].d.h.accepted[x]; Minutes(row.chalAt, row.cleaned) < c.challengeTimeout
  {
    RunKeepsOneShot(c, states, events, i);
  }
}
