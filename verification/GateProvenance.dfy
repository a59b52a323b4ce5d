/** On either backend, with statements freely interleaved, every allowed row traces back to a matching
    answer, a challenge for the same address, and a token issued for the same port. */
module GateProvenance {
  import opened Gate

  ghost predicate TokenTraced(h: History, row: Token) {
    row.uid in h.issued && h.issued[row.uid] == row
  }

  ghost predicate ChalTraced(h: History, row: Chal) {
    && row.uid in h.created && h.created[row.uid] == row
    && row.token in h.issued && h.issued[row.token].port == row.port
  }

  /** What an allowed row proves: its text hashes to the stored answer of a challenge made for its
      address, from a token that was issued for its port. */
  ghost predicate AllowTraced(c: Config, h: History, row: Allow) {
    && row.chal in h.created
    && var chal := h.created[row.chal];
    && chal.ip == row.ip && chal.port == row.port && chal.factors == c.hash(row.text) && chal.at == row.chalAt
    && chal.token in h.issued && h.issued[chal.token].port == row.port
  }

  ghost predicate SessionTraced(c: Config, h: History, x: Session) {
    match x.pc
    case Answering(a) =>
      (match a
       case VDelete(_, text, _, row) => Matched(c, h, x.req, text, row)
       case VUnlock(text, _, row, _) => Matched(c, h, x.req, text, row)
       case VInsert(text, _, row, _) => Matched(c, h, x.req, text, row)
       case _ => true)
    case Scripting(t) =>
      (match t
       case TDelete(_, row) => TokenTraced(h, row)
       case TUnlock(row) => TokenTraced(h, row)
       case CSeqLock(row) => TokenTraced(h, row)
       case CSeqHeld(row) => TokenTraced(h, row)
       case CPick(row) => TokenTraced(h, row)
       case CLock(row, _) => TokenTraced(h, row)
       case CCleanup(row, _) => TokenTraced(h, row)
       case CInsert(row, _) => TokenTraced(h, row)
       case _ => true)
    case _ => true
  }

  ghost predicate Matched(c: Config, h: History, req: Req, text: string, row: Chal) {
    ChalTraced(h, row) && row.ip == req.ip && row.factors == c.hash(text)
  }

  ghost predicate DataTraced(c: Config, d: Data) {
    && (forall u :: u in d.h.issued ==> u < d.h.nextUid && d.h.issued[u].uid == u)
    && (forall u :: u in d.h.created ==> u < d.h.nextUid && d.h.created[u].uid == u)
    && (forall id :: id in d.tokens ==> TokenTraced(d.h, d.tokens[id]))
    && (forall id :: id in d.chals ==> ChalTraced(d.h, d.chals[id]))
    && (forall a :: a in d.allowed ==> AllowTraced(c, d.h, d.allowed[a]))
    && (forall a :: a in d.h.accepted ==> AllowTraced(c, d.h, d.h.accepted[a]))
  }

  ghost predicate Traced(c: Config, s: State) {
    DataTraced(c, s.d) && forall x :: x in s.sessions ==> SessionTraced(c, s.d.h, s.sessions[x])
  }

  /** History only grows. */
  ghost predicate Grows(h: History, h': History) {
    && h.nextUid <= h'.nextUid
    && (forall u :: u in h.issued ==> u in h'.issued && h'.issued[u] == h.issued[u])
    && (forall u :: u in h.created ==> u in h'.created && h'.created[u] == h.created[u])
  }

  lemma GrowthKeepsSession(c: Config, h: History, h': History, x: Session)
    requires Grows(h, h') && SessionTraced(c, h, x)
    ensures SessionTraced(c, h', x)
  {
  }

  /** The inserts of a traced session are traced, and numbered freshly. */
  ghost predicate OpTraced(c: Config, h: History, op: DataOp) {
    match op
    case InsertAllow(row) => AllowTraced(c, h, row)
    case InsertChallenge(_, chal) =>
      chal.uid == h.nextUid && chal.token in h.issued && h.issued[chal.token].port == chal.port
    case InsertToken(_, token) => token.uid == h.nextUid
    case _ => true
  }

  lemma MoveTraced(c: Config, now: Time, d: Data, x: Session, choice: string, m: Move)
    requires DataTraced(c, d) && SessionTraced(c, d.h, x)
    requires SessionMove(c, now, d, x, choice, m) || m == LOST
    ensures OpTraced(c, d.h, m.data)
    ensures SessionTraced(c, d.h, Session(x.req, m.pc))
  {
    hide Key, IsAllowed, Holds, AnswerMove, ScriptMove, PageMove, IssueMove;
    if m != LOST {
      match x.pc
      case Answering(a) => AnswerTraced(c, now, d, x, a, m);
      case Scripting(t) => ScriptTraced(c, now, d, x, t, choice, m);
      case Paging(p) => PageTraced(c, now, d, x, p, m);
      case Issuing(i) => IssueTraced(c, now, d, x, i, choice, m);
      case _ =>
    }
  }

  lemma AnswerTraced(c: Config, now: Time, d: Data, x: Session, a: AnswerPc, m: Move)
    requires DataTraced(c, d) && SessionTraced(c, d.h, x) && x.pc == Answering(a)
    requires AnswerMove(c, now, d, x.req, a, m)
    ensures OpTraced(c, d.h, m.data) && SessionTraced(c, d.h, Session(x.req, m.pc))
  {
    hide Key, IsAllowed, Holds;
  }

  lemma ScriptTraced(c: Config, now: Time, d: Data, x: Session, t: ScriptPc, choice: string, m: Move)
    requires DataTraced(c, d) && SessionTraced(c, d.h, x) && x.pc == Scripting(t)
    requires ScriptMove(c, now, d, x.req, t, choice, m)
    ensures OpTraced(c, d.h, m.data) && SessionTraced(c, d.h, Session(x.req, m.pc))
  {
    hide Key, IsAllowed, Holds;
  }

  lemma PageTraced(c: Config, now: Time, d: Data, x: Session, p: PagePc, m: Move)
    requires DataTraced(c, d) && SessionTraced(c, d.h, x) && x.pc == Paging(p)
    requires PageMove(c, now, d, x.req, p, m)
    ensures OpTraced(c, d.h, m.data) && SessionTraced(c, d.h, Session(x.req, m.pc))
  {
    hide Key, IsAllowed, Holds;
  }

  lemma IssueTraced(c: Config, now: Time, d: Data, x: Session, i: IssuePc, choice: string, m: Move)
    requires DataTraced(c, d) && SessionTraced(c, d.h, x) && x.pc == Issuing(i)
    requires IssueMove(c, now, d, x.req, i, choice, m)
    ensures OpTraced(c, d.h, m.data) && SessionTraced(c, d.h, Session(x.req, m.pc))
  {
    hide Key, IsAllowed, Holds;
  }

  lemma OpGrows(c: Config, now: Time, d: Data, sid: Sid, op: DataOp)
    requires DataTraced(c, d) && OpTraced(c, d.h, op)
    ensures var h' := ApplyData(c, now, d, sid, op).h;
      && Grows(d.h, h')
      && (forall u :: u in h'.issued ==> u < h'.nextUid && h'.issued[u].uid == u)
      && (forall u :: u in h'.created ==> u < h'.nextUid && h'.created[u].uid == u)
  {
    hide TokenTraced, ChalTraced, AllowTraced, FreshTokens, FreshChallenges, FreshAllowed;
  }

  lemma GrowthKeepsRows(c: Config, h: History, h': History)
    requires Grows(h, h')
    ensures forall row :: TokenTraced(h, row) ==> TokenTraced(h', row)
    ensures forall row :: ChalTraced(h, row) ==> ChalTraced(h', row)
    ensures forall row :: AllowTraced(c, h, row) ==> AllowTraced(c, h', row)
  {
  }

  /** Which rows the data can hold after one operation. */
  lemma OpRows(c: Config, now: Time, d: Data, sid: Sid, op: DataOp)
    requires OpTraced(c, d.h, op)
    ensures var d' := ApplyData(c, now, d, sid, op);
      && (forall id :: id in d'.tokens ==>
            (id in d.tokens && d'.tokens[id] == d.tokens[id]) || TokenTraced(d'.h, d'.tokens[id]))
      && (forall id :: id in d'.chals ==>
            (id in d.chals && d'.chals[id] == d.chals[id]) || ChalTraced(d'.h, d'.chals[id]))
      && (forall a :: a in d'.allowed ==>
            (a in d.allowed && d'.allowed[a] == d.allowed[a]) || AllowTraced(c, d.h, d'.allowed[a]))
      && (forall a :: a in d'.h.accepted ==>
            (a in d.h.accepted && d'.h.accepted[a] == d.h.accepted[a]) || AllowTraced(c, d.h, d'.h.accepted[a]))
  {
    hide Keep, AllowTraced;
  }

  lemma OpKeepsData(c: Config, now: Time, d: Data, sid: Sid, op: DataOp)
    requires DataTraced(c, d) && OpTraced(c, d.h, op)
    ensures Grows(d.h, ApplyData(c, now, d, sid, op).h)
    ensures DataTraced(c, ApplyData(c, now, d, sid, op))
  {
    hide ApplyData, OpTraced, Grows, TokenTraced, ChalTraced, AllowTraced;
    OpGrows(c, now, d, sid, op);
    GrowthKeepsRows(c, d.h, ApplyData(c, now, d, sid, op).h);
    OpRows(c, now, d, sid, op);
  }

  lemma NextKeepsTraced(c: Config, s: State, s': State, e: Event)
    requires Traced(c, s) && Next(c, s, s', e)
    ensures Traced(c, s')
  {
    hide SessionMove, ApplyData, DataTraced, SessionTraced, OpTraced, Grows;
    match e {
      case Begin(sid, req, pc) =>
        StartTraced(c, s.d.h, Session(req, pc));
      case Step(sid, choice, m) =>
        MoveTraced(c, s.now, s.d, s.sessions[sid], choice, m);
        OpKeepsData(c, s.now, s.d, sid, m.data);
        forall x | x in s'.sessions ensures SessionTraced(c, s'.d.h, s'.sessions[x]) {
          GrowthKeepsSession(c, s.d.h, s'.d.h, if x == sid then Session(s.sessions[sid].req, m.pc) else s.sessions[x]);
        }
      case Tick(_) =>
      case ClearCache =>
        ClearTraced(c, s.d);
    }
  }

  lemma StartTraced(c: Config, h: History, x: Session)
    requires Starts(c, x.pc)
    ensures SessionTraced(c, h, x)
  {
  }

  lemma ClearTraced(c: Config, d: Data)
    requires DataTraced(c, d)
    ensures DataTraced(c, d.(cache := map[]))
  {
  }

  lemma {:induction false} RunKeepsTraced(c: Config, states: seq<State>, events: seq<Event>, i: nat)
    requires Run(c, states, events) && i < |states|
    ensures Traced(c, states[i])
  {
    hide Next;
    if i > 0 {
      hide Traced;
      RunKeepsTraced(c, states, events, i - 1);
      NextKeepsTraced(c, states[i - 1], states[i], events[i - 1]);
    }
  }

  /** Main result: every allowed row of every reachable state is accounted for. */
  lemma AllowedRowsTraceBack(c: Config, states: seq<State>, events: seq<Event>, i: nat, a: Sid)
    requires Run(c, states, events) && i < |states| && a in states[i].d.allowed
    ensures var h, row := states[i].d.h, states[i].d.allowed[a];
      exists chal: Uid, token: Uid ::
        && chal in h.created && h.created[chal].ip == row.ip && h.created[chal].port == row.port
        && h.created[chal].factors == c.hash(row.text) && h.created[chal].at == row.chalAt
        && h.created[chal].token == token && token in h.issued && h.issued[token].port == row.port
  {
    RunKeepsTraced(c, states, events, i);
    var h, row := states[i].d.h, states[i].d.allowed[a];
    assert AllowTraced(c, h, row);
    assert h.created[row.chal].token in h.issued;
  }
}
