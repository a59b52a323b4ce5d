/** What the gate does for those it should let through: an address with a young allowed row is served, and a
    correct answer is accepted, in every run in which the session itself does not fail. */
module GateService {
  import opened Gate
  import GateOneShot

  // ----- Failures of a session -----

  /** On SQLite a failed query for the allowed row looks like a missing one. */
  ghost predicate QueryFails(c: Config, d: Data, x: Session, m: Move) {
    c.backend == Sqlite && x.pc.Paging? && x.pc.p.PSelect? && HasPass(d, x.req) && m.pc.Issuing?
  }

  /** The connection is lost or the statement fails. */
  ghost predicate Fails(c: Config, d: Data, x: Session, m: Move) {
    m == LOST || m == Fail(c, x.pc) || QueryFails(c, d, x, m)
  }

  /** No statement of session x fails from event b up to state n. */
  ghost predicate Smooth(c: Config, states: seq<State>, events: seq<Event>, b: nat, n: nat, x: Sid)
    requires |states| == |events| + 1 && n < |states|
  {
    forall k :: b <= k < n && events[k].Step? && events[k].sid == x && x in states[k].sessions ==>
      !Fails(c, states[k].d, states[k].sessions[x], events[k].m)
  }

  ghost predicate HasPass(d: Data, req: Req) {
    exists a :: a in d.allowed && d.allowed[a].ip == req.ip && d.allowed[a].port == req.port
  }

  // ----- Rows stay while they are young -----

  /** The age of a row against a timeout in minutes: MySQL deletes it when it has reached the timeout, SQLite
      when it has passed it. */
  predicate Young(b: Backend, at: Time, timeout: nat, now: Time) {
    if b == MySql then now < at + 60 * timeout else now <= at + 60 * timeout
  }

  lemma YoungIsKept(b: Backend, at: Time, timeout: nat, now: Time)
    ensures Young(b, at, timeout, now) <==> Keep(b, at, timeout, now)
  {
  }

  /** The session that inserted a row has no statement left that could insert another. */
  predicate Spent(pc: Pc) { pc == Answering(VCache) || pc == Finished }

  ghost predicate HasRow(s: State, y: Sid, row: Allow) {
    y in s.sessions && Spent(s.sessions[y].pc) && y in s.d.allowed && s.d.allowed[y] == row
  }

  lemma InsertHasRow(c: Config, s: State, s': State, y: Sid, choice: string, m: Move, row: Allow)
    requires Next(c, s, s', Step(y, choice, m)) && m.data == InsertAllow(row)
    ensures HasRow(s', y, row)
  {
    hide ApplyLocks, ApplyReaders, Key, IsAllowed;
  }

  lemma RowStays(c: Config, s: State, s': State, e: Event, y: Sid, row: Allow)
    requires Next(c, s, s', e) && HasRow(s, y, row) && Young(c.backend, row.at, c.allowedTimeout, s.now)
    ensures HasRow(s', y, row)
  {
    hide ApplyLocks, ApplyReaders, Keep, Young, SessionMove, FreshTokens, FreshChallenges;
    YoungIsKept(c.backend, row.at, c.allowedTimeout, s.now);
    if e.Step? {
      if e.sid == y { SpentMove(c, s.now, s.d, s.sessions[y], e.choice, e.m); }
    }
  }

  lemma SpentMove(c: Config, now: Time, d: Data, x: Session, choice: string, m: Move)
    requires Spent(x.pc) && (SessionMove(c, now, d, x, choice, m) || m == LOST)
    ensures Spent(m.pc) && !m.data.InsertAllow? && !m.data.CleanAllowed?
  {
    hide Key;
  }

  lemma {:induction false} TimeGrows(c: Config, states: seq<State>, events: seq<Event>, k: nat, n: nat)
    requires Run(c, states, events) && k <= n < |states|
    ensures states[k].now <= states[n].now
    decreases n
  {
    if k < n {
      TimeGrows(c, states, events, k, n - 1);
      TimeSteps(c, states[n - 1], states[n], events[n - 1]);
    }
  }

  lemma TimeSteps(c: Config, s: State, s': State, e: Event)
    requires Next(c, s, s', e)
    ensures s.now <= s'.now
  {
    hide SessionMove, ApplyData, ApplyLocks, ApplyReaders;
  }

  /** An inserted row is there as long as it is young. */
  lemma {:induction false} RowIsThere(
    c: Config, states: seq<State>, events: seq<Event>, i: nat, k: nat, y: Sid, row: Allow)
    requires Run(c, states, events) && i < k < |states|
    requires events[i].Step? && events[i].sid == y && events[i].m.data == InsertAllow(row)
    requires Young(c.backend, row.at, c.allowedTimeout, states[k].now)
    ensures HasRow(states[k], y, row)
    decreases k
  {
    hide Next, HasRow;
    if k == i + 1 {
      InsertHasRow(c, states[i], states[k], y, events[i].choice, events[i].m, row);
    } else {
      TimeSteps(c, states[k - 1], states[k], events[k - 1]);
      RowIsThere(c, states, events, i, k - 1, y, row);
      RowStays(c, states[k - 1], states[k], events[k - 1], y, row);
    }
  }

  // ----- An address with a pass is served -----

  /** The session is on its way to being forwarded, or has been. */
  ghost predicate Serving(s: State, x: Sid, req: Req) {
    && x in s.sessions && s.sessions[x].req == req
    && match s.sessions[x].pc
       case Paging(p) => p.PReadUnlock? ==> p.found
       case Finished => Forward(req.ip, req.at) in s.d.h.forwards
       case _ => false
  }

  lemma PageGoesOn(c: Config, now: Time, d: Data, x: Session, choice: string, m: Move)
    requires x.pc.Paging? && (x.pc.p.PReadUnlock? ==> x.pc.p.found)
    requires HasPass(d, x.req) && (SessionMove(c, now, d, x, choice, m) || m == LOST) && !Fails(c, d, x, m)
    ensures m.pc.Paging? || (m.pc == Finished && m.data == Forwarded(Forward(x.req.ip, x.req.at)))
    ensures m.pc.Paging? && m.pc.p.PReadUnlock? ==> m.pc.p.found
  {
    hide Key;
    assert IsAllowed(d, x.req);
  }

  lemma StepServes(c: Config, s: State, s': State, e: Event, x: Sid, req: Req)
    requires Serving(s, x, req) && HasPass(s.d, req) && Next(c, s, s', e)
    requires e.Step? && e.sid == x ==> !Fails(c, s.d, s.sessions[x], e.m)
    ensures Serving(s', x, req)
  {
    hide SessionMove, ApplyLocks, ApplyReaders, ApplyData, Fails, HasPass;
    if e.Step? {
      ForwardsFrame(c, s.now, s.d, e.sid, e.m.data);
      if e.sid == x && s.sessions[x].pc == Finished {
        FinishedStays(c, s.now, s.d, s.sessions[x], e.choice, e.m);
      } else if e.sid == x {
        PageGoesOn(c, s.now, s.d, s.sessions[x], e.choice, e.m);
      }
    }
  }

  lemma ForwardsFrame(c: Config, now: Time, d: Data, sid: Sid, op: DataOp)
    ensures ApplyData(c, now, d, sid, op).h.forwards == d.h.forwards + if op.Forwarded? then {op.f} else {}
  {
    hide FreshTokens, FreshChallenges, FreshAllowed;
  }

  lemma FinishedStays(c: Config, now: Time, d: Data, x: Session, choice: string, m: Move)
    requires x.pc == Finished && (SessionMove(c, now, d, x, choice, m) || m == LOST)
    ensures m == LOST
  {
  }

  lemma {:induction false} ServingStays(
    c: Config, states: seq<State>, events: seq<Event>, i: nat, b: nat, n: nat, y: Sid, row: Allow, x: Sid, req: Req)
    requires Run(c, states, events) && i < b < n < |states|
    requires events[i].Step? && events[i].sid == y && events[i].m.data == InsertAllow(row)
    requires row.ip == req.ip && row.port == req.port && Young(c.backend, row.at, c.allowedTimeout, states[n].now)
    requires events[b] == Begin(x, req, Paging(PLookup)) && Smooth(c, states, events, b, n, x)
    ensures Serving(states[n], x, req)
    decreases n
  {
    hide Next, HasRow, Serving, HasPass, Fails;
    if n == b + 1 {
      BeginServes(c, states[b], states[n], x, req);
    } else {
      TimeSteps(c, states[n - 1], states[n], events[n - 1]);
      ServingStays(c, states, events, i, b, n - 1, y, row, x, req);
      RowIsThere(c, states, events, i, n - 1, y, row);
      RowIsPass(states[n - 1], y, row, req);
      SmoothStep(c, states, events, b, n, x, req);
      StepServes(c, states[n - 1], states[n], events[n - 1], x, req);
    }
  }

  lemma BeginServes(c: Config, s: State, s': State, x: Sid, req: Req)
    requires Next(c, s, s', Begin(x, req, Paging(PLookup)))
    ensures Serving(s', x, req)
  {
  }

  lemma RowIsPass(s: State, y: Sid, row: Allow, req: Req)
    requires HasRow(s, y, row) && row.ip == req.ip && row.port == req.port
    ensures HasPass(s.d, req)
  {
  }

  lemma SmoothStep(c: Config, states: seq<State>, events: seq<Event>, b: nat, n: nat, x: Sid, req: Req)
    requires |states| == |events| + 1 && b < n < |states| && Smooth(c, states, events, b, n, x)
    requires Serving(states[n - 1], x, req)
    ensures events[n - 1].Step? && events[n - 1].sid == x ==>
      !Fails(c, states[n - 1].d, states[n - 1].sessions[x], events[n - 1].m)
  {
    hide Fails;
  }

  /** Main result: a page request whose address and port got an allowed row before it began, which is still
      young, never comes to ask for a challenge unless a statement of its own fails, and has been forwarded
      once it is finished. */
  lemma PassIsServed(
    c: Config, states: seq<State>, events: seq<Event>, i: nat, b: nat, n: nat, y: Sid, row: Allow, x: Sid, req: Req)
    requires Run(c, states, events) && i < b < n < |states|
    requires events[i].Step? && events[i].sid == y && events[i].m.data == InsertAllow(row)
    requires row.ip == req.ip && row.port == req.port && Young(c.backend, row.at, c.allowedTimeout, states[n].now)
    requires events[b] == Begin(x, req, Paging(PLookup)) && Smooth(c, states, events, b, n, x)
    ensures x in states[n].sessions && !states[n].sessions[x].pc.Issuing?
    ensures states[n].sessions[x].pc == Finished ==> Forward(req.ip, req.at) in states[n].d.h.forwards
  {
    ServingStays(c, states, events, i, b, n, y, row, x, req);
  }

  /** A cached entry of at most two minutes lets the request through without the database, an older one never
      does. */
  lemma CacheDecides(c: Config, s: State, s': State, x: Sid, choice: string, m: Move)
    requires Next(c, s, s', Step(x, choice, m)) && x in s.sessions && s.sessions[x].pc == Paging(PLookup) && m != LOST
    ensures var req := s.sessions[x].req;
      var key := Key(req.ip, req.port);
      s'.sessions[x].pc == Paging(PForward) <==> key in s.d.cache && req.at <= s.d.cache[key] + 120
  {
    hide Key;
  }

  // ----- A correct answer is accepted -----

  /** The session is on its way to being accepted, or has been. */
  ghost predicate Earning(s: State, x: Sid, req: Req) {
    && x in s.sessions && s.sessions[x].req == req
    && match s.sessions[x].pc
       case Answering(a) => a.VCache? ==> Earned(s.d, x, req)
       case Finished => Earned(s.d, x, req)
       case _ => false
  }

  ghost predicate Earned(d: Data, x: Sid, req: Req) { x in d.h.accepted && d.h.accepted[x].ip == req.ip }

  lemma AnswerGoesOn(c: Config, now: Time, d: Data, x: Session, choice: string, m: Move)
    requires x.pc.Answering? && (SessionMove(c, now, d, x, choice, m) || m == LOST) && !Fails(c, d, x, m)
    ensures m.pc.Answering? || (m.pc == Finished && x.pc.a.VCache?)
    ensures m.pc.Answering? && m.pc.a.VCache? ==> m.data.InsertAllow? && m.data.row.ip == x.req.ip
    ensures m.data.InsertAllow? ==> m.pc == Answering(VCache)
  {
    hide Key;
  }

  lemma StepEarns(c: Config, s: State, s': State, e: Event, x: Sid, req: Req)
    requires Earning(s, x, req) && Next(c, s, s', e)
    requires e.Step? && e.sid == x ==> !Fails(c, s.d, s.sessions[x], e.m)
    ensures Earning(s', x, req)
  {
    hide SessionMove, ApplyLocks, ApplyReaders, ApplyData, Fails;
    if e.Step? {
      GateOneShot.HistoryFrame(c, s.now, s.d, e.sid, e.m.data);
      if e.sid == x && s.sessions[x].pc == Finished {
        FinishedStays(c, s.now, s.d, s.sessions[x], e.choice, e.m);
      } else if e.sid == x {
        AnswerGoesOn(c, s.now, s.d, s.sessions[x], e.choice, e.m);
      }
    }
  }

  /** Main result: an answer whose statements all succeed, the match among them, has an accepted entry for
      its address once it is finished. */
  lemma {:induction false} AnswerIsAccepted(
    c: Config, states: seq<State>, events: seq<Event>, b: nat, n: nat, x: Sid, req: Req, pc: AnswerPc)
    requires Run(c, states, events) && b < n < |states|
    requires events[b] == Begin(x, req, Answering(pc)) && Smooth(c, states, events, b, n, x)
    ensures Earning(states[n], x, req)
    ensures states[n].sessions[x].pc == Finished ==> Earned(states[n].d, x, req)
    decreases n
  {
    hide Next, Earning, Fails;
    if n == b + 1 {
      BeginEarns(c, states[b], states[n], x, req, pc);
    } else {
      AnswerIsAccepted(c, states, events, b, n - 1, x, req, pc);
      EarnedAtEnd(states[n - 1], x, req);
      StepEarns(c, states[n - 1], states[n], events[n - 1], x, req);
    }
    EarnedAtEnd(states[n], x, req);
  }

  lemma BeginEarns(c: Config, s: State, s': State, x: Sid, req: Req, pc: AnswerPc)
    requires Next(c, s, s', Begin(x, req, Answering(pc)))
    ensures Earning(s', x, req)
  {
  }

  lemma EarnedAtEnd(s: State, x: Sid, req: Req)
    requires Earning(s, x, req)
    ensures x in s.sessions && (s.sessions[x].pc == Finished ==> Earned(s.d, x, req))
  {
  }
}
