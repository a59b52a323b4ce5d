/** Runs of the gate on MySQL: a page without a pass gets a token, a token a challenge, a correct answer a
    pass, and a pass is served; and a failed DELETE lets one challenge be accepted twice. */
module GateWitness {
  import opened Gate

  ghost predicate Reachable(c: Config, s: State) {
    exists states: seq<State>, events: seq<Event> :: Run(c, states, events) && states[|states| - 1] == s
  }

  lemma Advance(c: Config, s: State, s': State, e: Event)
    requires Reachable(c, s) && Next(c, s, s', e)
    ensures Reachable(c, s')
  {
    hide Next, Init;
    var states: seq<State>, events: seq<Event> :| Run(c, states, events) && states[|states| - 1] == s;
    var states', events' := states + [s'], events + [e];
    forall i | 0 <= i < |events'| ensures Next(c, states'[i], states'[i + 1], events'[i]) {
      if i < |events| { assert Next(c, states[i], states[i + 1], events[i]); }
    }
    assert Run(c, states', events') && states'[|states'| - 1] == s';
  }

  /** A new session begins a request. */
  lemma Enter(c: Config, s: State, x: Sid, req: Req, pc: Pc) returns (t: State)
    requires Reachable(c, s) && x !in s.sessions && Starts(c, pc) && req.at == s.now
    ensures Reachable(c, t) && t == s.(sessions := s.sessions[x := Session(req, pc)])
  {
    hide Reachable, Starts;
    t := s.(sessions := s.sessions[x := Session(req, pc)]);
    Advance(c, s, t, Begin(x, req, pc));
  }

  /** One statement of a session. */
  lemma Go(c: Config, s: State, x: Sid, choice: string, m: Move) returns (t: State)
    requires Reachable(c, s) && x in s.sessions && LockFree(s, m.lock)
    requires SessionMove(c, s.now, s.d, s.sessions[x], choice, m)
    ensures Reachable(c, t) && t.now == s.now && t.sessions == s.sessions[x := Session(s.sessions[x].req, m.pc)]
    ensures t.d == ApplyData(c, s.now, s.d, x, m.data)
    ensures t.locks == ApplyLocks(s.locks, x, m.lock) && t.readers == ApplyReaders(s.readers, x, m.lock)
  {
    hide Reachable, SessionMove, LockFree, ApplyData, ApplyLocks, ApplyReaders;
    t := Apply(c, s, x, m);
    Advance(c, s, t, Step(x, choice, m));
  }

  /** No table is locked. */
  ghost predicate Unlocked(s: State) { s.locks == map[] && s.readers == {} }

  /** A lock is taken and given back. */
  lemma Released(x: Sid, t: Table)
    ensures ReleaseAll(map[t := x], x) == map[]
  {
  }

  /** A statement that only moves on. */
  lemma GoOn(c: Config, s: State, x: Sid, choice: string, pc: Pc) returns (t: State)
    requires Reachable(c, s) && x in s.sessions
    requires SessionMove(c, s.now, s.d, s.sessions[x], choice, Onward(pc))
    ensures Reachable(c, t) && t == s.(sessions := s.sessions[x := Session(s.sessions[x].req, pc)])
  {
    hide Reachable, SessionMove, ApplyData;
    NoDataNothing(c, s.now, s.d, x);
    t := Go(c, s, x, choice, Onward(pc));
  }

  lemma LockIt(c: Config, s: State, x: Sid, pc: Pc, table: Table) returns (t: State)
    requires Reachable(c, s) && Unlocked(s) && x in s.sessions
    requires SessionMove(c, s.now, s.d, s.sessions[x], "", Move(pc, Acquire(table), NoData))
    ensures Reachable(c, t)
    ensures t == s.(locks := map[table := x], sessions := s.sessions[x := Session(s.sessions[x].req, pc)])
  {
    hide Reachable, SessionMove, ApplyData;
    NoDataNothing(c, s.now, s.d, x);
    t := Go(c, s, x, "", Move(pc, Acquire(table), NoData));
  }

  lemma UnlockIt(c: Config, s: State, x: Sid, pc: Pc, table: Table) returns (t: State)
    requires Reachable(c, s) && s.locks == map[table := x] && s.readers == {} && x in s.sessions
    requires SessionMove(c, s.now, s.d, s.sessions[x], "", Move(pc, Release, NoData))
    ensures Reachable(c, t) && Unlocked(t)
    ensures t == s.(locks := map[], sessions := s.sessions[x := Session(s.sessions[x].req, pc)])
  {
    hide Reachable, SessionMove, ApplyData;
    NoDataNothing(c, s.now, s.d, x);
    Released(x, table);
    t := Go(c, s, x, "", Move(pc, Release, NoData));
  }

  // ----- A page without a pass: a token is issued -----

  lemma AskPage(c: Config, s: State, x: Sid, req: Req) returns (t: State)
    requires Reachable(c, s) && c.backend == MySql && Unlocked(s) && x !in s.sessions && req.at == s.now
    requires s.d.cache == map[] && s.d.allowed == map[]
    ensures Reachable(c, t) && Unlocked(t) && t.now == s.now && t.d == s.d
    ensures t.sessions == s.sessions[x := Session(req, Paging(PReadLock(s.now)))]
  {
    hide Reachable, ApplyData, Key, IsAllowed;
    CleanNothing(c, s.now, s.d, x);
    t := Enter(c, s, x, req, Paging(PLookup));
    t := GoOn(c, t, x, "", Paging(PLock));
    t := LockIt(c, t, x, Paging(PCleanup), Allowed);
    t := Go(c, t, x, "", Move(Paging(PUnlock(s.now)), NoLock, CleanAllowed));
    t := UnlockIt(c, t, x, Paging(PReadLock(s.now)), Allowed);
  }

  lemma FindNoPass(c: Config, s: State, x: Sid) returns (t: State)
    requires Reachable(c, s) && c.backend == MySql && Unlocked(s) && x in s.sessions
    requires s.sessions[x].pc == Paging(PReadLock(s.now)) && s.d.allowed == map[]
    ensures Reachable(c, t) && Unlocked(t) && t.now == s.now && t.d == s.d
    ensures t.sessions == s.sessions[x := Session(s.sessions[x].req, Issuing(ISeqLock))]
  {
    hide Reachable, ApplyData, Key;
    NoDataNothing(c, s.now, s.d, x);
    t := Go(c, s, x, "", Move(Paging(PSelect(s.now)), AcquireRead, NoData));
    t := GoOn(c, t, x, "", Paging(PReadUnlock(false)));
    t := Go(c, t, x, "", Move(Issuing(ISeqLock), Release, NoData));
  }

  lemma IssueToken(c: Config, s: State, x: Sid, id: string) returns (t: State)
    requires Reachable(c, s) && c.backend == MySql && Unlocked(s) && x in s.sessions
    requires s.sessions[x].pc == Issuing(ISeqLock) && id !in s.d.tokens
    ensures Reachable(c, t) && Unlocked(t) && t.now == s.now
    ensures t.sessions == s.sessions[x := Session(s.sessions[x].req, Finished)]
    ensures var row := Token(s.sessions[x].req.port, s.now, s.d.h.nextUid);
      t.d == ApplyData(c, s.now, s.d, x, InsertToken(id, row))
  {
    hide Reachable, ApplyData;
    var row := Token(s.sessions[x].req.port, s.now, s.d.h.nextUid);
    t := LockIt(c, s, x, Issuing(ISeqHeld), SeqIds);
    t := UnlockIt(c, t, x, Issuing(ILock), SeqIds);
    t := LockIt(c, t, x, Issuing(ICleanup), Tokens);
    t := GoOn(c, t, x, "", Issuing(IPick));
    t := GoOn(c, t, x, id, Issuing(IInsert(id)));
    t := Go(c, t, x, id, Move(Issuing(IUnlock), NoLock, InsertToken(id, row)));
    t := UnlockIt(c, t, x, Finished, Tokens);
  }

  lemma NoDataNothing(c: Config, now: Time, d: Data, x: Sid)
    ensures ApplyData(c, now, d, x, NoData) == d
  {
  }

  // ----- The script: the token buys a challenge -----

  lemma RedeemIt(c: Config, s: State, x: Sid, req: Req, id: string) returns (t: State)
    requires Reachable(c, s) && c.backend == MySql && Unlocked(s) && x !in s.sessions && req.at == s.now
    requires id in s.d.tokens
    ensures Reachable(c, t) && Unlocked(t) && t.now == s.now
    ensures t.sessions == s.sessions[x := Session(req, Scripting(CSeqLock(s.d.tokens[id])))]
    ensures t.d == ApplyData(c, s.now, s.d, x, RedeemToken(id, s.d.tokens[id].uid))
  {
    hide Reachable, ApplyData;
    var row := s.d.tokens[id];
    t := Enter(c, s, x, req, Scripting(TLock(id)));
    t := LockIt(c, t, x, Scripting(TSelect(id)), Tokens);
    t := GoOn(c, t, x, "", Scripting(TDelete(id, row)));
    t := Go(c, t, x, "", Move(Scripting(TUnlock(row)), NoLock, RedeemToken(id, row.uid)));
    t := UnlockIt(c, t, x, Scripting(CSeqLock(row)), Tokens);
  }

  lemma PickId(c: Config, s: State, x: Sid, row: Token, id: string) returns (t: State)
    requires Reachable(c, s) && c.backend == MySql && Unlocked(s) && x in s.sessions
    requires s.sessions[x].pc == Scripting(CSeqLock(row)) && id !in s.d.chals
    ensures Reachable(c, t) && Unlocked(t) && t.now == s.now && t.d == s.d
    ensures t.sessions == s.sessions[x := Session(s.sessions[x].req, Scripting(CLock(row, id)))]
  {
    hide Reachable, ApplyData;
    t := LockIt(c, s, x, Scripting(CSeqHeld(row)), SeqIds);
    t := UnlockIt(c, t, x, Scripting(CPick(row)), SeqIds);
    t := GoOn(c, t, x, id, Scripting(CLock(row, id)));
  }

  lemma MakeChallenge(c: Config, s: State, x: Sid, row: Token, id: string, answer: string) returns (t: State)
    requires Reachable(c, s) && c.backend == MySql && Unlocked(s) && x in s.sessions
    requires s.sessions[x].pc == Scripting(CLock(row, id)) && s.d.chals == map[]
    ensures Reachable(c, t) && Unlocked(t) && t.now == s.now
    ensures t.sessions == s.sessions[x := Session(s.sessions[x].req, Finished)]
    ensures var chal := Chal(s.sessions[x].req.ip, row.port, c.hash(answer), s.now, s.d.h.nextUid, row.uid);
      t.d == ApplyData(c, s.now, s.d, x, InsertChallenge(id, chal))
  {
    hide Reachable, ApplyData;
    var chal := Chal(s.sessions[x].req.ip, row.port, c.hash(answer), s.now, s.d.h.nextUid, row.uid);
    CleanNothing(c, s.now, s.d, x);
    t := LockIt(c, s, x, Scripting(CCleanup(row, id)), Challenges);
    t := Go(c, t, x, "", Move(Scripting(CInsert(row, id)), NoLock, CleanChallenges));
    t := Go(c, t, x, answer, Move(Scripting(CUnlock), NoLock, InsertChallenge(id, chal)));
    t := UnlockIt(c, t, x, Finished, Challenges);
  }

  lemma CleanNothing(c: Config, now: Time, d: Data, x: Sid)
    ensures d.chals == map[] ==> ApplyData(c, now, d, x, CleanChallenges) == d
    ensures d.allowed == map[] ==> ApplyData(c, now, d, x, CleanAllowed) == d
  {
  }

  // ----- Answering -----

  /** What a cleanup leaves of the challenges. */
  function Fresh(c: Config, s: State): map<string, Chal> { FreshChallenges(c, s.d.chals, s.now) }

  lemma MatchIt(c: Config, s: State, x: Sid, req: Req, id: string, text: string) returns (t: State)
    requires Reachable(c, s) && c.backend == MySql && Unlocked(s) && x !in s.sessions && req.at == s.now
    requires id in s.d.chals && s.d.chals[id].ip == req.ip && s.d.chals[id].factors == c.hash(text)
    requires s.now < s.d.chals[id].at + 60 * c.challengeTimeout
    ensures Reachable(c, t) && t.locks == map[Challenges := x] && t.readers == {} && t.now == s.now
    ensures t.d == s.d.(chals := Fresh(c, s)) && id in t.d.chals && t.d.chals[id] == s.d.chals[id]
    ensures t.sessions == s.sessions[x := Session(req, Answering(VDelete(id, text, s.now, s.d.chals[id])))]
  {
    hide Reachable, ApplyData, Fresh;
    var row := s.d.chals[id];
    t := Enter(c, s, x, req, Answering(VLock(id, text)));
    t := LockIt(c, t, x, Answering(VCleanup(id, text)), Challenges);
    CleanYoung(c, s, x, id);
    t := Go(c, t, x, "", Move(Answering(VSelect(id, text, s.now)), NoLock, CleanChallenges));
    t := GoOn(c, t, x, "", Answering(VDelete(id, text, s.now, row)));
  }

  /** A correct answer to a young challenge can be accepted, whether or not the DELETE fails. */
  lemma AnswerIt(c: Config, s: State, x: Sid, req: Req, id: string, text: string, deleted: bool) returns (t: State)
    requires Reachable(c, s) && c.backend == MySql && Unlocked(s) && x !in s.sessions && req.at == s.now
    requires id in s.d.chals && s.d.chals[id].ip == req.ip && s.d.chals[id].factors == c.hash(text)
    requires s.now < s.d.chals[id].at + 60 * c.challengeTimeout
    ensures Reachable(c, t) && Unlocked(t) && t.now == s.now
    ensures t.sessions == s.sessions[x := Session(req, Answering(VCache))]
    ensures var row := s.d.chals[id];
      var allow := Allow(req.ip, row.port, s.now, row.uid, row.at, text, s.now, deleted);
      && t.d.h.accepted == s.d.h.accepted[x := allow] && t.d.allowed == s.d.allowed[x := allow]
      && t.d.chals == if deleted then Fresh(c, s) - {id} else Fresh(c, s)
  {
    hide Reachable, ApplyData, Fresh, SessionMove;
    var row := s.d.chals[id];
    t := MatchIt(c, s, x, req, id, text);
    t := SpendIt(c, t, x, id, text, s.now, row, deleted);
    t := InsertIt(c, t, x, text, s.now, row, deleted);
  }

  lemma SpendIt(c: Config, s: State, x: Sid, id: string, text: string, cleaned: Time, row: Chal, deleted: bool)
    returns (t: State)
    requires Reachable(c, s) && c.backend == MySql && s.locks == map[Challenges := x] && s.readers == {}
    requires x in s.sessions && s.sessions[x].pc == Answering(VDelete(id, text, cleaned, row))
    ensures Reachable(c, t) && Unlocked(t) && t.now == s.now
    ensures t.sessions == s.sessions[x := Session(s.sessions[x].req, Answering(VInsert(text, cleaned, row, deleted)))]
    ensures t.d.h.accepted == s.d.h.accepted && t.d.allowed == s.d.allowed
    ensures t.d.chals == if deleted then s.d.chals - {id} else s.d.chals
  {
    hide Reachable, ApplyData;
    t := Go(c, s, x, "", Move(Answering(VUnlock(text, cleaned, row, deleted)), NoLock,
                              if deleted then SpendChallenge(id, row.uid) else NoData));
    DeleteEffect(c, s.now, s.d, x, id, row.uid, deleted);
    t := UnlockIt(c, t, x, Answering(VInsert(text, cleaned, row, deleted)), Challenges);
  }

  lemma InsertIt(c: Config, s: State, x: Sid, text: string, cleaned: Time, row: Chal, deleted: bool)
    returns (t: State)
    requires Reachable(c, s) && c.backend == MySql && Unlocked(s)
    requires x in s.sessions && s.sessions[x].pc == Answering(VInsert(text, cleaned, row, deleted))
    ensures Reachable(c, t) && Unlocked(t) && t.now == s.now
    ensures t.sessions == s.sessions[x := Session(s.sessions[x].req, Answering(VCache))]
    ensures var allow := Allow(s.sessions[x].req.ip, row.port, s.now, row.uid, row.at, text, cleaned, deleted);
      && t.d.h.accepted == s.d.h.accepted[x := allow] && t.d.allowed == s.d.allowed[x := allow]
      && t.d.chals == s.d.chals
  {
    hide Reachable, ApplyData;
    var allow := Allow(s.sessions[x].req.ip, row.port, s.now, row.uid, row.at, text, cleaned, deleted);
    InsertEffect(c, s.now, s.d, x, allow);
    t := Go(c, s, x, "", Move(Answering(VCache), NoLock, InsertAllow(allow)));
  }

  lemma CleanYoung(c: Config, s: State, x: Sid, id: string)
    requires c.backend == MySql && id in s.d.chals && s.now < s.d.chals[id].at + 60 * c.challengeTimeout
    ensures ApplyData(c, s.now, s.d, x, CleanChallenges) == s.d.(chals := Fresh(c, s))
    ensures id in Fresh(c, s) && Fresh(c, s)[id] == s.d.chals[id]
    ensures s.d.chals == map[id := s.d.chals[id]] ==> Fresh(c, s) == s.d.chals
  {
  }

  lemma DeleteEffect(c: Config, now: Time, d: Data, x: Sid, id: string, uid: Uid, deleted: bool)
    ensures var d' := ApplyData(c, now, d, x, if deleted then SpendChallenge(id, uid) else NoData);
      && d'.h.accepted == d.h.accepted && d'.allowed == d.allowed
      && d'.chals == if deleted then d.chals - {id} else d.chals
  {
  }

  lemma InsertEffect(c: Config, now: Time, d: Data, x: Sid, row: Allow)
    ensures var d' := ApplyData(c, now, d, x, InsertAllow(row));
      d'.h.accepted == d.h.accepted[x := row] && d'.allowed == d.allowed[x := row] && d'.chals == d.chals
  {
  }

  // ----- Serving -----

  /** The address and port have a row that a cleanup at this time would keep. */
  ghost predicate HasYoungPass(c: Config, s: State, req: Req) {
    exists a :: (
      && a in s.d.allowed && s.d.allowed[a].ip == req.ip && s.d.allowed[a].port == req.port
      && s.now < s.d.allowed[a].at + 60 * c.allowedTimeout)
  }

  /** After the cache was asked in vain: the database finds the row. */
  lemma FindPass(c: Config, s: State, x: Sid) returns (t: State)
    requires Reachable(c, s) && c.backend == MySql && Unlocked(s) && x in s.sessions
    requires s.sessions[x].pc == Paging(PLock) && HasYoungPass(c, s, s.sessions[x].req)
    ensures Reachable(c, t) && t.locks == map[] && t.readers == {x} && t.now == s.now
    ensures t.sessions == s.sessions[x := Session(s.sessions[x].req, Paging(PReadUnlock(true)))]
  {
    hide Reachable, ApplyData, Key;
    t := LockIt(c, s, x, Paging(PCleanup), Allowed);
    t := Go(c, t, x, "", Move(Paging(PUnlock(s.now)), NoLock, CleanAllowed));
    PassKept(c, s, x, s.sessions[x].req);
    t := UnlockIt(c, t, x, Paging(PReadLock(s.now)), Allowed);
    NoDataNothing(c, s.now, t.d, x);
    t := Go(c, t, x, "", Move(Paging(PSelect(s.now)), AcquireRead, NoData));
    t := GoOn(c, t, x, "", Paging(PReadUnlock(true)));
  }

  lemma PassKept(c: Config, s: State, x: Sid, req: Req)
    requires c.backend == MySql && HasYoungPass(c, s, req)
    ensures IsAllowed(ApplyData(c, s.now, s.d, x, CleanAllowed), req)
  {
    var a :| (
      && a in s.d.allowed && s.d.allowed[a].ip == req.ip && s.d.allowed[a].port == req.port
      && s.now < s.d.allowed[a].at + 60 * c.allowedTimeout);
    var d := ApplyData(c, s.now, s.d, x, CleanAllowed);
    assert a in d.allowed && d.allowed[a] == s.d.allowed[a];
  }

  lemma ForwardIt(c: Config, s: State, x: Sid) returns (t: State)
    requires Reachable(c, s) && Unlocked(s) && x in s.sessions && s.sessions[x].pc == Paging(PForward)
    ensures Reachable(c, t) && Unlocked(t) && t.sessions == s.sessions[x := Session(s.sessions[x].req, Finished)]
    ensures Forward(s.sessions[x].req.ip, s.sessions[x].req.at) in t.d.h.forwards
  {
    hide Reachable, Key;
    t := Go(c, s, x, "", Move(Finished, NoLock, Forwarded(Forward(s.sessions[x].req.ip, s.sessions[x].req.at))));
  }

  /** From every reachable state without locks a request with a young pass can be served, whatever the cache. */
  lemma ServeIt(c: Config, s: State, x: Sid, req: Req) returns (t: State)
    requires Reachable(c, s) && c.backend == MySql && Unlocked(s) && x !in s.sessions && req.at == s.now
    requires HasYoungPass(c, s, req)
    ensures Reachable(c, t) && Unlocked(t) && t.sessions == s.sessions[x := Session(req, Finished)]
    ensures Forward(req.ip, req.at) in t.d.h.forwards
  {
    hide Reachable, ApplyData, Key, SessionMove;
    var key := Key(req.ip, req.port);
    t := StartPage(c, s, x, req);
    if !(key in s.d.cache && req.at - s.d.cache[key] <= CACHED_TIMEOUT) {
      PassStays(c, s, t, req);
      t := FindPass(c, t, x);
      t := UsePass(c, t, x);
    }
    t := ForwardIt(c, t, x);
  }

  lemma StartPage(c: Config, s: State, x: Sid, req: Req) returns (t: State)
    requires Reachable(c, s) && c.backend == MySql && Unlocked(s) && x !in s.sessions && req.at == s.now
    ensures Reachable(c, t) && Unlocked(t) && t.now == s.now && t.d.allowed == s.d.allowed
    ensures var key := Key(req.ip, req.port);
      t.sessions == s.sessions[x := Session(req, Paging(
        if key in s.d.cache && req.at - s.d.cache[key] <= CACHED_TIMEOUT then PForward else PLock))]
  {
    hide Reachable, ApplyData, Key;
    var key := Key(req.ip, req.port);
    t := Enter(c, s, x, req, Paging(PLookup));
    if key !in s.d.cache {
      t := GoOn(c, t, x, "", Paging(PLock));
    } else if req.at - s.d.cache[key] <= CACHED_TIMEOUT {
      t := GoOn(c, t, x, "", Paging(PForward));
    } else {
      t := Go(c, t, x, "", Move(Paging(PLock), NoLock, CacheErase(key)));
      EraseKeeps(c, s.now, s.d, x, key);
    }
  }

  lemma UsePass(c: Config, s: State, x: Sid) returns (t: State)
    requires Reachable(c, s) && c.backend == MySql && s.locks == map[] && s.readers == {x}
    requires x in s.sessions && s.sessions[x].pc == Paging(PReadUnlock(true))
    ensures Reachable(c, t) && Unlocked(t)
    ensures t.sessions == s.sessions[x := Session(s.sessions[x].req, Paging(PForward))]
  {
    hide Reachable, ApplyData, Key;
    var req := s.sessions[x].req;
    t := Go(c, s, x, "", Move(Paging(PCache), Release, NoData));
    t := Go(c, t, x, "", Move(Paging(PForward), NoLock, CachePut(Key(req.ip, req.port), req.at)));
  }

  lemma EraseKeeps(c: Config, now: Time, d: Data, x: Sid, key: string)
    ensures ApplyData(c, now, d, x, CacheErase(key)).allowed == d.allowed
  {
  }

  lemma PassStays(c: Config, s: State, t: State, req: Req)
    requires HasYoungPass(c, s, req) && t.d.allowed == s.d.allowed && t.now == s.now
    ensures HasYoungPass(c, t, req)
  {
    var a :| (
      && a in s.d.allowed && s.d.allowed[a].ip == req.ip && s.d.allowed[a].port == req.port
      && s.now < s.d.allowed[a].at + 60 * c.allowedTimeout);
    assert a in t.d.allowed;
  }

  // ----- The run -----

  /** A challenge for one address, made from scratch. */
  lemma FirstChallenge(c: Config, answer: string) returns (s: State)
    requires c.backend == MySql
    ensures Reachable(c, s) && Unlocked(s) && s.now == 0 && s.sessions.Keys == {0, 1}
    ensures s.d.chals == map["c" := Chal("ip", 80, c.hash(answer), 0, 1, 0)] && s.d.h.accepted == map[]
  {
    hide Reachable;
    var req := Req("ip", 80, 0);
    var h := History(0, map[], map[], map[], map[], map[], {});
    s := State(0, Data(map[], map[], map[], map[], h), map[], {}, map[]);
    StartReachable(c, s);
    s := AskPage(c, s, 0, req);
    s := FindNoPass(c, s, 0);
    s := IssueToken(c, s, 0, "t");
    s := RedeemIt(c, s, 1, req, "t");
    s := PickId(c, s, 1, Token(80, 0, 0), "c");
    s := MakeChallenge(c, s, 1, Token(80, 0, 0), "c", answer);
  }

  lemma StartReachable(c: Config, s: State)
    requires Init(s)
    ensures Reachable(c, s)
  {
    assert Run(c, [s], []) && [s][|[s]| - 1] == s;
  }

  /** After a failed DELETE the same challenge is accepted a second time. */
  lemma FailedDeleteAcceptsTwice(c: Config, answer: string) returns (s: State)
    requires c.backend == MySql && c.challengeTimeout > 0
    ensures Reachable(c, s)
    ensures var r := s.d.h.accepted;
      2 in r && 3 in r && r[2].chal == r[3].chal && r[2].text == r[3].text == answer && !r[2].deleted && r[3].deleted
  {
    hide Reachable, Unlocked;
    var req := Req("ip", 80, 0);
    s := FirstChallenge(c, answer);
    CleanYoung(c, s, 2, "c");
    s := AnswerIt(c, s, 2, req, "c", answer, false);
    s := AnswerIt(c, s, 3, req, "c", answer, true);
  }
}
