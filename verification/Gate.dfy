/** The gate as a step system: tokens, challenges and allowed rows changed by concurrent sessions one
    SQL statement at a time, plus the in-memory cache. Both backends share the tables; only MySQL
    locks them. */
module Gate {
  import opened Decimal

  type Time = nat
  type Sid = nat
  type Uid = nat

  datatype Backend = MySql | Sqlite

  /** Timeouts are in minutes; `hash` stands for the hexadecimal BLAKE3 hash of the source. */
  datatype Config = Config(backend: Backend, allowedTimeout: nat, challengeTimeout: nat, hash: string -> string)

  const CACHED_TIMEOUT := 120

  datatype Table = SeqIds | Tokens | Challenges | Allowed

  // ----- Rows. `uid` is not in the database: it tells inserted rows apart for all time. -----

  datatype Token = Token(port: nat, at: Time, uid: Uid)

  datatype Chal = Chal(ip: string, port: nat, factors: string, at: Time, uid: Uid, token: Uid)

  /** An allowed row with what led to it: the challenge and when it was made, the text sent, when the
      stale challenges were last deleted before the match, and whether the challenge's own DELETE
      executed. */
  datatype Allow = Allow(
    ip: string, port: nat, at: Time,
    chal: Uid, chalAt: Time, text: string, cleaned: Time, deleted: bool)

  /** A request: the client address, the local port and the time captured at its start. */
  datatype Req = Req(ip: string, port: nat, at: Time)

  // ----- Program counters, one per statement -----

  datatype AnswerPc =
    | VLock(id: string, text: string)
    | VCleanup(id: string, text: string)
    | VSelect(id: string, text: string, cleaned: Time)
    | VDelete(id: string, text: string, cleaned: Time, row: Chal)
    | VUnlock(text: string, cleaned: Time, row: Chal, deleted: bool)
    | VInsert(text: string, cleaned: Time, row: Chal, deleted: bool)
    | VCache

  datatype ScriptPc =
    | SCleanup(id: string)
    | TLock(id: string)
    | TSelect(id: string)
    | TDelete(id: string, row: Token)
    | TUnlock(row: Token)
    | CSeqLock(row: Token)
    | CSeqHeld(row: Token)
    | CPick(row: Token)
    | CLock(row: Token, id: string)
    | CCleanup(row: Token, id: string)
    | CInsert(row: Token, id: string)
    | CUnlock

  datatype PagePc =
    | PLookup
    | PLock
    | PCleanup
    | PUnlock(cleaned: Time)
    | PReadLock(cleaned: Time)
    | PSelect(cleaned: Time)
    | PReadUnlock(found: bool)
    | PCache
    | PForward

  datatype IssuePc =
    | ISeqLock
    | ISeqHeld
    | ILock
    | ICleanup
    | IPick
    | IInsert(id: string)
    | IUnlock

  datatype Held = Nothing | Write(table: Table) | ReadAllowed

  datatype Pc =
    | Answering(a: AnswerPc)
    | Scripting(t: ScriptPc)
    | Paging(p: PagePc)
    | Issuing(i: IssuePc)
    | Unlocking(h: Held)
    | Finished

  datatype Session = Session(req: Req, pc: Pc)

  datatype Forward = Forward(ip: string, at: Time)

  /** What has ever happened. */
  datatype History = History(
    nextUid: Uid,
    issued: map<Uid, Token>,
    created: map<Uid, Chal>,
    accepted: map<Sid, Allow>,
    redeemed: map<Sid, Uid>,
    spent: map<Sid, Uid>,
    forwards: set<Forward>)

  /** Database tables, cache and history. */
  datatype Data = Data(
    tokens: map<string, Token>,
    chals: map<string, Chal>,
    allowed: map<Sid, Allow>,
    cache: map<string, Time>,
    h: History)

  datatype State = State(
    now: Time,
    d: Data,
    locks: map<Table, Sid>,
    readers: set<Sid>,
    sessions: map<Sid, Session>)

  ghost predicate Init(s: State) {
    && s.d == Data(map[], map[], map[], map[], History(0, map[], map[], map[], map[], map[], {}))
    && s.locks == map[] && s.readers == {} && s.sessions == map[]
  }

  /** The cache key: address and local port joined by a colon. */
  function Key(ip: string, port: nat): string { ip + ":" + Numeral(port) }

  // ----- Which lock each program counter holds on MySQL -----

  function AnswerHolds(a: AnswerPc): Held {
    match a
    case VCleanup(_, _) => Write(Challenges)
    case VSelect(_, _, _) => Write(Challenges)
    case VDelete(_, _, _, _) => Write(Challenges)
    case VUnlock(_, _, _, _) => Write(Challenges)
    case _ => Nothing
  }

  function ScriptHolds(t: ScriptPc): Held {
    match t
    case TSelect(_) => Write(Tokens)
    case TDelete(_, _) => Write(Tokens)
    case TUnlock(_) => Write(Tokens)
    case CSeqHeld(_) => Write(SeqIds)
    case CCleanup(_, _) => Write(Challenges)
    case CInsert(_, _) => Write(Challenges)
    case CUnlock => Write(Challenges)
    case _ => Nothing
  }

  function PageHolds(p: PagePc): Held {
    match p
    case PCleanup => Write(Allowed)
    case PUnlock(_) => Write(Allowed)
    case PSelect(_) => ReadAllowed
    case PReadUnlock(_) => ReadAllowed
    case _ => Nothing
  }

  function IssueHolds(i: IssuePc): Held {
    match i
    case ISeqHeld => Write(SeqIds)
    case ICleanup => Write(Tokens)
    case IPick => Write(Tokens)
    case IInsert(_) => Write(Tokens)
    case IUnlock => Write(Tokens)
    case _ => Nothing
  }

  function Holds(b: Backend, pc: Pc): Held {
    if b == Sqlite then Nothing
    else
      match pc
      case Answering(a) => AnswerHolds(a)
      case Scripting(t) => ScriptHolds(t)
      case Paging(p) => PageHolds(p)
      case Issuing(i) => IssueHolds(i)
      case Unlocking(h) => h
      case Finished => Nothing
  }

  /** Waiting for a LOCK TABLE statement. */
  predicate Waits(pc: Pc) {
    match pc
    case Answering(a) => a.VLock?
    case Scripting(t) => t.TLock? || t.CSeqLock? || t.CLock?
    case Paging(p) => p.PLock? || p.PReadLock?
    case Issuing(i) => i.ISeqLock? || i.ILock?
    case _ => false
  }

  // ----- What one statement does -----

  datatype LockOp = NoLock | Acquire(table: Table) | AcquireRead | Release

  datatype DataOp =
    | NoData
    | CleanChallenges
    | CleanAllowed
    | CleanTokens
    | SpendChallenge(id: string, uid: Uid)
    | InsertAllow(row: Allow)
    | RedeemToken(id: string, tokenUid: Uid)
    | InsertChallenge(chalId: string, chal: Chal)
    | InsertToken(tokenId: string, token: Token)
    | CacheErase(key: string)
    | CachePut(newKey: string, at: Time)
    | Forwarded(f: Forward)

  /** One step of a session: the next program counter, and its effect on locks and data. */
  datatype Move = Move(pc: Pc, lock: LockOp, data: DataOp)

  /** A step that only moves on. */
  function Onward(pc: Pc): Move { Move(pc, NoLock, NoData) }

  /** After an error: MySQL code unlocks what it holds, SQLite code just returns. */
  function Fail(c: Config, pc: Pc): Move {
    var h := Holds(c.backend, pc);
    Onward(if h == Nothing then Finished else Unlocking(h))
  }

  /** Whole minutes, as TIMESTAMPDIFF counts them. */
  function Minutes(from: Time, to: Time): int { (to - from) / 60 }

  /** MySQL keeps a row while its age in whole minutes is below the timeout; SQLite keeps it while
      its timestamp plus the timeout is not in the past. */
  predicate Keep(b: Backend, at: Time, timeout: nat, now: Time) {
    match b
    case MySql => Minutes(at, now) < timeout
    case Sqlite => at + 60 * timeout >= now
  }

  function FreshChallenges(c: Config, m: map<string, Chal>, now: Time): map<string, Chal> {
    map id | id in m && Keep(c.backend, m[id].at, c.challengeTimeout, now) :: m[id]
  }

  function FreshAllowed(c: Config, m: map<Sid, Allow>, now: Time): map<Sid, Allow> {
    map a | a in m && Keep(c.backend, m[a].at, c.allowedTimeout, now) :: m[a]
  }

  function FreshTokens(c: Config, m: map<string, Token>, now: Time): map<string, Token> {
    map id | id in m && Keep(c.backend, m[id].at, c.challengeTimeout, now) :: m[id]
  }

  function ApplyData(c: Config, now: Time, d: Data, sid: Sid, op: DataOp): Data {
    match op
    case NoData => d
    case CleanChallenges => d.(chals := FreshChallenges(c, d.chals, now))
    case CleanAllowed => d.(allowed := FreshAllowed(c, d.allowed, now))
    case CleanTokens => d.(tokens := FreshTokens(c, d.tokens, now))
    case SpendChallenge(id, uid) => d.(chals := d.chals - {id}, h := d.h.(spent := d.h.spent[sid := uid]))
    case InsertAllow(row) => d.(allowed := d.allowed[sid := row], h := d.h.(accepted := d.h.accepted[sid := row]))
    case RedeemToken(id, uid) => d.(tokens := d.tokens - {id}, h := d.h.(redeemed := d.h.redeemed[sid := uid]))
    case InsertChallenge(id, chal) =>
      d.(chals := d.chals[id := chal],
         h := d.h.(created := d.h.created[chal.uid := chal], nextUid := d.h.nextUid + 1))
    case InsertToken(id, token) =>
      d.(tokens := d.tokens[id := token],
         h := d.h.(issued := d.h.issued[token.uid := token], nextUid := d.h.nextUid + 1))
    case CacheErase(key) => d.(cache := d.cache - {key})
    // `unordered_map::insert` keeps an existing entry.
    case CachePut(key, at) => if key in d.cache then d else d.(cache := d.cache[key := at])
    case Forwarded(f) => d.(h := d.h.(forwards := d.h.forwards + {f}))
  }

  /** `LOCK TABLE t WRITE` succeeds only when nobody holds the table; READ tolerates readers. */
  predicate LockFree(s: State, op: LockOp) {
    match op
    case Acquire(t) => t !in s.locks && (t == Allowed ==> s.readers == {})
    case AcquireRead => Allowed !in s.locks
    case _ => true
  }

  function ReleaseAll(locks: map<Table, Sid>, sid: Sid): map<Table, Sid> {
    map t | t in locks && locks[t] != sid :: locks[t]
  }

  function ApplyLocks(locks: map<Table, Sid>, sid: Sid, op: LockOp): map<Table, Sid> {
    match op
    case Acquire(t) => locks[t := sid]
    case Release => ReleaseAll(locks, sid)
    case _ => locks
  }

  function ApplyReaders(readers: set<Sid>, sid: Sid, op: LockOp): set<Sid> {
    match op
    case AcquireRead => readers + {sid}
    case Release => readers - {sid}
    case _ => readers
  }

  function Apply(c: Config, s: State, sid: Sid, m: Move): State
    requires sid in s.sessions
  {
    State(s.now, ApplyData(c, s.now, s.d, sid, m.data),
          ApplyLocks(s.locks, sid, m.lock), ApplyReaders(s.readers, sid, m.lock),
          s.sessions[sid := Session(s.sessions[sid].req, m.pc)])
  }

  // ----- Answering a challenge: validate_client and verify_answer -----

  ghost predicate AnswerMove(c: Config, now: Time, d: Data, req: Req, a: AnswerPc, m: Move) {
    var mysql := c.backend == MySql;
    var fail := m == Fail(c, Answering(a));
    match a
    case VLock(id, text) => m == Move(Answering(VCleanup(id, text)), Acquire(Challenges), NoData) || fail
    case VCleanup(id, text) => m == Move(Answering(VSelect(id, text, now)), NoLock, CleanChallenges) || fail
    case VSelect(id, text, cleaned) =>
      || fail
      || (id in d.chals && d.chals[id].factors == c.hash(text) && d.chals[id].ip == req.ip
          && m == Onward(Answering(VDelete(id, text, cleaned, d.chals[id]))))
    case VDelete(id, text, cleaned, row) =>
      || m == Move(Answering(AfterDelete(c, text, cleaned, row, true)), NoLock, SpendChallenge(id, row.uid))
      // MySQL ignores a failed DELETE, SQLite reports it.
      || (if mysql then m == Onward(Answering(AfterDelete(c, text, cleaned, row, false))) else fail)
    case VUnlock(text, cleaned, row, deleted) =>
      m == Move(Answering(VInsert(text, cleaned, row, deleted)), Release, NoData)
    case VInsert(text, cleaned, row, deleted) =>
      || m == Move(Answering(VCache), NoLock,
                   InsertAllow(Allow(req.ip, row.port, now, row.uid, row.at, text, cleaned, deleted)))
      || fail
    case VCache => m == Move(Finished, NoLock, CachePut(Key(req.ip, req.port), req.at))
  }

  function AfterDelete(c: Config, text: string, cleaned: Time, row: Chal, deleted: bool): AnswerPc {
    if c.backend == MySql then VUnlock(text, cleaned, row, deleted) else VInsert(text, cleaned, row, deleted)
  }

  // ----- Serving the script: get_id_to_port_port with set_challenge_factor, generate_challenge -----

  /** `choice` is the random part of a step: a fresh id, or the answer of a generated challenge. */
  ghost predicate ScriptMove(c: Config, now: Time, d: Data, req: Req, t: ScriptPc, choice: string, m: Move) {
    var mysql := c.backend == MySql;
    var fail := m == Fail(c, Scripting(t));
    match t
    case SCleanup(id) =>
      !mysql && (m == Move(Scripting(TSelect(id)), NoLock, CleanChallenges) || m == Onward(Scripting(TSelect(id))))
    case TLock(id) => m == Move(Scripting(TSelect(id)), Acquire(Tokens), NoData) || fail
    case TSelect(id) => fail || (id in d.tokens && m == Onward(Scripting(TDelete(id, d.tokens[id]))))
    case TDelete(id, row) =>
      var next := Scripting(if mysql then TUnlock(row) else CPick(row));
      // SQLite ignores a failed DELETE, MySQL reports it.
      m == Move(next, NoLock, RedeemToken(id, row.uid)) || (if mysql then fail else m == Onward(next))
    case TUnlock(row) => m == Move(Scripting(CSeqLock(row)), Release, NoData)
    case CSeqLock(row) => m == Move(Scripting(CSeqHeld(row)), Acquire(SeqIds), NoData) || fail
    case CSeqHeld(row) => m == Move(Scripting(CPick(row)), Release, NoData) || fail
    case CPick(row) =>
      // A taken id is drawn again, with the next sequence number.
      || (choice !in d.chals && m == Onward(Scripting(if mysql then CLock(row, choice) else CInsert(row, choice))))
      || m == Onward(Scripting(if mysql then CSeqLock(row) else CPick(row)))
      || fail
    case CLock(row, id) => m == Move(Scripting(CCleanup(row, id)), Acquire(Challenges), NoData) || fail
    case CCleanup(row, id) => m == Move(Scripting(CInsert(row, id)), NoLock, CleanChallenges) || fail
    case CInsert(row, id) =>
      // The id is a primary key: inserting a taken one fails.
      || (id !in d.chals
          && m == Move(if mysql then Scripting(CUnlock) else Finished, NoLock,
                       InsertChallenge(id, Chal(req.ip, row.port, c.hash(choice), now, d.h.nextUid, row.uid))))
      || fail
    case CUnlock => m == Move(Finished, Release, NoData)
  }

  // ----- Serving a page: cache, allowed check, forwarding -----

  function AskDatabase(c: Config): PagePc { if c.backend == MySql then PLock else PCleanup }

  function AskChallenge(c: Config): Pc { if c.backend == MySql then Issuing(ISeqLock) else Issuing(ICleanup) }

  ghost predicate IsAllowed(d: Data, req: Req) {
    exists a :: a in d.allowed && d.allowed[a].ip == req.ip && d.allowed[a].port == req.port
  }

  ghost predicate PageMove(c: Config, now: Time, d: Data, req: Req, p: PagePc, m: Move) {
    var mysql := c.backend == MySql;
    var fail := m == Fail(c, Paging(p));
    var key := Key(req.ip, req.port);
    match p
    case PLookup =>
      if key !in d.cache then m == Onward(Paging(AskDatabase(c)))
      else if req.at - d.cache[key] > CACHED_TIMEOUT then m == Move(Paging(AskDatabase(c)), NoLock, CacheErase(key))
      else m == Onward(Paging(PForward))
    case PLock => m == Move(Paging(PCleanup), Acquire(Allowed), NoData) || fail
    case PCleanup =>
      || m == Move(Paging(if mysql then PUnlock(now) else PSelect(now)), NoLock, CleanAllowed)
      || (mysql && fail)
    case PUnlock(cleaned) => m == Move(Paging(PReadLock(cleaned)), Release, NoData)
    case PReadLock(cleaned) => m == Move(Paging(PSelect(cleaned)), AcquireRead, NoData) || fail
    case PSelect(cleaned) =>
      if mysql then m == Onward(Paging(PReadUnlock(IsAllowed(d, req)))) || fail
      // SQLite code asks for a challenge whether the row is missing or the query failed.
      else m == Onward(AskChallenge(c)) || (IsAllowed(d, req) && m == Onward(Paging(PCache)))
    case PReadUnlock(found) => m == Move(if found then Paging(PCache) else AskChallenge(c), Release, NoData)
    case PCache => m == Move(Paging(PForward), NoLock, CachePut(key, req.at))
    case PForward => m == Move(Finished, NoLock, Forwarded(Forward(req.ip, req.at)))
  }

  // ----- Issuing a token: init_id_to_port -----

  ghost predicate IssueMove(c: Config, now: Time, d: Data, req: Req, i: IssuePc, choice: string, m: Move) {
    var mysql := c.backend == MySql;
    var fail := m == Fail(c, Issuing(i));
    match i
    case ISeqLock => m == Move(Issuing(ISeqHeld), Acquire(SeqIds), NoData) || fail
    case ISeqHeld => m == Move(Issuing(ILock), Release, NoData) || fail
    case ILock => m == Move(Issuing(ICleanup), Acquire(Tokens), NoData) || fail
    case ICleanup => m == Move(Issuing(IPick), NoLock, CleanTokens) || m == Onward(Issuing(IPick))
    case IPick =>
      || (choice !in d.tokens && m == Onward(Issuing(IInsert(choice))))
      || m == Onward(Issuing(IPick))
      || fail
    case IInsert(id) =>
      || (id !in d.tokens
          && m == Move(if mysql then Issuing(IUnlock) else Finished, NoLock,
                       InsertToken(id, Token(req.port, now, d.h.nextUid))))
      || fail
    case IUnlock => m == Move(Finished, Release, NoData)
  }

  ghost predicate SessionMove(c: Config, now: Time, d: Data, x: Session, choice: string, m: Move) {
    match x.pc
    case Answering(a) => AnswerMove(c, now, d, x.req, a, m)
    case Scripting(t) => ScriptMove(c, now, d, x.req, t, choice, m)
    case Paging(p) => PageMove(c, now, d, x.req, p, m)
    case Issuing(i) => IssueMove(c, now, d, x.req, i, choice, m)
    case Unlocking(_) => m == Move(Finished, Release, NoData)
    case Finished => false
  }

  // ----- Events -----

  /** The first statement of each kind of request. */
  predicate Starts(c: Config, pc: Pc) {
    match pc
    case Answering(a) => if c.backend == MySql then a.VLock? else a.VSelect? && a.cleaned == 0
    case Scripting(t) => if c.backend == MySql then t.TLock? else t.SCleanup?
    case Paging(p) => p.PLookup?
    case _ => false
  }

  datatype Event =
    | Begin(sid: Sid, req: Req, pc: Pc)
    | Step(sid: Sid, choice: string, m: Move)
    | Tick(to: Time)
    | ClearCache

  /** A lost connection ends its session between any two statements and frees its locks. */
  const LOST := Move(Finished, Release, NoData)

  ghost predicate Next(c: Config, s: State, s': State, e: Event) {
    match e
    case Begin(sid, req, pc) =>
      && sid !in s.sessions && Starts(c, pc) && req.at == s.now
      && s' == s.(sessions := s.sessions[sid := Session(req, pc)])
    case Step(sid, choice, m) =>
      && sid in s.sessions
      && (SessionMove(c, s.now, s.d, s.sessions[sid], choice, m) || m == LOST)
      && LockFree(s, m.lock)
      && s' == Apply(c, s, sid, m)
    case Tick(to) => to >= s.now && s' == s.(now := to)
    case ClearCache => s' == s.(d := s.d.(cache := map[]))
  }

  /** A run: states linked by events from an initial state. */
  ghost predicate Run(c: Config, states: seq<State>, events: seq<Event>) {
    && |states| == |events| + 1
    && Init(states[0])
    && forall i :: 0 <= i < |events| ==> Next(c, states[i], states[i + 1], events[i])
  }
}
