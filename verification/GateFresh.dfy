/** On either backend, a request is forwarded only for an address whose answer was accepted recently. */
module GateFresh {
  import opened Decimal
  import Runs
  import opened Gate
  import opened GateProvenance

  // ----- The cache key -----

  lemma NumeralHasNoColon(n: nat)
    ensures ':' !in Numeral(n)
  {
  }

  /** The "ip:port" key is injective, whatever characters the address contains. */
  lemma KeyInjective(ip: string, port: nat, jp: string, qort: nat)
    ensures Key(ip, port) == Key(jp, qort) <==> ip == jp && port == qort
  {
    if Key(ip, port) == Key(jp, qort) {
      NumeralHasNoColon(port);
      NumeralHasNoColon(qort);
      Runs.SplitLast(ip, Numeral(port), jp, Numeral(qort), ':');
      NumeralInjective(port, qort);
    }
  }

  // ----- Evidence -----

  /** Some accepted answer from ip lies at most `slack` seconds before t. */
  ghost predicate Evidence(h: History, ip: string, t: Time, slack: nat) {
    exists a :: a in h.accepted && h.accepted[a].ip == ip && t <= h.accepted[a].at + slack
  }

  function AllowedSeconds(c: Config): nat { 60 * c.allowedTimeout }

  ghost predicate CacheBacked(c: Config, d: Data) {
    forall ip, port :: Key(ip, port) in d.cache ==> Evidence(d.h, ip, d.cache[Key(ip, port)], AllowedSeconds(c))
  }

  ghost predicate ForwardsBacked(c: Config, h: History) {
    forall f :: f in h.forwards ==> Evidence(h, f.ip, f.at, AllowedSeconds(c) + CACHED_TIMEOUT)
  }

  /** Each allowed row is the accepted answer of its session. */
  ghost predicate AllowedAccepted(d: Data) {
    forall a :: a in d.allowed ==> a in d.h.accepted && d.h.accepted[a] == d.allowed[a]
  }

  /** No allowed row had outlived the timeout when stale rows were last deleted. */
  ghost predicate CleanedAt(c: Config, d: Data, cleaned: Time) {
    forall a :: a in d.allowed ==> cleaned <= d.allowed[a].at + AllowedSeconds(c)
  }

  ghost predicate SessionBacked(c: Config, now: Time, d: Data, x: Session) {
    && x.req.at <= now
    && match x.pc
       case Answering(a) => a.VCache? ==> Evidence(d.h, x.req.ip, x.req.at, 0)
       case Paging(p) =>
         (match p
          case PUnlock(cleaned) => x.req.at <= cleaned <= now && CleanedAt(c, d, cleaned)
          case PReadLock(cleaned) => x.req.at <= cleaned <= now && CleanedAt(c, d, cleaned)
          case PSelect(cleaned) => x.req.at <= cleaned <= now && CleanedAt(c, d, cleaned)
          case PReadUnlock(found) => found ==> Evidence(d.h, x.req.ip, x.req.at, AllowedSeconds(c))
          case PCache => Evidence(d.h, x.req.ip, x.req.at, AllowedSeconds(c))
          case PForward => Evidence(d.h, x.req.ip, x.req.at, AllowedSeconds(c) + CACHED_TIMEOUT)
          case _ => true)
       case _ => true
  }

  /** Accepted answers do not disappear, and none lies in the future. An entry may be replaced only by
      a later one of the same address. */
  ghost predicate Extends(h: History, h': History) {
    forall a :: a in h.accepted ==>
      a in h'.accepted && h'.accepted[a].ip == h.accepted[a].ip && h'.accepted[a].at >= h.accepted[a].at
  }

  ghost predicate Backed(c: Config, s: State) {
    && CacheBacked(c, s.d) && ForwardsBacked(c, s.d.h) && AllowedAccepted(s.d)
    && (forall a :: a in s.d.h.accepted ==> Owned(s, a))
    && (forall x :: x in s.sessions ==> SessionBacked(c, s.now, s.d, s.sessions[x]))
  }

  /** An accepted answer carries its session's address and a time not in the future. */
  ghost predicate Owned(s: State, a: Sid)
    requires a in s.d.h.accepted
  {
    a in s.sessions && s.d.h.accepted[a].ip == s.sessions[a].req.ip && s.d.h.accepted[a].at <= s.now
  }

  lemma EvidenceKept(h: History, h': History, ip: string, t: Time, slack: nat, slack': nat)
    requires Evidence(h, ip, t, slack) && Extends(h, h') && slack <= slack'
    ensures Evidence(h', ip, t, slack')
  {
    var a :| a in h.accepted && h.accepted[a].ip == ip && t <= h.accepted[a].at + slack;
    assert a in h'.accepted;
  }

  /** What a move's data operation must bring. */
  ghost predicate OpBacked(c: Config, now: Time, d: Data, req: Req, op: DataOp) {
    match op
    case InsertAllow(row) => row.ip == req.ip && row.at == now
    case CachePut(key, at) => key == Key(req.ip, req.port) && Evidence(d.h, req.ip, at, AllowedSeconds(c))
    case Forwarded(f) => Evidence(d.h, f.ip, f.at, AllowedSeconds(c) + CACHED_TIMEOUT)
    case _ => true
  }

  lemma MoveBacked(c: Config, now: Time, d: Data, x: Session, choice: string, m: Move)
    requires SessionBacked(c, now, d, x) && CacheBacked(c, d) && AllowedAccepted(d)
    requires SessionMove(c, now, d, x, choice, m) || m == LOST
    ensures OpBacked(c, now, d, x.req, m.data)
  {
    hide Key, Holds;
    match x.pc {
      case Answering(a) =>
        hide PageMove, ScriptMove, IssueMove, CacheBacked, CleanedAt;
        if a.VCache? { EvidenceKept(d.h, d.h, x.req.ip, x.req.at, 0, AllowedSeconds(c)); }
      case Scripting(_) => hide PageMove, AnswerMove, IssueMove, CacheBacked, Evidence;
      case Issuing(_) => hide PageMove, AnswerMove, ScriptMove, CacheBacked, Evidence;
      case _ => hide Evidence, AnswerMove, ScriptMove, IssueMove, CacheBacked, CleanedAt, IsAllowed;
    }
  }

  /** Where the page program may go, given what it has established. */
  lemma PageArrives(c: Config, now: Time, d: Data, x: Session, m: Move)
    requires SessionBacked(c, now, d, x) && CacheBacked(c, d) && AllowedAccepted(d)
    requires x.pc.Paging? && PageMove(c, now, d, x.req, x.pc.p, m)
    ensures m.pc.Paging? && m.pc.p.PForward? ==> Evidence(d.h, x.req.ip, x.req.at, AllowedSeconds(c) + CACHED_TIMEOUT)
    ensures m.pc.Paging? && m.pc.p.PCache? ==> Evidence(d.h, x.req.ip, x.req.at, AllowedSeconds(c))
    ensures m.pc.Paging? && m.pc.p.PReadUnlock? && m.pc.p.found ==> Evidence(d.h, x.req.ip, x.req.at, AllowedSeconds(c))
  {
    hide Holds, Key;
    var req := x.req;
    match x.pc.p {
      case PLookup =>
        hide IsAllowed;
        var key := Key(req.ip, req.port);
        if key in d.cache && req.at - d.cache[key] <= CACHED_TIMEOUT {
          CacheEvidence(c, d, req);
        }
      case PSelect(cleaned) =>
        hide CacheBacked;
        if IsAllowed(d, req) { SelectEvidence(c, d, req, cleaned); }
      case PCache =>
        hide IsAllowed, CacheBacked;
        EvidenceKept(d.h, d.h, req.ip, req.at, AllowedSeconds(c), AllowedSeconds(c) + CACHED_TIMEOUT);
      case _ =>
        hide IsAllowed, CacheBacked, Evidence;
    }
  }

  lemma CacheEvidence(c: Config, d: Data, req: Req)
    requires CacheBacked(c, d)
    requires Key(req.ip, req.port) in d.cache && req.at - d.cache[Key(req.ip, req.port)] <= CACHED_TIMEOUT
    ensures Evidence(d.h, req.ip, req.at, AllowedSeconds(c) + CACHED_TIMEOUT)
  {
    hide Key;
    var t := d.cache[Key(req.ip, req.port)];
    assert Evidence(d.h, req.ip, t, AllowedSeconds(c));
  }

  lemma SelectEvidence(c: Config, d: Data, req: Req, cleaned: Time)
    requires AllowedAccepted(d) && CleanedAt(c, d, cleaned) && req.at <= cleaned && IsAllowed(d, req)
    ensures Evidence(d.h, req.ip, req.at, AllowedSeconds(c))
  {
    var a :| a in d.allowed && d.allowed[a].ip == req.ip && d.allowed[a].port == req.port;
    assert a in d.h.accepted;
  }

  lemma OpExtends(c: Config, now: Time, d: Data, sid: Sid, x: Session, op: DataOp)
    requires OpBacked(c, now, d, x.req, op)
    requires sid in d.h.accepted ==> d.h.accepted[sid].ip == x.req.ip && d.h.accepted[sid].at <= now
    ensures Extends(d.h, ApplyData(c, now, d, sid, op).h)
  {
    hide FreshAllowed, FreshChallenges, FreshTokens, Evidence;
  }

  /** A surviving row is within the timeout, on either backend. */
  lemma KeepMeansFresh(b: Backend, at: Time, timeout: nat, now: Time)
    requires Keep(b, at, timeout, now)
    ensures now <= at + 60 * timeout
  {
  }

  /** The cleaning statement establishes the bound, and later inserts keep it. */
  lemma CleanedByOp(c: Config, now: Time, d: Data, sid: Sid, x: Session, op: DataOp, cleaned: Time)
    requires OpBacked(c, now, d, x.req, op) && cleaned <= now
    requires CleanedAt(c, d, cleaned) || (op.CleanAllowed? && cleaned == now)
    ensures CleanedAt(c, ApplyData(c, now, d, sid, op), cleaned)
  {
    hide FreshChallenges, FreshTokens, Evidence, Keep;
    var d' := ApplyData(c, now, d, sid, op);
    forall a | a in d'.allowed ensures cleaned <= d'.allowed[a].at + AllowedSeconds(c) {
      if op.CleanAllowed? { KeepMeansFresh(c.backend, d.allowed[a].at, c.allowedTimeout, now); }
    }
  }

  lemma StaySession(c: Config, now: Time, d: Data, sid: Sid, mover: Session, op: DataOp, x: Session)
    requires SessionBacked(c, now, d, x) && OpBacked(c, now, d, mover.req, op)
    requires Extends(d.h, ApplyData(c, now, d, sid, op).h)
    ensures SessionBacked(c, now, ApplyData(c, now, d, sid, op), x)
  {
    hide ApplyData, CleanedAt, Extends, Evidence, OpBacked;
    var d' := ApplyData(c, now, d, sid, op);
    if x.pc.Answering? && x.pc.a.VCache? {
      EvidenceKept(d.h, d'.h, x.req.ip, x.req.at, 0, 0);
    } else if x.pc.Paging? {
      var n := AllowedSeconds(c);
      match x.pc.p {
        case PUnlock(cleaned) => CleanedByOp(c, now, d, sid, mover, op, cleaned);
        case PReadLock(cleaned) => CleanedByOp(c, now, d, sid, mover, op, cleaned);
        case PSelect(cleaned) => CleanedByOp(c, now, d, sid, mover, op, cleaned);
        case PReadUnlock(found) => if found { EvidenceKept(d.h, d'.h, x.req.ip, x.req.at, n, n); }
        case PCache => EvidenceKept(d.h, d'.h, x.req.ip, x.req.at, n, n);
        case PForward => EvidenceKept(d.h, d'.h, x.req.ip, x.req.at, n + CACHED_TIMEOUT, n + CACHED_TIMEOUT);
        case _ =>
      }
    }
  }

  /** How the cleaning time travels through the page program. */
  lemma CleanedFlow(c: Config, now: Time, d: Data, req: Req, p: PagePc, m: Move)
    requires PageMove(c, now, d, req, p, m)
    ensures m.pc.Paging? ==> match m.pc.p
      case PUnlock(cleaned) => p.PCleanup? && cleaned == now && m.data.CleanAllowed?
      case PReadLock(cleaned) => p == PUnlock(cleaned)
      case PSelect(cleaned) => (p.PCleanup? && cleaned == now && m.data.CleanAllowed?) || p == PReadLock(cleaned)
      case _ => true
  {
    hide Holds, Key, IsAllowed;
  }

  lemma MoverSession(c: Config, now: Time, d: Data, sid: Sid, x: Session, choice: string, m: Move)
    requires SessionBacked(c, now, d, x) && CacheBacked(c, d) && AllowedAccepted(d)
    requires SessionMove(c, now, d, x, choice, m) || m == LOST
    requires OpBacked(c, now, d, x.req, m.data) && Extends(d.h, ApplyData(c, now, d, sid, m.data).h)
    ensures SessionBacked(c, now, ApplyData(c, now, d, sid, m.data), Session(x.req, m.pc))
  {
    hide CacheBacked, AllowedAccepted, Extends, ApplyData, CleanedAt, Evidence, OpBacked, Key, Holds;
    var d' := ApplyData(c, now, d, sid, m.data);
    if x.pc.Paging? && m != LOST {
      hide SessionMove;
      assert PageMove(c, now, d, x.req, x.pc.p, m) by { MoveOfPage(c, now, d, x, choice, m); }
      hide PageMove;
      PageArrives(c, now, d, x, m);
      CleanedFlow(c, now, d, x.req, x.pc.p, m);
      PageStays(c, now, d, x.req, x.pc.p, m);
      PageSession(c, now, d, sid, x, m);
    } else {
      NonPageMove(c, now, d, x, choice, m);
      if m.pc.Answering? && m.pc.a.VCache? {
        InsertEvidence(c, now, d, sid, x.req, m.data);
      }
    }
  }

  lemma MoveOfPage(c: Config, now: Time, d: Data, x: Session, choice: string, m: Move)
    requires x.pc.Paging? && SessionMove(c, now, d, x, choice, m)
    ensures PageMove(c, now, d, x.req, x.pc.p, m)
  {
    hide PageMove;
  }

  lemma PageStays(c: Config, now: Time, d: Data, req: Req, p: PagePc, m: Move)
    requires PageMove(c, now, d, req, p, m)
    ensures !m.pc.Answering?
  {
    hide Holds, Key, IsAllowed;
  }

  lemma NonPageMove(c: Config, now: Time, d: Data, x: Session, choice: string, m: Move)
    requires m == LOST || (!x.pc.Paging? && SessionMove(c, now, d, x, choice, m))
    ensures !m.pc.Paging?
    ensures m.pc.Answering? && m.pc.a.VCache? ==>
      m.data.InsertAllow? && m.data.row.ip == x.req.ip && m.data.row.at == now
  {
    hide Holds, Key;
  }

  lemma InsertEvidence(c: Config, now: Time, d: Data, sid: Sid, req: Req, op: DataOp)
    requires op.InsertAllow? && op.row.ip == req.ip && op.row.at == now && req.at <= now
    ensures Evidence(ApplyData(c, now, d, sid, op).h, req.ip, req.at, 0)
  {
    var h' := ApplyData(c, now, d, sid, op).h;
    assert sid in h'.accepted && h'.accepted[sid] == op.row;
  }

  lemma PageSession(c: Config, now: Time, d: Data, sid: Sid, x: Session, m: Move)
    requires SessionBacked(c, now, d, x) && x.pc.Paging? && !m.pc.Answering?
    requires OpBacked(c, now, d, x.req, m.data) && Extends(d.h, ApplyData(c, now, d, sid, m.data).h)
    requires m.pc.Paging? && m.pc.p.PForward? ==> Evidence(d.h, x.req.ip, x.req.at, AllowedSeconds(c) + CACHED_TIMEOUT)
    requires m.pc.Paging? && m.pc.p.PCache? ==> Evidence(d.h, x.req.ip, x.req.at, AllowedSeconds(c))
    requires m.pc.Paging? && m.pc.p.PReadUnlock? && m.pc.p.found ==>
      Evidence(d.h, x.req.ip, x.req.at, AllowedSeconds(c))
    requires m.pc.Paging? ==> match m.pc.p
      case PUnlock(cleaned) => x.pc.p.PCleanup? && cleaned == now && m.data.CleanAllowed?
      case PReadLock(cleaned) => x.pc.p == PUnlock(cleaned)
      case PSelect(cleaned) =>
        (x.pc.p.PCleanup? && cleaned == now && m.data.CleanAllowed?) || x.pc.p == PReadLock(cleaned)
      case _ => true
    ensures SessionBacked(c, now, ApplyData(c, now, d, sid, m.data), Session(x.req, m.pc))
  {
    hide ApplyData, CleanedAt, Extends, Evidence, OpBacked;
    var d' := ApplyData(c, now, d, sid, m.data);
    var n := AllowedSeconds(c);
    if m.pc.Paging? {
      match m.pc.p {
        case PUnlock(cleaned) => CleanedByOp(c, now, d, sid, x, m.data, cleaned);
        case PReadLock(cleaned) => CleanedByOp(c, now, d, sid, x, m.data, cleaned);
        case PSelect(cleaned) => CleanedByOp(c, now, d, sid, x, m.data, cleaned);
        case PReadUnlock(found) => if found { EvidenceKept(d.h, d'.h, x.req.ip, x.req.at, n, n); }
        case PCache => EvidenceKept(d.h, d'.h, x.req.ip, x.req.at, n, n);
        case PForward => EvidenceKept(d.h, d'.h, x.req.ip, x.req.at, n + CACHED_TIMEOUT, n + CACHED_TIMEOUT);
        case _ =>
      }
    }
  }

  lemma DataStaysBacked(c: Config, now: Time, d: Data, sid: Sid, x: Session, op: DataOp)
    requires CacheBacked(c, d) && ForwardsBacked(c, d.h) && AllowedAccepted(d)
    requires OpBacked(c, now, d, x.req, op) && Extends(d.h, ApplyData(c, now, d, sid, op).h)
    ensures var d' := ApplyData(c, now, d, sid, op);
      CacheBacked(c, d') && ForwardsBacked(c, d'.h) && AllowedAccepted(d')
  {
    hide Evidence, Extends, FreshChallenges, FreshTokens, Key, Keep;
    var d', n := ApplyData(c, now, d, sid, op), AllowedSeconds(c);
    forall ip, port | Key(ip, port) in d'.cache ensures Evidence(d'.h, ip, d'.cache[Key(ip, port)], n) {
      if Key(ip, port) in d.cache {
        EvidenceKept(d.h, d'.h, ip, d'.cache[Key(ip, port)], n, n);
      } else {
        KeyInjective(ip, port, x.req.ip, x.req.port);
        EvidenceKept(d.h, d'.h, ip, d'.cache[Key(ip, port)], n, n);
      }
    }
    forall f | f in d'.h.forwards ensures Evidence(d'.h, f.ip, f.at, n + CACHED_TIMEOUT) {
      EvidenceKept(d.h, d'.h, f.ip, f.at, n + CACHED_TIMEOUT, n + CACHED_TIMEOUT);
    }
  }

  lemma AcceptedByOp(c: Config, now: Time, d: Data, sid: Sid, op: DataOp)
    ensures ApplyData(c, now, d, sid, op).h.accepted
         == if op.InsertAllow? then d.h.accepted[sid := op.row] else d.h.accepted
  {
    hide FreshAllowed, FreshChallenges, FreshTokens;
  }

  lemma StepKeepsBacked(c: Config, s: State, sid: Sid, choice: string, m: Move)
    requires Backed(c, s) && sid in s.sessions
    requires SessionMove(c, s.now, s.d, s.sessions[sid], choice, m) || m == LOST
    ensures Backed(c, Apply(c, s, sid, m))
  {
    hide CacheBacked, ForwardsBacked, AllowedAccepted, SessionBacked, SessionMove, ApplyData, OpBacked, Extends,
      ApplyLocks, ApplyReaders;
    var x, s' := s.sessions[sid], Apply(c, s, sid, m);
    assert SessionBacked(c, s.now, s.d, x);
    assert sid in s.d.h.accepted ==> Owned(s, sid);
    MoveBacked(c, s.now, s.d, x, choice, m);
    OpExtends(c, s.now, s.d, sid, x, m.data);
    DataStaysBacked(c, s.now, s.d, sid, x, m.data);
    AcceptedByOp(c, s.now, s.d, sid, m.data);
    InsertIsOwn(c, s.now, s.d, x, m.data);
    forall a | a in s'.d.h.accepted ensures Owned(s', a) {
      assert a in s.d.h.accepted ==> Owned(s, a);
    }
    forall y | y in s'.sessions ensures SessionBacked(c, s'.now, s'.d, s'.sessions[y]) {
      if y == sid {
        MoverSession(c, s.now, s.d, sid, x, choice, m);
      } else {
        StaySession(c, s.now, s.d, sid, x, m.data, s.sessions[y]);
      }
    }
  }

  lemma InsertIsOwn(c: Config, now: Time, d: Data, x: Session, op: DataOp)
    requires OpBacked(c, now, d, x.req, op)
    ensures op.InsertAllow? ==> op.row.ip == x.req.ip && op.row.at == now
  {
  }

  lemma NextKeepsBacked(c: Config, s: State, s': State, e: Event)
    requires Backed(c, s) && Next(c, s, s', e)
    ensures Backed(c, s')
  {
    hide SessionMove, Apply, Evidence;
    match e {
      case Step(sid, choice, m) =>
        hide Backed;
        StepKeepsBacked(c, s, sid, choice, m);
      case Begin(sid, req, pc) =>
        hide CacheBacked, ForwardsBacked, AllowedAccepted;
        StartBacked(c, s, Session(req, pc));
        forall a | a in s'.d.h.accepted ensures Owned(s', a) { assert Owned(s, a); }
      case Tick(to) =>
        hide CacheBacked, ForwardsBacked, AllowedAccepted, CleanedAt;
        forall a | a in s'.d.h.accepted ensures Owned(s', a) { assert Owned(s, a); }
        assert forall x :: x in s.sessions ==> SessionBacked(c, s.now, s.d, s.sessions[x]);
      case ClearCache =>
        hide ForwardsBacked, CleanedAt;
        forall a | a in s'.d.h.accepted ensures Owned(s', a) { assert Owned(s, a); }
        forall x | x in s'.sessions ensures SessionBacked(c, s'.now, s'.d, s'.sessions[x]) {
          ClearedSession(c, s.now, s.d, s.sessions[x]);
        }
    }
  }

  lemma ClearedSession(c: Config, now: Time, d: Data, x: Session)
    requires SessionBacked(c, now, d, x)
    ensures SessionBacked(c, now, d.(cache := map[]), x)
  {
    hide Evidence;
  }

  lemma StartBacked(c: Config, s: State, x: Session)
    requires Starts(c, x.pc) && x.req.at == s.now
    ensures SessionBacked(c, s.now, s.d, x)
  {
  }

  lemma {:induction false} RunKeepsBacked(c: Config, states: seq<State>, events: seq<Event>, i: nat)
    requires Run(c, states, events) && i < |states|
    ensures Backed(c, states[i])
  {
    if i > 0 {
      hide Next, Backed;
      RunKeepsBacked(c, states, events, i - 1);
      NextKeepsBacked(c, states[i - 1], states[i], events[i - 1]);
    }
  }

  /** Main result: in every reachable state, each forwarded request from an address is backed by an
      answer accepted from that address no more than allowed_timeout minutes plus 120 seconds before the
      request's captured time, and that answer hashes to the one stored with a challenge made for the
      same address. */
  lemma ForwardsAreFresh(c: Config, states: seq<State>, events: seq<Event>, i: nat, f: Forward)
    requires Run(c, states, events) && i < |states| && f in states[i].d.h.forwards
    ensures var h := states[i].d.h;
      exists a :: (
        && a in h.accepted && h.accepted[a].ip == f.ip
        && f.at <= h.accepted[a].at + 60 * c.allowedTimeout + 120
        && AllowTraced(c, h, h.accepted[a]))
  {
    hide Run;
    RunKeepsBacked(c, states, events, i);
    RunKeepsTraced(c, states, events, i);
    var h := states[i].d.h;
    assert Evidence(h, f.ip, f.at, AllowedSeconds(c) + CACHED_TIMEOUT);
    var slack := AllowedSeconds(c) + CACHED_TIMEOUT;
    var a :| a in h.accepted && h.accepted[a].ip == f.ip && f.at <= h.accepted[a].at + slack;
    assert AllowTraced(c, h, h.accepted[a]);
  }
}
