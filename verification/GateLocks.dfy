/** On MySQL, table locks are held exactly as the program counters say. */
module GateLocks {
  import opened Gate

  /** The lock table and the program counters agree, and writers exclude readers. */
  ghost predicate LockInv(c: Config, s: State) {
    && (forall t :: t in s.locks ==>
          s.locks[t] in s.sessions && Holds(c.backend, s.sessions[s.locks[t]].pc) == Write(t))
    && (forall x, t :: x in s.sessions && Holds(c.backend, s.sessions[x].pc) == Write(t) ==>
          t in s.locks && s.locks[t] == x)
    && (forall x :: x in s.readers ==> x in s.sessions && Holds(c.backend, s.sessions[x].pc) == ReadAllowed)
    && (forall x :: x in s.sessions && Holds(c.backend, s.sessions[x].pc) == ReadAllowed ==> x in s.readers)
    && (Allowed in s.locks ==> s.readers == {})
  }

  /** A move's lock operation fits the program counters it leads between. */
  ghost predicate Fits(c: Config, pc: Pc, m: Move) {
    var h, h' := Holds(c.backend, pc), Holds(c.backend, m.pc);
    match m.lock
    case NoLock => h' == h
    case Acquire(t) => h == Nothing && h' == Write(t)
    case AcquireRead => h == Nothing && h' == ReadAllowed
    case Release => h' == Nothing
  }

  lemma MovesFit(c: Config, now: Time, d: Data, x: Session, choice: string, m: Move)
    requires c.backend == MySql
    requires SessionMove(c, now, d, x, choice, m) || m == LOST
    ensures Fits(c, x.pc, m)
  {
    hide Key, IsAllowed;
  }

  lemma FittingMoveKeepsLocks(c: Config, s: State, sid: Sid, m: Move)
    requires LockInv(c, s) && sid in s.sessions
    requires Fits(c, s.sessions[sid].pc, m) && LockFree(s, m.lock)
    ensures LockInv(c, Apply(c, s, sid, m))
  {
    hide Holds, ApplyData;
  }

  lemma NextKeepsLocks(c: Config, s: State, s': State, e: Event)
    requires c.backend == MySql && LockInv(c, s) && Next(c, s, s', e)
    ensures LockInv(c, s')
  {
    hide SessionMove, Holds, Fits, Apply;
    match e {
      case Begin(sid, req, pc) =>
        StartHoldsNothing(c, pc);
      case Step(sid, choice, m) =>
        MovesFit(c, s.now, s.d, s.sessions[sid], choice, m);
        FittingMoveKeepsLocks(c, s, sid, m);
      case _ =>
    }
  }

  lemma StartHoldsNothing(c: Config, pc: Pc)
    requires c.backend == MySql && Starts(c, pc)
    ensures Holds(c.backend, pc) == Nothing
  {
  }

  lemma {:induction false} RunKeepsLocks(c: Config, states: seq<State>, events: seq<Event>, i: nat)
    requires c.backend == MySql && Run(c, states, events) && i < |states|
    ensures LockInv(c, states[i])
  {
    hide Next, LockInv;
    if i == 0 {
      InitLocks(c, states[0]);
    } else {
      RunKeepsLocks(c, states, events, i - 1);
      NextKeepsLocks(c, states[i - 1], states[i], events[i - 1]);
    }
  }

  lemma InitLocks(c: Config, s: State)
    requires Init(s)
    ensures LockInv(c, s)
  {
  }

  /** In every reachable state: no session holds two tables, a finished session holds none, no table
      has two writers, and whoever waits for a lock holds none, so lock waits cannot form a cycle. */
  lemma LockDiscipline(c: Config, states: seq<State>, events: seq<Event>, i: nat)
    requires c.backend == MySql && Run(c, states, events) && i < |states|
    ensures var s := states[i];
      && (forall t, u :: t in s.locks && u in s.locks && s.locks[t] == s.locks[u] ==> t == u)
      && (forall t :: t in s.locks ==> s.locks[t] !in s.readers && s.locks[t] in s.sessions)
      && (forall x :: x in s.readers ==> x in s.sessions)
      && (forall t :: t in s.locks ==> var pc := s.sessions[s.locks[t]].pc; pc != Finished && !Waits(pc))
      && (forall x :: x in s.readers ==> var pc := s.sessions[x].pc; pc != Finished && !Waits(pc))
  {
    hide Holds, Waits, Run;
    RunKeepsLocks(c, states, events, i);
    var s := states[i];
    forall x | x in s.sessions && Holds(c.backend, s.sessions[x].pc) != Nothing
      ensures s.sessions[x].pc != Finished && !Waits(s.sessions[x].pc)
    {
      WaitersHoldNothing(s.sessions[x].pc);
    }
  }

  lemma WaitersHoldNothing(pc: Pc)
    ensures Waits(pc) || pc == Finished ==> Holds(MySql, pc) == Nothing
  {
  }
}
