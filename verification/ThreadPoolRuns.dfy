/** What the thread pool can always still do: finish every submitted job, and let the destructor return. */
module ThreadPoolRuns {
  import opened Common
  import opened Jobs
  import opened ThreadPool

  ghost predicate Reachable(s: State) {
    exists states: seq<State>, who: seq<Agent> :: Run(states, who) && states[|states| - 1] == s
  }

  lemma Advance(s: State, s': State, who: Agent)
    requires Reachable(s) && Next(s, s', who)
    ensures Reachable(s')
  {
    hide Next, Init;
    var states: seq<State>, agents: seq<Agent> :| Run(states, agents) && states[|states| - 1] == s;
    var states', agents' := states + [s'], agents + [who];
    forall i | 0 <= i < |agents'| ensures Next(states'[i], states'[i + 1], agents'[i]) {
      if i < |agents| { assert Next(states[i], states[i + 1], agents[i]); }
    }
    assert Run(states', agents') && states'[|states'| - 1] == s';
  }

  /** The stop flag is up exactly from the join on, and no thread exits before. */
  ghost predicate Alive(s: State) {
    && (s.stop <==> s.owner.Joining? || s.owner.Draining? || s.owner.Destroyed?)
    && (!s.stop ==> forall i :: 0 <= i < |s.pcs| ==> s.pcs[i] != Exited)
  }

  lemma ReachableInv(s: State)
    requires Reachable(s)
    ensures Inv(s) && Alive(s)
  {
    hide Next, Init, Inv, Alive;
    var states: seq<State>, agents: seq<Agent> :| Run(states, agents) && states[|states| - 1] == s;
    RunKeepsInv(states, agents, |states| - 1);
    RunKeepsAlive(states, agents, |states| - 1);
  }

  lemma ReachableShape(s: State)
    requires Reachable(s)
    ensures Shape(s) && Exclusive(s) && Alive(s)
  {
    hide Reachable, Alive, Shape, Exclusive, Books;
    ReachableInv(s);
  }

  lemma {:induction false} RunKeepsAlive(states: seq<State>, who: seq<Agent>, i: nat)
    requires Run(states, who) && i < |states|
    ensures Alive(states[i])
  {
    if i > 0 {
      hide Next, Alive;
      RunKeepsAlive(states, who, i - 1);
      NextKeepsAlive(states[i - 1], states[i], who[i - 1]);
    }
  }

  lemma NextKeepsAlive(s: State, s': State, who: Agent)
    requires Alive(s) && Next(s, s', who)
    ensures Alive(s')
  {
  }

  // ----- Bringing a worker to rest -----

  /** Holding neither the mutex nor a job. */
  predicate Resting(pc: WorkerPc) { pc == Check(false) || pc == Acquire || pc == Waiting || pc == Exited }

  /** What worker i has done leaves the rest of the pool as it was. */
  ghost predicate Only(s: State, t: State, i: nat)
    requires i < |s.pcs|
  {
    && t.n == s.n && t.stop == s.stop && t.owner == s.owner && |t.pending| <= |s.pending|
    && |t.pcs| == |s.pcs| && forall j :: 0 <= j < |s.pcs| && j != i ==> t.pcs[j] == s.pcs[j]
  }

  function Rank(s: State, i: nat): nat
    requires i < |s.pcs| && i < |s.places|
  {
    var empty := s.pending == [];
    match s.pcs[i]
    case Check(owns) => if !owns then 0 else if empty then 2 else 5
    case Test => if empty then 1 else 4
    case Grab => 3
    case Busy => if s.places[i].Running? then 2 else 1
    case _ => 0
  }

  /** Where worker i goes next when it holds the mutex or a job. */
  ghost function OwnNext(s: State, i: nat): State
    requires i < |s.pcs| == |s.places| && (s.pcs[i] == Busy ==> s.places[i] != Empty)
  {
    match s.pcs[i]
    case Check(_) =>
      if s.stop then s.(pcs := s.pcs[i := Exited], holder := None) else s.(pcs := s.pcs[i := Test])
    case Test =>
      if s.pending == [] then s.(pcs := s.pcs[i := Waiting], holder := None) else s.(pcs := s.pcs[i := Grab])
    case Grab =>
      if s.pending == [] then s.(pcs := s.pcs[i := Check(true)])
      else
        var last := |s.pending| - 1;
        s.(pcs := s.pcs[i := Busy], holder := None, pending := s.pending[..last],
           places := s.places[i := Running(s.pending[last])])
    case Busy =>
      var j := s.places[i].job;
      if s.places[i].Running? then s.(places := s.places[i := Cleaning(j)], log := s.log + [Ran(j)])
      else s.(pcs := s.pcs[i := Check(false)], places := s.places[i := Empty], log := s.log + [Cleaned(j)])
    case _ => s
  }

  lemma OwnStep(s: State, i: nat) returns (t: State)
    requires Reachable(s) && i < |s.pcs| && !Resting(s.pcs[i])
    ensures |s.pcs| == |s.places| && (s.pcs[i] == Busy ==> s.places[i] != Empty)
    ensures t == OwnNext(s, i) && Reachable(t)
  {
    hide Reachable;
    ReachableShape(s);
    hide Shape, Exclusive, Alive;
    t := OwnNext(s, i);
    Advance(s, t, Worker(i));
  }

  lemma OwnNextCounts(s: State, i: nat)
    requires i < |s.pcs| == |s.places| && (s.pcs[i] == Busy ==> s.places[i] != Empty) && !Resting(s.pcs[i])
    ensures var t := OwnNext(s, i);
      && Only(s, t, i) && |t.places| == |s.places| && Rank(t, i) < Rank(s, i) && t.pcs[i] != Acquire
      && (s.pcs[i] == Busy ==> t.pcs[i] == Busy || t.pcs[i] == Check(false))
      && (s.pending != [] && s.pcs[i] == Grab ==> |t.pending| < |s.pending| && t.pcs[i] == Busy)
      && (s.pending != [] && s.pcs[i] == Test ==> t.pcs[i] == Grab && t.pending == s.pending)
      && (s.stop && s.pcs[i] == Check(true) ==> t.pcs[i] == Exited)
      && (s.stop && s.pending == [] && s.pcs[i] == Grab ==> t.pcs[i] == Check(true) && t.pending == [])
  {
  }

  lemma {:induction false} ToRest(s: State, i: nat) returns (t: State)
    requires Reachable(s) && i < |s.pcs| && i < |s.places|
    ensures Reachable(t) && Only(s, t, i) && |t.places| == |s.places| && Resting(t.pcs[i])
    ensures s.pending != [] && (s.pcs[i] == Test || s.pcs[i] == Grab) ==> |t.pending| < |s.pending|
    ensures s.pcs[i] == Busy || (s.pcs[i] == Grab && s.pending != []) ==> t.pcs[i] == Check(false)
    ensures s.stop && s.pending == [] && (s.pcs[i] == Grab || s.pcs[i] == Check(true)) ==> t.pcs[i] == Exited
    ensures !Resting(s.pcs[i]) ==> t.pcs[i] != Acquire
    ensures Resting(s.pcs[i]) ==> t == s
    decreases Rank(s, i)
  {
    hide Reachable, Rank, OwnNext;
    t := s;
    if !Resting(s.pcs[i]) {
      var u := OwnStep(s, i);
      OwnNextCounts(s, i);
      t := ToRest(u, i);
    }
  }

  /** All workers come to rest, one after the other. */
  lemma {:induction false} AllToRest(s: State, k: nat) returns (t: State)
    requires Reachable(s) && k <= |s.pcs| == |s.places|
    requires forall j :: 0 <= j < k ==> Resting(s.pcs[j])
    ensures Reachable(t) && t.n == s.n && t.stop == s.stop && t.owner == s.owner && |t.pending| <= |s.pending|
    ensures |t.pcs| == |t.places| == |s.pcs| && forall j :: 0 <= j < |t.pcs| ==> Resting(t.pcs[j])
    decreases |s.pcs| - k
  {
    hide Reachable, Resting;
    t := s;
    if k < |s.pcs| {
      var u := ToRest(s, k);
      t := AllToRest(u, k + 1);
    }
  }

  // ----- Every job can be finished -----

  ghost predicate Calm(s: State) {
    Reachable(s) && |s.pcs| == |s.places| && s.holder == None && forall j :: 0 <= j < |s.pcs| ==> Resting(s.pcs[j])
  }

  /** At rest, nobody but the owner can hold the mutex. */
  lemma RestIsCalm(s: State)
    requires Reachable(s) && |s.pcs| == |s.places| && forall j :: 0 <= j < |s.pcs| ==> Resting(s.pcs[j])
    requires !s.owner.AddPush?
    ensures Calm(s)
  {
    hide Reachable, Shape, Alive, Exclusive;
    ReachableShape(s);
    MutexFree(s);
  }

  lemma MutexFree(s: State)
    requires Exclusive(s) && !s.owner.AddPush? && forall j :: 0 <= j < |s.pcs| ==> Resting(s.pcs[j])
    ensures s.holder == None
  {
    hide Exclusive, Owns;
    if s.holder.Some? { HolderOwns(s); }
  }

  lemma HolderOwns(s: State)
    requires Exclusive(s) && !s.owner.AddPush? && s.holder.Some?
    ensures exists i :: 0 <= i < |s.pcs| && !Resting(s.pcs[i])
  {
    var who := s.holder.value;
    assert who.Worker?;
    assert Owns(s.pcs[who.i]);
  }

  /** A resting worker takes a pending job and finishes it. */
  lemma ServeOne(s: State, i: nat) returns (t: State)
    requires Calm(s) && i < |s.pcs| && s.pcs[i] != Exited && !s.stop && s.pending != [] && !s.owner.AddPush?
    ensures Calm(t) && t.n == s.n && t.owner == s.owner && t.stop == s.stop && |t.pcs| == |s.pcs|
    ensures |t.pending| < |s.pending|
  {
    hide Reachable;
    var u := s;
    if u.pcs[i] == Check(false) {
      u := s.(pcs := s.pcs[i := Acquire]);
      Advance(s, u, Worker(i));
    }
    var v := u.(pcs := u.pcs[i := if u.pcs[i] == Acquire then Test else Grab], holder := Some(Worker(i)));
    Advance(u, v, Worker(i));
    t := ToRest(v, i);
    RestIsCalm(t);
  }

  lemma {:induction false} ServeAll(s: State) returns (t: State)
    requires Calm(s) && |s.pcs| > 0 && s.owner == Idle
    ensures Calm(t) && t.n == s.n && t.owner == Idle && t.pending == [] && |t.pcs| == |s.pcs|
    decreases |s.pending|
  {
    hide Calm;
    t := s;
    if s.pending != [] {
      CalmIsAlive(s);
      var u := ServeOne(s, 0);
      t := ServeAll(u);
    }
  }

  lemma CalmIsAlive(s: State)
    requires Calm(s) && s.owner == Idle
    ensures !s.stop && forall i :: 0 <= i < |s.pcs| ==> s.pcs[i] != Exited
  {
    ReachableInv(s);
  }

  /** Main result: from every reachable state with an idle owner and at least one thread the pool can go on to
      have run and cleaned up every submitted job. */
  lemma JobsCanFinish(s: State) returns (t: State)
    requires Reachable(s) && s.owner == Idle && |s.pcs| > 0
    ensures Reachable(t) && t.owner == Idle && t.n == s.n
    ensures RanBag(t.log) == CleanedBag(t.log) == All(s.n)
  {
    hide Reachable, Inv;
    assert |s.pcs| == |s.places| by { SameLengths(s); }
    t := AllToRest(s, 0);
    RestIsCalm(t);
    t := ServeAll(t);
    AllDone(t);
  }

  lemma SameLengths(s: State)
    requires Reachable(s)
    ensures |s.pcs| == |s.places|
  {
    ReachableInv(s);
  }

  lemma AllDone(s: State)
    requires Calm(s) && s.owner == Idle && s.pending == []
    ensures Reachable(s) && RanBag(s.log) == CleanedBag(s.log) == All(s.n)
  {
    ReachableInv(s);
    assert forall i :: 0 <= i < |s.places| ==> Resting(s.pcs[i]) && s.places[i] == Empty;
    assert s.pending[0..] == [] && s.pending[..0] == [];
    NobodyHolds(s.n, Pending(s), s.places, s.log, Dropped(s));
  }

  // ----- The destructor can return -----

  /** With the stop flag up a resting worker can leave. */
  lemma ToExit(s: State, i: nat) returns (t: State)
    requires Calm(s) && i < |s.pcs| && s.stop && s.owner.Joining?
    ensures Calm(t) && Only(s, t, i) && t.pcs[i] == Exited
    decreases if s.pcs[i] == Acquire then 2 else if s.pcs[i] == Waiting then 1 else 0
  {
    hide Reachable;
    t := s;
    if s.pcs[i] == Check(false) {
      t := s.(pcs := s.pcs[i := Exited]);
      Advance(s, t, Worker(i));
    } else if s.pcs[i] != Exited {
      var u := s.(pcs := s.pcs[i := if s.pcs[i] == Acquire then Test else Grab], holder := Some(Worker(i)));
      Advance(s, u, Worker(i));
      var v := ToRest(u, i);
      RestIsCalm(v);
      t := ToExit(v, i);
    }
  }

  lemma {:induction false} AllToExit(s: State, k: nat) returns (t: State)
    requires Calm(s) && k <= |s.pcs| && s.stop && s.owner.Joining?
    requires forall j :: 0 <= j < k ==> s.pcs[j] == Exited
    ensures Calm(t) && t.n == s.n && t.stop && t.owner == s.owner && |t.pcs| == |s.pcs|
    ensures forall j :: 0 <= j < |t.pcs| ==> t.pcs[j] == Exited
    decreases |s.pcs| - k
  {
    hide Calm;
    t := s;
    if k < |s.pcs| {
      CalmKeepsLength(s);
      var u := ToExit(s, k);
      CalmKeepsLength(u);
      t := AllToExit(u, k + 1);
    }
  }

  lemma CalmKeepsLength(s: State)
    requires Calm(s)
    ensures |s.pcs| == |s.places|
  {
  }

  /** The destructor joins the exited threads. */
  lemma {:induction false} JoinAll(s: State) returns (t: State)
    requires Reachable(s) && s.owner.Joining? && s.owner.after == Destroy && s.owner.next <= |s.pcs|
    requires forall j :: 0 <= j < |s.pcs| ==> s.pcs[j] == Exited
    ensures Reachable(t) && t.n == s.n && t.owner == Draining(0)
    decreases |s.pcs| - s.owner.next
  {
    hide Reachable;
    var next := s.owner.next;
    t := s.(owner := if next < |s.pcs| then Joining(next + 1, Destroy) else Draining(0));
    Advance(s, t, Owner);
    if next < |s.pcs| {
      t := JoinAll(t);
    }
  }

  /** It cleans up what is still pending. */
  lemma {:induction false} DrainAll(s: State) returns (t: State)
    requires Reachable(s) && s.owner.Draining? && s.owner.next <= |s.pending|
    ensures Reachable(t) && t.n == s.n && t.owner == Destroyed
    decreases |s.pending| - s.owner.next
  {
    hide Reachable;
    var next := s.owner.next;
    if next < |s.pending| {
      var u := s.(owner := Draining(next + 1), log := s.log + [Cleaned(s.pending[next])]);
      Advance(s, u, Owner);
      t := DrainAll(u);
    } else {
      t := s.(owner := Destroyed);
      Advance(s, t, Owner);
    }
  }

  /** Main result: from every reachable state with an idle owner the destructor can be called and return. */
  lemma DestructorCanReturn(s: State) returns (t: State)
    requires Reachable(s) && s.owner == Idle
    ensures Reachable(t) && t.owner == Destroyed && t.n == s.n
  {
    hide Reachable, Calm;
    SameLengths(s);
    var u := AllToRest(s, 0);
    RestIsCalm(u);
    u := CallDestructor(u);
    CalmKeepsLength(u);
    u := AllToExit(u, 0);
    CalmIsReachable(u);
    u := JoinAll(u);
    t := DrainAll(u);
  }

  lemma CalmIsReachable(s: State)
    requires Calm(s)
    ensures Reachable(s)
  {
  }

  lemma CallDestructor(s: State) returns (t: State)
    requires Calm(s) && s.owner == Idle
    ensures Calm(t) && t.owner == Joining(0, Destroy) && t.stop && t.n == s.n && t.pcs == s.pcs
  {
    hide Reachable;
    var u := s.(owner := Stopping(Destroy));
    Advance(s, u, Owner);
    t := u.(owner := Joining(0, Destroy), stop := true);
    Advance(u, t, Owner);
  }

  // ----- Order -----

  /** Jobs are appended and taken at the same end of the vector. */
  ghost predicate Ordered(s: State) {
    && (forall i, j :: 0 <= i < j < |s.pending| ==> s.pending[i] < s.pending[j])
    && (forall i :: 0 <= i < |s.pending| ==> s.pending[i] < s.n)
  }

  lemma NextKeepsOrdered(s: State, s': State, who: Agent)
    requires Ordered(s) && Next(s, s', who)
    ensures Ordered(s')
  {
  }

  lemma {:induction false} RunKeepsOrdered(states: seq<State>, who: seq<Agent>, i: nat)
    requires Run(states, who) && i < |states|
    ensures Ordered(states[i])
  {
    if i > 0 {
      hide Next, Ordered;
      RunKeepsOrdered(states, who, i - 1);
      NextKeepsOrdered(states[i - 1], states[i], who[i - 1]);
    }
  }

  /** A worker that takes a job takes the newest one that is pending. */
  lemma NewestFirst(states: seq<State>, who: seq<Agent>, i: nat, w: nat, j: Job)
    requires Run(states, who) && i < |who| && who[i] == Worker(w)
    requires w < |states[i].places| && states[i].places[w] == Empty
    requires w < |states[i + 1].places| && states[i + 1].places[w] == Running(j)
    ensures j in states[i].pending && forall k :: k in states[i].pending ==> k <= j
    ensures j !in states[i + 1].pending && multiset(states[i + 1].pending) + multiset{j} == multiset(states[i].pending)
  {
    RunKeepsOrdered(states, who, i);
    var s, t := states[i], states[i + 1];
    assert Next(s, t, who[i]);
    assert s.pending == t.pending + [j];
  }
}
