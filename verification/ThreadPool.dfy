/** The thread pool as a step system: one owner thread, any number of workers, one mutex, and condition
    variables that may wake at any time. */
module ThreadPool {
  import opened Common
  import opened Jobs

  const DEFAULT_THREAD_COUNT := 4

  datatype Agent = Owner | Worker(i: nat)

  /** `Check` is the loop head, reached with or without the mutex. */
  datatype WorkerPc = Check(owns: bool) | Acquire | Test | Waiting | Grab | Busy | Exited

  datatype After = Resize(count: nat) | Destroy

  datatype OwnerPc =
    | Idle
    | AddLock
    | AddPush
    | AddNotify
    | Stopping(after: After)
    | Joining(next: nat, after: After)
    | Spawning(left: nat)
    | Draining(next: nat)
    | Destroyed

  /** n counts the submitted jobs; `places` says what each worker holds. */
  datatype State = State(
    n: nat,
    pending: seq<Job>,
    pcs: seq<WorkerPc>,
    places: seq<Place>,
    stop: bool,
    holder: Option<Agent>,
    owner: OwnerPc,
    log: seq<JobEvent>)

  ghost predicate Init(s: State) {
    s == State(0, [], [], [], false, None, Idle, [])
  }

  // ----- The owner: add_func, set_thread_count and the destructor -----

  ghost predicate OwnerStep(s: State, s': State) {
    match s.owner
    case Idle =>
      // The program adds a job, changes the number of threads, or destroys the pool.
      (s'.owner == AddLock || s'.owner.Stopping?) && s' == s.(owner := s'.owner)
    case AddLock => s.holder == None && s' == s.(owner := AddPush, holder := Some(Owner))
    case AddPush => s' == s.(owner := AddNotify, holder := None, n := s.n + 1, pending := s.pending + [s.n])
    case AddNotify => s' == s.(owner := if s.pcs == [] then Stopping(Resize(DEFAULT_THREAD_COUNT)) else Idle)
    case Stopping(after) => s' == s.(owner := Joining(0, after), stop := true)
    case Joining(next, after) =>
      if next < |s.pcs| then s.pcs[next] == Exited && s' == s.(owner := Joining(next + 1, after))
      else if after == Destroy then s' == s.(owner := Draining(0))
      // A fresh stop flag, mutex and condition variable, and no threads.
      else s' == s.(owner := Spawning(after.count), pcs := [], places := [], stop := false, holder := None)
    case Spawning(left) =>
      if left == 0 then s' == s.(owner := Idle)
      else s' == s.(owner := Spawning(left - 1), pcs := s.pcs + [Check(false)], places := s.places + [Empty])
    case Draining(next) =>
      if next < |s.pending| then s' == s.(owner := Draining(next + 1), log := s.log + [Cleaned(s.pending[next])])
      else s' == s.(owner := Destroyed)
    case Destroyed => false
  }

  // ----- A worker: thread_function -----

  ghost predicate WorkerStep(s: State, s': State, i: nat)
    requires i < |s.pcs| == |s.places|
  {
    match s.pcs[i]
    case Check(owns) =>
      if s.stop then s' == s.(pcs := s.pcs[i := Exited], holder := if owns then None else s.holder)
      else s' == s.(pcs := s.pcs[i := if owns then Test else Acquire])
    case Acquire => s.holder == None && s' == s.(pcs := s.pcs[i := Test], holder := Some(Worker(i)))
    case Test =>
      if s.pending == [] then s' == s.(pcs := s.pcs[i := Waiting], holder := None)
      else s' == s.(pcs := s.pcs[i := Grab])
    case Waiting => s.holder == None && s' == s.(pcs := s.pcs[i := Grab], holder := Some(Worker(i)))
    case Grab =>
      if s.pending == [] then s' == s.(pcs := s.pcs[i := Check(true)])
      else
        var last := |s.pending| - 1;
        s' == s.(pcs := s.pcs[i := Busy], holder := None, pending := s.pending[..last],
                 places := s.places[i := Running(s.pending[last])])
    case Busy =>
      if s.places[i].Running? then
        s' == s.(places := s.places[i := Cleaning(s.places[i].job)], log := s.log + [Ran(s.places[i].job)])
      else
        && s.places[i].Cleaning?
        && s' == s.(pcs := s.pcs[i := Check(false)], places := s.places[i := Empty],
                    log := s.log + [Cleaned(s.places[i].job)])
    case Exited => false
  }

  ghost predicate Next(s: State, s': State, who: Agent) {
    match who
    case Owner => OwnerStep(s, s')
    case Worker(i) => i < |s.pcs| == |s.places| && WorkerStep(s, s', i)
  }

  ghost predicate Run(states: seq<State>, who: seq<Agent>) {
    && |states| == |who| + 1 && Init(states[0])
    && forall i :: 0 <= i < |who| ==> Next(states[i], states[i + 1], who[i])
  }

  // ----- Invariants -----

  /** How much of the pending vector the destructor has cleaned up. */
  function Drained(s: State): nat {
    match s.owner
    case Draining(next) => next
    case Destroyed => |s.pending|
    case _ => 0
  }

  ghost predicate Shape(s: State) {
    && |s.pcs| == |s.places|
    && (forall i :: 0 <= i < |s.pcs| ==> (s.places[i] == Empty <==> s.pcs[i] != Busy))
    && Drained(s) <= |s.pending|
    && (s.owner.Joining? ==> s.owner.next <= |s.pcs| && (forall i :: 0 <= i < s.owner.next ==> s.pcs[i] == Exited))
    && (s.owner.Draining? || s.owner.Destroyed? ==> forall i :: 0 <= i < |s.pcs| ==> s.pcs[i] == Exited)
  }

  predicate Owns(pc: WorkerPc) { pc == Check(true) || pc.Test? || pc.Grab? }

  /** The mutex is held by exactly the agent whose program counter says so. */
  ghost predicate Exclusive(s: State) {
    && (forall i :: 0 <= i < |s.pcs| ==> (Owns(s.pcs[i]) <==> s.holder == Some(Worker(i))))
    && (s.owner.AddPush? <==> s.holder == Some(Owner))
    && (s.holder.Some? && s.holder.value.Worker? ==> s.holder.value.i < |s.pcs|)
  }

  ghost function Pending(s: State): multiset<Job>
    requires Drained(s) <= |s.pending|
  {
    multiset(s.pending[Drained(s)..])
  }

  /** The jobs the destructor has cleaned up without running them. */
  ghost function Dropped(s: State): multiset<Job>
    requires Drained(s) <= |s.pending|
  {
    multiset(s.pending[..Drained(s)])
  }

  ghost predicate Books(s: State)
    requires Drained(s) <= |s.pending|
  {
    Balanced(s.n, Pending(s), s.places, s.log, Dropped(s))
  }

  ghost predicate Inv(s: State) { Shape(s) && Exclusive(s) && Books(s) }

  lemma OwnerKeepsShape(s: State, s': State)
    requires Shape(s) && Exclusive(s) && OwnerStep(s, s')
    ensures Shape(s')
  {
  }

  lemma OwnerKeepsMutex(s: State, s': State)
    requires Shape(s) && Exclusive(s) && OwnerStep(s, s')
    ensures Exclusive(s')
  {
  }

  lemma WorkerKeepsShape(s: State, s': State, i: nat)
    requires Shape(s) && Exclusive(s) && i < |s.pcs| && WorkerStep(s, s', i)
    ensures Shape(s')
  {
  }

  lemma WorkerKeepsMutex(s: State, s': State, i: nat)
    requires Shape(s) && Exclusive(s) && i < |s.pcs| && WorkerStep(s, s', i)
    ensures Exclusive(s')
  {
  }

  lemma OwnerKeepsBooks(s: State, s': State)
    requires Shape(s) && Books(s) && OwnerStep(s, s') && Shape(s')
    ensures Books(s')
  {
    hide Balanced;
    match s.owner {
      case AddPush => PushKeepsBooks(s, s');
      case Joining(_, _) => JoinKeepsBooks(s, s');
      case Spawning(_) => SpawnEmpty(s.n, Pending(s), s.places, s.log, Dropped(s));
      case Draining(_) => DrainKeepsBooks(s, s');
      case _ =>
    }
  }

  lemma PushKeepsBooks(s: State, s': State)
    requires Shape(s) && Books(s) && OwnerStep(s, s') && s.owner.AddPush?
    ensures Books(s')
  {
    hide Balanced, Shape;
    Submit(s.n, Pending(s), s.places, s.log, Dropped(s));
    assert s'.pending[0..] == s.pending[0..] + [s.n];
  }

  lemma JoinKeepsBooks(s: State, s': State)
    requires Shape(s) && Books(s) && OwnerStep(s, s') && s.owner.Joining?
    ensures Drained(s') <= |s'.pending| && Books(s')
  {
    hide Balanced;
    if s.owner.next == |s.pcs| {
      assert forall i :: 0 <= i < |s.places| ==> s.pcs[i] == Exited && s.places[i] == Empty;
      NobodyHolds(s.n, Pending(s), s.places, s.log, Dropped(s));
    }
  }

  lemma DrainKeepsBooks(s: State, s': State)
    requires Shape(s) && Books(s) && OwnerStep(s, s') && s.owner.Draining?
    ensures Drained(s') <= |s'.pending| && Books(s')
  {
    hide Balanced, Shape, Pending, Dropped;
    var next := s.owner.next;
    DrainedFits(s);
    assert next <= |s.pending|;
    if next < |s.pending| {
      var w := Pending(s);
      DrainOne(s, s', next);
      Discard(s.n, w, s.places, s.log, Dropped(s), s.pending[next]);
      assert w - multiset{s.pending[next]} == Pending(s');
    } else {
      DrainEnds(s, s');
    }
  }

  lemma DrainedFits(s: State)
    requires Shape(s)
    ensures Drained(s) <= |s.pending|
  {
  }

  lemma DrainOne(s: State, s': State, next: nat)
    requires s.owner == Draining(next) && next < |s.pending|
    requires s'.owner == Draining(next + 1) && s'.pending == s.pending
    ensures Pending(s') + multiset{s.pending[next]} == Pending(s)
    ensures Dropped(s') == Dropped(s) + multiset{s.pending[next]}
  {
    assert s.pending[next..] == [s.pending[next]] + s.pending[next + 1..];
    assert s.pending[..next + 1] == s.pending[..next] + [s.pending[next]];
  }

  lemma DrainEnds(s: State, s': State)
    requires s.owner == Draining(|s.pending|) && s'.owner == Destroyed && s'.pending == s.pending
    ensures Pending(s') == Pending(s) && Dropped(s') == Dropped(s)
  {
  }

  lemma NobodyHolds(n: nat, waiting: multiset<Job>, ps: seq<Place>, log: seq<JobEvent>, dropped: multiset<Job>)
    requires Balanced(n, waiting, ps, log, dropped) && forall i :: 0 <= i < |ps| ==> ps[i] == Empty
    ensures Balanced(n, waiting, [], log, dropped)
    ensures waiting + CleanedBag(log) == All(n) && RanBag(log) + dropped == CleanedBag(log)
  {
    HeldNothing(ps);
    assert Held(ps) == Held([]) && HeldCleaning(ps) == HeldCleaning([]);
  }

  lemma WorkerKeepsBooks(s: State, s': State, i: nat)
    requires Shape(s) && Books(s) && i < |s.pcs| && WorkerStep(s, s', i) && Shape(s')
    ensures Books(s')
  {
    hide Balanced;
    match s.pcs[i] {
      case Grab =>
        if s.pending != [] {
          var last := |s.pending| - 1;
          assert Drained(s) == 0;
          assert s.pending[0..] == s'.pending[0..] + [s.pending[last]];
          Take(s.n, Pending(s), s.places, s.log, Dropped(s), i, s.pending[last]);
          assert Pending(s) - multiset{s.pending[last]} == Pending(s');
        }
      case Busy =>
        if s.places[i].Running? {
          RunJob(s.n, Pending(s), s.places, s.log, Dropped(s), i);
        } else {
          CleanJob(s.n, Pending(s), s.places, s.log, Dropped(s), i);
        }
      case _ =>
    }
  }

  lemma NextKeepsInv(s: State, s': State, who: Agent)
    requires Inv(s) && Next(s, s', who)
    ensures Inv(s')
  {
    hide OwnerStep, WorkerStep, Shape, Exclusive, Books;
    match who {
      case Owner =>
        OwnerKeepsShape(s, s');
        OwnerKeepsMutex(s, s');
        OwnerKeepsBooks(s, s');
      case Worker(i) =>
        WorkerKeepsShape(s, s', i);
        WorkerKeepsMutex(s, s', i);
        WorkerKeepsBooks(s, s', i);
    }
  }

  lemma {:induction false} RunKeepsInv(states: seq<State>, who: seq<Agent>, i: nat)
    requires Run(states, who) && i < |states|
    ensures Inv(states[i])
  {
    if i > 0 {
      hide Next, Inv;
      RunKeepsInv(states, who, i - 1);
      NextKeepsInv(states[i - 1], states[i], who[i - 1]);
    }
  }

  // ----- Main results -----

  /** In every reachable state each submitted job is pending, held by one worker, or cleaned up, exactly
      one of the three; the jobs a worker is about to clean or has cleaned have run, exactly once and before
      the cleanup, and the others have not. */
  lemma EveryJobAccounted(states: seq<State>, who: seq<Agent>, i: nat, j: Job)
    requires Run(states, who) && i < |states|
    ensures var s := states[i];
      && Drained(s) <= |s.pending|
      && Pending(s)[j] + Held(s.places)[j] + CleanedBag(s.log)[j] == (if j < s.n then 1 else 0)
      && RanBag(s.log)[j] + Dropped(s)[j] == HeldCleaning(s.places)[j] + CleanedBag(s.log)[j] <= 1
      && RunsFirst(s.log)
      && (j !in Dropped(s) ==>
            forall b :: 0 <= b < |s.log| && s.log[b] == Cleaned(j) ==> exists a :: 0 <= a < b && s.log[a] == Ran(j))
  {
    RunKeepsInv(states, who, i);
    if j !in Dropped(states[i]) {
      RanBefore(states[i].n, Pending(states[i]), states[i].places, states[i].log, Dropped(states[i]), j);
    }
    ExactlyOnePlace(states[i].n, Pending(states[i]), states[i].places, states[i].log, Dropped(states[i]), j);
  }

  /** Only the mutex holder, or the owner once all threads have exited, can be about to touch the
      pending vector; no two agents are at such a point together. */
  lemma PendingIsGuarded(states: seq<State>, who: seq<Agent>, i: nat, a: nat, b: nat)
    requires Run(states, who) && i < |states| && a < |states[i].pcs| && b < |states[i].pcs|
    ensures var s := states[i];
      && (Owns(s.pcs[a]) && Owns(s.pcs[b]) ==> a == b)
      && (Owns(s.pcs[a]) ==> !s.owner.AddPush? && !s.owner.Draining?)
  {
    RunKeepsInv(states, who, i);
  }

  /** Once the destructor has returned, every submitted job was cleaned up exactly once, and every job that was
      not still pending has run. */
  lemma DestroyedCleansAll(states: seq<State>, who: seq<Agent>, i: nat)
    requires Run(states, who) && i < |states| && states[i].owner == Destroyed
    ensures CleanedBag(states[i].log) == All(states[i].n)
    ensures RanBag(states[i].log) + multiset(states[i].pending) == All(states[i].n)
  {
    RunKeepsInv(states, who, i);
    var s := states[i];
    assert s.pending[|s.pending|..] == [] && s.pending[..|s.pending|] == s.pending;
    NobodyHolds(s.n, Pending(s), s.places, s.log, Dropped(s));
  }
}
