/** What the thread limiter can always still do: finish every accepted job, and let the destructor return. */
module ThreadLimitRuns {
  import opened Common
  import opened Jobs
  import opened ThreadLimit

  /** The stop flag is up exactly from the join on, the manager leaves only then, and only producer and manager
      hold the mutex. */
  ghost predicate Alive(s: State) {
    && (s.stop <==> s.producer.PJoin? || s.producer.PDrain? || s.producer.PAwait? || s.producer.PDone?)
    && (s.manager.MExited? ==> s.stop)
    && (s.holder.Some? ==> s.holder.value == Manager || s.holder.value == Producer)
    && s.limit >= 1
  }

  lemma NextKeepsAlive(s: State, s': State, who: Agent)
    requires Alive(s) && Next(s, s', who)
    ensures Alive(s')
  {
  }

  lemma {:induction false} RunKeepsAlive(limit: nat, states: seq<State>, who: seq<Agent>, i: nat)
    requires Run(limit, states, who) && i < |states|
    ensures Alive(states[i])
  {
    if i > 0 {
      hide Next, Alive, Run;
      RunStep(limit, states, who, i);
      RunKeepsAlive(limit, states, who, i - 1);
      NextKeepsAlive(states[i - 1], states[i], who[i - 1]);
    }
  }

  lemma ReachableInv(limit: nat, s: State)
    requires Reachable(limit, s)
    ensures Inv(s) && Alive(s)
  {
    hide Next, Init, Inv, Alive;
    var states: seq<State>, agents: seq<Agent> :| Run(limit, states, agents) && states[|states| - 1] == s;
    RunKeepsInv(limit, states, agents, |states| - 1);
    RunKeepsAlive(limit, states, agents, |states| - 1);
  }

  lemma ReachableShape(limit: nat, s: State)
    requires Reachable(limit, s)
    ensures |s.tasks| == |s.places|
    ensures forall i :: 0 <= i < |s.tasks| ==> (s.places[i] == Empty <==> s.tasks[i] != Working)
    ensures s.counter == Active(s.tasks) + Starting(s)
    ensures Alive(s) && (s.holder == Some(Manager) ==> ManagerOwns(s.manager))
    ensures s.holder == Some(Producer) ==> s.producer.PPush?
  {
    hide Reachable, Alive, Books, Active, Starting;
    ReachableInv(limit, s);
  }

  // ----- Finishing the started jobs -----

  /** The tasks have gone on and nothing else has changed. */
  ghost predicate OnlyTasks(s: State, t: State) {
    && t == s.(counter := t.counter, tasks := t.tasks, places := t.places, log := t.log)
    && |t.tasks| == |s.tasks|
  }

  function TaskRank(s: State, i: nat): nat
    requires i < |s.tasks| && i < |s.places|
  {
    if s.tasks[i] == Working then (if s.places[i].Running? then 3 else 2)
    else if s.tasks[i] == Leaving then 1 else 0
  }

  lemma {:induction false} SomeActive(tasks: seq<TaskPc>, i: nat)
    requires i < |tasks| && tasks[i] != Gone
    ensures Active(tasks) > 0
  {
    if i < |tasks| - 1 { SomeActive(tasks[..|tasks| - 1], i); }
  }

  lemma {:induction false} NoneActive(tasks: seq<TaskPc>)
    requires forall i :: 0 <= i < |tasks| ==> tasks[i] == Gone
    ensures Active(tasks) == 0
  {
    if tasks != [] { NoneActive(tasks[..|tasks| - 1]); }
  }

  lemma {:induction false} FinishTask(limit: nat, s: State, i: nat) returns (t: State)
    requires Reachable(limit, s) && i < |s.tasks| && i < |s.places|
    ensures Reachable(limit, t) && OnlyTasks(s, t) && i < |t.places| && t.tasks == s.tasks[i := Gone]
    decreases TaskRank(s, i)
  {
    hide Reachable, Alive, Active;
    ReachableShape(limit, s);
    t := s;
    if s.tasks[i] != Gone {
      SomeActive(s.tasks, i);
      var u := s;
      if s.tasks[i] == Working {
        var j := s.places[i].job;
        u := if s.places[i].Running? then s.(places := s.places[i := Cleaning(j)], log := s.log + [Ran(j)])
             else s.(tasks := s.tasks[i := Leaving], places := s.places[i := Empty], log := s.log + [Cleaned(j)]);
      } else {
        u := s.(tasks := s.tasks[i := Gone], counter := s.counter - 1);
      }
      Advance(limit, s, u, Task(i));
      t := FinishTask(limit, u, i);
    }
  }

  lemma {:induction false} FinishTasks(limit: nat, s: State, k: nat) returns (t: State)
    requires Reachable(limit, s) && k <= |s.tasks|
    requires forall i :: 0 <= i < k ==> s.tasks[i] == Gone
    ensures Reachable(limit, t) && OnlyTasks(s, t) && forall i :: 0 <= i < |t.tasks| ==> t.tasks[i] == Gone
    decreases |s.tasks| - k
  {
    hide Reachable;
    t := s;
    if k < |s.tasks| {
      TasksHavePlaces(limit, s);
      var u := FinishTask(limit, s, k);
      t := FinishTasks(limit, u, k + 1);
    }
  }

  lemma TasksHavePlaces(limit: nat, s: State)
    requires Reachable(limit, s)
    ensures |s.tasks| == |s.places|
  {
    ReachableShape(limit, s);
  }

  // ----- Starting the queued ones -----

  /** Nothing runs and the producer is not in a call. */
  ghost predicate Quiet(limit: nat, s: State) {
    Reachable(limit, s) && s.producer == PIdle && forall i :: 0 <= i < |s.tasks| ==> s.tasks[i] == Gone
  }

  function Queued(s: State): nat { |s.overflow| + |ManagerHand(s.manager)| }

  function ManagerRank(m: ManagerPc): nat {
    match m
    case MSpawn(_) => 1
    case MInc(_) => 2
    case MPop => 3
    case MCheck => 4
    case MTest => 5
    case _ => 6
  }

  /** The manager's next step when a job is queued and a place free. */
  function ManagerNext(s: State): State
    requires s.manager.MPop? ==> s.overflow != []
  {
    match s.manager
    case MTest => s.(manager := MCheck)
    case MCheck => s.(manager := MPop)
    case MPop => s.(manager := MInc(s.overflow[0]), overflow := s.overflow[1..])
    case MInc(j) => s.(manager := MSpawn(j), counter := s.counter + 1)
    case MSpawn(j) => s.(manager := MCheck, tasks := s.tasks + [Working], places := s.places + [Running(j)])
    case _ => s.(manager := MTest, holder := Some(Manager))
  }

  lemma ManagerCanStep(limit: nat, s: State)
    requires Quiet(limit, s) && Queued(s) > 0
    ensures (s.manager.MPop? ==> s.overflow != []) && ManagerStep(s, ManagerNext(s))
  {
    hide Reachable, Active;
    ReachableShape(limit, s);
    NoneActive(s.tasks);
    if s.manager.MPop? { PoppingFindsOne(limit, s); }
  }

  /** With nothing running, the manager starts a queued job. */
  lemma {:induction false} StartOne(limit: nat, s: State) returns (t: State)
    requires Quiet(limit, s) && Queued(s) > 0
    ensures Reachable(limit, t) && t.producer == PIdle && t.n == s.n && Queued(t) < Queued(s)
    decreases ManagerRank(s.manager)
  {
    hide Reachable;
    ManagerCanStep(limit, s);
    hide ManagerStep;
    t := ManagerNext(s);
    Advance(limit, s, t, Manager);
    if !s.manager.MSpawn? {
      t := StartOne(limit, t);
    }
  }

  lemma {:induction false} FinishAll(limit: nat, s: State) returns (t: State)
    requires Reachable(limit, s) && s.producer == PIdle
    ensures Quiet(limit, t) && t.n == s.n && Queued(t) == 0
    decreases Queued(s)
  {
    hide Reachable;
    t := FinishTasks(limit, s, 0);
    if Queued(t) > 0 {
      var u := StartOne(limit, t);
      t := FinishAll(limit, u);
    }
  }

  // ----- Main results -----

  lemma QuietIsDone(limit: nat, s: State)
    requires Quiet(limit, s) && Queued(s) == 0
    ensures RanBag(s.log) == CleanedBag(s.log) == All(s.n) && s.counter == Starting(s) == 0
  {
    hide Reachable, Inv, Active, Alive;
    ReachableShape(limit, s);
    NoneActive(s.tasks);
    ReachableInv(limit, s);
    QuietBooks(s);
    forall i | 0 <= i < |s.places| ensures s.places[i] == Empty {
      assert s.tasks[i] == Gone;
    }
    NothingLeft(s.n, s.places, s.log);
  }

  lemma QuietBooks(s: State)
    requires Inv(s) && s.producer == PIdle && Queued(s) == 0
    ensures Balanced(s.n, multiset{}, s.places, s.log, multiset{})
  {
    hide Balanced, CounterInv, Shape;
    assert s.overflow[0..] == [] && s.overflow[..0] == [];
    assert Waiting(s) == multiset{} && Dropped(s) == multiset{};
  }

  /** From every reachable state with an idle producer the limiter can go on to have run and cleaned up every
      accepted job. */
  lemma JobsCanFinish(limit: nat, s: State) returns (t: State)
    requires Reachable(limit, s) && s.producer == PIdle
    ensures Reachable(limit, t) && t.producer == PIdle && t.n == s.n && t.counter == 0
    ensures RanBag(t.log) == CleanedBag(t.log) == All(s.n)
  {
    hide Reachable;
    t := FinishAll(limit, s);
    QuietIsDone(limit, t);
  }

  /** The manager leaves when the stop flag is up and nothing is queued. */
  lemma {:induction false} ManagerLeaves(limit: nat, s: State) returns (t: State)
    requires Reachable(limit, s) && s.producer == PJoin && s.overflow == []
    requires !s.manager.MPop? && !s.manager.MInc? && !s.manager.MSpawn?
    ensures Reachable(limit, t) && t == s.(manager := MExited, holder := t.holder)
    decreases if s.manager.MCheck? then 3 else if s.manager.MStart? || s.manager.MWait? then 2 else 1
  {
    hide Reachable;
    ReachableShape(limit, s);
    t := s;
    if !s.manager.MExited? {
      t := match s.manager
        case MCheck => s.(manager := MWait, holder := None)
        case MTest => s.(manager := MExited, holder := None)
        case _ => s.(manager := MTest, holder := Some(Manager));
      Advance(limit, s, t, Manager);
      if !s.manager.MTest? { t := ManagerLeaves(limit, t); }
    }
  }

  /** The destructor can be called from there and return, after every accepted job has run. */
  lemma DestructorCanReturn(limit: nat, s: State) returns (t: State)
    requires Reachable(limit, s) && s.producer == PIdle
    ensures Reachable(limit, t) && t.producer == PDone && t.n == s.n
    ensures RanBag(t.log) == CleanedBag(t.log) == All(s.n)
  {
    hide Reachable;
    var u := FinishAll(limit, s);
    QuietIsDone(limit, u);
    var v := u.(producer := PStopping);
    Advance(limit, u, v, Producer);
    u, v := v, v.(producer := PJoin, stop := true);
    Advance(limit, u, v, Producer);
    if v.manager.MPop? { PoppingFindsOne(limit, v); }
    u := ManagerLeaves(limit, v);
    v := u.(producer := PDrain(0));
    Advance(limit, u, v, Producer);
    u, v := v, v.(producer := PAwait);
    Advance(limit, u, v, Producer);
    t := v.(producer := PDone);
    Advance(limit, v, t, Producer);
  }

  // ----- Order -----

  /** Jobs are appended at one end of the list and taken at the other; the producer's job is the newest. */
  ghost predicate Ordered(s: State) {
    && (forall i, j :: 0 <= i < j < |s.overflow| ==> s.overflow[i] < s.overflow[j])
    && (forall i :: 0 <= i < |s.overflow| ==> s.overflow[i] < s.n)
    && (s.producer.PCheck? || s.producer.PLock? || s.producer.PPush? ==>
          s.producer.job + 1 == s.n && forall i :: 0 <= i < |s.overflow| ==> s.overflow[i] < s.producer.job)
  }

  lemma NextKeepsOrdered(s: State, s': State, who: Agent)
    requires Ordered(s) && Next(s, s', who)
    ensures Ordered(s')
  {
    match who {
      case Producer => ProducerKeepsOrdered(s, s');
      case Manager => ManagerKeepsOrdered(s, s');
      case Task(_) =>
    }
  }

  lemma ProducerKeepsOrdered(s: State, s': State)
    requires Ordered(s) && ProducerStep(s, s')
    ensures Ordered(s')
  {
  }

  lemma ManagerKeepsOrdered(s: State, s': State)
    requires Ordered(s) && ManagerStep(s, s')
    ensures Ordered(s')
  {
  }

  lemma {:induction false} RunKeepsOrdered(limit: nat, states: seq<State>, who: seq<Agent>, i: nat)
    requires Run(limit, states, who) && i < |states|
    ensures Ordered(states[i])
  {
    if i > 0 {
      hide Next, Ordered, Run;
      RunStep(limit, states, who, i);
      RunKeepsOrdered(limit, states, who, i - 1);
      NextKeepsOrdered(states[i - 1], states[i], who[i - 1]);
    }
  }

  /** The manager starts queued jobs in the order in which they were accepted. */
  lemma OldestFirst(limit: nat, states: seq<State>, who: seq<Agent>, i: nat)
    requires Run(limit, states, who) && i < |who| && who[i] == Manager && states[i].manager.MPop?
    ensures var s, t := states[i], states[i + 1];
      && t.manager.MInc? && t.manager.job in s.overflow
      && (forall k :: k in s.overflow ==> t.manager.job <= k)
      && s.overflow == [t.manager.job] + t.overflow
  {
    assert |states| == |who| + 1;
    hide Run, Next;
    RunStep(limit, states, who, i + 1);
    RunKeepsOrdered(limit, states, who, i);
    PopsFirst(states[i], states[i + 1]);
  }

  lemma PopsFirst(s: State, t: State)
    requires Ordered(s) && Next(s, t, Manager) && s.manager.MPop?
    ensures t.manager.MInc? && s.overflow == [t.manager.job] + t.overflow
    ensures forall k :: k in s.overflow ==> t.manager.job <= k
  {
  }
}
