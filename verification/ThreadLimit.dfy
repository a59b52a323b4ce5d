/** The thread limiter as a step system: one producer, the manager thread, and one detached thread per
    started job, sharing an atomic counter. */
module ThreadLimit {
  import opened Common
  import opened Jobs

  datatype Agent = Producer | Manager | Task(i: nat)

  /** `PInc` is past the check and before the increment, `PSpawn` past the increment. */
  datatype ProducerPc =
    | PIdle
    | PCheck(job: Job)
    | PLock(job: Job)
    | PPush(job: Job)
    | PInc(job: Job)
    | PSpawn(job: Job)
    | PStopping
    | PJoin
    | PDrain(next: nat)
    | PAwait
    | PDone

  datatype ManagerPc = MStart | MTest | MCheck | MPop | MInc(job: Job) | MSpawn(job: Job) | MWait | MExited

  /** A started thread works on its job, then decrements the counter, then is gone. */
  datatype TaskPc = Working | Leaving | Gone

  datatype State = State(
    n: nat,
    limit: nat,
    counter: nat,
    overflow: seq<Job>,
    tasks: seq<TaskPc>,
    places: seq<Place>,
    stop: bool,
    holder: Option<Agent>,
    manager: ManagerPc,
    producer: ProducerPc,
    log: seq<JobEvent>)

  /** A limit of zero is raised to one. */
  ghost predicate Init(s: State, limit: nat) {
    s == State(0, if limit == 0 then 1 else limit, 0, [], [], [], false, None, MStart, PIdle, [])
  }

  // ----- The producer: add_thread and the destructor -----

  ghost predicate ProducerStep(s: State, s': State) {
    match s.producer
    case PIdle => s' == s.(producer := PCheck(s.n), n := s.n + 1) || s' == s.(producer := PStopping)
    case PCheck(j) => s' == s.(producer := if s.counter >= s.limit then PLock(j) else PInc(j))
    case PLock(j) => s.holder == None && s' == s.(producer := PPush(j), holder := Some(Producer))
    case PPush(j) => s' == s.(producer := PIdle, holder := None, overflow := s.overflow + [j])
    case PInc(j) => s' == s.(producer := PSpawn(j), counter := s.counter + 1)
    case PSpawn(j) => s' == s.(producer := PIdle, tasks := s.tasks + [Working], places := s.places + [Running(j)])
    case PStopping => s' == s.(producer := PJoin, stop := true)
    case PJoin => s.manager == MExited && s' == s.(producer := PDrain(0))
    case PDrain(next) =>
      if next < |s.overflow| then s' == s.(producer := PDrain(next + 1), log := s.log + [Cleaned(s.overflow[next])])
      else s' == s.(producer := PAwait)
    case PAwait => s.counter == 0 && s' == s.(producer := PDone)
    case PDone => false
  }

  // ----- internal_manager_function -----

  ghost predicate ManagerStep(s: State, s': State) {
    match s.manager
    case MStart => s.holder == None && s' == s.(manager := MTest, holder := Some(Manager))
    case MTest => s' == if s.stop then s.(manager := MExited, holder := None) else s.(manager := MCheck)
    case MCheck =>
      s' == if s.counter < s.limit && s.overflow != [] then s.(manager := MPop)
            else s.(manager := MWait, holder := None)
    case MPop =>
      s.overflow != [] && s' == s.(manager := MInc(s.overflow[0]), overflow := s.overflow[1..])
    case MInc(j) => s' == s.(manager := MSpawn(j), counter := s.counter + 1)
    case MSpawn(j) => s' == s.(manager := MCheck, tasks := s.tasks + [Working], places := s.places + [Running(j)])
    case MWait => s.holder == None && s' == s.(manager := MTest, holder := Some(Manager))
    case MExited => false
  }

  // ----- internal_thread_function -----

  ghost predicate TaskStep(s: State, s': State, i: nat)
    requires i < |s.tasks| == |s.places|
  {
    match s.tasks[i]
    case Working =>
      if s.places[i].Running? then
        s' == s.(places := s.places[i := Cleaning(s.places[i].job)], log := s.log + [Ran(s.places[i].job)])
      else
        && s.places[i].Cleaning?
        && s' == s.(tasks := s.tasks[i := Leaving], places := s.places[i := Empty],
                    log := s.log + [Cleaned(s.places[i].job)])
    case Leaving => s.counter > 0 && s' == s.(tasks := s.tasks[i := Gone], counter := s.counter - 1)
    case Gone => false
  }

  ghost predicate Next(s: State, s': State, who: Agent) {
    match who
    case Producer => ProducerStep(s, s')
    case Manager => ManagerStep(s, s')
    case Task(i) => i < |s.tasks| == |s.places| && TaskStep(s, s', i)
  }

  ghost predicate Run(limit: nat, states: seq<State>, who: seq<Agent>) {
    && |states| == |who| + 1 && Init(states[0], limit)
    && forall i :: 0 <= i < |who| ==> Next(states[i], states[i + 1], who[i])
  }

  // ----- The counter -----

  function Active(tasks: seq<TaskPc>): nat {
    if tasks == [] then 0 else Active(tasks[..|tasks| - 1]) + (if tasks[|tasks| - 1] == Gone then 0 else 1)
  }

  lemma ActivePush(tasks: seq<TaskPc>)
    ensures Active(tasks + [Working]) == Active(tasks) + 1
  {
    assert (tasks + [Working])[..|tasks|] == tasks;
  }

  lemma {:induction false} ActiveUpdate(tasks: seq<TaskPc>, i: nat, t: TaskPc)
    requires i < |tasks|
    ensures Active(tasks[i := t]) + (if tasks[i] == Gone then 0 else 1) == Active(tasks) + (if t == Gone then 0 else 1)
  {
    var last := |tasks| - 1;
    if i == last {
      assert tasks[i := t][..last] == tasks[..last];
    } else {
      ActiveUpdate(tasks[..last], i, t);
      assert tasks[i := t][..last] == tasks[..last][i := t];
    }
  }

  lemma {:induction false} ActiveZero(tasks: seq<TaskPc>, i: nat)
    requires Active(tasks) == 0 && i < |tasks|
    ensures tasks[i] == Gone
  {
    if i < |tasks| - 1 { ActiveZero(tasks[..|tasks| - 1], i); }
  }

  /** An agent that has incremented the counter and not yet started its thread. */
  function Starting(s: State): nat {
    (if s.producer.PSpawn? then 1 else 0) + (if s.manager.MSpawn? then 1 else 0)
  }

  predicate ProducerCommitted(s: State) { s.producer.PInc? }

  predicate ManagerCommitted(s: State) { s.manager.MPop? || s.manager.MInc? }

  /** Agents that have passed the check and not yet incremented the counter. */
  function Committed(s: State): nat {
    (if ProducerCommitted(s) then 1 else 0) + (if ManagerCommitted(s) then 1 else 0)
  }

  /** Counting those that have passed the check, the limit is kept. */
  predicate Within(s: State) { s.counter + Committed(s) <= s.limit }

  /** Both agents have passed the check for the last free place. */
  predicate Critical(s: State) { ProducerCommitted(s) && ManagerCommitted(s) && s.counter + 1 == s.limit }

  ghost predicate CounterInv(s: State) {
    s.counter == Active(s.tasks) + Starting(s) && s.counter + Committed(s) <= s.limit + 1
  }

  lemma ProducerCounter(s: State, s': State)
    requires CounterInv(s) && ProducerStep(s, s')
    ensures s'.counter == Active(s'.tasks) + Starting(s') && s'.limit == s.limit
    ensures s'.counter + Committed(s') <= s.limit + 1
    ensures Within(s) ==> (Within(s') <==> !Critical(s'))
  {
    hide Active;
    ActivePush(s.tasks);
  }

  lemma ManagerCounter(s: State, s': State)
    requires CounterInv(s) && ManagerStep(s, s')
    ensures s'.counter == Active(s'.tasks) + Starting(s') && s'.limit == s.limit
    ensures s'.counter + Committed(s') <= s.limit + 1
    ensures Within(s) ==> (Within(s') <==> !Critical(s'))
  {
    hide Active;
    ActivePush(s.tasks);
  }

  lemma TaskCounter(s: State, s': State, i: nat)
    requires CounterInv(s) && i < |s.tasks| == |s.places| && TaskStep(s, s', i)
    ensures s'.counter == Active(s'.tasks) + Starting(s') && s'.limit == s.limit
    ensures s'.counter + Committed(s') <= s.counter + Committed(s)
    ensures Within(s) ==> (Within(s') <==> !Critical(s'))
  {
    hide Active;
    ActiveUpdate(s.tasks, i, s'.tasks[i]);
    assert s.tasks[i := s.tasks[i]] == s.tasks;
  }

  lemma NextKeepsCounter(s: State, s': State, who: Agent)
    requires CounterInv(s) && Next(s, s', who)
    ensures CounterInv(s') && s'.limit == s.limit
    ensures Within(s) ==> (Within(s') <==> !Critical(s'))
  {
    hide ProducerStep, ManagerStep, TaskStep, Active, Starting, Committed, Critical;
    match who {
      case Producer => ProducerCounter(s, s');
      case Manager => ManagerCounter(s, s');
      case Task(i) => TaskCounter(s, s', i);
    }
  }

  // ----- Jobs -----

  function Drained(s: State): nat {
    match s.producer
    case PDrain(next) => next
    case PAwait => |s.overflow|
    case PDone => |s.overflow|
    case _ => 0
  }

  function ProducerHand(p: ProducerPc): seq<Job> {
    if p.PCheck? || p.PLock? || p.PPush? || p.PInc? || p.PSpawn? then [p.job] else []
  }

  function ManagerHand(m: ManagerPc): seq<Job> {
    if m.MInc? || m.MSpawn? then [m.job] else []
  }

  /** Accepted jobs that no thread has yet: in the overflow list or in the hands of an agent. */
  ghost function Waiting(s: State): multiset<Job>
    requires Drained(s) <= |s.overflow|
  {
    multiset(s.overflow[Drained(s)..]) + multiset(ProducerHand(s.producer)) + multiset(ManagerHand(s.manager))
  }

  /** The jobs the destructor has cleaned up without running them. */
  ghost function Dropped(s: State): multiset<Job>
    requires Drained(s) <= |s.overflow|
  {
    multiset(s.overflow[..Drained(s)])
  }

  predicate ManagerOwns(m: ManagerPc) { m.MTest? || m.MCheck? || m.MPop? || m.MInc? || m.MSpawn? }

  ghost predicate Shape(s: State) {
    && |s.tasks| == |s.places|
    && (forall i :: 0 <= i < |s.tasks| ==> (s.places[i] == Empty <==> s.tasks[i] != Working))
    && Drained(s) <= |s.overflow|
    && (s.producer.PDrain? || s.producer.PAwait? || s.producer.PDone? ==> s.manager == MExited)
    && (ManagerOwns(s.manager) <==> s.holder == Some(Manager))
    && (s.producer.PPush? <==> s.holder == Some(Producer))
    && (s.producer.PDone? ==> s.counter == 0)
  }

  ghost predicate Books(s: State)
    requires Drained(s) <= |s.overflow|
  {
    Balanced(s.n, Waiting(s), s.places, s.log, Dropped(s))
  }

  lemma ProducerKeepsShape(s: State, s': State)
    requires Shape(s) && CounterInv(s) && ProducerStep(s, s')
    ensures Shape(s')
  {
  }

  lemma ManagerKeepsShape(s: State, s': State)
    requires Shape(s) && CounterInv(s) && ManagerStep(s, s')
    ensures Shape(s')
  {
  }

  lemma TaskKeepsShape(s: State, s': State, i: nat)
    requires Shape(s) && CounterInv(s) && i < |s.tasks| && TaskStep(s, s', i)
    ensures Shape(s')
  {
  }

  lemma ProducerKeepsBooks(s: State, s': State)
    requires Shape(s) && Books(s) && ProducerStep(s, s') && Shape(s')
    ensures Books(s')
  {
    hide Balanced, Waiting, Drained, Shape, ProducerStep, Books;
    match s.producer {
      case PIdle => AcceptBooks(s, s');
      case PPush(_) => QueueBooks(s, s');
      case PSpawn(_) => StartBooks(s, s');
      case PDrain(_) => DrainBooks(s, s');
      case _ => PassBooks(s, s');
    }
  }

  lemma PassBooks(s: State, s': State)
    requires Shape(s) && Books(s) && ProducerStep(s, s') && Shape(s')
    requires !s.producer.PIdle? && !s.producer.PPush? && !s.producer.PSpawn? && !s.producer.PDrain?
    ensures Books(s')
  {
    hide Balanced, Shape, Waiting;
    DrainedFits(s);
    assert Drained(s') == Drained(s);
    SameWaiting(s, s');
  }

  lemma DrainedFits(s: State)
    requires Shape(s)
    ensures Drained(s) <= |s.overflow|
  {
  }

  lemma SameWaiting(s: State, s': State)
    requires s'.overflow == s.overflow && s'.manager == s.manager && Drained(s') == Drained(s) <= |s.overflow|
    requires ProducerHand(s'.producer) == ProducerHand(s.producer)
    ensures Waiting(s') == Waiting(s) && Dropped(s') == Dropped(s)
  {
  }

  lemma AcceptBooks(s: State, s': State)
    requires Shape(s) && Books(s) && ProducerStep(s, s') && Shape(s') && s.producer.PIdle?
    ensures Books(s')
  {
    hide Balanced, Shape, Waiting, Dropped;
    DrainedFits(s);
    DrainedFits(s');
    AcceptWaits(s, s');
    if s'.producer.PCheck? {
      Submit(s.n, Waiting(s), s.places, s.log, Dropped(s));
    }
  }

  lemma AcceptWaits(s: State, s': State)
    requires s.producer == PIdle && (s'.producer == PCheck(s.n) || s'.producer == PStopping)
    requires s'.overflow == s.overflow && s'.manager == s.manager
    ensures Waiting(s') == if s'.producer.PCheck? then Waiting(s) + multiset{s.n} else Waiting(s)
    ensures Dropped(s') == Dropped(s)
  {
    if s'.producer.PCheck? {
      assert ProducerHand(s.producer) == [] && ProducerHand(s'.producer) == [s.n];
      assert multiset(ProducerHand(s'.producer)) == multiset{s.n} && multiset(ProducerHand(s.producer)) == multiset{};
    } else {
      assert ProducerHand(s'.producer) == ProducerHand(s.producer);
    }
  }

  lemma QueueBooks(s: State, s': State)
    requires Shape(s) && Books(s) && ProducerStep(s, s') && Shape(s') && s.producer.PPush?
    ensures Books(s')
  {
    hide Balanced, Shape;
    var w := Waiting(s);
    assert s'.overflow[0..] == s.overflow[0..] + [s.producer.job];
    assert Waiting(s') == w;
  }

  lemma StartBooks(s: State, s': State)
    requires Shape(s) && Books(s) && ProducerStep(s, s') && Shape(s') && s.producer.PSpawn?
    ensures Books(s')
  {
    hide Balanced, Shape;
    var w := Waiting(s);
    Spawn(s.n, w, s.places, s.log, Dropped(s), s.producer.job);
    assert Waiting(s') == w - multiset{s.producer.job};
  }

  lemma DrainBooks(s: State, s': State)
    requires Shape(s) && Books(s) && ProducerStep(s, s') && Shape(s') && s.producer.PDrain?
    ensures Books(s')
  {
    hide Balanced, Shape, Waiting, Dropped;
    DrainedFits(s);
    var w := Waiting(s);
    var next := s.producer.next;
    if next < |s.overflow| {
      var j := s.overflow[next];
      DrainOne(s, s', next);
      Discard(s.n, w, s.places, s.log, Dropped(s), j);
      assert w - multiset{j} == Waiting(s');
    } else {
      assert Drained(s') == Drained(s) == |s.overflow|;
      SameWaiting(s, s');
    }
  }

  lemma DrainOne(s: State, s': State, next: nat)
    requires s.producer == PDrain(next) && next < |s.overflow|
    requires s'.producer == PDrain(next + 1) && s'.overflow == s.overflow && s'.manager == s.manager
    ensures Waiting(s') + multiset{s.overflow[next]} == Waiting(s)
    ensures Dropped(s') == Dropped(s) + multiset{s.overflow[next]}
  {
    assert s.overflow[next..] == [s.overflow[next]] + s.overflow[next + 1..];
    assert s.overflow[..next + 1] == s.overflow[..next] + [s.overflow[next]];
  }

  lemma ManagerKeepsBooks(s: State, s': State)
    requires Shape(s) && Books(s) && ManagerStep(s, s') && Shape(s')
    ensures Books(s')
  {
    hide Balanced;
    if s.manager.MPop? {
      NotDrained(s);
      PopBooks(s, s');
    } else if s.manager.MSpawn? {
      NotDrained(s);
      ManagerStartBooks(s, s');
    } else {
      ManagerPassBooks(s, s');
    }
  }

  /** While the manager runs, the destructor has not begun to clean up. */
  lemma NotDrained(s: State)
    requires Shape(s) && s.manager != MExited
    ensures Drained(s) == 0
  {
  }

  lemma ManagerPassBooks(s: State, s': State)
    requires Drained(s) <= |s.overflow| && Books(s) && ManagerStep(s, s') && Drained(s') <= |s'.overflow|
    requires !s.manager.MPop? && !s.manager.MSpawn?
    ensures Books(s')
  {
    hide Balanced, ManagerStep;
    ManagerPasses(s, s');
    assert Drained(s') == Drained(s);
    assert Waiting(s') == Waiting(s);
  }

  lemma ManagerPasses(s: State, s': State)
    requires ManagerStep(s, s') && !s.manager.MPop? && !s.manager.MSpawn?
    ensures s'.n == s.n && s'.places == s.places && s'.log == s.log
    ensures s'.overflow == s.overflow && s'.producer == s.producer && ManagerHand(s'.manager) == ManagerHand(s.manager)
  {
  }

  lemma PopBooks(s: State, s': State)
    requires Shape(s) && Books(s) && ManagerStep(s, s') && Shape(s') && s.manager.MPop? && Drained(s) == 0
    ensures Books(s')
  {
    hide Balanced, Shape;
    var w := Waiting(s);
    assert s.overflow[0..] == [s.overflow[0]] + s'.overflow[0..];
    assert Waiting(s') == w;
  }

  lemma ManagerStartBooks(s: State, s': State)
    requires Shape(s) && Books(s) && ManagerStep(s, s') && Shape(s') && s.manager.MSpawn? && Drained(s) == 0
    ensures Books(s')
  {
    hide Balanced, Shape;
    var w := Waiting(s);
    Spawn(s.n, w, s.places, s.log, Dropped(s), s.manager.job);
    assert Waiting(s') == w - multiset{s.manager.job};
  }

  lemma TaskKeepsBooks(s: State, s': State, i: nat)
    requires Shape(s) && Books(s) && i < |s.tasks| && TaskStep(s, s', i) && Shape(s')
    ensures Books(s')
  {
    hide Balanced;
    if s.tasks[i] == Working {
      if s.places[i].Running? {
        RunJob(s.n, Waiting(s), s.places, s.log, Dropped(s), i);
      } else {
        CleanJob(s.n, Waiting(s), s.places, s.log, Dropped(s), i);
      }
    }
  }

  ghost predicate Inv(s: State) { CounterInv(s) && Shape(s) && Books(s) }

  lemma NextKeepsInv(s: State, s': State, who: Agent)
    requires Inv(s) && Next(s, s', who)
    ensures Inv(s')
  {
    NextKeepsCounter(s, s', who);
    hide ProducerStep, ManagerStep, TaskStep, CounterInv, Shape, Books;
    match who {
      case Producer =>
        ProducerKeepsShape(s, s');
        ProducerKeepsBooks(s, s');
      case Manager =>
        ManagerKeepsShape(s, s');
        ManagerKeepsBooks(s, s');
      case Task(i) =>
        TaskKeepsShape(s, s', i);
        TaskKeepsBooks(s, s', i);
    }
  }

  lemma {:induction false} RunKeepsInv(limit: nat, states: seq<State>, who: seq<Agent>, i: nat)
    requires Run(limit, states, who) && i < |states|
    ensures Inv(states[i]) && states[i].limit == states[0].limit
  {
    if i > 0 {
      hide Next, Inv, Run, Init;
      RunStep(limit, states, who, i);
      RunKeepsInv(limit, states, who, i - 1);
      NextKeepsInv(states[i - 1], states[i], who[i - 1]);
      LimitFixed(states[i - 1], states[i], who[i - 1]);
    }
  }

  lemma RunStep(limit: nat, states: seq<State>, who: seq<Agent>, i: nat)
    requires Run(limit, states, who) && 0 < i < |states|
    ensures |states| == |who| + 1 && Next(states[i - 1], states[i], who[i - 1])
  {
    hide Next, Init;
    var k := i - 1;
    assert Next(states[k], states[k + 1], who[k]);
  }

  lemma LimitFixed(s: State, s': State, who: Agent)
    requires Next(s, s', who)
    ensures s'.limit == s.limit
  {
  }

  // ----- Main results -----

  /** The counter is the number of started and unfinished jobs, plus those just about to start, and never
      exceeds the limit by more than one. */
  lemma CounterIsExact(limit: nat, states: seq<State>, who: seq<Agent>, i: nat)
    requires Run(limit, states, who) && i < |states|
    ensures states[i].counter == Active(states[i].tasks) + Starting(states[i])
    ensures states[i].counter <= (if limit == 0 then 1 else limit) + 1
  {
    RunKeepsInv(limit, states, who, i);
  }

  /** The limit is kept up to a state if and only if producer and manager were never both between check and
      increment for the last free place. */
  lemma {:induction false} WithinExactly(limit: nat, states: seq<State>, who: seq<Agent>, i: nat)
    requires Run(limit, states, who) && i < |states|
    ensures (forall k :: 0 <= k <= i ==> Within(states[k])) <==> (forall k :: 0 <= k <= i ==> !Critical(states[k]))
  {
    hide Next, Inv, Run, Init, CounterInv;
    if i == 0 {
      StartsWithin(limit, states, who);
    } else {
      WithinExactly(limit, states, who, i - 1);
      RunStep(limit, states, who, i);
      RunKeepsInv(limit, states, who, i - 1);
      InvCounts(states[i - 1]);
      NextKeepsCounter(states[i - 1], states[i], who[i - 1]);
    }
  }

  lemma StartsWithin(limit: nat, states: seq<State>, who: seq<Agent>)
    requires Run(limit, states, who)
    ensures Within(states[0]) && !Critical(states[0])
  {
  }

  /** In particular it is kept as long as producer and manager are never between check and increment at the
      same time. */
  lemma LimitWithoutOverlap(limit: nat, states: seq<State>, who: seq<Agent>, i: nat)
    requires Run(limit, states, who) && i < |states|
    requires forall k :: 0 <= k <= i ==> !(ProducerCommitted(states[k]) && ManagerCommitted(states[k]))
    ensures states[i].counter + Committed(states[i]) <= states[i].limit
  {
    hide Run, ProducerCommitted, ManagerCommitted, Committed;
    WithinExactly(limit, states, who, i);
    assert Within(states[i]);
  }

  lemma InvCounts(s: State)
    requires Inv(s)
    ensures CounterInv(s)
  {
    hide Books, Shape, CounterInv;
  }

  /** In every reachable state each accepted job waits, is held by one thread, or is cleaned up; the jobs a
      thread is about to clean or has cleaned have run, exactly once and before the cleanup. */
  lemma EveryJobAccounted(limit: nat, states: seq<State>, who: seq<Agent>, i: nat, j: Job)
    requires Run(limit, states, who) && i < |states|
    ensures var s := states[i];
      && Drained(s) <= |s.overflow|
      && Waiting(s)[j] + Held(s.places)[j] + CleanedBag(s.log)[j] == (if j < s.n then 1 else 0)
      && RanBag(s.log)[j] + Dropped(s)[j] == HeldCleaning(s.places)[j] + CleanedBag(s.log)[j] <= 1
      && RunsFirst(s.log)
      && (j !in Dropped(s) ==>
            forall b :: 0 <= b < |s.log| && s.log[b] == Cleaned(j) ==> exists a :: 0 <= a < b && s.log[a] == Ran(j))
  {
    RunKeepsInv(limit, states, who, i);
    if j !in Dropped(states[i]) {
      RanBefore(states[i].n, Waiting(states[i]), states[i].places, states[i].log, Dropped(states[i]), j);
    }
    ExactlyOnePlace(states[i].n, Waiting(states[i]), states[i].places, states[i].log, Dropped(states[i]), j);
  }

  /** When the destructor returns, every accepted job was cleaned up exactly once, and every job that was not
      still in the overflow list has run. */
  lemma DestroyedCleansAll(limit: nat, states: seq<State>, who: seq<Agent>, i: nat)
    requires Run(limit, states, who) && i < |states| && states[i].producer == PDone
    ensures CleanedBag(states[i].log) == All(states[i].n)
    ensures RanBag(states[i].log) + multiset(states[i].overflow) == All(states[i].n)
  {
    RunKeepsInv(limit, states, who, i);
    var s := states[i];
    assert s.overflow[|s.overflow|..] == [] && Waiting(s) == multiset{};
    assert s.overflow[..|s.overflow|] == s.overflow;
    forall k | 0 <= k < |s.places| ensures s.places[k] == Empty { ActiveZero(s.tasks, k); }
    HeldNothing(s.places);
  }

  // ----- The bound is attained -----

  ghost predicate Reachable(limit: nat, s: State) {
    exists states: seq<State>, who: seq<Agent> :: Run(limit, states, who) && states[|states| - 1] == s
  }

  lemma Advance(limit: nat, s: State, s': State, who: Agent)
    requires Reachable(limit, s) && Next(s, s', who)
    ensures Reachable(limit, s')
  {
    hide Next, Init;
    var states: seq<State>, agents: seq<Agent> :| Run(limit, states, agents) && states[|states| - 1] == s;
    var states', agents' := states + [s'], agents + [who];
    forall i | 0 <= i < |agents'| ensures Next(states'[i], states'[i + 1], agents'[i]) {
      if i < |agents| { assert Next(states[i], states[i + 1], agents[i]); }
    }
    assert Run(limit, states', agents') && states'[|states'| - 1] == s';
  }

  lemma StartReachable(limit: nat, s: State)
    requires Init(s, limit)
    ensures Reachable(limit, s)
  {
    assert Run(limit, [s], []) && [s][|[s]| - 1] == s;
  }

  /** From every critical state the counter can go on to exceed the limit. */
  lemma CriticalCanExceed(limit: nat, s: State) returns (t: State)
    requires Reachable(limit, s) && Critical(s)
    ensures Reachable(limit, t) && t.counter == t.limit + 1 && t.limit == s.limit
  {
    hide Reachable;
    t := s;
    if t.manager.MPop? {
      PoppingFindsOne(limit, t);
      t := t.(manager := MInc(t.overflow[0]), overflow := t.overflow[1..]);
      Advance(limit, s, t, Manager);
    }
    var u := t.(producer := PSpawn(t.producer.job), counter := t.counter + 1);
    Advance(limit, t, u, Producer);
    t := u.(manager := MSpawn(u.manager.job), counter := u.counter + 1);
    Advance(limit, u, t, Manager);
  }

  /** Nobody empties the overflow list under a manager about to pop. */
  lemma PoppingFindsOne(limit: nat, s: State)
    requires Reachable(limit, s) && s.manager.MPop?
    ensures s.overflow != []
  {
    var states: seq<State>, agents: seq<Agent> :| Run(limit, states, agents) && states[|states| - 1] == s;
    QueueStays(limit, states, agents, |states| - 1);
  }

  lemma {:induction false} QueueStays(limit: nat, states: seq<State>, who: seq<Agent>, i: nat)
    requires Run(limit, states, who) && i < |states|
    ensures states[i].manager.MPop? ==> states[i].overflow != []
  {
    if i > 0 {
      hide Run;
      RunStep(limit, states, who, i);
      QueueStays(limit, states, who, i - 1);
    }
  }

  function Workers(k: nat): seq<TaskPc> { seq(k, _ => Working) }

  function FirstJobs(k: nat): seq<Place> { seq(k, i requires 0 <= i < k => Running(i)) }

  /** For every limit there is a run in which both agents pass the check before either increments, and the
      counter exceeds the limit. */
  lemma LimitCanBeExceeded(limit: nat) returns (s: State)
    ensures Reachable(limit, s) && s.limit == (if limit == 0 then 1 else limit) && s.counter == s.limit + 1
  {
    hide Reachable, Run;
    var top := if limit == 0 then 1 else limit;
    s := FullHouse(limit, top);
    s := OneMoreQueues(limit, s, top);
    s := FirstJobFinishes(limit, s, top);
    s := BothPass(limit, s, top);
    s := CriticalCanExceed(limit, s);
  }

  /** The first k jobs are started, one after the other. */
  lemma {:induction false} FullHouse(limit: nat, k: nat) returns (s: State)
    requires k <= if limit == 0 then 1 else limit
    ensures Reachable(limit, s)
    ensures var top := if limit == 0 then 1 else limit;
      s == State(k, top, k, [], Workers(k), FirstJobs(k), false, None, MStart, PIdle, [])
  {
    hide Reachable, Run;
    if k == 0 {
      s := State(0, if limit == 0 then 1 else limit, 0, [], [], [], false, None, MStart, PIdle, []);
      StartReachable(limit, s);
    } else {
      s := FullHouse(limit, k - 1);
      var t := s.(producer := PCheck(k - 1), n := k);
      Advance(limit, s, t, Producer);
      s, t := t, t.(producer := PInc(k - 1));
      Advance(limit, s, t, Producer);
      s, t := t, t.(producer := PSpawn(k - 1), counter := k);
      Advance(limit, s, t, Producer);
      assert Workers(k) == Workers(k - 1) + [Working] && FirstJobs(k) == FirstJobs(k - 1) + [Running(k - 1)];
      s, t := t, t.(producer := PIdle, tasks := Workers(k), places := FirstJobs(k));
      Advance(limit, s, t, Producer);
      s := t;
    }
  }

  /** The next job finds the house full and is queued. */
  lemma OneMoreQueues(limit: nat, s0: State, top: nat) returns (s: State)
    requires Reachable(limit, s0)
    requires s0 == State(top, top, top, [], Workers(top), FirstJobs(top), false, None, MStart, PIdle, [])
    ensures Reachable(limit, s) && s == s0.(n := top + 1, overflow := [top])
  {
    hide Reachable, Run, Workers, FirstJobs;
    s := s0;
    var t := s.(producer := PCheck(top), n := top + 1);
    Advance(limit, s, t, Producer);
    s, t := t, t.(producer := PLock(top));
    Advance(limit, s, t, Producer);
    s, t := t, t.(producer := PPush(top), holder := Some(Producer));
    Advance(limit, s, t, Producer);
    s, t := t, t.(producer := PIdle, holder := None, overflow := [top]);
    Advance(limit, s, t, Producer);
    s := t;
  }

  /** Job 0 finishes and its thread leaves. */
  lemma FirstJobFinishes(limit: nat, s0: State, top: nat) returns (s: State)
    requires Reachable(limit, s0) && top > 0 && s0.counter == top && s0.log == []
    requires s0.tasks == Workers(top) && s0.places == FirstJobs(top)
    ensures Reachable(limit, s)
    ensures s == s0.(counter := top - 1, tasks := s.tasks, places := s.places, log := s.log)
  {
    hide Reachable, Run;
    s := s0;
    var t := s.(places := s.places[0 := Cleaning(0)], log := [Ran(0)]);
    Advance(limit, s, t, Task(0));
    s, t := t, t.(tasks := t.tasks[0 := Leaving], places := t.places[0 := Empty], log := [Ran(0), Cleaned(0)]);
    Advance(limit, s, t, Task(0));
    s, t := t, t.(tasks := t.tasks[0 := Gone], counter := top - 1);
    Advance(limit, s, t, Task(0));
    s := t;
  }

  /** Manager and producer both pass the check for the free place. */
  lemma BothPass(limit: nat, s0: State, top: nat) returns (s: State)
    requires Reachable(limit, s0) && top > 0 && s0.counter == top - 1 && s0.limit == top
    requires s0.overflow != [] && !s0.stop && s0.holder == None && s0.manager == MStart && s0.producer == PIdle
    ensures Reachable(limit, s) && Critical(s) && s.limit == top
  {
    hide Reachable, Run;
    s := s0;
    var t := s.(manager := MTest, holder := Some(Manager));
    Advance(limit, s, t, Manager);
    s, t := t, t.(manager := MCheck);
    Advance(limit, s, t, Manager);
    s, t := t, t.(manager := MPop);
    Advance(limit, s, t, Manager);
    s, t := t, t.(producer := PCheck(t.n), n := t.n + 1);
    Advance(limit, s, t, Producer);
    s, t := t, t.(producer := PInc(t.producer.job));
    Advance(limit, s, t, Producer);
    s := t;
  }
}
