/** Exactly-once accounting of submitted jobs, shared by the two thread classes. Jobs are numbered in
    order of submission. */
module Jobs {
  type Job = nat

  /** What is done to a job's user data. */
  datatype JobEvent = Ran(job: Job) | Cleaned(job: Job)

  /** Where a thread stands with the job it took. */
  datatype Place = Empty | Running(job: Job) | Cleaning(job: Job)

  /** The jobs 0, ..., n - 1, each once. */
  ghost function All(n: nat): multiset<Job> {
    if n == 0 then multiset{} else All(n - 1) + multiset{n - 1}
  }

  lemma {:induction false} AllCounts(n: nat, j: Job)
    ensures All(n)[j] == if j < n then 1 else 0
  {
    if n > 0 { AllCounts(n - 1, j); }
  }

  ghost function CleanedBag(log: seq<JobEvent>): multiset<Job> {
    if log == [] then multiset{}
    else CleanedBag(log[..|log| - 1]) + (if log[|log| - 1].Cleaned? then multiset{log[|log| - 1].job} else multiset{})
  }

  ghost function RanBag(log: seq<JobEvent>): multiset<Job> {
    if log == [] then multiset{}
    else RanBag(log[..|log| - 1]) + (if log[|log| - 1].Ran? then multiset{log[|log| - 1].job} else multiset{})
  }

  ghost function PlaceBag(p: Place): multiset<Job> { if p.Empty? then multiset{} else multiset{p.job} }

  ghost function CleaningBag(p: Place): multiset<Job> { if p.Cleaning? then multiset{p.job} else multiset{} }

  ghost function Held(ps: seq<Place>): multiset<Job> {
    if ps == [] then multiset{} else Held(ps[..|ps| - 1]) + PlaceBag(ps[|ps| - 1])
  }

  ghost function HeldCleaning(ps: seq<Place>): multiset<Job> {
    if ps == [] then multiset{} else HeldCleaning(ps[..|ps| - 1]) + CleaningBag(ps[|ps| - 1])
  }

  lemma BagsPush(log: seq<JobEvent>, e: JobEvent)
    ensures CleanedBag(log + [e]) == CleanedBag(log) + (if e.Cleaned? then multiset{e.job} else multiset{})
    ensures RanBag(log + [e]) == RanBag(log) + (if e.Ran? then multiset{e.job} else multiset{})
  {
    assert (log + [e])[..|log|] == log;
  }

  lemma HeldPush(ps: seq<Place>)
    ensures Held(ps + [Empty]) == Held(ps) && HeldCleaning(ps + [Empty]) == HeldCleaning(ps)
  {
    assert (ps + [Empty])[..|ps|] == ps;
  }

  lemma HeldLast(ps: seq<Place>)
    requires ps != []
    ensures Held(ps) == Held(ps[..|ps| - 1]) + PlaceBag(ps[|ps| - 1])
    ensures HeldCleaning(ps) == HeldCleaning(ps[..|ps| - 1]) + CleaningBag(ps[|ps| - 1])
  {
    hide PlaceBag, CleaningBag;
  }

  /** What the other threads hold, whatever happens to thread i. */
  lemma {:induction false} HeldUpdate(ps: seq<Place>, i: nat, p: Place)
    returns (rest: multiset<Job>, cleaning: multiset<Job>)
    requires i < |ps|
    ensures Held(ps) == rest + PlaceBag(ps[i]) && Held(ps[i := p]) == rest + PlaceBag(p)
    ensures HeldCleaning(ps) == cleaning + CleaningBag(ps[i])
    ensures HeldCleaning(ps[i := p]) == cleaning + CleaningBag(p)
  {
    hide PlaceBag, CleaningBag, Held, HeldCleaning;
    var last := |ps| - 1;
    HeldLast(ps);
    HeldLast(ps[i := p]);
    if i == last {
      assert ps[i := p][..last] == ps[..last];
      rest, cleaning := Held(ps[..last]), HeldCleaning(ps[..last]);
    } else {
      var r, c := HeldUpdate(ps[..last], i, p);
      assert ps[i := p][..last] == ps[..last][i := p];
      rest, cleaning := r + PlaceBag(ps[last]), c + CleaningBag(ps[last]);
    }
  }

  lemma {:induction false} HeldNothing(ps: seq<Place>)
    requires forall i :: 0 <= i < |ps| ==> ps[i] == Empty
    ensures Held(ps) == multiset{} && HeldCleaning(ps) == multiset{}
  {
    if ps != [] { HeldNothing(ps[..|ps| - 1]); }
  }

  lemma {:induction false} CleaningIsHeld(ps: seq<Place>)
    ensures HeldCleaning(ps) <= Held(ps)
  {
    if ps != [] { CleaningIsHeld(ps[..|ps| - 1]); }
  }

  /** No job's function runs after its cleanup, and none runs twice. */
  ghost predicate RunsFirst(log: seq<JobEvent>) {
    && (forall a, b :: 0 <= a < b < |log| && log[b].Ran? ==> log[a] != Cleaned(log[b].job))
    && (forall a, b :: 0 <= a < b < |log| && log[b].Ran? ==> log[a] != log[b])
  }

  /** The books: every submitted job is waiting, held by one thread, or cleaned, exactly once; the jobs
      cleaned or about to be are those that have run and those that were dropped without running. */
  ghost predicate Balanced(
    n: nat, waiting: multiset<Job>, ps: seq<Place>, log: seq<JobEvent>, dropped: multiset<Job>) {
    && waiting + Held(ps) + CleanedBag(log) == All(n)
    && RanBag(log) + dropped == HeldCleaning(ps) + CleanedBag(log)
    && RunsFirst(log)
  }

  lemma {:induction false} InRanBag(log: seq<JobEvent>, a: nat)
    requires a < |log| && log[a].Ran?
    ensures log[a].job in RanBag(log)
  {
    if a < |log| - 1 { InRanBag(log[..|log| - 1], a); }
  }

  lemma {:induction false} InCleanedBag(log: seq<JobEvent>, a: nat)
    requires a < |log| && log[a].Cleaned?
    ensures log[a].job in CleanedBag(log)
  {
    if a < |log| - 1 { InCleanedBag(log[..|log| - 1], a); }
  }

  /** A new job waits. */
  lemma Submit(
    n: nat, waiting: multiset<Job>, ps: seq<Place>, log: seq<JobEvent>, dropped: multiset<Job>)
    requires Balanced(n, waiting, ps, log, dropped)
    ensures Balanced(n + 1, waiting + multiset{n}, ps, log, dropped)
  {
  }

  /** A thread takes a waiting job. */
  lemma Take(
    n: nat, waiting: multiset<Job>, ps: seq<Place>, log: seq<JobEvent>, dropped: multiset<Job>, i: nat, j: Job)
    requires Balanced(n, waiting, ps, log, dropped) && i < |ps| && ps[i] == Empty && j in waiting
    ensures Balanced(n, waiting - multiset{j}, ps[i := Running(j)], log, dropped)
  {
    hide All, CleanedBag, RanBag, Held, HeldCleaning, RunsFirst;
    var rest, cleaning := HeldUpdate(ps, i, Running(j));
    assert waiting == (waiting - multiset{j}) + multiset{j};
  }

  lemma SpawnEmpty(
    n: nat, waiting: multiset<Job>, ps: seq<Place>, log: seq<JobEvent>, dropped: multiset<Job>)
    requires Balanced(n, waiting, ps, log, dropped)
    ensures Balanced(n, waiting, ps + [Empty], log, dropped)
  {
    HeldPush(ps);
  }

  /** A new thread starts with a waiting job. */
  lemma Spawn(
    n: nat, waiting: multiset<Job>, ps: seq<Place>, log: seq<JobEvent>, dropped: multiset<Job>, j: Job)
    requires Balanced(n, waiting, ps, log, dropped) && j in waiting
    ensures Balanced(n, waiting - multiset{j}, ps + [Running(j)], log, dropped)
  {
    hide Balanced;
    SpawnEmpty(n, waiting, ps, log, dropped);
    Take(n, waiting, ps + [Empty], log, dropped, |ps|, j);
    assert (ps + [Empty])[|ps| := Running(j)] == ps + [Running(j)];
  }

  /** A thread runs its job. */
  lemma RunJob(
    n: nat, waiting: multiset<Job>, ps: seq<Place>, log: seq<JobEvent>, dropped: multiset<Job>, i: nat)
    requires Balanced(n, waiting, ps, log, dropped) && i < |ps| && ps[i].Running?
    ensures Balanced(n, waiting, ps[i := Cleaning(ps[i].job)], log + [Ran(ps[i].job)], dropped)
  {
    hide All, CleanedBag, RanBag, Held, HeldCleaning;
    var j, ps' := ps[i].job, ps[i := Cleaning(ps[i].job)];
    var rest, cleaning := HeldUpdate(ps, i, Cleaning(j));
    BagsPush(log, Ran(j));
    AllCounts(n, j);
    CleaningIsHeld(ps');
    CountsAt(n, waiting, ps, log, dropped, j);
    assert Held(ps') == Held(ps);
    assert HeldCleaning(ps') == HeldCleaning(ps) + multiset{j};
    assert RanBag(log)[j] == 0 && CleanedBag(log)[j] == 0;
    AddToBoth(RanBag(log), dropped, HeldCleaning(ps), CleanedBag(log), j);
    forall a | 0 <= a < |log| ensures log[a] != Ran(j) && log[a] != Cleaned(j) {
      if log[a].Ran? { InRanBag(log, a); } else { InCleanedBag(log, a); }
    }
  }

  /** A thread cleans its job up. */
  lemma CleanJob(
    n: nat, waiting: multiset<Job>, ps: seq<Place>, log: seq<JobEvent>, dropped: multiset<Job>, i: nat)
    requires Balanced(n, waiting, ps, log, dropped) && i < |ps| && ps[i].Cleaning?
    ensures Balanced(n, waiting, ps[i := Empty], log + [Cleaned(ps[i].job)], dropped)
  {
    hide All, CleanedBag, RanBag, Held, HeldCleaning;
    var rest, cleaning := HeldUpdate(ps, i, Empty);
    var j, ps', log' := ps[i].job, ps[i := Empty], log + [Cleaned(ps[i].job)];
    BagsPush(log, Cleaned(j));
    assert Held(ps') + CleanedBag(log') == Held(ps) + CleanedBag(log);
    assert HeldCleaning(ps') + CleanedBag(log') == HeldCleaning(ps) + CleanedBag(log);
    assert waiting + Held(ps') + CleanedBag(log') == waiting + (Held(ps') + CleanedBag(log'));
    assert waiting + Held(ps) + CleanedBag(log) == waiting + (Held(ps) + CleanedBag(log));
  }

  /** A waiting job is cleaned up without having run. */
  lemma Discard(
    n: nat, waiting: multiset<Job>, ps: seq<Place>, log: seq<JobEvent>, dropped: multiset<Job>, j: Job)
    requires Balanced(n, waiting, ps, log, dropped) && j in waiting
    ensures Balanced(n, waiting - multiset{j}, ps, log + [Cleaned(j)], dropped + multiset{j})
  {
    hide All, CleanedBag, RanBag, Held, HeldCleaning;
    BagsPush(log, Cleaned(j));
    var log' := log + [Cleaned(j)];
    assert waiting == (waiting - multiset{j}) + multiset{j};
    assert RanBag(log') + (dropped + multiset{j}) == RanBag(log) + dropped + multiset{j};
    assert HeldCleaning(ps) + CleanedBag(log') == HeldCleaning(ps) + CleanedBag(log) + multiset{j};
  }

  lemma AddToBoth(a: multiset<Job>, b: multiset<Job>, c: multiset<Job>, d: multiset<Job>, j: Job)
    requires a + b == c + d
    ensures a + multiset{j} + b == c + multiset{j} + d
  {
    assert a + multiset{j} + b == a + b + multiset{j};
  }

  /** The two equations of the books, for one job. */
  lemma CountsAt(
    n: nat, waiting: multiset<Job>, ps: seq<Place>, log: seq<JobEvent>, dropped: multiset<Job>, j: Job)
    requires Balanced(n, waiting, ps, log, dropped)
    ensures waiting[j] + Held(ps)[j] + CleanedBag(log)[j] == All(n)[j]
    ensures RanBag(log)[j] + dropped[j] == HeldCleaning(ps)[j] + CleanedBag(log)[j]
    ensures HeldCleaning(ps)[j] <= Held(ps)[j]
  {
    hide All, CleanedBag, RanBag, Held, HeldCleaning;
    CleaningIsHeld(ps);
    assert (waiting + Held(ps) + CleanedBag(log))[j] == All(n)[j];
    assert (RanBag(log) + dropped)[j] == (HeldCleaning(ps) + CleanedBag(log))[j];
  }

  /** A job is never in two places, and never lost; it has run exactly if it is about to be cleaned or cleaned,
      unless it was dropped. */
  lemma ExactlyOnePlace(
    n: nat, waiting: multiset<Job>, ps: seq<Place>, log: seq<JobEvent>, dropped: multiset<Job>, j: Job)
    requires Balanced(n, waiting, ps, log, dropped)
    ensures waiting[j] + Held(ps)[j] + CleanedBag(log)[j] == if j < n then 1 else 0
    ensures RanBag(log)[j] + dropped[j] == HeldCleaning(ps)[j] + CleanedBag(log)[j] <= 1
  {
    hide All, CleanedBag, RanBag, Held, HeldCleaning;
    AllCounts(n, j);
    CountsAt(n, waiting, ps, log, dropped, j);
  }

  /** A job that a thread is about to clean, or has cleaned, has run before. */
  lemma RanBefore(
    n: nat, waiting: multiset<Job>, ps: seq<Place>, log: seq<JobEvent>, dropped: multiset<Job>, j: Job)
    requires Balanced(n, waiting, ps, log, dropped) && j !in dropped
    ensures j in HeldCleaning(ps) ==> Ran(j) in log
    ensures forall b :: 0 <= b < |log| && log[b] == Cleaned(j) ==> exists a :: 0 <= a < b && log[a] == Ran(j)
  {
    hide All, Held, HeldCleaning, RanBag, CleanedBag;
    ExactlyOnePlace(n, waiting, ps, log, dropped, j);
    if RanBag(log)[j] > 0 {
      var a := RanAt(log, j);
      assert forall b :: 0 <= b < |log| && log[b] == Cleaned(j) ==> a < b;
    }
    forall b | 0 <= b < |log| && log[b] == Cleaned(j) ensures exists a :: 0 <= a < b && log[a] == Ran(j) {
      InCleanedBag(log, b);
    }
  }

  /** When nothing waits, is held or was dropped, every job has run and was cleaned up. */
  lemma NothingLeft(n: nat, ps: seq<Place>, log: seq<JobEvent>)
    requires Balanced(n, multiset{}, ps, log, multiset{}) && forall i :: 0 <= i < |ps| ==> ps[i] == Empty
    ensures RanBag(log) == CleanedBag(log) == All(n)
  {
    HeldNothing(ps);
    assert RanBag(log) == RanBag(log) + multiset{} == multiset{} + CleanedBag(log) == CleanedBag(log);
  }

  lemma {:induction false} RanAt(log: seq<JobEvent>, j: Job) returns (a: nat)
    requires j in RanBag(log)
    ensures a < |log| && log[a] == Ran(j)
  {
    var last := |log| - 1;
    if log[last] == Ran(j) {
      a := last;
    } else {
      a := RanAt(log[..last], j);
    }
  }
}
