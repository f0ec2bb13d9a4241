/** What holds under every interleaving of the daemon's goroutines, its API
    handlers and the command-line pulls. */
module QueueSafety {
  import opened Text
  import opened Queue

  // ---- Each part of the invariant survives each step ----

  lemma SemKept(s: System, a: Step)
    requires SemOk(s) && SectionOk(s) && SpawnOk(s) && Enabled(s, a)
    ensures SemOk(Apply(s, a))
  {}

  lemma SectionKept(s: System, a: Step)
    requires SectionOk(s) && OrderOk(s) && SpawnOk(s) && Enabled(s, a)
    ensures SectionOk(Apply(s, a))
  {
    if Adds(a) {
      SectionAdding(s, a);
    } else if Marks(a) {
      SectionMarking(s, a);
    } else if Finishes(a) {
      SectionFinishing(s, a);
    } else {
      SectionAside(s, a);
    }
  }

  /** The steps by the goroutine's task they belong to. */
  predicate Adds(a: Step) {
    a.LockToEnqueue? || a.AddJob? || a.AddOrder? || a.UnlockAndSpawn?
  }

  predicate Marks(a: Step) {
    a.Admit? || a.LockToMark? || a.SetRunning? || a.UnlockMarked? || a.PullReturns?
  }

  predicate Finishes(a: Step) {
    || a.LockToFinish? || a.SetOutcome? || a.LockStats? || a.CountOutcome? || a.UnlockStats? || a.UnlockFinished?
    || a.Release?
  }

  lemma SectionAdding(s: System, a: Step)
    requires SectionOk(s) && OrderOk(s) && SpawnOk(s) && Adds(a) && Enabled(s, a)
    ensures SectionOk(Apply(s, a))
  {}

  lemma SectionMarking(s: System, a: Step)
    requires SectionOk(s) && SpawnOk(s) && Marks(a) && Enabled(s, a)
    ensures SectionOk(Apply(s, a))
  {}

  lemma SectionFinishing(s: System, a: Step)
    requires SectionOk(s) && SpawnOk(s) && Finishes(a) && Enabled(s, a)
    ensures SectionOk(Apply(s, a))
  {}

  lemma SectionAside(s: System, a: Step)
    requires SectionOk(s) && !Adds(a) && !Marks(a) && !Finishes(a) && Enabled(s, a)
    ensures SectionOk(Apply(s, a))
  {}

  lemma OrderKept(s: System, a: Step)
    requires SectionOk(s) && OrderOk(s) && Enabled(s, a)
    ensures OrderOk(Apply(s, a))
  {
    var t := Apply(s, a);
    if a.AddOrder? {
      var id := s.mu.value.id;
      assert t.book.order == s.book.order + [id];
    }
  }

  lemma SpawnKept(s: System, a: Step)
    requires SectionOk(s) && SpawnOk(s) && Enabled(s, a)
    ensures SpawnOk(Apply(s, a))
  {
    var t := Apply(s, a);
    if !Adds(a) {
      assert t.book.jobs.Keys == s.book.jobs.Keys && t.pcs.Keys == s.pcs.Keys;
    }
  }

  lemma StatusAdding(s: System, a: Step, id: Bytes)
    requires SectionOk(s) && SpawnOk(s) && Adds(a) && Enabled(s, a) && id in Apply(s, a).book.jobs
    requires id in s.book.jobs ==> StatusFits(s, id)
    ensures StatusFits(Apply(s, a), id)
  {}

  lemma StatusMarking(s: System, a: Step, id: Bytes)
    requires SectionOk(s) && Marks(a) && Enabled(s, a) && id in s.book.jobs && StatusFits(s, id)
    ensures StatusFits(Apply(s, a), id)
  {}

  lemma StatusFinishing(s: System, a: Step, id: Bytes)
    requires SectionOk(s) && Finishes(a) && Enabled(s, a) && id in s.book.jobs && StatusFits(s, id)
    ensures StatusFits(Apply(s, a), id)
  {}

  lemma StatusAside(s: System, a: Step, id: Bytes)
    requires !Adds(a) && !Marks(a) && !Finishes(a) && Enabled(s, a) && id in s.book.jobs && StatusFits(s, id)
    ensures StatusFits(Apply(s, a), id)
  {}

  lemma StatusKeptFor(s: System, a: Step, id: Bytes)
    requires SectionOk(s) && SpawnOk(s) && Enabled(s, a) && id in Apply(s, a).book.jobs
    requires id in s.book.jobs ==> StatusFits(s, id)
    ensures StatusFits(Apply(s, a), id)
  {
    if Adds(a) {
      StatusAdding(s, a, id);
    } else if Marks(a) {
      StatusMarking(s, a, id);
    } else if Finishes(a) {
      StatusFinishing(s, a, id);
    } else {
      StatusAside(s, a, id);
    }
  }

  lemma StatusKept(s: System, a: Step)
    requires Inv(s) && Enabled(s, a)
    ensures StatusOk(Apply(s, a))
  {
    forall id | id in Apply(s, a).book.jobs
      ensures StatusFits(Apply(s, a), id)
    {
      StatusKeptFor(s, a, id);
    }
  }

  lemma LockKept(s: System, a: Step)
    requires LockOk(s) && Enabled(s, a)
    ensures LockOk(Apply(s, a))
  {}

  /** Changing one job moves it from one set to another. */
  lemma HavingMoves(jobs: map<Bytes, Job>, after: map<Bytes, Job>, id: Bytes, status: Status)
    requires id in jobs && id in after && after == jobs[id := after[id]]
    ensures |Having(after, status)| ==
      |Having(jobs, status)| - (if jobs[id].status == status then 1 else 0)
        + (if after[id].status == status then 1 else 0)
  {
    var (x, y) := (Having(jobs, status), Having(after, status));
    forall other | other != id
      ensures other in x <==> other in y
    {
      assert other in jobs ==> after[other] == jobs[other];
    }
    assert x - {id} == y - {id};
    SizeWithout(x, id);
    SizeWithout(y, id);
  }

  lemma SizeWithout(x: set<Bytes>, id: Bytes)
    ensures |x| == |x - {id}| + if id in x then 1 else 0
  {
    assert id !in x ==> x - {id} == x;
    assert id in x ==> x == (x - {id}) + {id};
  }

  /** A status that is set moves the job, and an outcome leaves its count pending. */
  lemma StatusSetCounts(s: System, id: Bytes, to: Status, status: Status)
    requires id in s.book.jobs && s.book.jobs[id].status != status
    ensures |Having(WithStatus(s.book, id, to).jobs, status)|
         == |Having(s.book.jobs, status)| + if to == status then 1 else 0
  {
    HavingMoves(s.book.jobs, WithStatus(s.book, id, to).jobs, id, status);
  }

  lemma CounterKept(s: System, a: Step, status: Status)
    requires SectionOk(s) && StatusOk(s) && Enabled(s, a)
    requires (status == Succeeded || status == Failed) && CounterFits(s, status)
    ensures CounterFits(Apply(s, a), status)
  {
    if a.SetRunning? || a.SetOutcome? {
      CounterSet(s, a, status);
    } else if a.AddJob? {
      assert Having(Apply(s, a).book.jobs, status) == Having(s.book.jobs, status);
    } else {
      CounterAside(s, a, status);
    }
  }

  lemma CounterSet(s: System, a: Step, status: Status)
    requires SectionOk(s) && StatusOk(s) && (a.SetRunning? || a.SetOutcome?) && Enabled(s, a)
    requires (status == Succeeded || status == Failed) && CounterFits(s, status)
    ensures CounterFits(Apply(s, a), status)
  {
    var id := s.mu.value.id;
    assert StatusFits(s, id);
    StatusSetCounts(s, id, if a.SetRunning? then Running else OutcomeOf(s.mu.value.ok), status);
  }

  lemma CounterAside(s: System, a: Step, status: Status)
    requires !a.SetRunning? && !a.SetOutcome? && !a.AddJob? && Enabled(s, a)
    requires CounterFits(s, status)
    ensures CounterFits(Apply(s, a), status)
  {}

  lemma CountersKept(s: System, a: Step)
    requires Inv(s) && Enabled(s, a)
    ensures CountersOk(Apply(s, a))
  {
    CounterKept(s, a, Succeeded);
    CounterKept(s, a, Failed);
  }

  lemma StatsKept(s: System, a: Step)
    requires SectionOk(s) && StatusOk(s) && StatsOk(s) && Enabled(s, a)
    ensures StatsOk(Apply(s, a))
  {
    if a.CountOutcome? {
      assert StatusFits(s, s.mu.value.id);
    }
  }

  lemma StepKeeps(s: System, a: Step)
    requires Inv(s) && Enabled(s, a)
    ensures Inv(Apply(s, a))
  {
    SemKept(s, a);
    SectionKept(s, a);
    OrderKept(s, a);
    SpawnKept(s, a);
    StatusKept(s, a);
    CountersKept(s, a);
    StatsKept(s, a);
    LockKept(s, a);
  }

  lemma {:induction false} ExecutionKeeps(s: System, steps: seq<Step>)
    requires Inv(s) && Execution(s, steps)
    ensures Inv(After(s, steps))
    decreases |steps|
  {
    if steps != [] {
      StepKeeps(s, steps[0]);
      ExecutionKeeps(Apply(s, steps[0]), steps[1..]);
    }
  }

  // ---- Main results ----

  predicate IsRunning(s: System, id: Bytes) {
    id in s.book.jobs && s.book.jobs[id].status == Running
  }

  /** Under every interleaving: at most one job is running, and whenever the
      queue mutex is free the order lists every job exactly once and the
      outcome counters are the numbers of jobs with those outcomes. */
  lemma {:induction false} QueueIsSafe(steps: seq<Step>)
    requires Execution(INITIAL, steps)
    ensures var s := After(INITIAL, steps);
      && (forall i, j :: IsRunning(s, i) && IsRunning(s, j) ==> i == j)
      && Distinct(s.book.order)
      && (s.mu.None? ==>
            && (forall id :: id in s.book.jobs <==> id in s.book.order)
            && CountedAs(s.book.stats, Succeeded) == |Having(s.book.jobs, Succeeded)|
            && CountedAs(s.book.stats, Failed) == |Having(s.book.jobs, Failed)|)
  {
    InitialInv();
    ExecutionKeeps(INITIAL, steps);
    var s := After(INITIAL, steps);
    forall i, j | IsRunning(s, i) && IsRunning(s, j)
      ensures i == j
    {
      assert StatusFits(s, i) && StatusFits(s, j);
    }
  }

  lemma InitialInv()
    ensures Inv(INITIAL)
  {
    assert Having(INITIAL.book.jobs, Succeeded) == {} && Having(INITIAL.book.jobs, Failed) == {};
  }

  /** Queued, then running, then an outcome that stays. */
  predicate Moves(before: Status, after: Status) {
    || before == after
    || before == Queued
    || (before == Running && after != Queued)
  }

  lemma StepMoves(s: System, a: Step, id: Bytes)
    requires SectionOk(s) && Enabled(s, a) && id in s.book.jobs && StatusFits(s, id)
    ensures id in Apply(s, a).book.jobs && Apply(s, a).book.jobs[id].ref == s.book.jobs[id].ref
    ensures var (before, after) := (s.book.jobs[id].status, Apply(s, a).book.jobs[id].status);
      || before == after || (before == Queued && after == Running)
      || (before == Running && (after == Succeeded || after == Failed))
  {
    if a.SetRunning? || a.SetOutcome? {
      assert id != s.mu.value.id ==> Apply(s, a).book.jobs[id] == s.book.jobs[id];
    }
  }

  /** A job is never lost, never goes back, and keeps its outcome for good. */
  lemma {:induction false} StatusesOnlyAdvance(s: System, steps: seq<Step>, id: Bytes)
    requires Inv(s) && Execution(s, steps) && id in s.book.jobs
    ensures id in After(s, steps).book.jobs
    ensures Moves(s.book.jobs[id].status, After(s, steps).book.jobs[id].status)
    decreases |steps|
  {
    if steps != [] {
      StepKeeps(s, steps[0]);
      assert StatusFits(s, id);
      StepMoves(s, steps[0], id);
      StatusesOnlyAdvance(Apply(s, steps[0]), steps[1..], id);
    }
  }

  // ---- A job's outcome is that of its pull ----

  /** What the pulls that returned so far say about this job: while its
      outcome is being set the goroutine knows it, later the job shows it. */
  predicate Recalls(s: System, past: set<Step>, id: Bytes) {
    if id in s.pcs && s.pcs[id].Pulled? then
      PullReturns(id, s.pcs[id].ok) in past && PullReturns(id, !s.pcs[id].ok) !in past
    else if id in s.pcs && id in s.book.jobs && (s.pcs[id].Releasing? || s.pcs[id].Done?) then
      var ok := s.book.jobs[id].status == Succeeded;
      PullReturns(id, ok) in past && PullReturns(id, !ok) !in past
    else PullReturns(id, true) !in past && PullReturns(id, false) !in past
  }

  lemma StepRecalls(s: System, a: Step, past: set<Step>, id: Bytes)
    requires SectionOk(s) && StatusOk(s) && SpawnOk(s) && Enabled(s, a) && Recalls(s, past, id)
    ensures Recalls(Apply(s, a), past + {a}, id)
  {
    if id in s.book.jobs {
      assert StatusFits(s, id);
    }
    if Adds(a) {
      AddingRecalls(s, a, past, id);
    } else if Marks(a) {
      MarkingRecalls(s, a, past, id);
    } else if Finishes(a) {
      FinishingRecalls(s, a, past, id);
    } else {
      AsideRecalls(s, a, past, id);
    }
  }

  lemma AddingRecalls(s: System, a: Step, past: set<Step>, id: Bytes)
    requires SectionOk(s) && SpawnOk(s) && Adds(a) && Enabled(s, a) && Recalls(s, past, id)
    ensures Recalls(Apply(s, a), past + {a}, id)
  {
    OnlyReturns(past, a, id);
  }

  lemma MarkingRecalls(s: System, a: Step, past: set<Step>, id: Bytes)
    requires SectionOk(s) && Marks(a) && Enabled(s, a) && Recalls(s, past, id)
    requires id in s.book.jobs ==> StatusFits(s, id)
    ensures Recalls(Apply(s, a), past + {a}, id)
  {
    OnlyReturns(past, a, id);
  }

  lemma FinishingRecalls(s: System, a: Step, past: set<Step>, id: Bytes)
    requires SectionOk(s) && SpawnOk(s) && Finishes(a) && Enabled(s, a) && Recalls(s, past, id)
    requires id in s.book.jobs ==> StatusFits(s, id)
    ensures Recalls(Apply(s, a), past + {a}, id)
  {
    OnlyReturns(past, a, id);
  }

  lemma AsideRecalls(s: System, a: Step, past: set<Step>, id: Bytes)
    requires !Adds(a) && !Marks(a) && !Finishes(a) && Enabled(s, a) && Recalls(s, past, id)
    ensures Recalls(Apply(s, a), past + {a}, id)
  {
    OnlyReturns(past, a, id);
  }

  lemma OnlyReturns(past: set<Step>, a: Step, id: Bytes)
    ensures forall ok :: PullReturns(id, ok) in past + {a} <==> PullReturns(id, ok) in past || a == PullReturns(id, ok)
  {}

  function Past(steps: seq<Step>): set<Step> {
    set a | a in steps
  }

  lemma {:induction false} PastFirst(steps: seq<Step>, past: set<Step>)
    requires steps != []
    ensures past + {steps[0]} + Past(steps[1..]) == past + Past(steps)
  {
    assert steps == [steps[0]] + steps[1..];
  }

  lemma {:induction false} ExecutionRecalls(s: System, steps: seq<Step>, past: set<Step>, id: Bytes)
    requires Inv(s) && Execution(s, steps) && Recalls(s, past, id)
    ensures Recalls(After(s, steps), past + Past(steps), id)
    decreases |steps|
  {
    if steps != [] {
      StepKeeps(s, steps[0]);
      StepRecalls(s, steps[0], past, id);
      ExecutionRecalls(Apply(s, steps[0]), steps[1..], past + {steps[0]}, id);
      PastFirst(steps, past);
    } else {
      assert past + Past(steps) == past;
    }
  }

  /** Under every interleaving a job has succeeded only when its pull returned
      without an error, and failed only when it returned with one; a pull that
      returned is still being recorded, or shown as what it was. */
  lemma {:induction false} OutcomesAreTrue(steps: seq<Step>, id: Bytes)
    requires Execution(INITIAL, steps) && id in After(INITIAL, steps).book.jobs
    ensures var status := After(INITIAL, steps).book.jobs[id].status;
      && (status == Succeeded ==> PullReturns(id, true) in steps && PullReturns(id, false) !in steps)
      && (status == Failed ==> PullReturns(id, false) in steps && PullReturns(id, true) !in steps)
      && (PullReturns(id, true) in steps ==> status == Running || status == Succeeded)
      && (PullReturns(id, false) in steps ==> status == Running || status == Failed)
  {
    InitialInv();
    ExecutionKeeps(INITIAL, steps);
    ExecutionRecalls(INITIAL, steps, {}, id);
    var s := After(INITIAL, steps);
    assert {} + Past(steps) == Past(steps);
    assert StatusFits(s, id);
  }

  /** One pull at work on the store: a job of the daemon, or a command. */
  datatype Puller = JobPull(id: Bytes) | CliPull(c: nat)

  predicate Active(s: System, p: Puller) {
    match p
    case JobPull(id) => At(s, id, Pulling)
    case CliPull(c) => s.lock == Cli(c)
  }

  /** While the daemon has not returned, the store lock and the semaphore
      together let at most one pull work on the store at a time. */
  lemma {:induction false} OnePullAtATime(steps: seq<Step>, p: Puller, q: Puller)
    requires Execution(INITIAL, steps) && After(INITIAL, steps).phase != Returned
    requires Active(After(INITIAL, steps), p) && Active(After(INITIAL, steps), q)
    ensures p == q
  {
    InitialInv();
    ExecutionKeeps(INITIAL, steps);
  }

  // ---- What becomes of the jobs when the daemon returns ----

  /** A job that has not finished pulling, or one about to be added. */
  predicate Unfinished(s: System) {
    || (s.mu.Some? && (s.mu.value.Enqueuing? || s.mu.value.Ordering? || s.mu.value.Enqueued?))
    || exists id :: id in s.pcs && (s.pcs[id].Spawned? || s.pcs[id].Admitted? || s.pcs[id].Pulling?)
  }

  /** Nothing holds the store lock any more. */
  predicate Abandoned(s: System) {
    Inv(s) && s.phase == Returned && s.lock == Free
  }

  /** How far the holder of the semaphore is from making some job pull. */
  function JobDistance(s: System): nat {
    if s.sem.None? || s.sem.value !in s.pcs then 2 else
      match s.pcs[s.sem.value]
      case Spawned => 2
      case Admitted => 1
      case Pulling => 0
      case Pulled(_) => 4
      case Releasing => 3
      case Done => 2
  }

  /** How far the critical section in progress is from its end, or the next one from its beginning. */
  function SectionDistance(s: System): (d: nat)
    ensures d < 25
  {
    if s.mu.None? then 20 else
      match s.mu.value
      case Enqueuing(_, _) => 24
      case Ordering(_) => 23
      case Enqueued(_) => 22
      case Reading => 21
      case Marking(_) => 9
      case Marked(_) => 8
      case Finishing(_, _) => 9
      case Counting(_) => if s.statsMu == StatsReader then 8 else 7
      case Recording(_) => 6
      case Recorded(_) => 5
      case Counted(_) => 4
  }

  function Distance(s: System): nat {
    JobDistance(s) * 25 + SectionDistance(s)
  }

  /** The next step of the critical section in progress. */
  function SectionStep(s: System): Step
    requires s.mu.Some?
  {
    match s.mu.value
    case Enqueuing(_, _) => AddJob
    case Ordering(_) => AddOrder
    case Enqueued(_) => UnlockAndSpawn
    case Marking(_) => SetRunning
    case Marked(_) => UnlockMarked
    case Finishing(_, _) => SetOutcome
    case Counting(_) => if s.statsMu == StatsReader then UnlockReadStats else LockStats
    case Recording(_) => CountOutcome
    case Recorded(_) => UnlockStats
    case Counted(_) => UnlockFinished
    case Reading => UnlockRead
  }

  /** This step brings some job closer to pulling. */
  ghost predicate Advances(s: System, a: Step) {
    && Enabled(s, a)
    && Abandoned(Apply(s, a)) && Unfinished(Apply(s, a))
    && Distance(Apply(s, a)) < Distance(s)
  }

  lemma SectionEnabled(s: System)
    requires SectionOk(s) && SpawnOk(s) && StatsOk(s) && s.mu.Some?
    ensures Enabled(s, SectionStep(s))
  {}

  lemma SectionNearer(s: System)
    requires SemOk(s) && SectionOk(s) && s.mu.Some? && Enabled(s, SectionStep(s))
    requires s.sem.Some? ==> !At(s, s.sem.value, Pulling)
    ensures var t := Apply(s, SectionStep(s));
      Distance(t) < Distance(s) && t.phase == s.phase && t.lock == s.lock
  {}

  lemma SectionAdvances(s: System)
    requires Abandoned(s) && Unfinished(s) && s.mu.Some?
    requires s.sem.Some? ==> !At(s, s.sem.value, Pulling)
    ensures Advances(s, SectionStep(s))
  {
    SectionEnabled(s);
    SectionNearer(s);
    StepKeeps(s, SectionStep(s));
    SectionKeepsUnfinished(s);
  }

  lemma SectionKeepsUnfinished(s: System)
    requires SectionOk(s) && SpawnOk(s) && Unfinished(s) && s.mu.Some? && Enabled(s, SectionStep(s))
    ensures Unfinished(Apply(s, SectionStep(s)))
  {
    var t := Apply(s, SectionStep(s));
    if s.mu.value.Enqueued? {
      assert t.pcs[s.mu.value.id] == Spawned;
    } else if s.mu.value.Marked? {
      assert t.pcs[s.mu.value.id] == Pulling;
    } else if !s.mu.value.Enqueuing? && !s.mu.value.Ordering? {
      var id :| id in s.pcs && (s.pcs[id].Spawned? || s.pcs[id].Admitted? || s.pcs[id].Pulling?);
      assert t.pcs[id] == s.pcs[id];
    }
  }

  /** With the queue mutex free, the holder of the semaphore moves on, or a
      waiting job takes it. */
  function JobStep(s: System, waiting: Bytes): Step {
    if s.sem.None? || s.sem.value !in s.pcs then Admit(waiting)
    else if s.pcs[s.sem.value].Admitted? then LockToMark(s.sem.value)
    else if s.pcs[s.sem.value].Pulled? then LockToFinish(s.sem.value)
    else Release(s.sem.value)
  }

  lemma JobNearer(s: System, id: Bytes)
    requires SemOk(s) && s.mu.None? && id in s.pcs
    requires s.sem.Some? ==> !At(s, s.sem.value, Pulling)
    requires s.pcs[id].Spawned? || s.pcs[id].Admitted? || s.pcs[id].Pulling?
    ensures var a := JobStep(s, id);
      && Enabled(s, a)
      && var t := Apply(s, a);
         && Distance(t) < Distance(s) && t.phase == s.phase && t.lock == s.lock
         && id in t.pcs && (t.pcs[id].Spawned? || t.pcs[id].Admitted? || t.pcs[id].Pulling?)
  {}

  lemma JobAdvances(s: System) returns (a: Step)
    requires Abandoned(s) && Unfinished(s) && s.mu.None?
    requires s.sem.Some? ==> !At(s, s.sem.value, Pulling)
    ensures Advances(s, a)
  {
    var id :| id in s.pcs && (s.pcs[id].Spawned? || s.pcs[id].Admitted? || s.pcs[id].Pulling?);
    a := JobStep(s, id);
    JobNearer(s, id);
    StepKeeps(s, a);
  }

  lemma {:induction false} Prepended(s: System, a: Step, rest: seq<Step>)
    requires Enabled(s, a) && Execution(Apply(s, a), rest)
    ensures Execution(s, [a] + rest) && After(s, [a] + rest) == After(Apply(s, a), rest)
  {
    assert ([a] + rest)[0] == a && ([a] + rest)[1..] == rest;
  }

  /** Two pulls are at work on the store at once. */
  ghost predicate Clash(s: System) {
    exists p, q :: p != q && Active(s, p) && Active(s, q)
  }

  ghost predicate LeadsToClash(s: System, steps: seq<Step>) {
    Execution(s, steps) && Clash(After(s, steps))
  }

  /** From an abandoned store with an unfinished job, some continuation lets
      that job and a command pull at once. */
  lemma {:induction false} UnfinishedClashes(s: System, c: nat) returns (steps: seq<Step>)
    requires Abandoned(s) && Unfinished(s)
    ensures LeadsToClash(s, steps)
    decreases Distance(s)
  {
    if s.sem.Some? && At(s, s.sem.value, Pulling) {
      steps := [CliStarts(c)] + [];
      Prepended(s, CliStarts(c), []);
      var t := After(s, steps);
      assert Active(t, JobPull(s.sem.value)) && Active(t, CliPull(c));
    } else {
      var a: Step;
      if s.mu.Some? {
        a := SectionStep(s);
        SectionAdvances(s);
      } else {
        a := JobAdvances(s);
      }
      var rest := UnfinishedClashes(Apply(s, a), c);
      steps := [a] + rest;
      Prepended(s, a, rest);
    }
  }

  /** Without one, none appears after the daemon has returned, so no two pulls ever meet. */
  lemma {:induction false} NoneLeftStays(s: System, steps: seq<Step>)
    requires Inv(s) && s.phase == Returned && !Unfinished(s) && Execution(s, steps)
    ensures !Unfinished(After(s, steps)) && !Clash(After(s, steps))
    decreases |steps|
  {
    if steps != [] {
      StepKeeps(s, steps[0]);
      NoneLeftStep(s, steps[0]);
      NoneLeftStays(Apply(s, steps[0]), steps[1..]);
    }
  }

  lemma NoneLeftStep(s: System, a: Step)
    requires SectionOk(s) && s.phase == Returned && !Unfinished(s) && Enabled(s, a)
    ensures !Unfinished(Apply(s, a)) && Apply(s, a).phase == Returned
  {
    var t := Apply(s, a);
    forall id | id in t.pcs
      ensures !t.pcs[id].Spawned? && !t.pcs[id].Admitted? && !t.pcs[id].Pulling?
    {
      assert id in s.pcs ==> !s.pcs[id].Spawned? && !s.pcs[id].Admitted? && !s.pcs[id].Pulling?;
    }
  }

  /** When a serving daemon returns, two pulls can come to work on the store
      at once exactly when some job is unfinished: running, waiting, or being added. */
  lemma ReturnAdmitsAnother(s: System)
    requires Inv(s) && s.phase == Serving
    ensures Unfinished(s) <==>
      exists steps :: LeadsToClash(Apply(s, DaemonReturns), steps)
  {
    var t := Apply(s, DaemonReturns);
    StepKeeps(s, DaemonReturns);
    assert Unfinished(s) <==> Unfinished(t);
    if Unfinished(s) {
      var steps := UnfinishedClashes(t, 0);
      assert LeadsToClash(t, steps);
    } else {
      forall steps | Execution(t, steps)
        ensures !LeadsToClash(t, steps)
      {
        NoneLeftStays(t, steps);
      }
    }
  }

  lemma {:induction false} Concatenated(s: System, xs: seq<Step>, ys: seq<Step>)
    requires Execution(s, xs) && Execution(After(s, xs), ys)
    ensures Execution(s, xs + ys) && After(s, xs + ys) == After(After(s, xs), ys)
    decreases |xs|
  {
    if xs == [] {
      assert xs + ys == ys;
    } else {
      Concatenated(Apply(s, xs[0]), xs[1..], ys);
      Prepended(s, xs[0], xs[1..] + ys);
      assert xs + ys == [xs[0]] + (xs[1..] + ys);
    }
  }

  lemma OneJobQueued(id: Bytes, ref: Bytes)
    ensures var steps := [DaemonStarts, LockToEnqueue(id, ref), AddJob, AddOrder, UnlockAndSpawn];
      && Execution(INITIAL, steps)
      && var s := After(INITIAL, steps);
         s.phase == Serving && s.mu.None? && At(s, id, Spawned)
  {
    var s2 := Apply(Apply(INITIAL, DaemonStarts), LockToEnqueue(id, ref));
    TwoSteps(INITIAL, DaemonStarts, LockToEnqueue(id, ref));
    ThreeSteps(s2, AddJob, AddOrder, UnlockAndSpawn);
    Concatenated(INITIAL, [DaemonStarts, LockToEnqueue(id, ref)], [AddJob, AddOrder, UnlockAndSpawn]);
    assert [DaemonStarts, LockToEnqueue(id, ref)] + [AddJob, AddOrder, UnlockAndSpawn]
        == [DaemonStarts, LockToEnqueue(id, ref), AddJob, AddOrder, UnlockAndSpawn];
  }

  /** The failing case is real, from the start: a job that is only queued when
      the daemon returns is pulled beside a command. */
  lemma QueuedJobOutlives(id: Bytes, ref: Bytes, c: nat) returns (after: seq<Step>)
    ensures var steps := [DaemonStarts, LockToEnqueue(id, ref), AddJob, AddOrder, UnlockAndSpawn]
                         + ([DaemonReturns] + after);
      LeadsToClash(INITIAL, steps)
  {
    var before := [DaemonStarts, LockToEnqueue(id, ref), AddJob, AddOrder, UnlockAndSpawn];
    OneJobQueued(id, ref);
    InitialInv();
    ExecutionKeeps(INITIAL, before);
    var s := After(INITIAL, before);
    after := AbandonedClashes(s, id, c);
    Concatenated(INITIAL, before, [DaemonReturns] + after);
  }

  lemma AbandonedClashes(s: System, id: Bytes, c: nat) returns (after: seq<Step>)
    requires Inv(s) && s.phase == Serving && At(s, id, Spawned)
    ensures LeadsToClash(s, [DaemonReturns] + after)
  {
    var t := Apply(s, DaemonReturns);
    StepKeeps(s, DaemonReturns);
    assert t.pcs[id] == Spawned;
    after := UnfinishedClashes(t, c);
    Prepended(s, DaemonReturns, after);
  }

  // ---- What readers see ----

  /** While a reader holds the queue mutex, nothing it reads changes. */
  lemma {:induction false} HeldForReading(s: System, during: seq<Step>)
    requires s.mu == Some(Reading) && Execution(s, during) && UnlockRead !in during
    ensures After(s, during).mu == Some(Reading) && After(s, during).book == s.book
    decreases |during|
  {
    if during != [] {
      HeldForReading(Apply(s, during[0]), during[1..]);
    }
  }

  /** What list and snapshot return, whatever happens before and while they
      read: one consistent book, with every job exactly once, at most one
      running, and counters that are exactly the numbers of jobs by outcome. */
  lemma {:induction false} ReadersSee(steps: seq<Step>, during: seq<Step>)
    requires Execution(INITIAL, steps) && After(INITIAL, steps).mu == Some(Reading)
    requires Execution(After(INITIAL, steps), during) && UnlockRead !in during
    ensures var s := After(INITIAL, steps);
      && After(s, during).book == s.book
      && Distinct(s.book.order) && (forall id :: id in s.book.jobs <==> id in s.book.order)
      && (forall i, j :: IsRunning(s, i) && IsRunning(s, j) ==> i == j)
      && CountedAs(s.book.stats, Succeeded) == |Having(s.book.jobs, Succeeded)|
      && CountedAs(s.book.stats, Failed) == |Having(s.book.jobs, Failed)|
  {
    InitialInv();
    ExecutionKeeps(INITIAL, steps);
    QueueIsSafe(steps);
    HeldForReading(After(INITIAL, steps), during);
  }

  /** What snapshot tells about a job, whatever happened before: it knows the
      job exactly when list shows it, a job that is running is the one being
      pulled, and a later snapshot knows it still, never further back. */
  lemma {:induction false} SnapshotsSee(steps: seq<Step>, more: seq<Step>, id: Bytes)
    requires Execution(INITIAL, steps) && After(INITIAL, steps).mu == Some(Reading)
    requires Execution(After(INITIAL, steps), more)
    ensures var (s, t) := (After(INITIAL, steps), After(After(INITIAL, steps), more));
      var (first, later) := (JobOf(s.book, id), JobOf(t.book, id));
      && (first.Some? <==> id in s.book.order)
      && (first.Some? ==>
            && (first.value.status == Running ==> id in s.pcs && (s.pcs[id].Pulling? || s.pcs[id].Pulled?))
            && later.Some? && Moves(first.value.status, later.value.status))
  {
    InitialInv();
    ExecutionKeeps(INITIAL, steps);
    QueueIsSafe(steps);
    var s := After(INITIAL, steps);
    if id in s.book.jobs {
      assert StatusFits(s, id);
      StatusesOnlyAdvance(s, more, id);
    }
  }

  lemma {:induction false} StatsHeldForReading(s: System, during: seq<Step>)
    requires Inv(s) && s.statsMu == StatsReader && Execution(s, during) && UnlockReadStats !in during
    ensures After(s, during).statsMu == StatsReader && After(s, during).book.stats == s.book.stats
    decreases |during|
  {
    if during != [] {
      StepKeeps(s, during[0]);
      StatsHeldForReading(Apply(s, during[0]), during[1..]);
    }
  }

  /** The copy of the counters does not change while it is taken, and lacks
      at most the one outcome that is set and still to be counted. */
  lemma {:induction false} StatsReadersSee(steps: seq<Step>, during: seq<Step>, status: Status)
    requires Execution(INITIAL, steps) && After(INITIAL, steps).statsMu == StatsReader
    requires Execution(After(INITIAL, steps), during) && UnlockReadStats !in during
    requires status == Succeeded || status == Failed
    ensures var s := After(INITIAL, steps);
      && After(s, during).book.stats == s.book.stats
      && |Having(s.book.jobs, status)| - CountedAs(s.book.stats, status) == Pending(s, status)
  {
    InitialInv();
    ExecutionKeeps(INITIAL, steps);
    StatsHeldForReading(After(INITIAL, steps), during);
  }

  /** The unlabelled pull counter of the metrics is the size of that copy, so
      it is the number of counted jobs exactly when no outcome was counted twice. */
  lemma {:induction false} PullsTotal(steps: seq<Step>)
    requires Execution(INITIAL, steps)
    ensures var stats := After(INITIAL, steps).book.stats;
      |stats| == CountedAs(stats, Succeeded) + CountedAs(stats, Failed)
      <==> CountedAs(stats, Succeeded) <= 1 && CountedAs(stats, Failed) <= 1
  {
    InitialInv();
    ExecutionKeeps(INITIAL, steps);
    SizeOfStats(After(INITIAL, steps).book.stats);
  }

  lemma SizeOfStats(stats: map<Status, nat>)
    requires forall status :: status in stats ==> (status == Succeeded || status == Failed) && stats[status] > 0
    ensures |stats| == (if Succeeded in stats then 1 else 0) + (if Failed in stats then 1 else 0)
  {
    var keys := (if Succeeded in stats then {Succeeded} else {}) + (if Failed in stats then {Failed} else {});
    assert stats.Keys == keys;
    assert |stats| == |stats.Keys|;
  }

  /** Serving, and nobody holds a mutex or the semaphore. */
  predicate Idle(s: System) {
    s.phase == Serving && s.mu.None? && s.statsMu == Nobody && s.sem.None?
  }

  /** A job is added and admitted. */
  lemma JobAdmitted(s: System, id: Bytes, ref: Bytes) returns (steps: seq<Step>)
    requires Idle(s) && id !in s.book.jobs
    ensures Execution(s, steps)
    ensures var t := After(s, steps);
      && t.phase == Serving && t.mu.None? && t.statsMu == Nobody && t.sem == Some(id) && At(t, id, Admitted)
      && t.book.stats == s.book.stats && t.book.jobs.Keys == s.book.jobs.Keys + {id}
  {
    var added := Apply(Apply(Apply(s, LockToEnqueue(id, ref)), AddJob), AddOrder);
    ThreeSteps(s, LockToEnqueue(id, ref), AddJob, AddOrder);
    TwoSteps(added, UnlockAndSpawn, Admit(id));
    Concatenated(s, [LockToEnqueue(id, ref), AddJob, AddOrder], [UnlockAndSpawn, Admit(id)]);
    steps := [LockToEnqueue(id, ref), AddJob, AddOrder] + [UnlockAndSpawn, Admit(id)];
  }

  /** Its pull begins and succeeds. */
  lemma JobPulled(s: System, id: Bytes) returns (steps: seq<Step>)
    requires s.phase == Serving && s.mu.None? && s.statsMu == Nobody && s.sem == Some(id) && At(s, id, Admitted)
    requires id in s.book.jobs
    ensures Execution(s, steps)
    ensures var t := After(s, steps);
      && t.phase == Serving && t.mu.None? && t.statsMu == Nobody && t.sem == Some(id) && At(t, id, Pulled(true))
      && t.book.stats == s.book.stats && t.book.jobs.Keys == s.book.jobs.Keys
  {
    var marked := Apply(Apply(s, LockToMark(id)), SetRunning);
    TwoSteps(s, LockToMark(id), SetRunning);
    TwoSteps(marked, UnlockMarked, PullReturns(id, true));
    Concatenated(s, [LockToMark(id), SetRunning], [UnlockMarked, PullReturns(id, true)]);
    steps := [LockToMark(id), SetRunning] + [UnlockMarked, PullReturns(id, true)];
  }

  /** It is counted and releases the semaphore. */
  lemma JobCounted(s: System, id: Bytes) returns (steps: seq<Step>)
    requires s.phase == Serving && s.mu.None? && s.statsMu == Nobody && s.sem == Some(id) && At(s, id, Pulled(true))
    requires id in s.book.jobs
    ensures Execution(s, steps)
    ensures var t := After(s, steps);
      && Idle(t) && t.book.jobs.Keys == s.book.jobs.Keys
      && CountedAs(t.book.stats, Succeeded) == CountedAs(s.book.stats, Succeeded) + 1
      && CountedAs(t.book.stats, Failed) == CountedAs(s.book.stats, Failed)
  {
    var section := [LockToFinish(id), SetOutcome] + [LockStats, CountOutcome];
    FinishSection(s, id, true);
    ThreeSteps(After(s, section), UnlockStats, UnlockFinished, Release(id));
    Concatenated(s, section, [UnlockStats, UnlockFinished, Release(id)]);
    steps := section + [UnlockStats, UnlockFinished, Release(id)];
  }

  lemma OneMore(s: System, id: Bytes, ref: Bytes) returns (steps: seq<Step>)
    requires Idle(s) && id !in s.book.jobs
    ensures Execution(s, steps)
    ensures var t := After(s, steps);
      && Idle(t) && t.book.jobs.Keys == s.book.jobs.Keys + {id}
      && CountedAs(t.book.stats, Succeeded) == CountedAs(s.book.stats, Succeeded) + 1
      && CountedAs(t.book.stats, Failed) == CountedAs(s.book.stats, Failed)
  {
    var added := JobAdmitted(s, id, ref);
    var pulled := JobPulled(After(s, added), id);
    Concatenated(s, added, pulled);
    var counted := JobCounted(After(s, added + pulled), id);
    Concatenated(s, added + pulled, counted);
    steps := added + pulled + counted;
  }

  /** The failing case is real: two jobs succeed and the total says 1. */
  lemma TwoPullsReportedAsOne(a: Bytes, b: Bytes, ref: Bytes) returns (steps: seq<Step>)
    requires a != b
    ensures Execution(INITIAL, steps)
    ensures var stats := After(INITIAL, steps).book.stats;
      CountedAs(stats, Succeeded) == 2 && CountedAs(stats, Failed) == 0 && |stats| == 1
  {
    var up := Apply(INITIAL, DaemonStarts);
    var first := OneMore(up, a, ref);
    var second := OneMore(After(up, first), b, ref);
    Concatenated(up, first, second);
    steps := [DaemonStarts] + (first + second);
    Prepended(INITIAL, DaemonStarts, first + second);
    InitialInv();
    ExecutionKeeps(INITIAL, steps);
    SizeOfStats(After(INITIAL, steps).book.stats);
  }

  // ---- Who goes first ----

  /** A job is added and its goroutine waits. */
  lemma {:induction false} JobAdded(s: System, id: Bytes, ref: Bytes)
    requires Enabled(s, LockToEnqueue(id, ref)) && id !in s.pcs
    ensures var steps := [LockToEnqueue(id, ref), AddJob, AddOrder] + [UnlockAndSpawn];
      && Execution(s, steps)
      && After(s, steps) == s.(book := WithOrder(WithJob(s.book, id, ref), id), pcs := s.pcs[id := Spawned])
  {
    var added := Apply(Apply(Apply(s, LockToEnqueue(id, ref)), AddJob), AddOrder);
    ThreeSteps(s, LockToEnqueue(id, ref), AddJob, AddOrder);
    Prepended(added, UnlockAndSpawn, []);
    assert [UnlockAndSpawn] + [] == [UnlockAndSpawn];
    Concatenated(s, [LockToEnqueue(id, ref), AddJob, AddOrder], [UnlockAndSpawn]);
  }

  /** A waiting job is admitted and starts pulling. */
  lemma {:induction false} JobRuns(s: System, id: Bytes)
    requires s.mu.None? && s.sem.None? && At(s, id, Spawned) && id in s.book.jobs
    ensures var steps := [Admit(id), LockToMark(id)] + [SetRunning, UnlockMarked];
      && Execution(s, steps)
      && After(s, steps) == s.(book := WithStatus(s.book, id, Running), sem := Some(id), pcs := s.pcs[id := Pulling])
  {
    var marking := Apply(Apply(s, Admit(id)), LockToMark(id));
    TwoSteps(s, Admit(id), LockToMark(id));
    TwoSteps(marking, SetRunning, UnlockMarked);
    Concatenated(s, [Admit(id), LockToMark(id)], [SetRunning, UnlockMarked]);
  }

  /** Jobs need not run in order: the later of two can be pulled while the
      earlier one is still queued. */
  lemma LaterJobFirst(a: Bytes, b: Bytes, ref: Bytes) returns (steps: seq<Step>)
    requires a != b
    ensures Execution(INITIAL, steps)
    ensures var s := After(INITIAL, steps);
      s.book.order == [a, b] && IsRunning(s, b) && At(s, b, Pulling) && JobOf(s.book, a) == Some(Job(ref, Queued))
  {
    var up := Apply(INITIAL, DaemonStarts);
    var first := [LockToEnqueue(a, ref), AddJob, AddOrder] + [UnlockAndSpawn];
    JobAdded(up, a, ref);
    var one := After(up, first);
    var second := [LockToEnqueue(b, ref), AddJob, AddOrder] + [UnlockAndSpawn];
    JobAdded(one, b, ref);
    Concatenated(up, first, second);
    JobRuns(After(up, first + second), b);
    Concatenated(up, first + second, [Admit(b), LockToMark(b)] + [SetRunning, UnlockMarked]);
    var all := first + second + ([Admit(b), LockToMark(b)] + [SetRunning, UnlockMarked]);
    Prepended(INITIAL, DaemonStarts, all);
    steps := [DaemonStarts] + all;
    assert one.book.order == [a] && After(up, first + second).book.order == [a, b];
  }

  // ---- The steps and the methods ----

  lemma {:induction false} EnqueueSection(s: System, id: Bytes, ref: Bytes)
    requires Enabled(s, LockToEnqueue(id, ref))
    ensures var steps := [LockToEnqueue(id, ref), AddJob, AddOrder];
      Execution(s, steps) && After(s, steps).book == WithOrder(WithJob(s.book, id, ref), id)
  {
    ThreeSteps(s, LockToEnqueue(id, ref), AddJob, AddOrder);
  }

  lemma {:induction false} MarkSection(s: System, id: Bytes)
    requires Enabled(s, LockToMark(id)) && id in s.book.jobs
    ensures var steps := [LockToMark(id), SetRunning];
      Execution(s, steps) && After(s, steps).book == WithStatus(s.book, id, Running)
  {
    TwoSteps(s, LockToMark(id), SetRunning);
  }

  lemma {:induction false} FinishSection(s: System, id: Bytes, ok: bool)
    requires s.mu.None? && At(s, id, Pulled(ok)) && s.statsMu == Nobody && id in s.book.jobs
    ensures var steps := [LockToFinish(id), SetOutcome] + [LockStats, CountOutcome];
      && Execution(s, steps)
      && After(s, steps) == s.(mu := Some(Recorded(id)), statsMu := Recorder,
                               book := WithCount(WithStatus(s.book, id, OutcomeOf(ok)), OutcomeOf(ok)))
  {
    var t := Apply(Apply(s, LockToFinish(id)), SetOutcome);
    TwoSteps(s, LockToFinish(id), SetOutcome);
    TwoSteps(t, LockStats, CountOutcome);
    Concatenated(s, [LockToFinish(id), SetOutcome], [LockStats, CountOutcome]);
  }

  /** The steps of a whole critical section amount to the method that implements it. */
  lemma {:induction false} SectionsAreMethods(s: System, id: Bytes, ref: Bytes, ok: bool)
    requires SpawnOk(s) && s.mu.None?
    ensures Enabled(s, LockToEnqueue(id, ref)) ==>
      var steps := [LockToEnqueue(id, ref), AddJob, AddOrder];
      Execution(s, steps) && After(s, steps).book == WithOrder(WithJob(s.book, id, ref), id)
    ensures At(s, id, Admitted) ==>
      var steps := [LockToMark(id), SetRunning];
      && Execution(s, steps) && id in s.book.jobs
      && After(s, steps).book == WithStatus(s.book, id, Running)
    ensures At(s, id, Pulled(ok)) && s.statsMu == Nobody ==>
      var steps := [LockToFinish(id), SetOutcome] + [LockStats, CountOutcome];
      && Execution(s, steps) && id in s.book.jobs
      && After(s, steps).book == WithCount(WithStatus(s.book, id, OutcomeOf(ok)), OutcomeOf(ok))
  {
    if Enabled(s, LockToEnqueue(id, ref)) {
      EnqueueSection(s, id, ref);
    }
    if At(s, id, Admitted) {
      MarkSection(s, id);
    }
    if At(s, id, Pulled(ok)) && s.statsMu == Nobody {
      FinishSection(s, id, ok);
    }
  }

  lemma {:induction false} TwoSteps(s: System, a: Step, b: Step)
    requires Enabled(s, a) && Enabled(Apply(s, a), b)
    ensures Execution(s, [a, b]) && After(s, [a, b]) == Apply(Apply(s, a), b)
  {
    var v := Apply(Apply(s, a), b);
    assert Execution(v, []) && After(v, []) == v;
    Prepended(Apply(s, a), b, []);
    Prepended(s, a, [b] + []);
    assert [a] + ([b] + []) == [a, b];
  }

  lemma {:induction false} ThreeSteps(s: System, a: Step, b: Step, c: Step)
    requires Enabled(s, a) && Enabled(Apply(s, a), b) && Enabled(Apply(Apply(s, a), b), c)
    ensures Execution(s, [a, b, c]) && After(s, [a, b, c]) == Apply(Apply(Apply(s, a), b), c)
  {
    TwoSteps(Apply(s, a), b, c);
    Prepended(s, a, [b, c]);
    assert [a] + [b, c] == [a, b, c];
  }
}
