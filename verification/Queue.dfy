/** The daemon's pull queue and the store lock, as interleaved atomic steps. */
module Queue {
  import opened Text

  datatype Status = Queued | Running | Succeeded | Failed

  datatype Job = Job(ref: Bytes, status: Status)

  /** What the queue mutex protects, and the outcome counters under the server's. */
  datatype Book = Book(jobs: map<Bytes, Job>, order: seq<Bytes>, stats: map<Status, nat>)

  function WithJob(b: Book, id: Bytes, ref: Bytes): Book {
    b.(jobs := b.jobs[id := Job(ref, Queued)])
  }

  function WithOrder(b: Book, id: Bytes): Book {
    b.(order := b.order + [id])
  }

  function WithStatus(b: Book, id: Bytes, status: Status): Book
    requires id in b.jobs
  {
    b.(jobs := b.jobs[id := b.jobs[id].(status := status)])
  }

  function CountedAs(stats: map<Status, nat>, status: Status): nat {
    if status in stats then stats[status] else 0
  }

  function WithCount(b: Book, status: Status): Book {
    b.(stats := b.stats[status := CountedAs(b.stats, status) + 1])
  }

  function OutcomeOf(ok: bool): Status {
    if ok then Succeeded else Failed
  }

  function JobOf(b: Book, id: Bytes): Option<Job> {
    if id in b.jobs then Some(b.jobs[id]) else None
  }

  // ---- The critical sections, as the code writes them ----

  class PullQueue {
    var jobs: map<Bytes, Job>
    var order: seq<Bytes>
    var stats: map<Status, nat>

    function State(): Book
      reads this
    {
      Book(jobs, order, stats)
    }

    constructor ()
      ensures State() == Book(map[], [], map[])
    {
      jobs, order, stats := map[], [], map[];
    }

    method Enqueue(id: Bytes, ref: Bytes) returns (snapshot: Job)
      modifies this
      ensures State() == WithOrder(WithJob(old(State()), id, ref), id)
      ensures snapshot == Job(ref, Queued)
    {
      snapshot := Job(ref, Queued);
      jobs := jobs[id := snapshot];
      order := order + [id];
    }

    method Start(id: Bytes)
      requires id in jobs
      modifies this`jobs
      ensures State() == WithStatus(old(State()), id, Running)
    {
      jobs := jobs[id := jobs[id].(status := Running)];
    }

    method Finish(id: Bytes, ok: bool)
      requires id in jobs
      modifies this
      ensures State() == WithCount(WithStatus(old(State()), id, OutcomeOf(ok)), OutcomeOf(ok))
    {
      jobs := jobs[id := jobs[id].(status := if ok then Succeeded else Failed)];
      RecordPullResult(jobs[id].status);
    }

    method RecordPullResult(status: Status)
      modifies this`stats
      ensures State() == WithCount(old(State()), status)
    {
      stats := stats[status := (if status in stats then stats[status] else 0) + 1];
    }

    method Snapshot(id: Bytes) returns (job: Option<Job>)
      ensures job == JobOf(State(), id)
    {
      return if id in jobs then Some(jobs[id]) else None;
    }

    method List() returns (out: seq<Job>)
      requires forall k :: 0 <= k < |order| ==> order[k] in jobs
      ensures |out| == |order| && forall k :: 0 <= k < |order| ==> out[k] == jobs[order[k]]
    {
      out := [];
      for k := 0 to |order|
        invariant |out| == k && forall j :: 0 <= j < k ==> out[j] == jobs[order[j]]
      {
        out := out + [jobs[order[k]]];
      }
    }
  }

  // ---- Interleaved steps ----

  /** Where a job's goroutine stands outside the queue mutex. */
  datatype Pc = Spawned | Admitted | Pulling | Pulled(ok: bool) | Releasing | Done

  /** Who holds the queue mutex, and how far through the critical section. */
  datatype Section =
    | Enqueuing(id: Bytes, ref: Bytes)
    | Ordering(id: Bytes)
    | Enqueued(id: Bytes)
    | Marking(id: Bytes)
    | Marked(id: Bytes)
    | Finishing(id: Bytes, ok: bool)
    | Counting(id: Bytes)
    | Recording(id: Bytes)
    | Recorded(id: Bytes)
    | Counted(id: Bytes)
    | Reading

  /** Who holds the server's own mutex, which guards the outcome counters. */
  datatype StatsHolder = Nobody | Recorder | StatsReader

  datatype Owner = Free | Cli(c: nat) | Daemon

  datatype Phase = Down | Serving | Returned

  /** One store: the queue, its mutex, the server's mutex, the semaphore, the
      goroutines, the store lock with its owner, the daemon's life. */
  datatype System = System(
    book: Book,
    mu: Option<Section>,
    statsMu: StatsHolder,
    sem: Option<Bytes>,
    pcs: map<Bytes, Pc>,
    lock: Owner,
    phase: Phase)

  datatype Step =
    | LockToEnqueue(id: Bytes, ref: Bytes) | AddJob | AddOrder | UnlockAndSpawn
    | Admit(id: Bytes)
    | LockToMark(id: Bytes) | SetRunning | UnlockMarked
    | PullReturns(id: Bytes, ok: bool)
    | LockToFinish(id: Bytes) | SetOutcome | LockStats | CountOutcome | UnlockStats | UnlockFinished
    | Release(id: Bytes)
    | LockToRead | UnlockRead
    | LockToReadStats | UnlockReadStats
    | CliStarts(c: nat) | CliEnds
    | DaemonStarts | DaemonReturns

  predicate At(s: System, id: Bytes, pc: Pc) {
    id in s.pcs && s.pcs[id] == pc
  }

  /** Fresh job ids; locks and the semaphore block. */
  predicate Enabled(s: System, a: Step) {
    match a
    case LockToEnqueue(id, _) => s.mu.None? && s.phase == Serving && id !in s.book.jobs
    case AddJob => s.mu.Some? && s.mu.value.Enqueuing?
    case AddOrder => s.mu.Some? && s.mu.value.Ordering?
    case UnlockAndSpawn => s.mu.Some? && s.mu.value.Enqueued?
    case Admit(id) => s.sem.None? && At(s, id, Spawned)
    case LockToMark(id) => s.mu.None? && At(s, id, Admitted)
    case SetRunning => s.mu.Some? && s.mu.value.Marking? && s.mu.value.id in s.book.jobs
    case UnlockMarked => s.mu.Some? && s.mu.value.Marked?
    case PullReturns(id, _) => At(s, id, Pulling)
    case LockToFinish(id) => s.mu.None? && id in s.pcs && s.pcs[id].Pulled?
    case SetOutcome => s.mu.Some? && s.mu.value.Finishing? && s.mu.value.id in s.book.jobs
    case LockStats => s.mu.Some? && s.mu.value.Counting? && s.statsMu == Nobody
    case CountOutcome => s.mu.Some? && s.mu.value.Recording? && s.mu.value.id in s.book.jobs
    case UnlockStats => s.mu.Some? && s.mu.value.Recorded?
    case UnlockFinished => s.mu.Some? && s.mu.value.Counted?
    case Release(id) => At(s, id, Releasing)
    case LockToRead => s.mu.None?
    case UnlockRead => s.mu == Some(Reading)
    case LockToReadStats => s.statsMu == Nobody
    case UnlockReadStats => s.statsMu == StatsReader
    case CliStarts(_) => s.lock == Free
    case CliEnds => s.lock.Cli?
    case DaemonStarts => s.lock == Free && s.phase == Down
    case DaemonReturns => s.phase == Serving
  }

  function Apply(s: System, a: Step): System
    requires Enabled(s, a)
  {
    match a
    case LockToEnqueue(id, ref) => s.(mu := Some(Enqueuing(id, ref)))
    case AddJob => s.(mu := Some(Ordering(s.mu.value.id)), book := WithJob(s.book, s.mu.value.id, s.mu.value.ref))
    case AddOrder => s.(mu := Some(Enqueued(s.mu.value.id)), book := WithOrder(s.book, s.mu.value.id))
    case UnlockAndSpawn => s.(mu := None, pcs := s.pcs[s.mu.value.id := Spawned])
    case Admit(id) => s.(sem := Some(id), pcs := s.pcs[id := Admitted])
    case LockToMark(id) => s.(mu := Some(Marking(id)))
    case SetRunning => s.(mu := Some(Marked(s.mu.value.id)), book := WithStatus(s.book, s.mu.value.id, Running))
    case UnlockMarked => s.(mu := None, pcs := s.pcs[s.mu.value.id := Pulling])
    case PullReturns(id, ok) => s.(pcs := s.pcs[id := Pulled(ok)])
    case LockToFinish(id) => s.(mu := Some(Finishing(id, s.pcs[id].ok)))
    case SetOutcome =>
      s.(mu := Some(Counting(s.mu.value.id)), book := WithStatus(s.book, s.mu.value.id, OutcomeOf(s.mu.value.ok)))
    case LockStats => s.(mu := Some(Recording(s.mu.value.id)), statsMu := Recorder)
    case CountOutcome =>
      s.(mu := Some(Recorded(s.mu.value.id)), book := WithCount(s.book, s.book.jobs[s.mu.value.id].status))
    case UnlockStats => s.(mu := Some(Counted(s.mu.value.id)), statsMu := Nobody)
    case UnlockFinished => s.(mu := None, pcs := s.pcs[s.mu.value.id := Releasing])
    case Release(id) => s.(sem := None, pcs := s.pcs[id := Done])
    case LockToRead => s.(mu := Some(Reading))
    case UnlockRead => s.(mu := None)
    case LockToReadStats => s.(statsMu := StatsReader)
    case UnlockReadStats => s.(statsMu := Nobody)
    case CliStarts(c) => s.(lock := Cli(c))
    case CliEnds => s.(lock := Free)
    case DaemonStarts => s.(lock := Daemon, phase := Serving)
    case DaemonReturns => s.(lock := Free, phase := Returned)
  }

  const INITIAL := System(Book(map[], [], map[]), None, Nobody, None, map[], Free, Down)

  predicate Execution(s: System, steps: seq<Step>)
    decreases |steps|
  {
    steps == [] || (Enabled(s, steps[0]) && Execution(Apply(s, steps[0]), steps[1..]))
  }

  function After(s: System, steps: seq<Step>): System
    requires Execution(s, steps)
    decreases |steps|
  {
    if steps == [] then s else After(Apply(s, steps[0]), steps[1..])
  }

  // ---- The invariant ----

  predicate HoldsSem(pc: Pc) {
    pc.Admitted? || pc.Pulling? || pc.Pulled? || pc.Releasing?
  }

  /** The semaphore is held by the one goroutine past its acquisition. */
  predicate SemOk(s: System) {
    && (forall id :: id in s.pcs && HoldsSem(s.pcs[id]) ==> s.sem == Some(id))
    && (s.sem.Some? ==> s.sem.value in s.pcs && HoldsSem(s.pcs[s.sem.value]))
  }

  /** The section in progress belongs to a goroutine at the right place. */
  predicate SectionOk(s: System) {
    s.mu.Some? ==>
      match s.mu.value
      case Enqueuing(id, _) => id !in s.book.jobs
      case Ordering(id) => id in s.book.jobs && id !in s.book.order && id !in s.pcs
      case Enqueued(id) => id in s.book.jobs && id !in s.pcs
      case Marking(id) => At(s, id, Admitted)
      case Marked(id) => At(s, id, Admitted)
      case Finishing(id, ok) => At(s, id, Pulled(ok))
      case Counting(id) => id in s.pcs && s.pcs[id].Pulled?
      case Recording(id) => id in s.pcs && s.pcs[id].Pulled?
      case Recorded(id) => id in s.pcs && s.pcs[id].Pulled?
      case Counted(id) => id in s.pcs && s.pcs[id].Pulled?
      case Reading => true
  }

  /** The id that is in jobs and not yet in the order. */
  predicate NotYetOrdered(s: System, id: Bytes) {
    s.mu == Some(Ordering(id))
  }

  predicate NotYetSpawned(s: System, id: Bytes) {
    s.mu == Some(Ordering(id)) || s.mu == Some(Enqueued(id))
  }

  predicate Distinct(order: seq<Bytes>) {
    forall i, j :: 0 <= i < j < |order| ==> order[i] != order[j]
  }

  /** The order lists every job once. */
  predicate OrderOk(s: System) {
    && Distinct(s.book.order)
    && (forall id :: id in s.book.order ==> id in s.book.jobs)
    && (forall id :: id in s.book.jobs && !NotYetOrdered(s, id) ==> id in s.book.order)
  }

  predicate SpawnOk(s: System) {
    && (forall id :: id in s.pcs ==> id in s.book.jobs)
    && (forall id :: id in s.book.jobs && !NotYetSpawned(s, id) ==> id in s.pcs)
  }

  /** The finishing section of this job has set its outcome. */
  predicate OutcomeSet(s: System, id: Bytes) {
    s.mu.Some? &&
      match s.mu.value
      case Counting(j) => j == id
      case Recording(j) => j == id
      case Recorded(j) => j == id
      case Counted(j) => j == id
      case _ => false
  }

  /** The status a goroutine's position implies. */
  predicate StatusFits(s: System, id: Bytes)
    requires id in s.book.jobs
  {
    var status := s.book.jobs[id].status;
    if id !in s.pcs then status == Queued else
      match s.pcs[id]
      case Spawned => status == Queued
      case Admitted => status == if s.mu == Some(Marked(id)) then Running else Queued
      case Pulling => status == Running
      case Pulled(ok) => status == if OutcomeSet(s, id) then OutcomeOf(ok) else Running
      case Releasing => status == Succeeded || status == Failed
      case Done => status == Succeeded || status == Failed
  }

  predicate StatusOk(s: System) {
    forall id :: id in s.book.jobs ==> StatusFits(s, id)
  }

  function Having(jobs: map<Bytes, Job>, status: Status): set<Bytes> {
    set id | id in jobs && jobs[id].status == status
  }

  /** One finished job whose outcome is still to be counted. */
  function Pending(s: System, status: Status): nat {
    if s.mu.Some? && (s.mu.value.Counting? || s.mu.value.Recording?) && s.mu.value.id in s.book.jobs
       && s.book.jobs[s.mu.value.id].status == status then 1 else 0
  }

  predicate CounterFits(s: System, status: Status) {
    CountedAs(s.book.stats, status) + Pending(s, status) == |Having(s.book.jobs, status)|
  }

  predicate CountersOk(s: System) {
    CounterFits(s, Succeeded) && CounterFits(s, Failed)
  }

  /** The finishing section holds the server's mutex while it counts, and only
      outcomes that occurred have a counter. */
  predicate StatsOk(s: System) {
    && (s.statsMu == Recorder <==> s.mu.Some? && (s.mu.value.Recording? || s.mu.value.Recorded?))
    && (forall status :: status in s.book.stats ==>
          (status == Succeeded || status == Failed) && s.book.stats[status] > 0)
  }

  /** The daemon owns the lock exactly while it serves, and jobs only come from it. */
  predicate LockOk(s: System) {
    && (s.phase == Serving <==> s.lock == Daemon)
    && (s.phase == Down ==> s.pcs == map[] && (s.mu.None? || s.mu.value.Reading?))
  }

  predicate Inv(s: System) {
    SemOk(s) && SectionOk(s) && OrderOk(s) && SpawnOk(s) && StatusOk(s) && CountersOk(s) && StatsOk(s)
    && LockOk(s)
  }
}
