/**
  Concurrent dispatches of worker Jobs. Each dispatch holds the admission lock from its first look
  at the cluster to the creation of its Job; between any two of its steps other dispatches may
  arrive, Jobs may start, finish or vanish, and Runs may end.
 */
module JobAdmission {
  import opened Wrappers
  import opened WorkStore
  import opened JobCapacity

  /** A created Job has no active Pod in a listing until the cluster has started it. */
  datatype Phase = Starting | Working | Finished

  /** A preparation Job carries another name label, so capacity listings leave it out. */
  datatype Job = Job(
    name: string, run: RunId, preparation: bool, hash: Option<string>, after: Option<RunId>, phase: Phase)

  /** A hosted dispatch records the hash of its manifest. */
  datatype Request = Request(
    job: string, run: RunId, preparation: bool, hash: Option<string>, predecessor: Option<RunId>)

  datatype Progress = Waiting | Entered | Polling(polls: nat) | Admitted | Returned(ok: bool)

  datatype Dispatch = Dispatch(request: Request, progress: Progress)

  datatype System = System(
    limit: nat, lock: Option<nat>, dispatches: seq<Dispatch>, jobs: seq<Job>, runs: map<RunId, RunStatus>)

  /** What the create call did, and whether its answer came back. */
  datatype Outcome = Created | CreatedUnheard | NotCreated

  datatype Step =
    | Arrive(request: Request)
    | Enter(d: nat)
    | Proceed(d: nat)
    | List(d: nat)
    | Create(d: nat, outcome: Outcome)
    | Break(d: nat)
    | JobStarts(j: nat)
    | JobFinishes(j: nat)
    | JobVanishes(j: nat)
    | RunMoves(run: RunId, status: RunStatus)

  // ------------------------------------------------------------------ the cluster

  function View(job: Job): Entry {
    Entry(Some(RunLabel(job.run)), if job.phase == Working then Some(1) else None)
  }

  function Listing(jobs: seq<Job>): seq<Entry> {
    if jobs == [] then []
    else Listing(jobs[..|jobs| - 1]) + if jobs[|jobs| - 1].preparation then [] else [View(jobs[|jobs| - 1])]
  }

  function Named(jobs: seq<Job>, name: string): Option<Job> {
    if jobs == [] then None
    else if jobs[|jobs| - 1].name == name then Some(jobs[|jobs| - 1])
    else Named(jobs[..|jobs| - 1], name)
  }

  // ------------------------------------------------------------------ steps

  function Put(s: System, d: nat, progress: Progress): System
    requires d < |s.dispatches|
  {
    s.(dispatches := s.dispatches[d := s.dispatches[d].(progress := progress)])
  }

  /** Ends a dispatch and releases the lock. */
  function Return(s: System, d: nat, ok: bool): System
    requires d < |s.dispatches|
  {
    Put(s, d, Returned(ok)).(lock := None)
  }

  function ProceedFrom(s: System, d: nat): System
    requires d < |s.dispatches|
  {
    var r := s.dispatches[d].request;
    var existing := Named(s.jobs, r.job);
    if r.hash.Some? && existing.Some? then Return(s, d, existing.value.hash == r.hash)
    else if r.predecessor.Some? && (r.predecessor.value !in s.runs || s.runs[r.predecessor.value] != Completed)
    then Return(s, d, false)
    else Put(s, d, Polling(0))
  }

  function ListFrom(s: System, d: nat, polls: nat): System
    requires d < |s.dispatches|
  {
    var r := s.dispatches[d].request;
    if r.predecessor.None? then
      if OrdinaryCapacity(Listing(s.jobs), s.limit).Available? then Put(s, d, Admitted) else Return(s, d, false)
    else
      match ChainedCapacity(Listing(s.jobs), s.limit, RunLabel(r.predecessor.value))
      case Available => Put(s, d, Admitted)
      case LimitReached => Return(s, d, false)
      case WaitingForPredecessor(_) => if polls >= POLLS then Return(s, d, false) else Put(s, d, Polling(polls + 1))
  }

  function CreateFrom(s: System, d: nat, outcome: Outcome): System
    requires d < |s.dispatches|
  {
    var r := s.dispatches[d].request;
    var existing := Named(s.jobs, r.job);
    if existing.Some? then Return(s, d, r.hash.Some? && existing.value.hash == r.hash)
    else if outcome.NotCreated? then Return(s, d, false)
    else
      // A hosted dispatch whose answer was lost looks again and finds its own Job.
      Return(s.(jobs := s.jobs + [Job(r.job, r.run, r.preparation, r.hash, r.predecessor, Starting)]),
             d, outcome.Created? || r.hash.Some?)
  }

  predicate Holds(s: System, d: nat, progress: Progress) {
    d < |s.dispatches| && s.lock == Some(d) && s.dispatches[d].progress == progress
  }

  predicate Holding(p: Progress) {
    p.Entered? || p.Polling? || p.Admitted?
  }

  /** One step of the whole system; a step that is not enabled changes nothing. */
  function Next(s: System, step: Step): System {
    match step
    case Arrive(request) =>
      if request.preparation && request.predecessor.Some? then s
      else s.(dispatches := s.dispatches + [Dispatch(request, Waiting)])
    case Enter(d) =>
      if s.lock.None? && d < |s.dispatches| && s.dispatches[d].progress == Waiting
      then Put(s, d, Entered).(lock := Some(d)) else s
    case Proceed(d) => if Holds(s, d, Entered) then ProceedFrom(s, d) else s
    case List(d) =>
      if d < |s.dispatches| && s.dispatches[d].progress.Polling? && Holds(s, d, s.dispatches[d].progress)
      then ListFrom(s, d, s.dispatches[d].progress.polls) else s
    case Create(d, outcome) => if Holds(s, d, Admitted) then CreateFrom(s, d, outcome) else s
    case Break(d) => if s.lock == Some(d) && d < |s.dispatches| then Return(s, d, false) else s
    case JobStarts(j) =>
      if j < |s.jobs| && s.jobs[j].phase == Starting
      then s.(jobs := s.jobs[j := s.jobs[j].(phase := Working)]) else s
    case JobFinishes(j) =>
      if j < |s.jobs| then s.(jobs := s.jobs[j := s.jobs[j].(phase := Finished)]) else s
    case JobVanishes(j) => if j < |s.jobs| then s.(jobs := s.jobs[..j] + s.jobs[j + 1..]) else s
    case RunMoves(run, status) =>
      if run in s.runs && Terminal(s.runs[run]) then s else s.(runs := s.runs[run := status])
  }

  function After(s: System, steps: seq<Step>): System {
    if steps == [] then s else Next(After(s, steps[..|steps| - 1]), steps[|steps| - 1])
  }

  // ------------------------------------------------------------------ counting Jobs

  /** Worker Jobs that have not finished. */
  function Live(jobs: seq<Job>): nat {
    if jobs == [] then 0
    else
      var last := jobs[|jobs| - 1];
      Live(jobs[..|jobs| - 1]) + if !last.preparation && last.phase != Finished then 1 else 0
  }

  /** Worker Jobs that a listing does not count yet. */
  function Unstarted(jobs: seq<Job>): nat {
    if jobs == [] then 0
    else
      var last := jobs[|jobs| - 1];
      Unstarted(jobs[..|jobs| - 1]) + if !last.preparation && last.phase == Starting then 1 else 0
  }

  lemma {:induction false} ListingCounts(jobs: seq<Job>)
    ensures ActiveCount(Listing(jobs)) + Unstarted(jobs) == Live(jobs)
    decreases |jobs|
  {
    if jobs != [] {
      var front, last := jobs[..|jobs| - 1], jobs[|jobs| - 1];
      ListingCounts(front);
      CountSplit(Listing(front), if last.preparation then [] else [View(last)]);
    }
  }

  lemma {:induction false} LiveSplit(a: seq<Job>, b: seq<Job>)
    ensures Live(a + b) == Live(a) + Live(b) && Unstarted(a + b) == Unstarted(a) + Unstarted(b)
    decreases |b|
  {
    if b == [] {
      assert a + b == a;
    } else {
      var n := |b| - 1;
      LiveSplit(a, b[..n]);
      assert (a + b)[..|a + b| - 1] == a + b[..n];
    }
  }

  lemma LiveOne(job: Job)
    ensures Live([job]) == if !job.preparation && job.phase != Finished then 1 else 0
    ensures Unstarted([job]) == if !job.preparation && job.phase == Starting then 1 else 0
  {
    assert [job][..0] == [];
  }

  /** Replacing one Job changes the counts by what that Job counted. */
  lemma LiveReplaced(jobs: seq<Job>, j: nat, job: Job)
    requires j < |jobs|
    ensures Live(jobs[j := job]) == Live(jobs) - Live([jobs[j]]) + Live([job])
    ensures Unstarted(jobs[j := job]) == Unstarted(jobs) - Unstarted([jobs[j]]) + Unstarted([job])
    ensures Live(jobs[..j] + jobs[j + 1..]) == Live(jobs) - Live([jobs[j]])
    ensures Unstarted(jobs[..j] + jobs[j + 1..]) == Unstarted(jobs) - Unstarted([jobs[j]])
  {
    var a, b := jobs[..j], jobs[j + 1..];
    assert jobs == a + ([jobs[j]] + b) && jobs[j := job] == a + ([job] + b);
    LiveSplit(a, b);
    LiveSplit(a, [jobs[j]] + b);
    LiveSplit([jobs[j]], b);
    LiveSplit(a, [job] + b);
    LiveSplit([job], b);
  }

  lemma {:induction false} ListingHas(jobs: seq<Job>, e: Entry)
    ensures e in Listing(jobs) <==> exists job :: job in jobs && !job.preparation && View(job) == e
    decreases |jobs|
  {
    if jobs != [] {
      var front, last := jobs[..|jobs| - 1], jobs[|jobs| - 1];
      ListingHas(front, e);
      assert jobs == front + [last];
      assert last in jobs;
    }
  }
}
