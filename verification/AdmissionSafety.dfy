/** What every interleaving of dispatches, Jobs and Runs keeps. */
module AdmissionSafety {
  import opened Wrappers
  import opened WorkStore
  import opened JobCapacity
  import opened JobAdmission

  /** The steps of a run before the i-th find at most `k` worker Jobs missing from a listing. */
  ghost predicate MissesAtMost(s: System, steps: seq<Step>, k: nat) {
    forall i {:trigger steps[i]} | 0 <= i < |steps| && steps[i].List? :: Unstarted(After(s, steps[..i]).jobs) <= k
  }

  lemma MissesPrefix(s: System, steps: seq<Step>, k: nat)
    requires steps != [] && MissesAtMost(s, steps, k)
    ensures MissesAtMost(s, steps[..|steps| - 1], k)
    ensures steps[|steps| - 1].List? ==> Unstarted(After(s, steps[..|steps| - 1]).jobs) <= k
  {
    var front := steps[..|steps| - 1];
    forall i | 0 <= i < |front| && front[i].List?
      ensures Unstarted(After(s, front[..i]).jobs) <= k
    {
      assert steps[i] == front[i] && steps[..i] == front[..i];
    }
  }

  // ------------------------------------------------------------------ the lock

  ghost predicate LockHeld(s: System) {
    && (s.lock.Some? ==> s.lock.value < |s.dispatches| && Holding(s.dispatches[s.lock.value].progress))
    && (forall d | 0 <= d < |s.dispatches| && Holding(s.dispatches[d].progress) :: s.lock == Some(d))
  }

  /** Every step leaves the dispatches alone, adds one, or moves one along. */
  ghost predicate Moves(s: System, t: System) {
    || (t.dispatches == s.dispatches && t.lock == s.lock)
    || (t.lock == s.lock && exists r :: t.dispatches == s.dispatches + [Dispatch(r, Waiting)])
    || exists d, p :: MovesTo(s, t, d, p)
  }

  ghost predicate MovesTo(s: System, t: System, d: nat, p: Progress) {
    && d < |s.dispatches|
    && t.dispatches == s.dispatches[d := s.dispatches[d].(progress := p)]
    && (s.lock == Some(d) || (s.lock.None? && s.dispatches[d].progress == Waiting && p == Entered))
    && t.lock == (if Holding(p) then Some(d) else None)
  }

  lemma OwnStepMoves(s: System, d: nat, step: Step, p: Progress)
    requires d < |s.dispatches|
    requires s.lock == Some(d) || (s.lock.None? && s.dispatches[d].progress == Waiting && p == Entered)
    requires Next(s, step).dispatches == s.dispatches[d := s.dispatches[d].(progress := p)]
    requires Next(s, step).lock == if Holding(p) then Some(d) else None
    ensures Moves(s, Next(s, step))
  {
    assert MovesTo(s, Next(s, step), d, p);
  }

  lemma StepMoves(s: System, step: Step)
    requires LockHeld(s)
    ensures Moves(s, Next(s, step)) && Next(s, step).limit == s.limit
  {
    hide Named, OrdinaryCapacity, ChainedCapacity, Listing, Moves, LockHeld;
    NothingMoves(s, Next(s, step));
    match step
    case Arrive(request) => ArrivalMoves(s, request);
    case Enter(d) =>
      if Next(s, step) != s { OwnStepMoves(s, d, step, Entered); }
    case Proceed(d) =>
      if Next(s, step) != s { OwnStepMoves(s, d, step, Next(s, step).dispatches[d].progress); }
    case List(d) =>
      if Next(s, step) != s { OwnStepMoves(s, d, step, Next(s, step).dispatches[d].progress); }
    case Create(d, outcome) =>
      if Next(s, step) != s { OwnStepMoves(s, d, step, Next(s, step).dispatches[d].progress); }
    case Break(d) =>
      if Next(s, step) != s { OwnStepMoves(s, d, step, Returned(false)); }
    case _ =>
  }

  lemma NothingMoves(s: System, t: System)
    ensures t.dispatches == s.dispatches && t.lock == s.lock ==> Moves(s, t)
  {
  }

  lemma ArrivalMoves(s: System, r: Request)
    ensures Moves(s, Next(s, Arrive(r)))
  {
  }

  lemma MovesKeepLock(s: System, t: System)
    requires LockHeld(s) && Moves(s, t)
    ensures LockHeld(t)
  {
  }

  lemma StepKeepsLock(s: System, step: Step)
    requires LockHeld(s)
    ensures LockHeld(Next(s, step))
  {
    StepMoves(s, step);
    MovesKeepLock(s, Next(s, step));
  }

  // ------------------------------------------------------------------ capacity

  /** At most `limit + k` live worker Jobs, and room for one more while a worker Job is admitted. */
  ghost predicate Room(s: System, k: nat) {
    && Live(s.jobs) <= s.limit + k
    && (forall d | s.lock == Some(d) && d < |s.dispatches| && s.dispatches[d].progress.Admitted? ::
          s.dispatches[d].request.preparation || Live(s.jobs) < s.limit + k)
  }

  lemma ClusterKeepsRoom(s: System, step: Step, k: nat)
    requires Room(s, k) && (step.JobStarts? || step.JobFinishes? || step.JobVanishes?)
    ensures Room(Next(s, step), k)
  {
    hide Live, Unstarted;
    var j := if step.JobStarts? || step.JobFinishes? || step.JobVanishes? then step.j else 0;
    if j < |s.jobs| {
      var job := s.jobs[j];
      LiveOne(job);
      LiveOne(job.(phase := Working));
      LiveOne(job.(phase := Finished));
      LiveReplaced(s.jobs, j, job.(phase := Working));
      LiveReplaced(s.jobs, j, job.(phase := Finished));
    }
  }

  lemma ListKeepsRoom(s: System, d: nat, k: nat)
    requires Room(s, k) && LockHeld(s) && Unstarted(s.jobs) <= k
    ensures Room(Next(s, List(d)), k)
  {
    hide Live, Unstarted, Listing, ActiveCount, OnlyActiveIs;
    ListingCounts(s.jobs);
  }

  lemma CreateKeepsRoom(s: System, d: nat, outcome: Outcome, k: nat)
    requires Room(s, k) && LockHeld(s)
    ensures Room(Next(s, Create(d, outcome)), k)
  {
    hide Live, Unstarted, Named;
    if Holds(s, d, Admitted) {
      var r := s.dispatches[d].request;
      var job := Job(r.job, r.run, r.preparation, r.hash, r.predecessor, Starting);
      LiveSplit(s.jobs, [job]);
      LiveOne(job);
    }
  }

  lemma StepKeepsRoom(s: System, step: Step, k: nat)
    requires Room(s, k) && LockHeld(s)
    requires step.List? ==> Unstarted(s.jobs) <= k
    ensures Room(Next(s, step), k)
  {
    hide Live, Unstarted, Listing, Named, ActiveCount;
    match step
    case List(d) => ListKeepsRoom(s, d, k);
    case Create(d, outcome) => CreateKeepsRoom(s, d, outcome, k);
    case JobStarts(_) => ClusterKeepsRoom(s, step, k);
    case JobFinishes(_) => ClusterKeepsRoom(s, step, k);
    case JobVanishes(_) => ClusterKeepsRoom(s, step, k);
    case _ =>
  }

  /**
    However dispatches, Jobs and Runs interleave, the live worker Jobs exceed the limit by no more
    than the number of started-but-uncounted Jobs a listing may miss.
   */
  lemma {:induction false} LiveJobsAreBounded(s: System, steps: seq<Step>, k: nat)
    requires LockHeld(s) && Room(s, k) && MissesAtMost(s, steps, k)
    ensures LockHeld(After(s, steps)) && Room(After(s, steps), k)
    decreases |steps|
  {
    if steps != [] {
      hide LockHeld, Room, MissesAtMost, Next;
      MissesPrefix(s, steps, k);
      var front := steps[..|steps| - 1];
      LiveJobsAreBounded(s, front, k);
      StepKeepsLock(After(s, front), steps[|steps| - 1]);
      StepKeepsRoom(After(s, front), steps[|steps| - 1], k);
    }
  }

  function Idle(limit: nat, runs: map<RunId, RunStatus>): System {
    System(limit, None, [], [], runs)
  }

  lemma {:induction false} LimitFixed(s: System, steps: seq<Step>)
    requires LockHeld(s)
    ensures After(s, steps).limit == s.limit && LockHeld(After(s, steps))
    decreases |steps|
  {
    if steps != [] {
      hide Next, LockHeld, Moves;
      LimitFixed(s, steps[..|steps| - 1]);
      StepMoves(After(s, steps[..|steps| - 1]), steps[|steps| - 1]);
      StepKeepsLock(After(s, steps[..|steps| - 1]), steps[|steps| - 1]);
    }
  }

  /** When every created Job is counted by the next listing, the limit is never exceeded. */
  lemma NeverOverTheLimit(limit: nat, runs: map<RunId, RunStatus>, steps: seq<Step>)
    requires MissesAtMost(Idle(limit, runs), steps, 0)
    ensures Live(After(Idle(limit, runs), steps).jobs) <= limit
  {
    LiveJobsAreBounded(Idle(limit, runs), steps, 0);
    LimitFixed(Idle(limit, runs), steps);
    hide After, MissesAtMost;
  }
}
