/** The hand-over from a chained Run's predecessor, and how long a dispatch may take. */
module AdmissionHandoff {
  import opened Wrappers
  import opened WorkStore
  import opened JobCapacity
  import opened JobAdmission
  import opened AdmissionSafety

  // ------------------------------------------------------------------ only after a durable end

  ghost predicate Ended(s: System, run: Option<RunId>) {
    run.Some? ==> run.value in s.runs && s.runs[run.value] == Completed
  }

  /** A Job never precedes the completion of the Run its dispatch was chained to. */
  ghost predicate Follows(s: System) {
    JobsFollow(s) && DispatchesFollow(s)
  }

  ghost predicate JobsFollow(s: System) {
    forall j | 0 <= j < |s.jobs| :: Ended(s, s.jobs[j].after)
  }

  ghost predicate DispatchesFollow(s: System) {
    forall d | 0 <= d < |s.dispatches| && (s.dispatches[d].progress.Polling? || s.dispatches[d].progress.Admitted?) ::
      Ended(s, s.dispatches[d].request.predecessor)
  }

  /** No two Jobs share a name. */
  ghost predicate DistinctNames(s: System) {
    forall i, j | 0 <= i < j < |s.jobs| :: s.jobs[i].name != s.jobs[j].name
  }

  lemma {:induction false} NamedFinds(jobs: seq<Job>, name: string)
    ensures Named(jobs, name).None? <==> forall i | 0 <= i < |jobs| :: jobs[i].name != name
    ensures Named(jobs, name).Some? ==> Named(jobs, name).value in jobs && Named(jobs, name).value.name == name
    decreases |jobs|
  {
    if jobs != [] {
      NamedFinds(jobs[..|jobs| - 1], name);
    }
  }

  lemma StepKeepsFollows(s: System, step: Step)
    requires Follows(s)
    ensures Follows(Next(s, step))
  {
    StepKeepsEnded(s, step);
    StepKeepsJobsFollow(s, step);
    StepKeepsDispatchesFollow(s, step);
    hide Next, JobsFollow, DispatchesFollow;
  }

  /** A Run recorded as completed stays so. */
  lemma StepKeepsEnded(s: System, step: Step)
    ensures forall run | Ended(s, run) :: Ended(Next(s, step), run)
  {
    hide Named, Listing, OrdinaryCapacity, ChainedCapacity;
  }

  lemma StepKeepsJobsFollow(s: System, step: Step)
    requires JobsFollow(s) && DispatchesFollow(s) && forall run | Ended(s, run) :: Ended(Next(s, step), run)
    ensures JobsFollow(Next(s, step))
  {
    hide Named, Listing, OrdinaryCapacity, ChainedCapacity, Ended;
  }

  lemma StepKeepsDispatchesFollow(s: System, step: Step)
    requires DispatchesFollow(s) && forall run | Ended(s, run) :: Ended(Next(s, step), run)
    ensures DispatchesFollow(Next(s, step))
  {
    hide Named, Listing, OrdinaryCapacity, ChainedCapacity;
    match step
    case RunMoves(_, _) => hide Ended;
    case Create(_, _) => hide Ended;
    case _ =>
  }

  lemma StepKeepsNames(s: System, step: Step)
    requires DistinctNames(s)
    ensures DistinctNames(Next(s, step))
  {
    hide Listing, OrdinaryCapacity, ChainedCapacity;
    match step
    case Create(d, outcome) =>
      if d < |s.dispatches| {
        NamedFinds(s.jobs, s.dispatches[d].request.job);
        hide Named;
      }
    case _ =>
  }

  /**
    In every interleaving a Job created for a chained Run stands for a predecessor that is recorded
    as completed, and a Job name is never used twice at a time.
   */
  lemma {:induction false} StartsOnlyAfterCompletion(s: System, steps: seq<Step>)
    requires Follows(s) && DistinctNames(s)
    ensures Follows(After(s, steps)) && DistinctNames(After(s, steps))
    decreases |steps|
  {
    if steps != [] {
      hide Follows, DistinctNames, Next;
      StartsOnlyAfterCompletion(s, steps[..|steps| - 1]);
      StepKeepsFollows(After(s, steps[..|steps| - 1]), steps[|steps| - 1]);
      StepKeepsNames(After(s, steps[..|steps| - 1]), steps[|steps| - 1]);
    }
  }

  /** Everything these histories keep holds before the first dispatch. */
  lemma IdleIsSafe(limit: nat, runs: map<RunId, RunStatus>)
    ensures var s := Idle(limit, runs);
            LockHeld(s) && Room(s, 0) && Follows(s) && DistinctNames(s) && WaitsAlone(s) && Bounded(s)
  {
  }

  /** A hosted dispatch whose Job exists ends well and creates nothing, whatever the capacity. */
  lemma DispatchIsRepeatable(s: System, d: nat, j: nat)
    requires Holds(s, d, Entered) && DistinctNames(s) && j < |s.jobs|
    requires s.dispatches[d].request.hash.Some? && s.jobs[j].name == s.dispatches[d].request.job
    ensures Next(s, Proceed(d)).jobs == s.jobs && Next(s, Proceed(d)).lock == None
    ensures Next(s, Proceed(d)).dispatches[d].progress == Returned(s.jobs[j].hash == s.dispatches[d].request.hash)
  {
    NamedFinds(s.jobs, s.dispatches[d].request.job);
    hide Named;
  }

  /** A Job of this name is there, as the one that is listed last. */
  ghost predicate LastNamed(jobs: seq<Job>, name: string, j: nat) {
    j < |jobs| && jobs[j].name == name && forall k | j < k < |jobs| :: jobs[k].name != name
  }

  lemma {:induction false} NamedIs(jobs: seq<Job>, name: string)
    ensures Named(jobs, name).None? <==> forall j | 0 <= j < |jobs| :: jobs[j].name != name
    ensures forall j: nat | LastNamed(jobs, name, j) :: Named(jobs, name) == Some(jobs[j])
    ensures Named(jobs, name).Some? ==> exists j: nat :: LastNamed(jobs, name, j)
    decreases |jobs|
  {
    if jobs != [] {
      var n := |jobs| - 1;
      NamedIs(jobs[..n], name);
      if jobs[n].name == name {
        assert LastNamed(jobs, name, n);
      } else {
        assert forall j: nat :: LastNamed(jobs, name, j) <==> LastNamed(jobs[..n], name, j);
      }
    }
  }

  /**
    Entering: a hosted dispatch whose Job is there returns, well if the hashes agree; a chained one whose
    predecessor has not completed returns in vain; any other begins to look at the cluster.
   */
  lemma EnteringDecides(s: System, d: nat)
    requires Holds(s, d, Entered)
    ensures var t, r := Next(s, Proceed(d)), s.dispatches[d].request;
            && t.jobs == s.jobs
            && (forall j: nat | r.hash.Some? && LastNamed(s.jobs, r.job, j) ::
                  t.dispatches[d].progress == Returned(s.jobs[j].hash == r.hash) && t.lock == None)
            && (r.hash.None? || (forall j | 0 <= j < |s.jobs| :: s.jobs[j].name != r.job) ==>
                  if r.predecessor.Some? && (r.predecessor.value !in s.runs || s.runs[r.predecessor.value] != Completed)
                  then t.dispatches[d].progress == Returned(false) && t.lock == None
                  else t.dispatches[d].progress == Polling(0) && t.lock == Some(d))
  {
    NamedIs(s.jobs, s.dispatches[d].request.job);
    hide Named, LastNamed;
  }

  /**
    Creating: a used name adds nothing and is only right for a hosted dispatch with the same hash; a free name
    adds the one Job of the request, unless the cluster refuses it. The dispatch is over either way.
   */
  lemma CreatingDecides(s: System, d: nat, outcome: Outcome)
    requires Holds(s, d, Admitted)
    ensures var t, r := Next(s, Create(d, outcome)), s.dispatches[d].request;
            && t.lock == None && t.dispatches[d].progress.Returned?
            && (forall j: nat | LastNamed(s.jobs, r.job, j) ::
                  t.jobs == s.jobs
                  && t.dispatches[d].progress == Returned(r.hash.Some? && s.jobs[j].hash == r.hash))
            && ((forall j | 0 <= j < |s.jobs| :: s.jobs[j].name != r.job) ==>
                  if outcome == NotCreated then t.jobs == s.jobs && t.dispatches[d].progress == Returned(false)
                  else
                    && t.jobs == s.jobs + [Job(r.job, r.run, r.preparation, r.hash, r.predecessor, Starting)]
                    && t.dispatches[d].progress == Returned(outcome == Created || r.hash.Some?))
  {
    NamedIs(s.jobs, s.dispatches[d].request.job);
    hide Named, LastNamed;
  }

  // ------------------------------------------------------------------ waiting

  /** Every worker Job that a listing counts belongs to the Run with this label. */
  ghost predicate WorkingOnly(jobs: seq<Job>, runLabel: string) {
    forall job | job in jobs && !job.preparation && job.phase == Working :: RunLabel(job.run) == runLabel
  }

  lemma OnlyActiveMeans(jobs: seq<Job>, runLabel: string)
    ensures OnlyActiveIs(Listing(jobs), runLabel) <==> WorkingOnly(jobs, runLabel)
  {
    hide Listing, RunLabel;
    forall job | job in jobs && !job.preparation && job.phase == Working
      ensures View(job) in Listing(jobs) && Active(View(job)) == 1
    {
      ListingHas(jobs, View(job));
    }
    forall e | e in Listing(jobs) && Active(e) > 0
      ensures exists job :: job in jobs && !job.preparation && job.phase == Working && View(job) == e
    {
      ListingHas(jobs, e);
    }
  }

  /**
    One look of a dispatch at the cluster: it is admitted exactly when the counted Jobs leave room,
    and it waits on exactly when it is chained, its time is not over and every counted Job belongs
    to its predecessor.
   */
  lemma LookDecides(s: System, d: nat, polls: nat)
    requires Holds(s, d, Polling(polls))
    ensures var progress := Next(s, List(d)).dispatches[d].progress;
            var counted, predecessor := Live(s.jobs) - Unstarted(s.jobs), s.dispatches[d].request.predecessor;
            && (progress == Admitted <==> counted < s.limit)
            && (progress.Polling? <==>
                && counted >= s.limit && predecessor.Some? && polls < POLLS
                && WorkingOnly(s.jobs, RunLabel(predecessor.value)))
            && (progress.Polling? ==> progress == Polling(polls + 1))
            && (!progress.Admitted? && !progress.Polling? ==>
                progress == Returned(false) && Next(s, List(d)).lock == None)
            && Next(s, List(d)).jobs == s.jobs
  {
    CapacityOf(s.jobs, s.limit, if s.dispatches[d].request.predecessor.Some?
                                then RunLabel(s.dispatches[d].request.predecessor.value) else "");
    hide Listing, OrdinaryCapacity, ChainedCapacity, WorkingOnly, Live, Unstarted, RunLabel;
  }

  lemma CapacityOf(jobs: seq<Job>, limit: nat, runLabel: string)
    ensures var counted := Live(jobs) - Unstarted(jobs);
            && OrdinaryCapacity(Listing(jobs), limit).Available? == (counted < limit)
            && ChainedCapacity(Listing(jobs), limit, runLabel).Available? == (counted < limit)
            && ChainedCapacity(Listing(jobs), limit, runLabel).WaitingForPredecessor? ==
               (counted >= limit && WorkingOnly(jobs, runLabel))
  {
    ListingCounts(jobs);
    OnlyActiveMeans(jobs, runLabel);
    hide Listing, ActiveCount, OnlyActiveIs, WorkingOnly, Live, Unstarted;
  }

  lemma {:induction false} NoneUnstarted(jobs: seq<Job>)
    ensures Unstarted(jobs) == 0 <==> forall job | job in jobs && !job.preparation :: job.phase != Starting
    decreases |jobs|
  {
    if jobs != [] {
      NoneUnstarted(jobs[..|jobs| - 1]);
      assert jobs == jobs[..|jobs| - 1] + [jobs[|jobs| - 1]];
    }
  }

  /** A dispatch that has waited shares the pool with nobody but its predecessor. */
  ghost predicate WaitsAlone(s: System) {
    forall d | s.lock == Some(d) && d < |s.dispatches| && s.dispatches[d].progress.Polling?
               && s.dispatches[d].progress.polls > 0 ::
      && s.dispatches[d].request.predecessor.Some?
      && WorkingOnly(s.jobs, RunLabel(s.dispatches[d].request.predecessor.value))
      && Unstarted(s.jobs) == 0
  }

  lemma JobsStayAlone(s: System, step: Step, runLabel: string)
    requires step.JobStarts? || step.JobFinishes? || step.JobVanishes?
    requires WorkingOnly(s.jobs, runLabel) && Unstarted(s.jobs) == 0
    ensures WorkingOnly(Next(s, step).jobs, runLabel) && Unstarted(Next(s, step).jobs) == 0
  {
    NoneUnstarted(s.jobs);
    NoneUnstarted(Next(s, step).jobs);
    hide Unstarted, RunLabel;
    forall job | job in Next(s, step).jobs
      ensures !job.preparation && job.phase == Working ==> RunLabel(job.run) == runLabel
      ensures !job.preparation ==> job.phase != Starting
    {
      if job !in s.jobs {
        var k :| 0 <= k < |Next(s, step).jobs| && Next(s, step).jobs[k] == job;
        assert s.jobs[k] in s.jobs;
      }
    }
  }

  lemma LookKeepsWaitsAlone(s: System, d: nat)
    requires LockHeld(s) && WaitsAlone(s) && Unstarted(s.jobs) == 0
    ensures WaitsAlone(Next(s, List(d)))
  {
    hide WorkingOnly, Unstarted, RunLabel, Live, ListFrom;
    if d < |s.dispatches| && s.dispatches[d].progress.Polling? && s.lock == Some(d) {
      LookDecides(s, d, s.dispatches[d].progress.polls);
      assert Next(s, List(d)).dispatches[d].request == s.dispatches[d].request by {
        ListKeepsRequests(s, d, s.dispatches[d].progress.polls);
      }
      LookLock(s, d);
    }
  }

  lemma ListKeepsRequests(s: System, d: nat, polls: nat)
    requires d < |s.dispatches|
    ensures |ListFrom(s, d, polls).dispatches| == |s.dispatches|
    ensures ListFrom(s, d, polls).dispatches[d].request == s.dispatches[d].request
  {
    hide Listing, OrdinaryCapacity, ChainedCapacity;
  }

  lemma LookLock(s: System, d: nat)
    requires s.lock == Some(d)
    ensures Next(s, List(d)).lock == Some(d) || Next(s, List(d)).lock == None
  {
    hide Listing, OrdinaryCapacity, ChainedCapacity;
  }

  lemma StepKeepsWaitsAlone(s: System, step: Step)
    requires LockHeld(s) && WaitsAlone(s)
    requires step.List? ==> Unstarted(s.jobs) == 0
    ensures WaitsAlone(Next(s, step))
  {
    hide WorkingOnly, Unstarted, RunLabel, Live, Listing, Named, OrdinaryCapacity, ChainedCapacity;
    match step
    case List(d) => LookKeepsWaitsAlone(s, d);
    case Create(d, outcome) =>
    case Proceed(d) =>
    case JobStarts(_) => ClusterStepKeepsWaitsAlone(s, step);
    case JobFinishes(_) => ClusterStepKeepsWaitsAlone(s, step);
    case JobVanishes(_) => ClusterStepKeepsWaitsAlone(s, step);
    case _ =>
  }

  lemma ClusterStepKeepsWaitsAlone(s: System, step: Step)
    requires WaitsAlone(s) && (step.JobStarts? || step.JobFinishes? || step.JobVanishes?)
    ensures WaitsAlone(Next(s, step))
  {
    hide WorkingOnly, Unstarted, RunLabel;
    var t := Next(s, step);
    assert t.dispatches == s.dispatches && t.lock == s.lock;
    forall d | t.lock == Some(d) && d < |t.dispatches| && t.dispatches[d].progress.Polling?
               && t.dispatches[d].progress.polls > 0
      ensures t.dispatches[d].request.predecessor.Some?
      ensures WorkingOnly(t.jobs, RunLabel(t.dispatches[d].request.predecessor.value)) && Unstarted(t.jobs) == 0
    {
      JobsStayAlone(s, step, RunLabel(s.dispatches[d].request.predecessor.value));
    }
  }

  lemma {:induction false} WaitingStaysAlone(s: System, steps: seq<Step>)
    requires LockHeld(s) && WaitsAlone(s) && MissesAtMost(s, steps, 0)
    ensures LockHeld(After(s, steps)) && WaitsAlone(After(s, steps))
    decreases |steps|
  {
    if steps != [] {
      hide LockHeld, WaitsAlone, MissesAtMost, Next;
      MissesPrefix(s, steps, 0);
      WaitingStaysAlone(s, steps[..|steps| - 1]);
      StepKeepsLock(After(s, steps[..|steps| - 1]), steps[|steps| - 1]);
      StepKeepsWaitsAlone(After(s, steps[..|steps| - 1]), steps[|steps| - 1]);
    }
  }

  /**
    Once a chained dispatch has had to wait, and every created Job is counted by the next listing,
    no later look refuses it: it is admitted, waits on, or runs out of time.
   */
  lemma WaitNeverTurnsIntoRefusal(s: System, steps: seq<Step>, d: nat, polls: nat)
    requires LockHeld(s) && WaitsAlone(s) && MissesAtMost(s, steps + [List(d)], 0)
    requires Holds(After(s, steps), d, Polling(polls)) && polls > 0
    ensures var t := Next(After(s, steps), List(d));
            || t.dispatches[d].progress == Admitted
            || t.dispatches[d].progress == Polling(polls + 1)
            || (polls >= POLLS && t.dispatches[d].progress == Returned(false))
  {
    var all := steps + [List(d)];
    MissesPrefix(s, all, 0);
    assert all[..|all| - 1] == steps;
    WaitingStaysAlone(s, steps);
    hide After, LockHeld, MissesAtMost, Next, Live, Unstarted, WorkingOnly, RunLabel;
    LookDecides(After(s, steps), d, polls);
  }

  // ------------------------------------------------------------------ the length of a dispatch

  /** The steps a dispatch has left. */
  function Left(p: Progress): int {
    match p
    case Waiting => POLLS + 4
    case Entered => POLLS + 3
    case Polling(polls) => POLLS + 2 - polls
    case Admitted => 1
    case Returned(_) => 0
  }

  ghost predicate Bounded(s: System) {
    forall d | 0 <= d < |s.dispatches| && s.dispatches[d].progress.Polling? :: s.dispatches[d].progress.polls <= POLLS
  }

  predicate OwnStep(step: Step, d: nat) {
    (step.Enter? || step.Proceed? || step.List? || step.Create? || step.Break?) && step.d == d
  }

  lemma StepUsesOne(s: System, step: Step, d: nat)
    requires Bounded(s) && LockHeld(s) && d < |s.dispatches|
    ensures Bounded(Next(s, step)) && d < |Next(s, step).dispatches|
    ensures Next(s, step).dispatches[d].request == s.dispatches[d].request
    ensures OwnStep(step, d) && Next(s, step) != s ==>
              Left(Next(s, step).dispatches[d].progress) < Left(s.dispatches[d].progress)
    ensures !OwnStep(step, d) ==> Next(s, step).dispatches[d] == s.dispatches[d]
    ensures Left(Next(s, step).dispatches[d].progress) >= 0
  {
    hide Named, Listing, OrdinaryCapacity, ChainedCapacity;
  }

  /** The steps of dispatch `d` in a run that took effect. */
  function Taken(s: System, steps: seq<Step>, d: nat): nat {
    if steps == [] then 0
    else
      var before := After(s, steps[..|steps| - 1]);
      var last := steps[|steps| - 1];
      Taken(s, steps[..|steps| - 1], d) + if OwnStep(last, d) && Next(before, last) != before then 1 else 0
  }

  /** However the rest behaves, a dispatch ends within a fixed number of its own steps. */
  lemma {:induction false} DispatchIsShort(s: System, steps: seq<Step>, d: nat)
    requires Bounded(s) && LockHeld(s) && d < |s.dispatches|
    ensures var t := After(s, steps);
            && Bounded(t) && LockHeld(t) && d < |t.dispatches|
            && Left(t.dispatches[d].progress) >= 0
            && Taken(s, steps, d) + Left(t.dispatches[d].progress) <= POLLS + 4
    decreases |steps|
  {
    hide Next, LockHeld, Bounded, OwnStep;
    if steps == [] {
      StartLeft(s, d);
    } else {
      var before, last := After(s, steps[..|steps| - 1]), steps[|steps| - 1];
      DispatchIsShort(s, steps[..|steps| - 1], d);
      StepUsesOne(before, last, d);
      StepKeepsLock(before, last);
      hide Left;
    }
  }

  lemma StartLeft(s: System, d: nat)
    requires Bounded(s) && d < |s.dispatches|
    ensures 0 <= Left(s.dispatches[d].progress) <= POLLS + 4
  {
  }
}
