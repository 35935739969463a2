/** The steps of a dispatch as they run: shared tables overwritten in place while the admission lock is held. */
module DispatchActions {
  import opened Wrappers
  import opened WorkStore
  import opened JobCapacity
  import opened JobAdmission
  import opened AdmissionSafety

  class Pool {
    const limit: nat
    var lock: Option<nat>
    var dispatches: seq<Dispatch>
    var jobs: seq<Job>
    var runs: map<RunId, RunStatus>

    function Here(): System
      reads this
    {
      System(limit, lock, dispatches, jobs, runs)
    }

    constructor (limit: nat, runs: map<RunId, RunStatus>)
      ensures Here() == Idle(limit, runs)
    {
      this.limit := limit;
      this.runs := runs;
      lock, dispatches, jobs := None, [], [];
    }

    /** Queues a dispatch; returns its number. */
    method Launch(request: Request) returns (d: nat)
      requires !request.preparation || request.predecessor.None?
      modifies this`dispatches
      ensures d == |old(dispatches)| && Here() == Next(old(Here()), Arrive(request))
    {
      d := |dispatches|;
      dispatches := dispatches + [Dispatch(request, Waiting)];
    }

    method Acquire(d: nat) returns (ok: bool)
      requires d < |dispatches|
      modifies this
      ensures Here() == Next(old(Here()), Enter(d))
      ensures ok <==> old(lock).None? && old(dispatches)[d].progress == Waiting
    {
      if lock.Some? || dispatches[d].progress != Waiting {
        return false;
      }
      dispatches := dispatches[d := dispatches[d].(progress := Entered)];
      lock := Some(d);
      ok := true;
    }

    /** Ends the dispatch that holds the lock, however it went. */
    method Release(d: nat, ok: bool)
      requires d < |dispatches|
      modifies this
      ensures Here() == Return(old(Here()), d, ok)
    {
      dispatches := dispatches[d := dispatches[d].(progress := Returned(ok))];
      lock := None;
    }

    method FindJob(name: string) returns (job: Option<Job>)
      ensures job == Named(jobs, name)
    {
      var i := |jobs|;
      assert jobs[..i] == jobs;
      while i > 0
        invariant 0 <= i <= |jobs|
        invariant Named(jobs[..i], name) == Named(jobs, name)
      {
        assert jobs[..i][..i - 1] == jobs[..i - 1];
        if jobs[i - 1].name == name {
          return Some(jobs[i - 1]);
        }
        i := i - 1;
      }
      job := None;
    }

    /** Looks for the Job of a hosted dispatch, then for the end of its predecessor. */
    method CheckRequest(d: nat)
      requires Holds(Here(), d, Entered)
      modifies this
      ensures Here() == Next(old(Here()), Proceed(d))
    {
      hide Named;
      var r := dispatches[d].request;
      if r.hash.Some? {
        var existing := FindJob(r.job);
        if existing.Some? {
          Release(d, existing.value.hash == r.hash);
          return;
        }
      }
      if r.predecessor.Some? && (r.predecessor.value !in runs || runs[r.predecessor.value] != Completed) {
        Release(d, false);
        return;
      }
      dispatches := dispatches[d := dispatches[d].(progress := Polling(0))];
    }

    method ListRunJobs() returns (items: seq<Entry>)
      ensures items == Listing(jobs)
    {
      items := [];
      for i := 0 to |jobs|
        invariant items == Listing(jobs[..i])
      {
        assert jobs[..i + 1][..i] == jobs[..i];
        if !jobs[i].preparation {
          items := items + [View(jobs[i])];
        }
      }
      assert jobs[..|jobs|] == jobs;
    }

    /** One look at the capacity, for an ordinary or a chained dispatch. */
    method AwaitCapacity(d: nat, polls: nat)
      requires Holds(Here(), d, Polling(polls))
      modifies this
      ensures Here() == Next(old(Here()), List(d))
    {
      hide Listing, OrdinaryCapacity, ChainedCapacity;
      var r := dispatches[d].request;
      var items := ListRunJobs();
      var capacity := if r.predecessor.None? then OrdinaryCapacity(items, limit)
                      else ChainedCapacity(items, limit, RunLabel(r.predecessor.value));
      OrdinaryNeverWaits(items, limit);
      match capacity {
        case Available =>
          dispatches := dispatches[d := dispatches[d].(progress := Admitted)];
        case LimitReached =>
          Release(d, false);
        case WaitingForPredecessor(_) =>
          if polls >= POLLS {
            Release(d, false);
          } else {
            dispatches := dispatches[d := dispatches[d].(progress := Polling(polls + 1))];
          }
      }
    }

    /** Creates the Job; `outcome` is what the cluster made of the call. */
    method CreateJob(d: nat, outcome: Outcome)
      requires Holds(Here(), d, Admitted)
      modifies this
      ensures Here() == Next(old(Here()), Create(d, outcome))
    {
      hide Named;
      var r := dispatches[d].request;
      var existing := FindJob(r.job);
      if existing.Some? {
        Release(d, r.hash.Some? && existing.value.hash == r.hash);
        return;
      }
      if outcome.NotCreated? {
        Release(d, false);
        return;
      }
      jobs := jobs + [Job(r.job, r.run, r.preparation, r.hash, r.predecessor, Starting)];
      Release(d, outcome.Created? || r.hash.Some?);
    }

    /** A whole ordinary dispatch while the cluster stands still and counts every Job. */
    method DispatchOnce(request: Request, outcome: Outcome) returns (d: nat)
      requires !request.preparation && request.predecessor.None? && LockHeld(Here()) && lock.None?
      requires Live(jobs) <= limit && Unstarted(jobs) == 0
      modifies this
      ensures LockHeld(Here()) && lock.None?
      ensures Live(jobs) <= limit
      ensures Live(old(jobs)) == limit ==> jobs == old(jobs)
    {
      hide LockHeld, Room, Next, Live, Unstarted;
      assert Room(Here(), 0) by { RoomWithoutLock(Here()); }
      d := Launch(request);
      StepKeepsLock(old(Here()), Arrive(request));
      StepKeepsRoom(old(Here()), Arrive(request), 0);
      label launched:
      LaunchedWaits(old(Here()), request);
      var ok := Acquire(d);
      StepKeepsLock(old@launched(Here()), Enter(d));
      StepKeepsRoom(old@launched(Here()), Enter(d), 0);
      EnteredHolds(old@launched(Here()), d);
      label entered:
      CheckRequest(d);
      StepKeepsLock(old@entered(Here()), Proceed(d));
      StepKeepsRoom(old@entered(Here()), Proceed(d), 0);
      ProceedsOrReturns(old@entered(Here()), d);
      if lock.None? {
        RoomMeans(Here());
        return;
      }
      label checked:
      AwaitCapacity(d, 0);
      StepKeepsLock(old@checked(Here()), List(d));
      StepKeepsRoom(old@checked(Here()), List(d), 0);
      OrdinaryLookEnds(old@checked(Here()), d);
      if lock.None? {
        RoomMeans(Here());
        return;
      }
      label admitted:
      CreateJob(d, outcome);
      StepKeepsLock(old@admitted(Here()), Create(d, outcome));
      StepKeepsRoom(old@admitted(Here()), Create(d, outcome), 0);
      CreateReturns(old@admitted(Here()), d, outcome);
      RoomMeans(Here());
    }
  }

  lemma OrdinaryNeverWaits(items: seq<Entry>, limit: nat)
    ensures !OrdinaryCapacity(items, limit).WaitingForPredecessor?
  {
  }

  lemma RoomWithoutLock(s: System)
    requires s.lock.None? && Live(s.jobs) <= s.limit
    ensures Room(s, 0)
  {
  }

  lemma RoomMeans(s: System)
    requires Room(s, 0)
    ensures Live(s.jobs) <= s.limit
  {
  }

  lemma LaunchedWaits(s: System, request: Request)
    requires !request.preparation && s.lock.None?
    ensures var t, d := Next(s, Arrive(request)), |s.dispatches|;
            t.lock.None? && |t.dispatches| == d + 1 && t.dispatches[d] == Dispatch(request, Waiting) && t.jobs == s.jobs
  {
  }

  lemma EnteredHolds(s: System, d: nat)
    requires s.lock.None? && d < |s.dispatches| && s.dispatches[d].progress == Waiting
    ensures var t := Next(s, Enter(d));
            Holds(t, d, Entered) && t.dispatches[d].request == s.dispatches[d].request && t.jobs == s.jobs
  {
  }

  lemma ProceedsOrReturns(s: System, d: nat)
    requires Holds(s, d, Entered)
    ensures var t := Next(s, Proceed(d));
            && d < |t.dispatches| && t.dispatches[d].request == s.dispatches[d].request && t.jobs == s.jobs
            && (t.lock.None? || Holds(t, d, Polling(0)))
  {
    hide Named;
  }

  lemma OrdinaryLookEnds(s: System, d: nat)
    requires Holds(s, d, Polling(0)) && s.dispatches[d].request.predecessor.None?
    ensures var t := Next(s, List(d));
            t.jobs == s.jobs && (t.lock.None? || (Holds(t, d, Admitted) && Live(s.jobs) - Unstarted(s.jobs) < s.limit))
  {
    ListingCounts(s.jobs);
    hide Listing, Live, Unstarted, ActiveCount;
  }

  lemma CreateReturns(s: System, d: nat, outcome: Outcome)
    requires Holds(s, d, Admitted)
    ensures Next(s, Create(d, outcome)).lock.None?
  {
    hide Named;
  }
}
