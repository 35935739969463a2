/** When the reaper fails an execution that is alive, and what a write does that comes late. */
module ReaperLosses {
  import opened Wrappers
  import opened Reaper
  import opened ReaperPasses
  import opened ReaperSystem
  import opened ReaperHistory

  // ------------------------------------------------------------------ Jobs created behind the listing

  predicate Creates(step: Step, name: string) {
    step.JobCreated? && step.name == name
  }

  /** The steps create a Job of this name, and none of them removes it once created. */
  ghost predicate CreatedAndKept(steps: seq<Step>, name: string) {
    && (exists k :: 0 <= k < |steps| && Creates(steps[k], name))
    && (forall k, m | 0 <= k < m < |steps| && Creates(steps[k], name) :: steps[m] != JobRemoved(name))
  }

  ghost predicate CreatedIn(steps: seq<Step>, name: string) {
    exists k :: 0 <= k < |steps| && Creates(steps[k], name)
  }

  lemma CreatedOneMore(steps: seq<Step>, step: Step, name: string)
    ensures CreatedIn(steps + [step], name) <==> CreatedIn(steps, name) || Creates(step, name)
    ensures CreatedAndKept(steps + [step], name) <==>
            if Creates(step, name) then CreatedIn(steps, name) ==> CreatedAndKept(steps, name)
            else CreatedAndKept(steps, name) && step != JobRemoved(name)
  {
    var more, n := steps + [step], |steps|;
    assert more[n] == step && forall k | 0 <= k < n :: more[k] == steps[k];
    if CreatedIn(steps, name) {
      var k :| 0 <= k < n && Creates(steps[k], name);
      assert Creates(more[k], name);
    }
    if Creates(step, name) {
      assert Creates(more[n], name);
    }
    if CreatedAndKept(more, name) {
      forall k, m | 0 <= k < m < n && Creates(steps[k], name)
        ensures steps[m] != JobRemoved(name)
      {
        assert Creates(more[k], name) && more[m] == steps[m];
      }
    }
    if CreatedAndKept(steps, name) && step != JobRemoved(name) {
      forall k, m | 0 <= k < m < |more| && Creates(more[k], name)
        ensures more[m] != JobRemoved(name)
      {
      }
    }
  }

  /** A name that was new to begin with is in the cluster exactly if the steps created its Job and kept it. */
  lemma {:induction false} NewJobsLive(s: System, steps: seq<Step>, name: string)
    requires Tracked(s) && name !in s.born
    ensures name in After(s, steps).born <==> CreatedIn(steps, name)
    ensures name in Visible(After(s, steps).jobs) <==> CreatedAndKept(steps, name)
    decreases |steps|
  {
    if steps != [] {
      var front, last := steps[..|steps| - 1], steps[|steps| - 1];
      assert front + [last] == steps;
      NewJobsLive(s, front, name);
      CreatedOneMore(front, last, name);
      StepNames(After(s, front), last);
      hide Next, CreatedAndKept, CreatedIn, Visible;
      assert CreatedAndKept(front, name) ==> CreatedIn(front, name) by { KeptWasCreated(front, name); }
    }
  }

  lemma KeptWasCreated(steps: seq<Step>, name: string)
    ensures CreatedAndKept(steps, name) ==> CreatedIn(steps, name)
  {
  }

  /** A name that was known but has no Job never gets one again. */
  lemma {:induction false} OldJobsStayGone(s: System, steps: seq<Step>, name: string)
    requires name in s.born && name !in Visible(s.jobs)
    ensures name in After(s, steps).born && name !in Visible(After(s, steps).jobs)
    decreases |steps|
  {
    if steps != [] {
      OldJobsStayGone(s, steps[..|steps| - 1], name);
      StepNames(After(s, steps[..|steps| - 1]), steps[|steps| - 1]);
      hide Next, Visible;
    }
  }

  /** A pass that has not ended keeps the list of Jobs it began with. */
  lemma {:induction false} PassKeepsItems(s: System, steps: seq<Step>)
    requires s.progress.Some? && Finish !in steps
    ensures After(s, steps).progress.Some?
    ensures After(s, steps).progress.value.items == s.progress.value.items
    ensures After(s, steps).progress.value.known == s.progress.value.known
    decreases |steps|
  {
    if steps != [] {
      var front, last := steps[..|steps| - 1], steps[|steps| - 1];
      assert front + [last] == steps;
      PassKeepsItems(s, front);
      hide Visible, Remove, EndAll, Listed, NextCall, Happen;
    }
  }

  /** The sweep is about to fail this call, in a pass that began at `s`. */
  ghost predicate SweepFails(s: System, steps: seq<Step>, c: Call) {
    var t := After(Next(s, ListJobs), steps);
    t.progress.Some? && t.progress.value.listed.Some? && t.progress.value.pending == Some(c)
  }

  /**
    The sweep fails an execution whose Job is in the cluster exactly when that Job was created since
    the Jobs were listed, and was not removed again.
   */
  lemma LivingJobIsFailedExactly(s: System, steps: seq<Step>, c: Call)
    requires Tracked(s) && s.progress.None? && Finish !in steps && SweepFails(s, steps, c)
    ensures c.job in Visible(After(Next(s, ListJobs), steps).jobs) <==>
            c.job !in s.born && CreatedAndKept(steps, c.job)
  {
    var u := Next(s, ListJobs);
    StepKeepsTracked(s, ListJobs);
    PassKeepsItems(u, steps);
    OnlyEndedOrMissing(u, steps, c);
    hide After, Visible, CreatedAndKept, Tracked;
    if c.job in s.born {
      OldJobsStayGone(u, steps, c.job);
    } else {
      NewJobsLive(u, steps, c.job);
    }
  }

  // ------------------------------------------------------------------ the gap between the two listings

  ghost predicate AllRecordedIn(s: Intents, names: set<string>) {
    forall id | id in s :: RecordedIn(s[id], names)
  }

  predicate RecordsNew(step: Step, names: set<string>) {
    step.Other? && step.event.JobRecorded? && step.event.job !in names
  }

  /** Names recorded so far stay known while no other name is recorded. */
  ghost predicate Confined(s: System, names: set<string>) {
    && AllRecordedIn(s.intents, names)
    && (forall d | d in s.drafts :: RecordedIn(d.read, names))
    && (s.progress.Some? && s.progress.value.pending.Some? ==> s.progress.value.pending.value.job in names)
  }

  lemma StepConfined(s: System, step: Step, names: set<string>)
    requires Confined(s, names) && !RecordsNew(step, names)
    ensures Confined(Next(s, step), names)
  {
    hide Visible, Remove, EndAll, Listed, NextCall, Happen, Allowed;
    if step.Store? && step.k < |s.drafts| {
      assert s.drafts[step.k] in s.drafts;
      EventRecorded(s.intents, Stored(s.drafts[step.k]), names);
      var rest := s.drafts[..step.k] + s.drafts[step.k + 1..];
      assert forall d | d in rest :: d in s.drafts;
    } else if step.Other? && !step.event.Stored? {
      EventRecorded(s.intents, step.event, names);
    } else if step.Look? {
      LookConfined(s, names);
    }
  }

  lemma LookConfined(s: System, names: set<string>)
    requires Confined(s, names)
    ensures Confined(Next(s, Look), names)
  {
    hide Visible, NextCall;
  }

  lemma {:induction false} GapConfined(s: System, gap: seq<Step>, names: set<string>)
    requires Confined(s, names) && forall step | step in gap :: !RecordsNew(step, names)
    ensures Confined(After(s, gap), names)
    decreases |gap|
  {
    if gap != [] {
      var front, last := gap[..|gap| - 1], gap[|gap| - 1];
      assert front + [last] == gap;
      assert last in gap && forall step | step in front :: step in gap;
      hide Next, Confined, RecordsNew;
      GapConfined(s, front, names);
      StepConfined(After(s, front), last, names);
    }
  }

  /** A pass: the Job listing, the steps up to the intent listing, and those after it. */
  function Body(gap: seq<Step>, order: seq<IntentId>, rest: seq<Step>): seq<Step> {
    gap + [ListIntents(order)] + rest
  }

  /** The sweep's intents were listed at this ListIntents. */
  ghost predicate SplitsPass(s: System, gap: seq<Step>) {
    var u := After(Next(s, ListJobs), gap);
    u.progress.Some? && u.progress.value.listed.None? && AtEnd(u.progress.value)
  }

  /**
    An execution that the sweep fails while its Job lives had that Job recorded between the two
    listings: when no new Job is recorded in that gap, only executions without a Job are failed.
   */
  lemma LivingJobWasRecordedInTheGap(
    s: System, gap: seq<Step>, order: seq<IntentId>, rest: seq<Step>, c: Call)
    requires Tracked(s) && s.progress.None? && Finish !in Body(gap, order, rest) && SplitsPass(s, gap)
    requires SweepFails(s, Body(gap, order, rest), c)
    requires c.job in Visible(After(Next(s, ListJobs), Body(gap, order, rest)).jobs)
    ensures exists step :: step in gap && RecordsNew(step, s.born)
  {
    var u := Next(s, ListJobs);
    LivingJobIsFailedExactly(s, Body(gap, order, rest), c);
    if forall step | step in gap :: !RecordsNew(step, s.born) {
      assert Confined(u, s.born);
      GapConfined(u, gap, s.born);
      ListedRecordedBefore(u, gap, order, rest, c, s.born);
      assert false;
    }
  }

  lemma ListedRecordedBefore(
    u: System, gap: seq<Step>, order: seq<IntentId>, rest: seq<Step>, c: Call, names: set<string>)
    requires u.progress.Some? && Finish !in Body(gap, order, rest) && Tracked(u)
    requires AllRecordedIn(After(u, gap).intents, names)
    requires var v := After(u, gap); v.progress.Some? && v.progress.value.listed.None? && AtEnd(v.progress.value)
    requires var t := After(u, Body(gap, order, rest));
             t.progress.Some? && t.progress.value.listed.Some? && t.progress.value.pending == Some(c)
    ensures c.job in names
  {
    var v := After(u, gap);
    var w := Next(v, ListIntents(order));
    AfterOne(u, gap, ListIntents(order));
    AfterSplit(u, gap + [ListIntents(order)], rest);
    assert forall step | step in rest :: step in Body(gap, order, rest);
    SweepKeepsListed(w, rest);
    OnlyEndedOrMissing(u, Body(gap, order, rest), c);
    hide After, Visible, Listed, Tracked;
    var x :| (c.id, x) in Listed(v.intents, order, WINDOW) && x.execution.jobName == Some(c.job);
    ListedHas(v.intents, order, WINDOW, (c.id, x));
    assert RecordedIn(v.intents[c.id], names);
  }

  lemma {:induction false} SweepKeepsListed(s: System, steps: seq<Step>)
    requires s.progress.Some? && s.progress.value.listed.Some? && Finish !in steps
    ensures After(s, steps).progress.Some? && After(s, steps).progress.value.listed == s.progress.value.listed
    decreases |steps|
  {
    if steps != [] {
      var front, last := steps[..|steps| - 1], steps[|steps| - 1];
      assert front + [last] == steps;
      SweepKeepsListed(s, front);
      SweepKeepsLists(After(s, front), last);
      hide Next;
    }
  }

  // ------------------------------------------------------------------ a living execution is failed

  function Started(e: string, j: string): Intent {
    Intent("executing", ExecutionState(Some(e), Some(j), "executor_job_created", None))
  }

  /** One approved intent, no Job, and no pass under way. */
  function Calm(): System {
    System(map["i" := Intent("approved", NO_EXECUTION)], [], [], {}, None, [])
  }

  /** Between the two listings the intent is dispatched, its Job created and recorded. */
  function Racing(): seq<Step> {
    [Prepare(Dispatch("i", "e")), Store(0), JobCreated("j", "i", "e"), Other(JobRecorded("i", "e", "j"))]
  }

  lemma FourSteps(s: System, a: Step, b: Step, c: Step, d: Step)
    ensures After(s, [a, b, c, d]) == Next(Next(Next(Next(s, a), b), c), d)
  {
    ThreeSteps(s, a, b, c);
    hide *;
    assert [a, b, c] + [d] == [a, b, c, d];
    AfterOne(s, [a, b, c], d);
  }

  lemma RacingGap()
    ensures var t := After(Next(Calm(), ListJobs), Racing());
            && t.intents == map["i" := Started("e", "j")] && t.jobs == [JobItem(Some("j"), Some("i"), Some("e"), 0, 0)]
            && t.born == {"j"} && t.progress == Some(Progress([], {}, None, 0, None)) && t.audit == []
  {
    var u, r := Next(Calm(), ListJobs), Racing();
    FourSteps(u, r[0], r[1], r[2], r[3]);
    var read := Intent("approved", NO_EXECUTION);
    var dispatched := Intent("executing", ExecutionState(Some("e"), None, "dispatching", None));
    var created := [JobItem(Some("j"), Some("i"), Some("e"), 0, 0)];
    var u1, u2 := u.(drafts := [Draft(Dispatch("i", "e"), read)]), u.(intents := map["i" := dispatched]);
    assert Next(u, r[0]) == u1;
    assert Next(u1, r[1]) == u2;
    RacingJob(u2);
    hide After, Next;
  }

  lemma RacingJob(s: System)
    requires "i" in s.intents && |s.intents| == 1 && s.jobs == [] && s.born == {}
    ensures var t := Next(Next(s, Racing()[2]), Racing()[3]);
            && t.intents == s.intents["i" := Started("e", "j")] && t.born == {"j"}
            && t.jobs == [JobItem(Some("j"), Some("i"), Some("e"), 0, 0)]
            && t.progress == s.progress && t.audit == s.audit
  {
    hide Visible, Remove, EndAll, Listed, NextCall;
  }

  lemma OneListed(s: Intents, id: IntentId)
    requires id in s && s[id].status == "executing"
    ensures Listed(s, [id], WINDOW) == [(id, s[id])]
  {
    assert [id][..0] == [] && InExecution(s, []) == [];
    assert InExecution(s, [id]) == [(id, s[id])];
  }

  lemma SweepFinds(intent: Intent, id: IntentId, execution: string, visible: set<string>)
    requires intent.status == "executing" && Records(intent.execution, execution) && visible == {}
    ensures CallFor((id, intent), visible) == Some(Call(id, execution, intent.execution.jobName.value, JOB_DISAPPEARED))
  {
  }

  lemma RacingSweep(s: System)
    requires s.intents == map["i" := Started("e", "j")] && s.jobs == [JobItem(Some("j"), Some("i"), Some("e"), 0, 0)]
    requires s.progress == Some(Progress([], {}, None, 0, None))
    ensures var t := After(s, [ListIntents(["i"]), Look, Write]);
            "i" in t.intents && t.intents["i"] == Lost("e", "j", JOB_DISAPPEARED) && t.jobs == s.jobs
  {
    hide InExecution, Listed, CallFor, Visible, After;
    var x, c := ("i", Started("e", "j")), Call("i", "e", "j", JOB_DISAPPEARED);
    OneListed(s.intents, "i");
    NoNames();
    SweepFinds(x.1, "i", "e", Visible([]));
    var s1 := s.(progress := Some(Progress([], {}, Some([x]), 0, None)));
    var s2 := s.(progress := Some(Progress([], {}, Some([x]), 1, Some(c))));
    assert Next(s, ListIntents(["i"])) == s1;
    assert Next(s1, Look) == s2;
    ThreeSteps(s, ListIntents(["i"]), Look, Write);
  }

  lemma NoNames()
    ensures Visible([]) == {}
  {
  }

  lemma ThreeSteps(s: System, a: Step, b: Step, c: Step)
    ensures After(s, [a, b, c]) == Next(Next(Next(s, a), b), c)
  {
    hide Next;
    AfterNone(s);
    assert [] + [a] == [a] && [a] + [b] == [a, b] && [a, b] + [c] == [a, b, c];
    AfterOne(s, [], a);
    AfterOne(s, [a], b);
    AfterOne(s, [a, b], c);
  }

  /** The Job of the failed execution is in the cluster and has not ended. */
  ghost predicate FailedAlive(s: System) {
    exists id, e, j :: id in s.intents && s.intents[id] == Lost(e, j, JOB_DISAPPEARED)
      && JobItem(Some(j), Some(id), Some(e), 0, 0) in s.jobs
  }

  /** From a calm store a single pass fails an execution as disappeared while its Job runs. */
  lemma RacingDispatchIsFailed()
    ensures Tracked(Calm()) && FailedAlive(After(Calm(), [ListJobs] + Racing() + [ListIntents(["i"]), Look, Write]))
  {
    var gap, sweep := Racing(), [ListIntents(["i"]), Look, Write];
    RacingGap();
    hide Next, Racing, Calm;
    AfterSplit(Calm(), [ListJobs] + gap, sweep);
    AfterSplit(Calm(), [ListJobs], gap);
    AfterOne(Calm(), [], ListJobs);
    assert [] + [ListJobs] == [ListJobs];
    var u := After(Next(Calm(), ListJobs), gap);
    RacingSweep(u);
    CalmIsTracked();
    hide After;
    assert JobItem(Some("j"), Some("i"), Some("e"), 0, 0) in After(u, sweep).jobs;
  }

  lemma CalmIsTracked()
    ensures Tracked(Calm())
  {
  }

  // ------------------------------------------------------------------ at most once

  /** The document names the execution, with its Job recorded. */
  predicate Records(document: ExecutionState, execution: string) {
    document.executionId == Some(execution) && document.jobName.Some?
  }

  /** The write stores such a document: that of a report, of attached evidence, or of an observed run. */
  predicate Carries(d: Draft, execution: string) {
    DraftDocument(d).Some? && Records(DraftDocument(d).value, execution)
  }

  /** The document names the execution because the one that was read did. */
  lemma CarriedWasRead(d: Draft, execution: string)
    ensures Carries(d, execution) <==>
            (d.action.Report? || d.action.AttachEvidence? || d.action.ObserveRun?)
            && Records(d.read.execution, execution)
  {
  }

  predicate AboutToFail(s: System, id: IntentId, execution: string) {
    && s.progress.Some? && s.progress.value.pending.Some?
    && s.progress.value.pending.value.id == id && s.progress.value.pending.value.execution == execution
  }

  /** The execution is the one the intent is waiting for, with its Job recorded, or about to be failed. */
  predicate AtStake(s: System, id: IntentId, execution: string) {
    || (id in s.intents && s.intents[id].status == "executing" && Records(s.intents[id].execution, execution))
    || AboutToFail(s, id, execution)
  }

  function Failures(audit: seq<Call>, id: IntentId, execution: string): nat {
    if audit == [] then 0
    else
      var last := audit[|audit| - 1];
      Failures(audit[..|audit| - 1], id, execution) + if last.id == id && last.execution == execution then 1 else 0
  }

  predicate RecordsJobOf(step: Step, id: IntentId, execution: string) {
    step.Other? && step.event.JobRecorded? && step.event.id == id && step.event.execution == execution
  }

  function Recordings(steps: seq<Step>, id: IntentId, execution: string): nat {
    if steps == [] then 0
    else Recordings(steps[..|steps| - 1], id, execution)
         + if RecordsJobOf(steps[|steps| - 1], id, execution) then 1 else 0
  }

  /** A write that carries the execution and ends no wait, made when the execution is not at stake. */
  predicate RestoresLate(s: System, step: Step, id: IntentId, execution: string) {
    && step.Store? && step.k < |s.drafts| && s.drafts[step.k].action.id == id
    && Carries(s.drafts[step.k], execution) && Or(DraftStatus(s.drafts[step.k]), "executing") == "executing"
    && !AtStake(s, id, execution)
  }

  function LateStores(s: System, steps: seq<Step>, id: IntentId, execution: string): nat {
    if steps == [] then 0
    else
      var front, last := steps[..|steps| - 1], steps[|steps| - 1];
      LateStores(s, front, id, execution) + if RestoresLate(After(s, front), last, id, execution) then 1 else 0
  }

  lemma StakeBegins(s: Intents, e: Event, id: IntentId, execution: string)
    requires id in Happen(s, e) && Happen(s, e)[id].status == "executing"
    requires Records(Happen(s, e)[id].execution, execution)
    requires !(id in s && s[id].status == "executing" && Records(s[id].execution, execution))
    ensures (e.JobRecorded? && e.id == id && e.execution == execution)
            || (e.Stored? && e.draft.action.id == id && Carries(e.draft, execution)
                && Or(DraftStatus(e.draft), "executing") == "executing")
  {
  }

  lemma StepBalance(s: System, step: Step, id: IntentId, execution: string)
    ensures var t := Next(s, step);
            && (Failures(t.audit, id, execution) == Failures(s.audit, id, execution)
                || (Failures(t.audit, id, execution) == Failures(s.audit, id, execution) + 1
                    && AtStake(s, id, execution) && !AtStake(t, id, execution)))
            && (AtStake(t, id, execution) && !AtStake(s, id, execution) ==>
                RecordsJobOf(step, id, execution) || RestoresLate(s, step, id, execution))
  {
    hide Visible, Remove, EndAll, Listed, NextCall, Happen, Allowed;
    if step.Write? && s.progress.Some? && s.progress.value.pending.Some? {
      var c := s.progress.value.pending.value;
      assert (s.audit + [c])[..|s.audit|] == s.audit;
    } else if AtStake(Next(s, step), id, execution) && !AtStake(s, id, execution) {
      if step.Store? && step.k < |s.drafts| {
        StakeBegins(s.intents, Stored(s.drafts[step.k]), id, execution);
      } else if step.Other? {
        StakeBegins(s.intents, step.event, id, execution);
      }
    }
  }

  /**
    However checks, writes and all other writers interleave, the reaper fails an execution at most as
    often as its Job was recorded or a late write restored it, once more if it was waited for at the
    start.
   */
  lemma {:induction false} FailuresAreAccounted(s: System, steps: seq<Step>, id: IntentId, execution: string)
    ensures Failures(After(s, steps).audit, id, execution) + (if AtStake(After(s, steps), id, execution) then 1 else 0)
            <= Failures(s.audit, id, execution) + (if AtStake(s, id, execution) then 1 else 0)
               + Recordings(steps, id, execution) + LateStores(s, steps, id, execution)
    decreases |steps|
  {
    if steps != [] {
      hide Next, AtStake, Failures, RecordsJobOf, RestoresLate;
      FailuresAreAccounted(s, steps[..|steps| - 1], id, execution);
      StepBalance(After(s, steps[..|steps| - 1]), steps[|steps| - 1], id, execution);
    }
  }

  /** An execution that is not at stake is failed again only if it is recorded again or restored by a late write. */
  lemma OlderExecutionComesBackLate(s: System, steps: seq<Step>, id: IntentId, execution: string)
    requires !AtStake(s, id, execution) && Recordings(steps, id, execution) == 0
    ensures Failures(After(s, steps).audit, id, execution) <=
            Failures(s.audit, id, execution) + LateStores(s, steps, id, execution)
  {
    FailuresAreAccounted(s, steps, id, execution);
  }

  // ------------------------------------------------------------------ forgotten for good

  /** Neither the intent nor any write to come records the execution, and no failure of it is due. */
  ghost predicate Forgotten(s: System, id: IntentId, execution: string) {
    && (id in s.intents ==> !Records(s.intents[id].execution, execution))
    && (forall d | d in s.drafts && d.action.id == id :: !Carries(d, execution))
    && !AboutToFail(s, id, execution)
  }

  lemma EventForgets(s: Intents, e: Event, id: IntentId, execution: string)
    requires id in s ==> !Records(s[id].execution, execution)
    requires e.Stored? && e.draft.action.id == id ==> !Carries(e.draft, execution)
    requires !(e.JobRecorded? && e.id == id && e.execution == execution)
    ensures id in Happen(s, e) ==> !Records(Happen(s, e)[id].execution, execution)
  {
  }

  lemma StepForgets(s: System, step: Step, id: IntentId, execution: string)
    requires Forgotten(s, id, execution) && !RecordsJobOf(step, id, execution)
    ensures Forgotten(Next(s, step), id, execution)
    ensures Failures(Next(s, step).audit, id, execution) == Failures(s.audit, id, execution)
  {
    hide Visible, Remove, EndAll, Listed, NextCall, Happen, Allowed;
    if step.Write? && s.progress.Some? && s.progress.value.pending.Some? {
      var c := s.progress.value.pending.value;
      assert (s.audit + [c])[..|s.audit|] == s.audit;
    } else if step.Store? && step.k < |s.drafts| {
      assert s.drafts[step.k] in s.drafts;
      EventForgets(s.intents, Stored(s.drafts[step.k]), id, execution);
      var rest := s.drafts[..step.k] + s.drafts[step.k + 1..];
      assert forall d | d in rest :: d in s.drafts;
    } else if step.Other? && !step.event.Stored? {
      EventForgets(s.intents, step.event, id, execution);
    }
  }

  /**
    Once neither the intent nor any write still to come knows the older execution, it is never failed
    again until its Job is recorded again.
   */
  lemma {:induction false} OlderExecutionIsLeftAlone(s: System, steps: seq<Step>, id: IntentId, execution: string)
    requires Forgotten(s, id, execution) && Recordings(steps, id, execution) == 0
    ensures Forgotten(After(s, steps), id, execution)
    ensures Failures(After(s, steps).audit, id, execution) == Failures(s.audit, id, execution)
    decreases |steps|
  {
    if steps != [] {
      hide Next, Forgotten, Failures, RecordsJobOf;
      OlderExecutionIsLeftAlone(s, steps[..|steps| - 1], id, execution);
      StepForgets(After(s, steps[..|steps| - 1]), steps[|steps| - 1], id, execution);
    }
  }
}
