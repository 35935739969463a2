/** An executor Job whose Pod has ended, over whole histories: the next pass fails its execution. */
module ReaperEndings {
  import opened Wrappers
  import opened Reaper
  import opened ReaperPasses
  import opened ReaperSystem
  import opened ReaperHistory

  // ------------------------------------------------------------------ the Job and its intent

  /** The Job by this name was created for the intent's execution. */
  ghost predicate JobFor(item: JobItem, id: IntentId, execution: string, job: string) {
    item.name == Some(job) && item.intent == Some(id) && item.execution == Some(execution)
  }

  ghost predicate Waits(s: System, id: IntentId, execution: string, job: string) {
    && id in s.intents && s.intents[id].status == "executing"
    && s.intents[id].execution.executionId == Some(execution) && s.intents[id].execution.jobName == Some(job)
  }

  /** The intent has failed, for how the Job was listed. */
  ghost predicate FailedBy(s: System, items: seq<JobItem>, id: IntentId, execution: string, job: string) {
    && id in s.intents && s.intents[id].status == "failed"
    && exists item, reason :: item in items && Explains(reason, item, id, execution, job)
         && s.intents[id].execution == ExecutionState(Some(execution), Some(job), "executor_job_lost", Some(reason))
  }

  /** The Job was listed with a Pod that ended, and the reason says whether one failed. */
  ghost predicate Explains(reason: string, item: JobItem, id: IntentId, execution: string, job: string) {
    JobFor(item, id, execution, job) && item.failed + item.succeeded >= 1 && reason == HowEnded(item)
  }

  /** Another writer writes the intent. */
  ghost predicate Writes(s: System, step: Step, id: IntentId) {
    || (step.Store? && step.k < |s.drafts| && s.drafts[step.k].action.id == id)
    || (step.Other? && Target(step.event) == id)
  }

  ghost predicate Unwritten(s: System, steps: seq<Step>, id: IntentId) {
    forall k | 0 <= k < |steps| :: UnwrittenAt(s, steps, k, id)
  }

  ghost predicate UnwrittenAt(s: System, steps: seq<Step>, k: nat, id: IntentId)
    requires k < |steps|
  {
    !Writes(After(s, steps[..k]), steps[k], id)
  }

  // ------------------------------------------------------------------ a pass over an ended Job

  /** The failure in hand is that of the execution, and comes from a listed Job of it. */
  ghost predicate InHand(p: Progress, id: IntentId, execution: string, job: string) {
    && p.pending.Some? && p.pending.value.id == id
    && p.pending.value.execution == execution && p.pending.value.job == job
    && exists item :: item in p.items && Explains(p.pending.value.reason, item, id, execution, job)
  }

  ghost predicate Elsewhere(p: Progress, id: IntentId) {
    p.pending.Some? ==> p.pending.value.id != id
  }

  /** The pass has not come past the i-th Job, or has the failure in hand. */
  ghost predicate Ahead(s: System, items: seq<JobItem>, i: nat, id: IntentId, execution: string, job: string) {
    && s.progress.Some? && s.progress.value.items == items && s.progress.value.listed.None?
    && Waits(s, id, execution, job)
    && (InHand(s.progress.value, id, execution, job)
        || (s.progress.value.at <= i && Elsewhere(s.progress.value, id)))
  }

  /** The pass has made the failure. */
  ghost predicate Made(s: System, items: seq<JobItem>, id: IntentId, execution: string, job: string) {
    && s.progress.Some? && s.progress.value.items == items && Elsewhere(s.progress.value, id)
    && FailedBy(s, items, id, execution, job)
  }

  lemma OutsiderKeeps(s: System, step: Step, id: IntentId)
    requires Outsider(step) && !Writes(s, step, id) && id in s.intents
    ensures var t := Next(s, step);
            t.progress == s.progress && id in t.intents && t.intents[id] == s.intents[id]
  {
    hide Remove, EndAll, Visible, Allowed;
  }

  lemma LookTakesItUp(s: System, items: seq<JobItem>, i: nat, id: IntentId, execution: string, job: string)
    requires Ahead(s, items, i, id, execution, job) && i < |items|
    requires JobFor(items[i], id, execution, job) && items[i].failed + items[i].succeeded >= 1
    ensures Ahead(Next(s, Look), items, i, id, execution, job)
  {
    hide Visible, Explains;
    var p := s.progress.value;
    if p.pending.None? && p.at < |items| {
      var item := items[p.at];
      if CallOf(item).Some? && CallOf(item).value.id == id && IsCurrent(s.intents, CallOf(item).value) {
        CallExplained(item, id, execution, job);
        assert item in items;
        assert InHand(Next(s, Look).progress.value, id, execution, job);
      }
    }
  }

  lemma CallExplained(item: JobItem, id: IntentId, execution: string, job: string)
    requires CallOf(item).Some? && CallOf(item).value.id == id
             && CallOf(item).value.execution == execution && CallOf(item).value.job == job
    ensures Explains(CallOf(item).value.reason, item, id, execution, job)
  {
  }

  lemma LookLeavesIt(s: System, items: seq<JobItem>, id: IntentId, execution: string, job: string)
    requires Made(s, items, id, execution, job)
    ensures Made(Next(s, Look), items, id, execution, job)
  {
    hide Visible, Explains, NextCall, Length;
  }

  lemma WriteMakesIt(s: System, items: seq<JobItem>, i: nat, id: IntentId, execution: string, job: string)
    requires Ahead(s, items, i, id, execution, job)
    ensures Ahead(Next(s, Write), items, i, id, execution, job) || Made(Next(s, Write), items, id, execution, job)
  {
    hide Visible, Explains;
  }

  lemma WriteLeavesIt(s: System, items: seq<JobItem>, id: IntentId, execution: string, job: string)
    requires Made(s, items, id, execution, job)
    ensures Made(Next(s, Write), items, id, execution, job)
  {
    hide Visible, Explains;
  }

  /** One step of the pass, or of any other writer that leaves the intent alone. */
  lemma StepMoves(s: System, step: Step, items: seq<JobItem>, i: nat, id: IntentId, execution: string, job: string)
    requires Ahead(s, items, i, id, execution, job) || Made(s, items, id, execution, job)
    requires i < |items| && JobFor(items[i], id, execution, job) && items[i].failed + items[i].succeeded >= 1
    requires !Writes(s, step, id) && step != Finish
    ensures Ahead(Next(s, step), items, i, id, execution, job) || Made(Next(s, step), items, id, execution, job)
  {
    if Outsider(step) {
      OutsiderKeeps(s, step, id);
      hide Next, Explains, JobFor, InHand, Elsewhere;
    } else {
      match step
      case Look =>
        if Ahead(s, items, i, id, execution, job) {
          LookTakesItUp(s, items, i, id, execution, job);
        } else {
          LookLeavesIt(s, items, id, execution, job);
        }
      case Write =>
        if Ahead(s, items, i, id, execution, job) {
          WriteMakesIt(s, items, i, id, execution, job);
        } else {
          WriteLeavesIt(s, items, id, execution, job);
        }
      case ListIntents(order) =>
        hide Listed, Visible, Explains;
      case ListJobs =>
    }
  }

  lemma {:induction false} PassMoves(
    s: System, steps: seq<Step>, items: seq<JobItem>, i: nat, id: IntentId, execution: string, job: string)
    requires Ahead(s, items, i, id, execution, job)
    requires i < |items| && JobFor(items[i], id, execution, job) && items[i].failed + items[i].succeeded >= 1
    requires Unwritten(s, steps, id) && Finish !in steps
    ensures var t := After(s, steps); Ahead(t, items, i, id, execution, job) || Made(t, items, id, execution, job)
    decreases |steps|
  {
    hide Next, Ahead, Made, JobFor, Writes;
    if steps != [] {
      var front, last := steps[..|steps| - 1], steps[|steps| - 1];
      assert steps == front + [last];
      UnwrittenFront(s, front, last, id);
      PassMoves(s, front, items, i, id, execution, job);
      StepMoves(After(s, front), last, items, i, id, execution, job);
    }
  }

  lemma UnwrittenFront(s: System, front: seq<Step>, last: Step, id: IntentId)
    requires Unwritten(s, front + [last], id)
    ensures Unwritten(s, front, id) && !Writes(After(s, front), last, id)
  {
    hide Writes, After;
    var steps := front + [last];
    assert UnwrittenAt(s, steps, |front|, id);
    assert steps[..|front|] == front;
    forall k | 0 <= k < |front|
      ensures UnwrittenAt(s, front, k, id)
    {
      assert UnwrittenAt(s, steps, k, id) && steps[..k] == front[..k] && steps[k] == front[k];
    }
  }

  /**
    A whole pass fails the execution of every Job that it listed with a Pod that failed or succeeded,
    whatever the others do, as long as none of them writes the intent; and it says which of the two it was.
   */
  lemma EndedJobIsReaped(s: System, body: seq<Step>, id: IntentId, execution: string, job: string, item: JobItem)
    requires s.progress.None? && Waits(s, id, execution, job)
    requires item in s.jobs && JobFor(item, id, execution, job) && item.failed + item.succeeded >= 1
    requires Finish !in body && Unwritten(Next(s, ListJobs), body, id)
    requires After(s, [ListJobs] + body + [Finish]).progress.None?
    ensures FailedBy(After(s, [ListJobs] + body + [Finish]), s.jobs, id, execution, job)
  {
    hide Explains, JobFor;
    var i :| 0 <= i < |s.jobs| && s.jobs[i] == item;
    var u := Next(s, ListJobs);
    PassMoves(u, body, s.jobs, i, id, execution, job);
    var t := After(u, body);
    AfterOne(s, [ListJobs] + body, Finish);
    AfterSplit(s, [ListJobs], body);
    AfterOne(s, [], ListJobs);
    assert [] + [ListJobs] == [ListJobs];
    hide After;
    PassEnded(t, s.jobs, i, id, execution, job);
  }

  lemma PassEnded(s: System, items: seq<JobItem>, i: nat, id: IntentId, execution: string, job: string)
    requires Ahead(s, items, i, id, execution, job) || Made(s, items, id, execution, job)
    requires Next(s, Finish).progress.None?
    ensures FailedBy(Next(s, Finish), items, id, execution, job)
  {
    hide Explains;
  }

  // ------------------------------------------------------------------ from the end of the Pod on

  /** A Job of the execution is there with a Pod that ended. */
  ghost predicate EndedJob(jobs: seq<JobItem>, id: IntentId, execution: string, job: string) {
    exists item :: item in jobs && JobFor(item, id, execution, job) && item.failed + item.succeeded >= 1
  }

  /** Every Job of this name has a Pod that failed; or none has. */
  ghost predicate AllFailed(jobs: seq<JobItem>, job: string) {
    forall item | item in jobs && item.name == Some(job) :: item.failed >= 1
  }

  ghost predicate NoneFailed(jobs: seq<JobItem>, job: string) {
    forall item | item in jobs && item.name == Some(job) :: item.failed == 0
  }

  lemma {:induction false} RemoveHas(jobs: seq<JobItem>, name: string, item: JobItem)
    ensures item in Remove(jobs, name) <==> item in jobs && item.name != Some(name)
    decreases |jobs|
  {
    if jobs != [] {
      var front, last := jobs[..|jobs| - 1], jobs[|jobs| - 1];
      RemoveHas(front, name, item);
      assert jobs == front + [last];
    }
  }

  lemma EndAllHas(jobs: seq<JobItem>, name: string, badly: bool)
    ensures forall item | item in jobs :: Ends(item, name, badly) in EndAll(jobs, name, badly)
    ensures forall ended | ended in EndAll(jobs, name, badly) ::
              exists item :: item in jobs && ended == Ends(item, name, badly)
  {
    var all := EndAll(jobs, name, badly);
    forall item | item in jobs
      ensures Ends(item, name, badly) in all
    {
      var i :| 0 <= i < |jobs| && jobs[i] == item;
      assert all[i] in all;
    }
    forall ended | ended in all
      ensures exists item :: item in jobs && ended == Ends(item, name, badly)
    {
      var i :| 0 <= i < |all| && all[i] == ended;
      assert jobs[i] in jobs;
    }
  }

  lemma EndsJob(jobs: seq<JobItem>, name: string, badly: bool, id: IntentId, execution: string, job: string)
    ensures var ended := EndAll(jobs, name, badly);
            && (EndedJob(jobs, id, execution, job) ==> EndedJob(ended, id, execution, job))
            && (name == job && (exists item :: item in jobs && JobFor(item, id, execution, job)) ==>
                  EndedJob(ended, id, execution, job))
            && (AllFailed(jobs, job) || (name == job && badly) ==> AllFailed(ended, job))
            && (NoneFailed(jobs, job) && !(name == job && badly) ==> NoneFailed(ended, job))
  {
    EndAllHas(jobs, name, badly);
    hide EndAll;
    if item :| item in jobs && JobFor(item, id, execution, job)
               && (name == job || item.failed + item.succeeded >= 1) {
      var ended := Ends(item, name, badly);
      assert ended in EndAll(jobs, name, badly);
      assert JobFor(ended, id, execution, job) && ended.failed + ended.succeeded >= 1;
    }
  }

  lemma RemovesJob(jobs: seq<JobItem>, name: string, id: IntentId, execution: string, job: string)
    requires name != job
    ensures EndedJob(jobs, id, execution, job) ==> EndedJob(Remove(jobs, name), id, execution, job)
    ensures AllFailed(jobs, job) ==> AllFailed(Remove(jobs, name), job)
    ensures NoneFailed(jobs, job) ==> NoneFailed(Remove(jobs, name), job)
  {
    forall item: JobItem
      ensures item in Remove(jobs, name) <==> item in jobs && item.name != Some(name)
    {
      RemoveHas(jobs, name, item);
    }
    hide Remove;
  }

  lemma StepKeepsJob(s: System, step: Step, id: IntentId, execution: string, job: string)
    requires Outsider(step) && step != JobRemoved(job) && job in s.born
    ensures var t := Next(s, step);
            && job in t.born
            && (EndedJob(s.jobs, id, execution, job) ==> EndedJob(t.jobs, id, execution, job))
            && (AllFailed(s.jobs, job) ==> AllFailed(t.jobs, job))
            && (NoneFailed(s.jobs, job) && step != JobEnds(job, true) ==> NoneFailed(t.jobs, job))
  {
    match step
    case JobEnds(name, badly) => EndsJob(s.jobs, name, badly, id, execution, job);
    case JobRemoved(name) => RemovesJob(s.jobs, name, id, execution, job);
    case JobCreated(_, _, _) =>
    case Prepare(_) => hide EndedJob, AllFailed, NoneFailed;
    case Store(_) => hide EndedJob, AllFailed, NoneFailed;
    case Other(_) => hide EndedJob, AllFailed, NoneFailed;
  }

  lemma {:induction false} GapKeepsJob(s: System, gap: seq<Step>, id: IntentId, execution: string, job: string)
    requires Quiet(gap) && JobRemoved(job) !in gap && job in s.born && Unwritten(s, gap, id)
    requires Waits(s, id, execution, job)
    ensures var t := After(s, gap);
            && job in t.born && t.progress == s.progress && Waits(t, id, execution, job)
            && (EndedJob(s.jobs, id, execution, job) ==> EndedJob(t.jobs, id, execution, job))
            && (AllFailed(s.jobs, job) ==> AllFailed(t.jobs, job))
            && (NoneFailed(s.jobs, job) && JobEnds(job, true) !in gap ==> NoneFailed(t.jobs, job))
    decreases |gap|
  {
    hide Next, EndedJob, AllFailed, NoneFailed, Writes;
    if gap != [] {
      var front, last := gap[..|gap| - 1], gap[|gap| - 1];
      assert gap == front + [last];
      assert last in gap && forall step | step in front :: step in gap;
      UnwrittenFront(s, front, last, id);
      GapKeepsJob(s, front, id, execution, job);
      StepKeepsJob(After(s, front), last, id, execution, job);
      OutsiderKeeps(After(s, front), last, id);
    }
  }

  lemma FailedAs(s: System, items: seq<JobItem>, id: IntentId, execution: string, job: string)
    requires FailedBy(s, items, id, execution, job)
    ensures s.intents[id].status == "failed" && s.intents[id].execution.error in {Some(JOB_FAILED), Some(JOB_COMPLETED)}
    ensures AllFailed(items, job) ==> s.intents[id].execution.error == Some(JOB_FAILED)
    ensures NoneFailed(items, job) ==> s.intents[id].execution.error == Some(JOB_COMPLETED)
  {
  }

  lemma UnwrittenParts(s: System, a: seq<Step>, b: seq<Step>, id: IntentId)
    requires Unwritten(s, a + b, id)
    ensures Unwritten(s, a, id) && Unwritten(After(s, a), b, id)
  {
    hide Writes;
    var steps := a + b;
    forall k | 0 <= k < |a|
      ensures UnwrittenAt(s, a, k, id)
    {
      assert UnwrittenAt(s, steps, k, id) && steps[..k] == a[..k] && steps[k] == a[k];
    }
    forall k | 0 <= k < |b|
      ensures UnwrittenAt(After(s, a), b, k, id)
    {
      AfterSplit(s, a, b[..k]);
      assert UnwrittenAt(s, steps, |a| + k, id) && steps[..|a| + k] == a + b[..k] && steps[|a| + k] == b[k];
    }
  }

  /**
    Once the Pod of an executing intent's Job has ended, well or badly, and nothing removes the Job before the
    next listing or writes the intent, the next pass leaves the intent failed: for having failed if the Pod did,
    and for having completed if no Pod of it ever did.
   */
  lemma EndedPodIsReaped(
    s: System, badly: bool, gap: seq<Step>, body: seq<Step>, id: IntentId, execution: string, job: string,
    item: JobItem)
    requires Tracked(s) && s.progress.None? && Waits(s, id, execution, job)
    requires item in s.jobs && JobFor(item, id, execution, job)
    requires Quiet(gap) && JobRemoved(job) !in gap && Finish !in body
    requires Unwritten(s, [JobEnds(job, badly)] + gap + ([ListJobs] + body), id)
    requires After(s, [JobEnds(job, badly)] + gap + ([ListJobs] + body + [Finish])).progress.None?
    ensures var t := After(s, [JobEnds(job, badly)] + gap + ([ListJobs] + body + [Finish]));
            && id in t.intents && t.intents[id].status == "failed"
            && t.intents[id].execution.error in {Some(JOB_FAILED), Some(JOB_COMPLETED)}
            && (badly ==> t.intents[id].execution.error == Some(JOB_FAILED))
            && (!badly && NoneFailed(s.jobs, job) && JobEnds(job, true) !in gap ==>
                t.intents[id].execution.error == Some(JOB_COMPLETED))
  {
    var end, rest := JobEnds(job, badly), [ListJobs] + body + [Finish];
    var u := Next(s, end);
    var v := After(u, gap);
    assert job in Visible(s.jobs) && job in s.born;
    EndsJob(s.jobs, job, badly, id, execution, job);
    OneThenMore(s, end, gap);
    AfterSplit(s, [end] + gap, rest);
    UnwrittenParts(s, [end] + gap, [ListJobs] + body, id);
    UnwrittenParts(s, [end], gap, id);
    UnwrittenParts(v, [ListJobs], body, id);
    OneThenMore(s, end, []);
    OneThenMore(v, ListJobs, []);
    AfterNone(u);
    AfterNone(Next(v, ListJobs));
    assert [end] + [] == [end] && [ListJobs] + [] == [ListJobs];
    assert u.intents == s.intents && u.progress == s.progress && u.born == s.born;
    hide Next, After, Unwritten, AllFailed, NoneFailed, Tracked;
    GapKeepsJob(u, gap, id, execution, job);
    var ended :| ended in v.jobs && JobFor(ended, id, execution, job) && ended.failed + ended.succeeded >= 1;
    EndedJobIsReaped(v, body, id, execution, job, ended);
    FailedAs(After(v, rest), v.jobs, id, execution, job);
  }

  lemma OneThenMore(s: System, step: Step, more: seq<Step>)
    ensures After(s, [step] + more) == After(Next(s, step), more)
  {
    hide Next;
    AfterSplit(s, [step], more);
    AfterOne(s, [], step);
    assert [] + [step] == [step];
  }
}
