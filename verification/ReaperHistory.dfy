/** What the reaper does to executions over whole histories, with all other writers at work. */
module ReaperHistory {
  import opened Wrappers
  import opened Reaper
  import opened ReaperPasses
  import opened ReaperSystem

  // ------------------------------------------------------------------ names and justification

  lemma {:induction false} RemoveNames(jobs: seq<JobItem>, name: string)
    ensures Visible(Remove(jobs, name)) == Visible(jobs) - {name}
    decreases |jobs|
  {
    if jobs != [] {
      var front, last := jobs[..|jobs| - 1], jobs[|jobs| - 1];
      RemoveNames(front, name);
      assert jobs == front + [last];
      VisibleGrows(front, last);
      VisibleGrows(Remove(front, name), last);
      assert last.name == Some(name) ==> Remove(front, name) + [] == Remove(front, name);
    }
  }

  lemma EndNames(jobs: seq<JobItem>, name: string, badly: bool)
    ensures Visible(EndAll(jobs, name, badly)) == Visible(jobs)
  {
    var ended := EndAll(jobs, name, badly);
    forall x | x in Visible(jobs)
      ensures x in Visible(ended)
    {
      var item :| item in jobs && item.name == Some(x);
      var i :| 0 <= i < |jobs| && jobs[i] == item;
      assert ended[i] in ended && ended[i].name == Some(x);
    }
    forall x | x in Visible(ended)
      ensures x in Visible(jobs)
    {
      var item :| item in ended && item.name == Some(x);
      var i :| 0 <= i < |ended| && ended[i] == item;
      assert jobs[i] in jobs && jobs[i].name == Some(x);
    }
  }

  /** How one step changes the names in the cluster. */
  lemma StepNames(s: System, step: Step)
    ensures var t := Next(s, step);
            && s.born <= t.born
            && t.born == s.born + (if step.JobCreated? then {step.name} else {})
            && Visible(t.jobs) == Visible(s.jobs)
                                  + (if step.JobCreated? && step.name !in s.born then {step.name} else {})
                                  - (if step.JobRemoved? then {step.name} else {})
  {
    hide Visible, Remove, EndAll, Listed, NextCall, Length;
    match step
    case JobCreated(name, intent, execution) =>
      VisibleGrows(s.jobs, JobItem(Some(name), Some(intent), Some(execution), 0, 0));
    case JobRemoved(name) => RemoveNames(s.jobs, name);
    case JobEnds(name, badly) => EndNames(s.jobs, name, badly);
    case _ =>
  }

  lemma StepKeepsTracked(s: System, step: Step)
    requires Tracked(s)
    ensures Tracked(Next(s, step))
  {
    StepNames(s, step);
    hide Visible, Remove, EndAll, Listed, NextCall, Justified, Happen;
    match step
    case Prepare(action) => PreparedTracked(s, action);
    case Store(k) => StoredTracked(s, k);
    case Other(e) =>
      if !e.Stored? && (e.JobRecorded? ==> e.job in s.born) {
        EventRecorded(s.intents, e, s.born);
      }
    case Look => LookKeepsTracked(s);
    case ListIntents(order) => ListingTracked(s, order);
    case _ =>
  }

  /** A write records no name besides those recorded before, those it read, and the one of a new Job. */
  lemma EventRecorded(s: Intents, e: Event, names: set<string>)
    requires forall id | id in s :: RecordedIn(s[id], names)
    requires e.Stored? ==> RecordedIn(e.draft.read, names)
    requires e.JobRecorded? ==> e.job in names
    ensures forall id | id in Happen(s, e) :: RecordedIn(Happen(s, e)[id], names)
  {
  }

  lemma PreparedTracked(s: System, action: Action)
    requires Tracked(s)
    ensures Tracked(Next(s, Prepare(action)))
  {
    hide Visible, Justified, Allowed;
  }

  lemma StoredTracked(s: System, k: nat)
    requires Tracked(s)
    ensures Tracked(Next(s, Store(k)))
  {
    hide Visible, Justified, Happen;
    if k < |s.drafts| {
      assert s.drafts[k] in s.drafts;
      EventRecorded(s.intents, Stored(s.drafts[k]), s.born);
      var rest := s.drafts[..k] + s.drafts[k + 1..];
      assert forall d | d in rest :: d in s.drafts;
    }
  }

  lemma ListingTracked(s: System, order: seq<IntentId>)
    requires Tracked(s)
    ensures Tracked(Next(s, ListIntents(order)))
  {
    hide Visible, Justified, Listed;
    forall x | x in Listed(s.intents, order, WINDOW)
      ensures RecordedIn(x.1, s.born)
    {
      ListedHas(s.intents, order, WINDOW, x);
    }
  }

  lemma LookKeepsTracked(s: System)
    requires Tracked(s)
    ensures Tracked(Next(s, Look))
  {
    if s.progress.Some? {
      var p := s.progress.value;
      NextIsJustified(p);
      JustifiedMoves(p, Next(s, Look).progress.value);
    }
    hide Visible, NextCall, Justified;
  }

  lemma JustifiedMoves(p: Progress, q: Progress)
    requires q.items == p.items && q.listed == p.listed
    ensures forall c: Call | Justified(p, c) :: Justified(q, c)
  {
  }

  lemma NextIsJustified(p: Progress)
    ensures NextCall(p).Some? ==> Justified(p, NextCall(p).value)
  {
    hide CallOf, CallFor, Visible;
    if p.listed.None? {
      assert p.at < |p.items| ==> p.items[p.at] in p.items;
    } else {
      assert p.at < |p.listed.value| ==> p.listed.value[p.at] in p.listed.value;
    }
  }

  lemma {:induction false} HistoryKeepsTracked(s: System, steps: seq<Step>)
    requires Tracked(s)
    ensures Tracked(After(s, steps))
    decreases |steps|
  {
    if steps != [] {
      hide Tracked, Next;
      HistoryKeepsTracked(s, steps[..|steps| - 1]);
      StepKeepsTracked(After(s, steps[..|steps| - 1]), steps[|steps| - 1]);
    }
  }

  // ------------------------------------------------------------------ which executions a pass fails

  /**
    What a pass is about to fail is the execution of a listed Job that had ended, or one that was
    listed as executing while its recorded Job was not among the listed Jobs.
   */
  lemma OnlyEndedOrMissing(s: System, steps: seq<Step>, c: Call)
    requires Tracked(s)
    requires After(s, steps).progress.Some? && After(s, steps).progress.value.pending == Some(c)
    ensures var p := After(s, steps).progress.value;
            if p.listed.None?
            then exists item :: item in p.items && item.failed + item.succeeded >= 1 && item.intent == Some(c.id)
                   && item.execution == Some(c.execution) && item.name == Some(c.job) && c.reason == HowEnded(item)
            else c.job !in Visible(p.items) && (forall item | item in p.items :: item.name != Some(c.job))
                 && c.reason == JOB_DISAPPEARED
                 && exists x :: (c.id, x) in p.listed.value && x.execution.executionId == Some(c.execution)
                      && x.execution.jobName == Some(c.job)
  {
    HistoryKeepsTracked(s, steps);
    var p := After(s, steps).progress.value;
    assert c.job !in Visible(p.items) ==> forall item | item in p.items :: item.name != Some(c.job);
    hide After, Visible;
    assert Justified(p, c);
    if p.listed.Some? {
      var entry :| entry in p.listed.value && CallFor(entry, Visible(p.items)) == Some(c);
      assert (c.id, entry.1) == entry;
    }
  }

  predicate Quiet(steps: seq<Step>) {
    forall step | step in steps :: Outsider(step)
  }

  lemma {:induction false} OutsidersWait(s: System, steps: seq<Step>)
    requires Quiet(steps)
    ensures After(s, steps).progress == s.progress && After(s, steps).audit == s.audit
    decreases |steps|
  {
    if steps != [] {
      var front, last := steps[..|steps| - 1], steps[|steps| - 1];
      assert last in steps && forall step | step in front :: step in steps;
      OutsidersWait(s, front);
      hide After, Happen;
    }
  }

  /**
    Whatever others do between the check and the write: the execution at the reaper's position is
    failed exactly when the intent was waiting for it at the check, and the position moves on.
   */
  lemma CheckedIsFailed(s: System, between: seq<Step>, c: Call)
    requires s.progress.Some? && s.progress.value.pending.None? && s.progress.value.at < Length(s.progress.value)
    requires NextCall(s.progress.value) == Some(c) && Quiet(between)
    ensures var t := After(s, [Look] + between + [Write]);
            && t.audit == s.audit + (if IsCurrent(s.intents, c) then [c] else [])
            && t.progress == Some(s.progress.value.(at := s.progress.value.at + 1))
            && (IsCurrent(s.intents, c) ==> c.id in t.intents && t.intents[c.id] == Lost(c.execution, c.job, c.reason))
  {
    hide NextCall, Length, Happen, IsCurrent;
    var looked := Next(s, Look);
    var u := After(looked, between);
    LookedThenWritten(s, between);
    OutsidersWait(looked, between);
    hide After;
  }

  lemma LookedThenWritten(s: System, between: seq<Step>)
    ensures After(s, [Look] + between + [Write]) == Next(After(Next(s, Look), between), Write)
  {
    hide Next;
    AfterSplit(s, [Look], between);
    AfterOne(s, [], Look);
    assert [] + [Look] == [Look];
    AfterOne(s, [Look] + between, Write);
  }

  // ------------------------------------------------------------------ survivors

  predicate AwaitsJob(s: Intents, id: IntentId, execution: string, job: string) {
    id in s && Current(s[id], execution, job)
  }

  /** A write that ends no wait, prepared from a document that names this execution and Job. */
  predicate KeepsWaiting(d: Draft, execution: string, job: string) {
    && Or(DraftStatus(d), "executing") == "executing"
    && DraftDocument(d).Some? && Names(DraftDocument(d).value, execution, job)
    && Names(d.read.execution, execution, job)
  }

  /** Such a write, made when the intent does not wait for the Job. */
  predicate StoresLate(s: System, step: Step, id: IntentId, execution: string, job: string) {
    && step.Store? && step.k < |s.drafts| && s.drafts[step.k].action.id == id
    && KeepsWaiting(s.drafts[step.k], execution, job) && !AwaitsJob(s.intents, id, execution, job)
  }

  ghost predicate Restored(s: System, steps: seq<Step>, id: IntentId, execution: string, job: string) {
    exists k :: 0 <= k < |steps| && StoresLateAt(s, steps, k, id, execution, job)
  }

  ghost predicate StoresLateAt(s: System, steps: seq<Step>, k: nat, id: IntentId, execution: string, job: string)
    requires k < |steps|
  {
    StoresLate(After(s, steps[..k]), steps[k], id, execution, job)
  }

  lemma RestoredOneMore(s: System, steps: seq<Step>, step: Step, id: IntentId, execution: string, job: string)
    requires Restored(s, steps, id, execution, job) || StoresLate(After(s, steps), step, id, execution, job)
    ensures Restored(s, steps + [step], id, execution, job)
  {
    hide After, StoresLate;
    var more, n := steps + [step], |steps|;
    assert more[..n] == steps && more[n] == step;
    if StoresLate(After(s, steps), step, id, execution, job) {
      assert StoresLateAt(s, more, n, id, execution, job);
    } else {
      var k :| 0 <= k < n && StoresLateAt(s, steps, k, id, execution, job);
      assert more[..k] == steps[..k] && more[k] == steps[k];
      assert StoresLateAt(s, more, k, id, execution, job);
    }
  }

  /**
    The listed intents that were dealt with wait for no missing Job, unless it was recorded or restored
    since the listing at `s0`.
   */
  ghost predicate Swept(s0: System, steps: seq<Step>, s: System, p0: Progress)
    requires p0.listed.Some?
  {
    && s.progress.Some? && s.progress.value.items == p0.items && s.progress.value.listed == p0.listed
    && (forall i | 0 <= i < |p0.listed.value| :: SweptAt(s0, steps, s, p0, i))
  }

  ghost predicate SweptAt(s0: System, steps: seq<Step>, s: System, p0: Progress, i: nat)
    requires p0.listed.Some? && i < |p0.listed.value| && s.progress.Some?
  {
    forall e, j | AwaitsJob(s.intents, p0.listed.value[i].0, e, j) :: Explained(s0, steps, s, p0, i, e, j)
  }

  ghost predicate Explained(s0: System, steps: seq<Step>, s: System, p0: Progress, i: nat, e: string, j: string)
    requires p0.listed.Some? && i < |p0.listed.value| && s.progress.Some?
  {
    || Other(JobRecorded(p0.listed.value[i].0, e, j)) in steps
    || Restored(s0, steps, p0.listed.value[i].0, e, j)
    || Accounted(p0, s.progress.value, i, e, j)
  }

  /** The listed execution itself, whose Job is visible, or whose turn has not come, or is about to be failed. */
  predicate Accounted(p0: Progress, p: Progress, i: nat, execution: string, job: string)
    requires p0.listed.Some? && i < |p0.listed.value|
  {
    var entry := p0.listed.value[i];
    && Names(entry.1.execution, execution, job)
    && (job in Visible(p0.items) || i >= p.at
        || (p.pending.Some? && p.pending.value.id == entry.0 && p.pending.value.execution == execution
            && p.pending.value.job == job))
  }

  /** A wait begins only with a record, or with a write that read a document naming the same Job. */
  lemma EventAwaits(s: Intents, e: Event, id: IntentId, execution: string, job: string)
    requires AwaitsJob(Happen(s, e), id, execution, job) && !AwaitsJob(s, id, execution, job)
    ensures e == JobRecorded(id, execution, job)
            || (e.Stored? && e.draft.action.id == id && KeepsWaiting(e.draft, execution, job))
  {
  }

  lemma SweptStep(s0: System, steps: seq<Step>, s: System, p0: Progress, step: Step, i: nat)
    requires s == After(s0, steps) && p0.listed.Some? && i < |p0.listed.value|
    requires Swept(s0, steps, s, p0) && step != Finish
    ensures Next(s, step).progress.Some? && SweptAt(s0, steps + [step], Next(s, step), p0, i)
  {
    var t, id := Next(s, step), p0.listed.value[i].0;
    assert SweptAt(s0, steps, s, p0, i);
    SweepKeepsLists(s, step);
    forall e, j | AwaitsJob(t.intents, id, e, j)
      ensures Explained(s0, steps + [step], t, p0, i, e, j)
    {
      hide After, Next, Restored, SweptAt;
      if AwaitsJob(s.intents, id, e, j) {
        StillExplained(s0, steps, s, p0, step, i, e, j);
      } else {
        WaitBegins(s, step, id, e, j);
        assert step in steps + [step];
        if StoresLate(s, step, id, e, j) {
          RestoredOneMore(s0, steps, step, id, e, j);
        }
      }
    }
  }

  lemma WaitBegins(s: System, step: Step, id: IntentId, e: string, j: string)
    requires AwaitsJob(Next(s, step).intents, id, e, j) && !AwaitsJob(s.intents, id, e, j)
    ensures step == Other(JobRecorded(id, e, j)) || StoresLate(s, step, id, e, j)
  {
    hide Visible, Happen, Remove, EndAll, Listed, NextCall, Allowed;
    if step.Other? {
      EventAwaits(s.intents, step.event, id, e, j);
    } else if step.Store? && step.k < |s.drafts| {
      EventAwaits(s.intents, Stored(s.drafts[step.k]), id, e, j);
    }
  }

  lemma StillExplained(s0: System, steps: seq<Step>, s: System, p0: Progress, step: Step, i: nat, e: string, j: string)
    requires s == After(s0, steps) && p0.listed.Some? && i < |p0.listed.value| && step != Finish
    requires s.progress.Some? && s.progress.value.items == p0.items && s.progress.value.listed == p0.listed
    requires Explained(s0, steps, s, p0, i, e, j) && AwaitsJob(s.intents, p0.listed.value[i].0, e, j)
    requires AwaitsJob(Next(s, step).intents, p0.listed.value[i].0, e, j)
    ensures Next(s, step).progress.Some? && Explained(s0, steps + [step], Next(s, step), p0, i, e, j)
  {
    hide After, Restored;
    SweepKeepsLists(s, step);
    assert forall x | x in steps :: x in steps + [step];
    if Restored(s0, steps, p0.listed.value[i].0, e, j) {
      RestoredOneMore(s0, steps, step, p0.listed.value[i].0, e, j);
    } else if Accounted(p0, s.progress.value, i, e, j) {
      StillAccounted(s, p0, step, i, e, j);
    }
  }

  lemma StillAccounted(s: System, p0: Progress, step: Step, i: nat, e: string, j: string)
    requires p0.listed.Some? && i < |p0.listed.value| && step != Finish
    requires s.progress.Some? && s.progress.value.items == p0.items && s.progress.value.listed == p0.listed
    requires Accounted(p0, s.progress.value, i, e, j) && AwaitsJob(s.intents, p0.listed.value[i].0, e, j)
    requires AwaitsJob(Next(s, step).intents, p0.listed.value[i].0, e, j)
    ensures Next(s, step).progress.Some? && Accounted(p0, Next(s, step).progress.value, i, e, j)
  {
    hide Visible, Happen, Remove, EndAll, Listed, Allowed;
    if step.Write? {
      WriteAwaits(s, p0.listed.value[i].0, e, j);
    }
  }

  /** After a write the intent it was made to waits for nothing. */
  lemma WriteAwaits(s: System, id: IntentId, e: string, j: string)
    requires AwaitsJob(Next(s, Write).intents, id, e, j) && s.progress.Some?
    ensures AwaitsJob(s.intents, id, e, j)
    ensures s.progress.value.pending.Some? ==> s.progress.value.pending.value.id != id
  {
  }

  lemma {:induction false} SweepHistory(s: System, p0: Progress, steps: seq<Step>)
    requires s.progress == Some(p0) && p0.listed.Some? && p0.at == 0 && p0.pending.None?
    requires forall i | 0 <= i < |p0.listed.value| ::
               p0.listed.value[i].0 in s.intents && s.intents[p0.listed.value[i].0] == p0.listed.value[i].1
    requires Finish !in steps
    ensures Swept(s, steps, After(s, steps), p0)
    decreases |steps|
  {
    if steps != [] {
      var front, last := steps[..|steps| - 1], steps[|steps| - 1];
      assert front + [last] == steps;
      SweepHistory(s, p0, front);
      forall i | 0 <= i < |p0.listed.value|
        ensures After(s, steps).progress.Some? && SweptAt(s, steps, After(s, steps), p0, i)
      {
        SweptStep(s, front, After(s, front), p0, last, i);
      }
      SweepKeepsLists(After(s, front), last);
      hide Next, SweptAt;
    }
  }

  lemma SweepKeepsLists(s: System, step: Step)
    requires s.progress.Some? && s.progress.value.listed.Some? && step != Finish
    ensures var t := Next(s, step);
            t.progress.Some? && t.progress.value.items == s.progress.value.items
            && t.progress.value.listed == s.progress.value.listed
  {
    hide Happen, Visible, Remove, EndAll, Listed, NextCall;
  }

  /**
    Whatever happens during the sweep: a listed intent that is still executing at its end, with a Job
    and an execution recorded, has a Job that was visible, or one recorded since the intents were
    listed, or one that a late write restored, prepared from a document that named it.
   */
  lemma SurvivorsHaveJobs(s: System, order: seq<IntentId>, steps: seq<Step>, x: (IntentId, Intent))
    requires s.progress.Some? && s.progress.value.listed.None? && AtEnd(s.progress.value) && Finish !in steps
    requires x in Listed(s.intents, order, WINDOW)
    requires var t := After(Next(s, ListIntents(order)), steps); t.progress.Some? && AtEnd(t.progress.value)
    ensures var t := After(Next(s, ListIntents(order)), steps);
            && x.0 in t.intents
            && (t.intents[x.0].status == "executing" && Recorded(t.intents[x.0]) ==>
                var e, j := t.intents[x.0].execution.executionId.value, t.intents[x.0].execution.jobName.value;
                || j in Visible(s.progress.value.items) || Other(JobRecorded(x.0, e, j)) in steps
                || Restored(Next(s, ListIntents(order)), steps, x.0, e, j))
  {
    var u := Next(s, ListIntents(order));
    var t, listed := After(u, steps), Listed(s.intents, order, WINDOW);
    assert u.progress.value.listed == Some(listed);
    AllListed(s.intents, order, WINDOW);
    forall i | 0 <= i < |listed|
      ensures listed[i].0 in u.intents && u.intents[listed[i].0] == listed[i].1
    {
      assert listed[i] in listed;
    }
    SweepHistory(u, u.progress.value, steps);
    var i :| 0 <= i < |listed| && listed[i] == x;
    assert SweptAt(u, steps, t, u.progress.value, i);
    ListedHas(s.intents, order, WINDOW, x);
    IntentsStay(u, steps);
    hide Listed, After, Visible, Restored;
    if t.intents[x.0].status == "executing" && Recorded(t.intents[x.0]) {
      assert AwaitsJob(t.intents, x.0, t.intents[x.0].execution.executionId.value,
                       t.intents[x.0].execution.jobName.value);
    }
  }

  lemma {:induction false} IntentsStay(s: System, steps: seq<Step>)
    ensures forall id | id in s.intents :: id in After(s, steps).intents
    decreases |steps|
  {
    if steps != [] {
      IntentsStay(s, steps[..|steps| - 1]);
      StepKeepsIntents(After(s, steps[..|steps| - 1]), steps[|steps| - 1]);
      hide Next;
    }
  }

  lemma StepKeepsIntents(s: System, step: Step)
    ensures forall id | id in s.intents :: id in Next(s, step).intents
  {
    hide Visible, Remove, EndAll, Listed, NextCall;
  }
}
