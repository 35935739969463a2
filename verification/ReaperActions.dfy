/** The pass of the executor reaper as it runs, with the other writers at work between any two of its steps. */
module ReaperActions {
  import opened Wrappers
  import opened Reaper
  import opened ReaperSystem
  import opened ReaperHistory

  class Controller {
    var intents: Intents
    var drafts: seq<Draft>
    var jobs: seq<JobItem>
    var born: set<string>
    var progress: Option<Progress>
    var audit: seq<Call>

    function Here(): System
      reads this
    {
      System(intents, drafts, jobs, born, progress, audit)
    }

    constructor (s: System)
      ensures Here() == s
    {
      intents, drafts, jobs, born := s.intents, s.drafts, s.jobs, s.born;
      progress, audit := s.progress, s.audit;
    }

    // ---------------------------------------------------------------- the others

    method TakeOther(step: Step)
      requires Outsider(step)
      modifies this
      ensures Here() == Next(old(Here()), step)
    {
      match step
      case Prepare(action) =>
        if action.id in intents && Allowed(action, intents[action.id]) {
          drafts := drafts + [Draft(action, intents[action.id])];
        }
      case Store(k) =>
        if k < |drafts| {
          intents := Happen(intents, Stored(drafts[k]));
          drafts := drafts[..k] + drafts[k + 1..];
        }
      case Other(e) =>
        if !e.Stored? && (e.JobRecorded? ==> e.job in born) {
          intents := Happen(intents, e);
        }
      case JobCreated(name, intent, execution) =>
        if name !in born {
          jobs := jobs + [JobItem(Some(name), Some(intent), Some(execution), 0, 0)];
          born := born + {name};
        }
      case JobEnds(name, badly) =>
        jobs := EndAll(jobs, name, badly);
      case JobRemoved(name) =>
        jobs := Remove(jobs, name);
    }

    method Outside(steps: seq<Step>)
      requires Quiet(steps)
      modifies this
      ensures Here() == After(old(Here()), steps)
    {
      hide Next;
      for i := 0 to |steps|
        invariant Here() == After(old(Here()), steps[..i])
      {
        assert steps[..i + 1][..i] == steps[..i];
        assert steps[i] in steps;
        TakeOther(steps[i]);
      }
      assert steps[..|steps|] == steps;
    }

    // ---------------------------------------------------------------- single steps of the reaper

    method ListExecutorJobs()
      requires progress.None?
      modifies this`progress
      ensures Here() == Next(old(Here()), ListJobs)
    {
      progress := Some(Progress(jobs, born, None, 0, None));
    }

    /** Looks at the intent of the next listed Job or the next listed intent. */
    method CheckIfCurrent()
      requires progress.Some? && progress.value.pending.None? && progress.value.at < Length(progress.value)
      modifies this`progress
      ensures Here() == Next(old(Here()), Look)
    {
      hide NextCall;
      var p := progress.value;
      var c := NextCall(p);
      if c.None? || c.value.id !in intents {
        progress := Some(p.(at := p.at + 1));
        return;
      }
      if !Current(intents[c.value.id], c.value.execution, c.value.job) {
        progress := Some(p.(at := p.at + 1));
        return;
      }
      progress := Some(p.(at := p.at + 1, pending := c));
    }

    /** Stores the failure that was checked, whatever the intent is by now. */
    method WriteFailure()
      modifies this
      ensures Here() == Next(old(Here()), Write)
    {
      if progress.None? || progress.value.pending.None? {
        return;
      }
      var c := progress.value.pending.value;
      intents := intents[c.id := Lost(c.execution, c.job, c.reason)];
      progress := Some(progress.value.(pending := None));
      audit := audit + [c];
    }

    /** The check and the write of one execution, with whatever others do in between. */
    method FailPipelineIntentExecutionIfCurrent(between: seq<Step>)
      requires progress.Some? && progress.value.pending.None? && progress.value.at < Length(progress.value)
      requires Quiet(between)
      modifies this
      ensures Here() == After(old(Here()), [Look] + between + [Write])
      ensures progress == Some(old(progress.value).(at := old(progress.value.at) + 1))
      ensures between == [] ==> intents == HandledBy(old(Here()))
    {
      hide Next, After, NextCall, Length;
      label before:
      LookedThenWritten(Here(), between);
      LookKeepsPosition(Here());
      CheckIfCurrent();
      OutsidersWait(Here(), between);
      label checked:
      Outside(between);
      WriteClears(Here());
      WriteFailure();
      if between == [] {
        NothingBetween(old@before(Here()));
      }
    }

    method ListPipelineIntents(order: seq<IntentId>)
      requires progress.Some? && progress.value.listed.None? && AtEnd(progress.value)
      modifies this`progress
      ensures Here() == Next(old(Here()), ListIntents(order))
    {
      var listed: seq<(IntentId, Intent)> := [];
      for i := 0 to |order|
        invariant listed == InExecution(intents, order[..i]) && progress == old(progress)
      {
        assert order[..i + 1][..i] == order[..i];
        if order[i] in intents && intents[order[i]].status == "executing" {
          listed := listed + [(order[i], intents[order[i]])];
        }
      }
      assert order[..|order|] == order;
      if |listed| > WINDOW {
        listed := listed[..WINDOW];
      }
      progress := Some(progress.value.(listed := Some(listed), at := 0));
    }

    // ---------------------------------------------------------------- the pass

    /** Works off the present list; `others(n)` is what others do at the n-th pause. */
    method WorkOff(others: nat -> seq<Step>, n: nat) returns (ghost trace: seq<Step>, pauses: nat)
      requires progress.Some? && progress.value.pending.None? && progress.value.at == 0
      requires forall k: nat :: Quiet(others(k))
      modifies this
      ensures Here() == After(old(Here()), trace) && Finish !in trace && ListJobs !in trace
      ensures progress == Some(old(progress.value).(at := Length(old(progress.value))))
      ensures (forall k: nat :: others(k) == []) ==>
                intents == Handled(old(intents), old(progress.value), Length(old(progress.value)))
                && jobs == old(jobs) && born == old(born)
    {
      hide Next, After, NextCall, Handled, HandledBy;
      trace, pauses := [], n;
      ghost var calm := forall k: nat :: others(k) == [];
      var p := progress.value;
      HandledWhole(intents, p);
      AfterNone(Here());
      while progress.value.at < Length(p)
        invariant progress.Some? && progress == Some(p.(at := progress.value.at)) && progress.value.at <= Length(p)
        invariant Here() == After(old(Here()), trace) && Finish !in trace && ListJobs !in trace
        invariant calm ==> intents == Handled(old(intents), p, progress.value.at)
        invariant calm ==> jobs == old(jobs) && born == old(born)
        decreases Length(p) - progress.value.at
      {
        var outside, between := others(pauses), others(pauses + 1);
        ghost var at := progress.value.at;
        label visited:
        OutsidersWait(Here(), outside);
        Outside(outside);
        label paused:
        FailPipelineIntentExecutionIfCurrent(between);
        AfterSplit(old(Here()), trace, outside);
        AfterSplit(old(Here()), trace + outside, [Look] + between + [Write]);
        QuietHasNoFinish(outside);
        QuietHasNoFinish(between);
        trace := trace + outside + ([Look] + between + [Write]);
        if calm {
          assert outside == [] && between == [];
          AfterNone(old@visited(Here()));
          HandledOneMore(old(intents), p, at, old@paused(Here()));
          CalmStep(old@paused(Here()));
        }
        pauses := pauses + 2;
      }
    }

    /**
      A whole pass. It is a history of steps that lists the Jobs once, ends once, and in between works
      off both lists; with nobody else at work it is the undisturbed pass.
     */
    method ReapTektonExecutorJobs(order: seq<IntentId>, others: nat -> seq<Step>) returns (ghost body: seq<Step>)
      requires progress.None? && forall k: nat :: Quiet(others(k))
      modifies this
      ensures Here() == After(old(Here()), [ListJobs] + body + [Finish])
      ensures progress.None? && Finish !in body && ListJobs !in body && ListIntents(order) in body
      ensures (forall k: nat :: others(k) == []) ==> intents == Pass(old(intents), old(jobs), order, WINDOW)
    {
      hide Next, After, NextCall, Listed, Handled, Quiet;
      ghost var calm := forall k: nat :: others(k) == [];
      ListExecutorJobs();
      ListingJobs(old(Here()));
      HandledWhole(old(intents), progress.value);
      ghost var first;
      var n;
      first, n := WorkOff(others, 0);
      var gap := others(n);
      OutsidersWait(Here(), gap);
      AfterNone(Here());
      QuietHasNoFinish(gap);
      Outside(gap);
      label second:
      ListPipelineIntents(order);
      ListingIntents(old@second(Here()), order);
      HandledWhole(intents, progress.value);
      ghost var sweep;
      var m;
      sweep, m := WorkOff(others, n + 1);
      label swept:
      progress := None;
      FinishEnds(old@swept(Here()));
      body := first + gap + [ListIntents(order)] + sweep;
      Whole(old(Here()), first, gap, order, sweep);
    }
  }

  /** What the calm handling of the first `k` positions leaves of the intents. */
  function Handled(s: Intents, p: Progress, k: nat): Intents
    requires k <= Length(p)
  {
    if p.listed.None? then ReapItems(s, p.items[..k]) else ReapListed(s, p.listed.value[..k], Visible(p.items))
  }

  function HandledBy(s: System): Intents
    requires s.progress.Some? && s.progress.value.at < Length(s.progress.value)
  {
    var p := s.progress.value;
    if p.listed.None? then ReapItem(s.intents, p.items[p.at])
    else ReapMissing(s.intents, p.listed.value[p.at].0, p.listed.value[p.at].1, Visible(p.items))
  }

  /** A calm step at position `k` moves the handling on by one. */
  lemma HandledOneMore(s: Intents, p: Progress, k: nat, now: System)
    requires k < Length(p) && now.progress == Some(p.(at := k)) && now.intents == Handled(s, p, k)
    ensures HandledBy(now) == Handled(s, p, k + 1)
  {
    hide ReapItem, ReapMissing;
    if p.listed.None? {
      assert p.items[..k + 1][..k] == p.items[..k];
    } else {
      assert p.listed.value[..k + 1][..k] == p.listed.value[..k];
    }
  }

  lemma HandledWhole(s: Intents, p: Progress)
    ensures Handled(s, p, 0) == s
    ensures Handled(s, p, Length(p)) ==
            if p.listed.None? then ReapItems(s, p.items) else ReapListed(s, p.listed.value, Visible(p.items))
  {
    if p.listed.None? {
      assert p.items[..|p.items|] == p.items;
    } else {
      assert p.listed.value[..|p.listed.value|] == p.listed.value;
    }
  }

  lemma LookKeepsPosition(s: System)
    requires s.progress.Some? && s.progress.value.pending.None? && s.progress.value.at < Length(s.progress.value)
    ensures var t := Next(s, Look);
            && t.intents == s.intents && t.jobs == s.jobs && t.progress.Some?
            && t.progress.value.(pending := None) == s.progress.value.(at := s.progress.value.at + 1)
  {
    hide NextCall, Length;
  }

  lemma WriteClears(s: System)
    requires s.progress.Some?
    ensures Next(s, Write).progress == Some(s.progress.value.(pending := None))
  {
  }

  lemma NothingBetween(s: System)
    requires s.progress.Some? && s.progress.value.pending.None? && s.progress.value.at < Length(s.progress.value)
    ensures After(s, [Look] + [] + [Write]).intents == HandledBy(s)
  {
    LookedThenWritten(s, []);
    hide Visible, Why;
  }

  lemma CalmStep(s: System)
    requires s.progress.Some? && s.progress.value.pending.None? && s.progress.value.at < Length(s.progress.value)
    ensures After(s, [Look] + [] + [Write]).jobs == s.jobs && After(s, [Look] + [] + [Write]).born == s.born
  {
    LookedThenWritten(s, []);
    hide NextCall, Length;
  }

  lemma QuietHasNoFinish(steps: seq<Step>)
    requires Quiet(steps)
    ensures Finish !in steps && ListJobs !in steps
  {
  }

  lemma ListingJobs(s: System)
    requires s.progress.None?
    ensures Next(s, ListJobs) == s.(progress := Some(Progress(s.jobs, s.born, None, 0, None)))
  {
  }

  lemma ListingIntents(s: System, order: seq<IntentId>)
    requires s.progress.Some? && s.progress.value.listed.None? && AtEnd(s.progress.value)
    ensures Next(s, ListIntents(order)) ==
            s.(progress := Some(s.progress.value.(listed := Some(Listed(s.intents, order, WINDOW)), at := 0)))
  {
  }

  lemma FinishEnds(s: System)
    requires s.progress.Some? && s.progress.value.listed.Some? && AtEnd(s.progress.value)
    ensures Next(s, Finish) == s.(progress := None)
  {
  }

  lemma Whole(s: System, first: seq<Step>, gap: seq<Step>, order: seq<IntentId>, sweep: seq<Step>)
    ensures After(s, [ListJobs] + (first + gap + [ListIntents(order)] + sweep) + [Finish]) ==
            Next(After(Next(After(After(Next(s, ListJobs), first), gap), ListIntents(order)), sweep), Finish)
  {
    hide Next;
    var body := first + gap + [ListIntents(order)] + sweep;
    AfterOne(s, [ListJobs] + body, Finish);
    AfterSplit(s, [ListJobs], body);
    AfterOne(s, [], ListJobs);
    assert [] + [ListJobs] == [ListJobs];
    var u := Next(s, ListJobs);
    AfterSplit(u, first + gap + [ListIntents(order)], sweep);
    AfterOne(u, first + gap, ListIntents(order));
    AfterSplit(u, first, gap);
  }
}
