/** Exactly when the reaper can fail an execution again although its Job is not recorded again. */
module ReaperReturns {
  import opened Wrappers
  import opened Reaper
  import opened ReaperSystem
  import opened ReaperHistory
  import opened ReaperLosses
  import opened ReaperRestorations

  // ------------------------------------------------------------------ what a state leads to

  /** Some history leads there without recording a Job of this execution. */
  ghost predicate Leads(s: System, t: System, id: IntentId, execution: string) {
    exists steps :: Recordings(steps, id, execution) == 0 && After(s, steps) == t
  }

  lemma LeadsOn(s: System, t: System, u: System, id: IntentId, execution: string)
    requires Leads(s, t, id, execution) && Leads(t, u, id, execution)
    ensures Leads(s, u, id, execution)
  {
    hide After, Recordings;
    var a :| Recordings(a, id, execution) == 0 && After(s, a) == t;
    var b :| Recordings(b, id, execution) == 0 && After(t, b) == u;
    AfterSplit(s, a, b);
    RecordingsSplit(a, b, id, execution);
  }

  lemma LeadsNowhere(s: System, id: IntentId, execution: string)
    ensures Leads(s, s, id, execution)
  {
    AfterNone(s);
    assert Recordings([], id, execution) == 0;
  }

  lemma LeadsNext(s: System, step: Step, id: IntentId, execution: string)
    requires !step.Other?
    ensures Leads(s, Next(s, step), id, execution)
  {
    hide Next;
    AfterOne(s, [], step);
    assert [] + [step] == [step];
    NoRecords([step], id, execution);
  }

  /** A step more after what is led to. */
  lemma LeadsBy(s: System, t: System, step: Step, id: IntentId, execution: string)
    requires Leads(s, t, id, execution) && !step.Other?
    ensures Leads(s, Next(t, step), id, execution)
  {
    hide Next, Leads;
    LeadsNext(t, step, id, execution);
    LeadsOn(s, t, Next(t, step), id, execution);
  }

  // ------------------------------------------------------------------ the other writers bring a document back

  function Put(s: System, id: IntentId, intent: Intent): System {
    s.(intents := s.intents[id := intent])
  }

  lemma ReadAndWritten(s: System, t: System, action: Action, execution: string) returns (u: System)
    requires Leads(s, t, action.id, execution)
    requires action.id in t.intents && Allowed(action, t.intents[action.id])
    ensures Leads(s, u, action.id, execution)
    ensures var d := Draft(action, t.intents[action.id]);
            u == Put(t, action.id, Intent(Or(DraftStatus(d), d.read.status), Or(DraftDocument(d), d.read.execution)))
  {
    hide Leads, Allowed;
    var n, d := |t.drafts|, Draft(action, t.intents[action.id]);
    LeadsBy(s, t, Prepare(action), action.id, execution);
    var read := t.(drafts := t.drafts + [d]);
    assert Next(t, Prepare(action)) == read;
    LeadsBy(s, read, Store(n), action.id, execution);
    u := Next(read, Store(n));
    assert read.drafts[..n] + read.drafts[n + 1..] == t.drafts;
  }

  lemma OnlyRead(s: System, t: System, action: Action, execution: string)
    requires Leads(s, t, action.id, execution)
    requires action.id in t.intents && Allowed(action, t.intents[action.id])
    ensures Leads(s, t.(drafts := t.drafts + [Draft(action, t.intents[action.id])]), action.id, execution)
  {
    hide Leads, Allowed;
    LeadsBy(s, t, Prepare(action), action.id, execution);
  }

  lemma Written(s: System, t: System, before: seq<Draft>, d: Draft, rest: seq<Draft>, execution: string)
    requires Leads(s, t, d.action.id, execution) && d.action.id in t.intents && t.drafts == before + [d] + rest
    ensures var now := t.intents[d.action.id];
            Leads(s, Put(t, d.action.id, Intent(Or(DraftStatus(d), now.status), Or(DraftDocument(d), now.execution)))
                     .(drafts := before + rest), d.action.id, execution)
  {
    hide Leads;
    var n := |before|;
    LeadsBy(s, t, Store(n), d.action.id, execution);
    assert t.drafts[n] == d && t.drafts[..n] == before && t.drafts[n + 1..] == rest;
  }

  ghost predicate Waits(s: System, id: IntentId, execution: string) {
    && s.progress.None? && id in s.intents && s.intents[id].status == "executing"
    && Records(s.intents[id].execution, execution)
  }

  /** The evidence is read before the intent is staled, proposed and dispatched anew, and stored after it. */
  lemma EvidenceBringsBack(s: System, t: System, id: IntentId, execution: string) returns (u: System)
    requires Leads(s, t, id, execution) && t.progress.None? && id in t.intents && t.intents[id].status != "stale"
    requires Records(t.intents[id].execution, execution)
    ensures Leads(s, u, id, execution) && Waits(u, id, execution) && u.audit == t.audit
  {
    hide Leads;
    var d := Draft(AttachEvidence(id), t.intents[id]);
    OnlyRead(s, t, d.action, execution);
    var t1 := t.(drafts := t.drafts + [d]);
    var t2 := ReadAndWritten(s, t1, Stale(id), execution);
    var t3 := ReadAndWritten(s, t2, Repropose(id), execution);
    var t4 := ReadAndWritten(s, t3, Decide(id, Approve), execution);
    var t5 := ReadAndWritten(s, t4, Dispatch(id, "new"), execution);
    assert t5.drafts == t.drafts + [d] + [];
    Written(s, t5, t.drafts, d, [], execution);
    u := Put(t5, id, Intent("executing", d.read.execution)).(drafts := t.drafts + []);
  }

  /** The observer reads the staled document, which returns after the intent was proposed anew, and is approved. */
  lemma ObserverBringsBack(s: System, t: System, id: IntentId, execution: string) returns (u: System)
    requires Leads(s, t, id, execution) && t.progress.None? && id in t.intents && t.intents[id].status == "stale"
    requires Records(t.intents[id].execution, execution)
    ensures Leads(s, u, id, execution) && u.progress.None? && u.audit == t.audit
    ensures id in u.intents && u.intents[id] == t.intents[id].(status := "approved")
  {
    hide Leads;
    var i0, before := t.intents[id], t.drafts;
    var r, o := Draft(Repropose(id), i0), Draft(ObserveRun(id), i0);
    OnlyRead(s, t, r.action, execution);
    var t1 := t.(drafts := before + [r]);
    OnlyRead(s, t1, o.action, execution);
    var t2 := t.(drafts := before + [r] + [o]);
    Written(s, t2, before, r, [o], execution);
    var t3 := Put(t, id, Intent("proposed", NO_EXECUTION)).(drafts := before + [o]);
    var a := Draft(Decide(id, Approve), t3.intents[id]);
    OnlyRead(s, t3, a.action, execution);
    var t4 := t3.(drafts := before + [o] + [a]);
    Written(s, t4, before, o, [a], execution);
    var t5 := Put(t4, id, i0).(drafts := before + [a]);
    assert t5.drafts == before + [a] + [];
    Written(s, t5, before, a, [], execution);
    u := Put(t5, id, i0.(status := "approved")).(drafts := before + []);
  }

  lemma DocumentBringsBack(s: System, t: System, id: IntentId, execution: string) returns (u: System)
    requires Leads(s, t, id, execution) && t.progress.None? && id in t.intents
    requires Records(t.intents[id].execution, execution)
    ensures Leads(s, u, id, execution) && Waits(u, id, execution) && u.audit == t.audit
  {
    hide Leads;
    if t.intents[id].status == "stale" {
      var v := ObserverBringsBack(s, t, id, execution);
      u := EvidenceBringsBack(s, v, id, execution);
    } else {
      u := EvidenceBringsBack(s, t, id, execution);
    }
  }

  // ------------------------------------------------------------------ and a pass fails it

  lemma AllRemoved(s: System, t: System, id: IntentId, execution: string) returns (u: System)
    requires Leads(s, t, id, execution)
    ensures Leads(s, u, id, execution) && u == t.(jobs := u.jobs) && Visible(u.jobs) == {}
    decreases |Visible(t.jobs)|
  {
    hide Leads, Visible;
    if Visible(t.jobs) == {} {
      u := t;
    } else {
      var name :| name in Visible(t.jobs);
      LeadsBy(s, t, JobRemoved(name), id, execution);
      RemoveNames(t.jobs, name);
      u := AllRemoved(s, t.(jobs := Remove(t.jobs, name)), id, execution);
    }
  }

  /** Jobs without a name ask for nothing. */
  lemma {:induction false} NothingToFail(s: System, t: System, id: IntentId, execution: string)
    requires Leads(s, t, id, execution) && t.progress.Some?
    requires var p := t.progress.value;
             p.listed.None? && p.pending.None? && p.at <= |p.items| && Visible(p.items) == {}
    ensures var p := t.progress.value; Leads(s, t.(progress := Some(p.(at := |p.items|))), id, execution)
    decreases |t.progress.value.items| - t.progress.value.at
  {
    hide Leads;
    var p := t.progress.value;
    if p.at < |p.items| {
      LeadsBy(s, t, Look, id, execution);
      AsksByName(p.items, p.at);
      hide Visible;
      var v := t.(progress := Some(p.(at := p.at + 1)));
      assert Next(t, Look) == v;
      NothingToFail(s, v, id, execution);
    } else {
      assert t == t.(progress := Some(p.(at := |p.items|)));
    }
  }

  lemma AsksByName(items: seq<JobItem>, k: nat)
    requires k < |items|
    ensures CallOf(items[k]).Some? ==> CallOf(items[k]).value.job in Visible(items)
  {
    assert items[k] in items;
  }

  lemma PassFails(s: System, t: System, id: IntentId, execution: string) returns (u: System)
    requires Leads(s, t, id, execution) && Waits(t, id, execution)
    ensures Leads(s, u, id, execution)
    ensures Failures(u.audit, id, execution) == Failures(t.audit, id, execution) + 1
  {
    hide Leads, Visible, Listed, CallFor;
    var v := AllRemoved(s, t, id, execution);
    LeadsBy(s, v, ListJobs, id, execution);
    var p := Progress(v.jobs, v.born, None, 0, None);
    NothingToFail(s, v.(progress := Some(p)), id, execution);
    var v2 := v.(progress := Some(p.(at := |p.items|)));
    LeadsBy(s, v2, ListIntents([id]), id, execution);
    OneListed(v.intents, id);
    var q := p.(listed := Some([(id, v.intents[id])]));
    var v3 := v.(progress := Some(q));
    assert Next(v2, ListIntents([id])) == v3;
    LeadsBy(s, v3, Look, id, execution);
    SweepFinds(v.intents[id], id, execution, Visible(p.items));
    var c := Call(id, execution, v.intents[id].execution.jobName.value, JOB_DISAPPEARED);
    var v4 := v.(progress := Some(q.(at := 1, pending := Some(c))));
    assert Next(v3, Look) == v4;
    LeadsBy(s, v4, Write, id, execution);
    u := Next(v4, Write);
    assert (v.audit + [c])[..|v.audit|] == v.audit;
  }

  // ------------------------------------------------------------------ the condition

  /** Some history fails the execution once more without recording its Job again. */
  ghost predicate FailsAgain(s: System, id: IntentId, execution: string) {
    exists steps :: Recordings(steps, id, execution) == 0
      && Failures(After(s, steps).audit, id, execution) > Failures(s.audit, id, execution)
  }

  lemma KnownFailsAgain(s: System, id: IntentId, execution: string)
    requires s.progress.None? && id in s.intents && !Forgotten(s, id, execution)
    ensures FailsAgain(s, id, execution)
  {
    hide Leads, Next, Failures;
    LeadsNowhere(s, id, execution);
    var t := s;
    if !Records(s.intents[id].execution, execution) {
      var d :| d in s.drafts && d.action.id == id && Carries(d, execution);
      var k :| 0 <= k < |s.drafts| && s.drafts[k] == d;
      assert s.drafts == s.drafts[..k] + [d] + s.drafts[k + 1..];
      Written(s, s, s.drafts[..k], d, s.drafts[k + 1..], execution);
      t := Put(s, id, Intent(Or(DraftStatus(d), s.intents[id].status), DraftDocument(d).value))
           .(drafts := s.drafts[..k] + s.drafts[k + 1..]);
    }
    var u := DocumentBringsBack(s, t, id, execution);
    var v := PassFails(s, u, id, execution);
    Witness(s, v, id, execution);
  }

  lemma Witness(s: System, t: System, id: IntentId, execution: string)
    requires Leads(s, t, id, execution) && Failures(t.audit, id, execution) > Failures(s.audit, id, execution)
    ensures FailsAgain(s, id, execution)
  {
    hide Failures, After, Recordings;
  }

  /**
    Between two passes: the reaper can fail an execution once more, without its Job being recorded
    again, exactly when the intent's document still records it or some prepared write carries it.
   */
  lemma FailsAgainExactly(s: System, id: IntentId, execution: string)
    requires s.progress.None? && id in s.intents
    ensures FailsAgain(s, id, execution) <==> !Forgotten(s, id, execution)
  {
    hide Forgotten, After, Recordings, Failures;
    if !Forgotten(s, id, execution) {
      KnownFailsAgain(s, id, execution);
    }
    if FailsAgain(s, id, execution) && Forgotten(s, id, execution) {
      var steps :| Recordings(steps, id, execution) == 0
        && Failures(After(s, steps).audit, id, execution) > Failures(s.audit, id, execution);
      OlderExecutionIsLeftAlone(s, steps, id, execution);
      assert false;
    }
  }
}
