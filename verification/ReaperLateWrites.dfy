/** The reaper's check and its write are two steps: what may happen to the intent in between. */
module ReaperLateWrites {
  import opened Wrappers
  import opened Reaper
  import opened ReaperSystem
  import opened ReaperHistory

  function History(s: Intents, events: seq<Event>): Intents {
    if events == [] then s else Happen(History(s, events[..|events| - 1]), events[|events| - 1])
  }

  /** The write as it is made: whatever is there now is replaced. */
  function LateWrite(now: Intents, id: IntentId, execution: string, job: string, reason: string): Intents {
    now[id := Lost(execution, job, reason)]
  }

  // ------------------------------------------------------------------ moving on

  /** The write stores another status than executing. */
  predicate EndsStatus(e: Event, id: IntentId) {
    Target(e) == id && Or(StatusOf(e), "executing") != "executing"
  }

  predicate SetsExecuting(e: Event, id: IntentId) {
    Target(e) == id && StatusOf(e) == Some("executing")
  }

  /** The write stores a document that does not name this execution and Job. */
  predicate EndsDocument(e: Event, id: IntentId, execution: string, job: string) {
    Target(e) == id && DocumentOf(e).Some? && !Names(DocumentOf(e).value, execution, job)
  }

  predicate SetsDocument(e: Event, id: IntentId, execution: string, job: string) {
    Target(e) == id && DocumentOf(e).Some? && Names(DocumentOf(e).value, execution, job)
  }

  /** What the writes are: which of them end the wait depends on what was read, not on what is there. */
  lemma EndsTheWait(d: Draft, id: IntentId, execution: string, job: string)
    requires Allowed(d.action, d.read) && d.action.id == id
    ensures EndsStatus(Stored(d), id) || EndsDocument(Stored(d), id, execution, job) <==>
            match d.action
            case Report(_, _, outcome, _) => outcome != Submitted || !Names(d.read.execution, execution, job)
            case AttachEvidence(_) => !Names(d.read.execution, execution, job)
            case ObserveRun(_) => d.read.status != "executing" || !Names(d.read.execution, execution, job)
            case _ => true
  {
  }

  ghost predicate StatusLeft(events: seq<Event>, id: IntentId) {
    exists k :: 0 <= k < |events| && StatusLeftAt(events, k, id)
  }

  ghost predicate StatusLeftAt(events: seq<Event>, k: nat, id: IntentId)
    requires k < |events|
  {
    EndsStatus(events[k], id) && forall m | k < m < |events| :: !SetsExecuting(events[m], id)
  }

  ghost predicate DocumentLeft(events: seq<Event>, id: IntentId, execution: string, job: string) {
    exists k :: 0 <= k < |events| && DocumentLeftAt(events, k, id, execution, job)
  }

  ghost predicate DocumentLeftAt(events: seq<Event>, k: nat, id: IntentId, execution: string, job: string)
    requires k < |events|
  {
    && EndsDocument(events[k], id, execution, job)
    && forall m | k < m < |events| :: !SetsDocument(events[m], id, execution, job)
  }

  /** Some write ended the wait, by its status or by its document, and no later one took that back. */
  ghost predicate MovesOn(events: seq<Event>, id: IntentId, execution: string, job: string) {
    StatusLeft(events, id) || DocumentLeft(events, id, execution, job)
  }

  lemma StatusLeftOneMore(events: seq<Event>, e: Event, id: IntentId)
    ensures StatusLeft(events + [e], id) <==>
            EndsStatus(e, id) || (StatusLeft(events, id) && !SetsExecuting(e, id))
  {
    hide EndsStatus, SetsExecuting;
    var more, n := events + [e], |events|;
    assert more[n] == e && forall k | 0 <= k < n :: more[k] == events[k];
    if EndsStatus(e, id) {
      assert StatusLeftAt(more, n, id);
    }
    if StatusLeft(events, id) && !SetsExecuting(e, id) {
      var k :| 0 <= k < n && StatusLeftAt(events, k, id);
      assert StatusLeftAt(more, k, id);
    }
    if StatusLeft(more, id) && !EndsStatus(e, id) {
      var k :| 0 <= k < |more| && StatusLeftAt(more, k, id);
      assert k < n && !SetsExecuting(more[n], id);
      assert forall m | k < m < n :: more[m] == events[m];
      assert StatusLeftAt(events, k, id);
    }
  }

  lemma DocumentLeftOneMore(events: seq<Event>, e: Event, id: IntentId, execution: string, job: string)
    ensures DocumentLeft(events + [e], id, execution, job) <==>
            EndsDocument(e, id, execution, job)
            || (DocumentLeft(events, id, execution, job) && !SetsDocument(e, id, execution, job))
  {
    hide EndsDocument, SetsDocument;
    var more, n := events + [e], |events|;
    assert more[n] == e && forall k | 0 <= k < n :: more[k] == events[k];
    if EndsDocument(e, id, execution, job) {
      assert DocumentLeftAt(more, n, id, execution, job);
    }
    if DocumentLeft(events, id, execution, job) && !SetsDocument(e, id, execution, job) {
      var k :| 0 <= k < n && DocumentLeftAt(events, k, id, execution, job);
      assert DocumentLeftAt(more, k, id, execution, job);
    }
    if DocumentLeft(more, id, execution, job) && !EndsDocument(e, id, execution, job) {
      var k :| 0 <= k < |more| && DocumentLeftAt(more, k, id, execution, job);
      assert k < n && !SetsDocument(more[n], id, execution, job);
      assert forall m | k < m < n :: more[m] == events[m];
      assert DocumentLeftAt(events, k, id, execution, job);
    }
  }

  lemma EventStatus(s: Intents, e: Event, id: IntentId)
    requires id in s
    ensures id in Happen(s, e)
    ensures Happen(s, e)[id].status == "executing" <==>
            SetsExecuting(e, id) || (s[id].status == "executing" && !EndsStatus(e, id))
  {
  }

  lemma EventDocument(s: Intents, e: Event, id: IntentId, execution: string, job: string)
    requires id in s
    ensures id in Happen(s, e)
    ensures Names(Happen(s, e)[id].execution, execution, job) <==>
            SetsDocument(e, id, execution, job)
            || (Names(s[id].execution, execution, job) && !EndsDocument(e, id, execution, job))
  {
  }

  lemma SetOrEnd(e: Event, id: IntentId, execution: string, job: string)
    ensures !(SetsExecuting(e, id) && EndsStatus(e, id))
    ensures !(SetsDocument(e, id, execution, job) && EndsDocument(e, id, execution, job))
  {
  }

  /** From a check that found the execution current, the intent has moved on exactly if the writes say so. */
  lemma {:induction false} CurrentUnlessMovedOn(
    s: Intents, events: seq<Event>, id: IntentId, execution: string, job: string)
    requires id in s && Current(s[id], execution, job)
    ensures id in History(s, events)
    ensures History(s, events)[id].status == "executing" <==> !StatusLeft(events, id)
    ensures Names(History(s, events)[id].execution, execution, job) <==> !DocumentLeft(events, id, execution, job)
    decreases |events|
  {
    if events != [] {
      var front, last := events[..|events| - 1], events[|events| - 1];
      assert front + [last] == events;
      CurrentUnlessMovedOn(s, front, id, execution, job);
      StatusLeftOneMore(front, last, id);
      DocumentLeftOneMore(front, last, id, execution, job);
      EventStatus(History(s, front), last, id);
      EventDocument(History(s, front), last, id, execution, job);
      SetOrEnd(last, id, execution, job);
      hide Happen, StatusLeft, DocumentLeft, Names, EndsStatus, EndsDocument, SetsExecuting, SetsDocument;
    }
  }

  /** The writes leave exactly what the failure would store: failed as the last status, and its own document. */
  ghost predicate LeavesLost(before: ExecutionState, events: seq<Event>, id: IntentId, lost: Intent) {
    && (exists k :: 0 <= k < |events| && LastStatusAt(events, k, id, lost.status))
    && LeavesDocument(before, events, id, lost.execution)
  }

  /** The document was there and no write put another, or some write put it and no later one another. */
  ghost predicate LeavesDocument(before: ExecutionState, events: seq<Event>, id: IntentId, document: ExecutionState) {
    || (before == document
        && forall m | 0 <= m < |events| && Target(events[m]) == id :: Or(DocumentOf(events[m]), document) == document)
    || exists k :: 0 <= k < |events| && LastDocumentAt(events, k, id, document)
  }

  ghost predicate LastStatusAt(events: seq<Event>, k: nat, id: IntentId, status: string)
    requires k < |events|
  {
    && Target(events[k]) == id && StatusOf(events[k]) == Some(status)
    && forall m | k < m < |events| && Target(events[m]) == id :: Or(StatusOf(events[m]), status) == status
  }

  ghost predicate LastDocumentAt(events: seq<Event>, k: nat, id: IntentId, document: ExecutionState)
    requires k < |events|
  {
    && Target(events[k]) == id && DocumentOf(events[k]) == Some(document)
    && forall m | k < m < |events| && Target(events[m]) == id :: Or(DocumentOf(events[m]), document) == document
  }

  lemma LastStatusOneMore(events: seq<Event>, e: Event, id: IntentId, status: string)
    ensures (exists k :: 0 <= k < |events + [e]| && LastStatusAt(events + [e], k, id, status)) <==>
            (Target(e) == id && StatusOf(e) == Some(status))
            || ((exists k :: 0 <= k < |events| && LastStatusAt(events, k, id, status))
                && (Target(e) == id ==> Or(StatusOf(e), status) == status))
  {
    hide StatusOf, Target;
    var more, n := events + [e], |events|;
    assert more[n] == e && forall k | 0 <= k < n :: more[k] == events[k];
    if Target(e) == id && StatusOf(e) == Some(status) {
      assert LastStatusAt(more, n, id, status);
    }
    if k :| 0 <= k < n && LastStatusAt(events, k, id, status) {
      if Target(e) == id ==> Or(StatusOf(e), status) == status {
        assert LastStatusAt(more, k, id, status);
      }
    }
    if k :| 0 <= k < |more| && LastStatusAt(more, k, id, status) {
      if k < n {
        assert Target(more[n]) == id ==> Or(StatusOf(more[n]), status) == status;
        assert forall m | k < m < n :: more[m] == events[m];
        assert LastStatusAt(events, k, id, status);
      }
    }
  }

  lemma LastDocumentOneMore(
    before: ExecutionState, events: seq<Event>, e: Event, id: IntentId, document: ExecutionState)
    ensures LeavesDocument(before, events + [e], id, document) <==>
            (Target(e) == id && DocumentOf(e) == Some(document))
            || (LeavesDocument(before, events, id, document)
                && (Target(e) == id ==> Or(DocumentOf(e), document) == document))
  {
    hide DocumentOf, Target;
    var more, n := events + [e], |events|;
    assert more[n] == e && forall k | 0 <= k < n :: more[k] == events[k];
    if Target(e) == id && DocumentOf(e) == Some(document) {
      assert LastDocumentAt(more, n, id, document);
    } else if Target(e) == id ==> Or(DocumentOf(e), document) == document {
      if k :| 0 <= k < n && LastDocumentAt(events, k, id, document) {
        assert LastDocumentAt(more, k, id, document);
      }
    }
    if k :| 0 <= k < |more| && LastDocumentAt(more, k, id, document) {
      if k < n {
        assert Target(more[n]) == id ==> Or(DocumentOf(more[n]), document) == document;
        assert forall m | k < m < n :: more[m] == events[m];
        assert LastDocumentAt(events, k, id, document);
      }
    } else if LeavesDocument(before, more, id, document) {
      assert Target(more[n]) == id ==> Or(DocumentOf(more[n]), document) == document;
      assert forall m | 0 <= m < n :: more[m] == events[m];
    }
  }

  lemma {:induction false} LeftAsLost(s: Intents, events: seq<Event>, id: IntentId, lost: Intent)
    requires id in s && s[id].status != lost.status
    ensures id in History(s, events)
    ensures History(s, events)[id].status == lost.status <==>
            exists k :: 0 <= k < |events| && LastStatusAt(events, k, id, lost.status)
    ensures History(s, events)[id].execution == lost.execution <==>
            LeavesDocument(s[id].execution, events, id, lost.execution)
    decreases |events|
  {
    if events != [] {
      var front, last := events[..|events| - 1], events[|events| - 1];
      assert front + [last] == events;
      LeftAsLost(s, front, id, lost);
      LastStatusOneMore(front, last, id, lost.status);
      LastDocumentOneMore(s[id].execution, front, last, id, lost.execution);
      hide StatusOf, DocumentOf, Target, LastStatusAt, LeavesDocument;
    }
  }

  /**
    A write made after other writes does something that the check at the moment of the write would not
    have allowed exactly when these moved the intent on and did not leave the very same failure.
   */
  lemma LateWriteDiffersExactly(
    s: Intents, events: seq<Event>, id: IntentId, execution: string, job: string, reason: string)
    requires id in s && Current(s[id], execution, job)
    ensures var now := History(s, events);
            LateWrite(now, id, execution, job, reason) != FailIfCurrent(now, id, execution, job, reason)
            <==> MovesOn(events, id, execution, job)
                 && !LeavesLost(s[id].execution, events, id, Lost(execution, job, reason))
  {
    CurrentUnlessMovedOn(s, events, id, execution, job);
    LeftAsLost(s, events, id, Lost(execution, job, reason));
    hide History, StatusLeft, DocumentLeft, LastStatusAt, LeavesDocument;
    var now := History(s, events);
    if Current(now[id], execution, job) {
    } else if now[id] == Lost(execution, job, reason) {
      assert now[id := Lost(execution, job, reason)] == now;
    } else {
      assert LateWrite(now, id, execution, job, reason)[id] != now[id];
    }
  }

  // ------------------------------------------------------------------ the writes of the others in a pass

  /** The write a step of another writer makes, if it makes one. */
  function WriteOf(s: System, step: Step): seq<Event> {
    match step
    case Store(k) => if k < |s.drafts| then [Stored(s.drafts[k])] else []
    case Other(e) => if e.Stored? || (e.JobRecorded? && e.job !in s.born) then [] else [e]
    case _ => []
  }

  function WritesOf(s: System, steps: seq<Step>): seq<Event> {
    if steps == [] then []
    else
      var front, last := steps[..|steps| - 1], steps[|steps| - 1];
      WritesOf(s, front) + WriteOf(After(s, front), last)
  }

  lemma StepWrites(s: System, step: Step)
    requires Outsider(step)
    ensures var writes := WriteOf(s, step);
            if writes == [] then Next(s, step).intents == s.intents
            else writes == [writes[0]] && Next(s, step).intents == Happen(s.intents, writes[0])
  {
    hide Happen, Remove, EndAll, Allowed;
  }

  lemma {:induction false} WritesMakeHistory(s: System, steps: seq<Step>)
    requires Quiet(steps)
    ensures After(s, steps).intents == History(s.intents, WritesOf(s, steps))
    decreases |steps|
  {
    if steps != [] {
      var front, last := steps[..|steps| - 1], steps[|steps| - 1];
      assert last in steps && forall step | step in front :: step in steps;
      WritesMakeHistory(s, front);
      var writes, more := WritesOf(s, front), WriteOf(After(s, front), last);
      StepWrites(After(s, front), last);
      hide After, Next, Happen, Quiet, WriteOf;
      if more == [] {
        assert writes + more == writes;
      } else {
        assert (writes + more)[..|writes + more| - 1] == writes && (writes + more)[|writes + more| - 1] == more[0];
      }
    }
  }

  /** Everything prepared was allowed by what was read. */
  ghost predicate Checked(s: System) {
    forall d | d in s.drafts :: Allowed(d.action, d.read)
  }

  lemma {:induction false} HistoryKeepsChecked(s: System, steps: seq<Step>)
    requires Checked(s)
    ensures Checked(After(s, steps))
    ensures forall e | e in WritesOf(s, steps) && e.Stored? :: Allowed(e.draft.action, e.draft.read)
    decreases |steps|
  {
    if steps != [] {
      var front, last := steps[..|steps| - 1], steps[|steps| - 1];
      HistoryKeepsChecked(s, front);
      StepKeepsChecked(After(s, front), last);
      hide Next, Checked, After, Allowed, WriteOf;
    }
  }

  lemma StepKeepsChecked(s: System, step: Step)
    requires Checked(s)
    ensures Checked(Next(s, step))
    ensures forall e | e in WriteOf(s, step) && e.Stored? :: Allowed(e.draft.action, e.draft.read)
  {
    hide Allowed, Happen, Visible, Remove, EndAll, Listed, NextCall;
    if step.Store? && step.k < |s.drafts| {
      assert s.drafts[step.k] in s.drafts;
      assert forall d | d in s.drafts[..step.k] + s.drafts[step.k + 1..] :: d in s.drafts;
    }
  }

  /** The same in a pass: what the reaper writes after others were at work, against a check at that moment. */
  lemma LateWriteInThePass(s: System, between: seq<Step>, c: Call)
    requires s.progress.Some? && s.progress.value.pending == Some(c) && IsCurrent(s.intents, c) && Quiet(between)
    ensures var now, writes := After(s, between), WritesOf(s, between);
            Next(now, Write).intents != FailIfCurrent(now.intents, c.id, c.execution, c.job, c.reason)
            <==> MovesOn(writes, c.id, c.execution, c.job)
                 && !LeavesLost(s.intents[c.id].execution, writes, c.id, Lost(c.execution, c.job, c.reason))
  {
    IsCurrentMeans(s.intents, c);
    hide *;
    WritesMakeHistory(s, between);
    OutsidersWait(s, between);
    WriteIsLate(After(s, between), c);
    LateWriteDiffersExactly(s.intents, WritesOf(s, between), c.id, c.execution, c.job, c.reason);
  }

  lemma IsCurrentMeans(s: Intents, c: Call)
    ensures IsCurrent(s, c) <==> c.id in s && Current(s[c.id], c.execution, c.job)
  {
  }

  lemma WriteIsLate(s: System, c: Call)
    requires s.progress.Some? && s.progress.value.pending == Some(c)
    ensures Next(s, Write).intents == LateWrite(s.intents, c.id, c.execution, c.job, c.reason)
  {
  }

  // ------------------------------------------------------------------ destroying another execution

  /** The intent is executing this execution, whether its Job is recorded yet or not. */
  predicate Executes(intent: Intent, execution: string) {
    intent.status == "executing" && intent.execution.executionId == Some(execution)
  }

  predicate Brings(e: Event, id: IntentId, execution: string) {
    Target(e) == id && DocumentOf(e).Some? && DocumentOf(e).value.executionId == Some(execution)
  }

  predicate Replaces(e: Event, id: IntentId, execution: string) {
    Target(e) == id && DocumentOf(e).Some? && DocumentOf(e).value.executionId != Some(execution)
  }

  /** A write brought the execution, none has replaced it since, and the status is still or again executing. */
  ghost predicate Opened(events: seq<Event>, id: IntentId, execution: string) {
    (exists k :: 0 <= k < |events| && OpenedAt(events, k, id, execution)) && !StatusLeft(events, id)
  }

  ghost predicate OpenedAt(events: seq<Event>, k: nat, id: IntentId, execution: string)
    requires k < |events|
  {
    Brings(events[k], id, execution) && forall m | k < m < |events| :: !Replaces(events[m], id, execution)
  }

  ghost predicate Brought(events: seq<Event>, id: IntentId, execution: string) {
    exists k :: 0 <= k < |events| && OpenedAt(events, k, id, execution)
  }

  lemma BroughtOneMore(events: seq<Event>, e: Event, id: IntentId, execution: string)
    ensures Brought(events + [e], id, execution) <==>
            Brings(e, id, execution) || (Brought(events, id, execution) && !Replaces(e, id, execution))
  {
    hide Brings, Replaces;
    var more, n := events + [e], |events|;
    assert more[n] == e && forall k | 0 <= k < n :: more[k] == events[k];
    if Brings(e, id, execution) {
      assert OpenedAt(more, n, id, execution);
    }
    if Brought(events, id, execution) && !Replaces(e, id, execution) {
      var k :| 0 <= k < n && OpenedAt(events, k, id, execution);
      assert OpenedAt(more, k, id, execution);
    }
    if Brought(more, id, execution) && !Brings(e, id, execution) {
      var k :| 0 <= k < |more| && OpenedAt(more, k, id, execution);
      assert k < n && !Replaces(more[n], id, execution);
      assert forall m | k < m < n :: more[m] == events[m];
      assert OpenedAt(events, k, id, execution);
    }
  }

  lemma EventBrings(s: Intents, e: Event, id: IntentId, execution: string)
    requires id in s
    ensures id in Happen(s, e)
    ensures Happen(s, e)[id].execution.executionId == Some(execution) <==>
            Brings(e, id, execution) || (s[id].execution.executionId == Some(execution) && !Replaces(e, id, execution))
  {
  }

  lemma {:induction false} NamedIfBrought(s: Intents, events: seq<Event>, id: IntentId, execution: string)
    requires id in s && s[id].execution.executionId != Some(execution)
    ensures id in History(s, events)
    ensures History(s, events)[id].execution.executionId == Some(execution) <==> Brought(events, id, execution)
    decreases |events|
  {
    if events != [] {
      var front, last := events[..|events| - 1], events[|events| - 1];
      assert front + [last] == events;
      NamedIfBrought(s, front, id, execution);
      BroughtOneMore(front, last, id, execution);
      EventBrings(History(s, front), last, id, execution);
      hide Happen, Brought, Brings, Replaces;
    }
  }

  /**
    A write prepared for one execution destroys another, recorded or still being dispatched, exactly
    when the writes since the check brought that one and left it executing.
   */
  lemma LateWriteHitsNewer(
    s: Intents, events: seq<Event>, id: IntentId, execution: string, job: string, reason: string, newer: string)
    requires id in s && Current(s[id], execution, job) && newer != execution
    ensures id in History(s, events)
    ensures var now := History(s, events);
            Executes(now[id], newer) && !Executes(LateWrite(now, id, execution, job, reason)[id], newer)
            <==> Opened(events, id, newer)
  {
    NamedIfBrought(s, events, id, newer);
    CurrentUnlessMovedOn(s, events, id, execution, job);
    hide History, StatusLeft, OpenedAt;
  }

  // ------------------------------------------------------------------ such writes exist

  function OldRuns(): Intent {
    Intent("executing", ExecutionState(Some("old"), Some("job-old"), "executor_job_created", None))
  }

  /** Staling an executing intent is undone: the late write turns stale into failed. */
  lemma StaledIsOverwritten()
    ensures exists d: Draft ::
              Allowed(d.action, d.read) && d.action == Stale("i") && d.read == OldRuns()
              && MovesOn([Stored(d)], "i", "old", "job-old")
              && !LeavesLost(d.read.execution, [Stored(d)], "i", Lost("old", "job-old", JOB_DISAPPEARED))
  {
    var d := Draft(Stale("i"), OldRuns());
    assert StatusLeftAt([Stored(d)], 0, "i");
    assert StatusOf(Stored(d)) == Some("stale");
  }

  /** A second dispatch that was checked while the intent was approved replaces the wait, and is then destroyed. */
  lemma RacingDispatchIsDestroyed()
    ensures exists d: Draft ::
              Allowed(d.action, d.read) && d.action == Dispatch("i", "new") && Opened([Stored(d)], "i", "new")
  {
    var d := Draft(Dispatch("i", "new"), Intent("approved", NO_EXECUTION));
    assert OpenedAt([Stored(d)], 0, "i", "new");
    assert forall k | 0 <= k < 1 :: [Stored(d)][k] == Stored(d);
  }

  /** The older execution reports, the intent is retried, approved and dispatched: each write read the one before. */
  function RetryHistory(): seq<Event> {
    var failed := Intent("failed", OldRuns().execution.(state := "failed"));
    var proposed := Intent("proposed", NO_EXECUTION);
    var approved := Intent("approved", NO_EXECUTION);
    [Stored(Draft(Report("i", "old", ReportedFailed, None), OldRuns())), Stored(Draft(Retry("i"), failed)),
     Stored(Draft(Decide("i", Approve), proposed)), Stored(Draft(Dispatch("i", "new"), approved))]
  }

  lemma LateWriteCounterexample()
    ensures exists s: Intents, events: seq<Event> ::
              "i" in s && Current(s["i"], "old", "job-old") && Opened(events, "i", "new")
  {
    var s := map["i" := OldRuns()];
    RetryOpens();
    assert Current(s["i"], "old", "job-old");
  }

  lemma RetryOpens()
    ensures Opened(RetryHistory(), "i", "new")
  {
    var events := RetryHistory();
    assert OpenedAt(events, 3, "i", "new");
    forall k | 0 <= k < |events|
      ensures !StatusLeftAt(events, k, "i")
    {
      assert SetsExecuting(events[3], "i") && !EndsStatus(events[3], "i");
    }
  }
}
