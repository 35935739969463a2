/**
  The executor reaper among the other writers, one read or write at a time. Neither it nor any of them
  holds a lock: between any two steps intents are dispatched, reported, retried and staled by writes
  that were prepared from older reads, and Jobs come and go.
 */
module ReaperSystem {
  import opened Wrappers
  import opened Reaper

  // ------------------------------------------------------------------ the other writers

  datatype Outcome = Submitted | Completed | ReportedFailed

  datatype Decision = Propose | Approve | Reject

  /** What another writer does with one PipelineIntent: it reads it, checks it, and writes later. */
  datatype Action =
    | Dispatch(id: IntentId, execution: string)
    | Report(id: IntentId, execution: string, outcome: Outcome, error: Option<string>)
    | Retry(id: IntentId)
    | Decide(id: IntentId, decision: Decision)
    | Stale(id: IntentId)
    | Repropose(id: IntentId)
    | AttachEvidence(id: IntentId)
    | ObserveRun(id: IntentId)

  /** A write that was prepared from the document that was read. */
  datatype Draft = Draft(action: Action, read: Intent)

  /** One write of another writer; a dispatcher's later writes check nothing. */
  datatype Event =
    | Stored(draft: Draft)
    | JobRecorded(id: IntentId, execution: string, job: string)
    | DispatchFailed(id: IntentId, execution: string, error: Option<string>)

  const RETRYABLE := ["pipeline_run_failed", "failed", "dispatch_failed"]

  const NO_EXECUTION := ExecutionState(None, None, "", None)

  /** The checks that follow the read; nothing repeats them at the write. */
  predicate Allowed(action: Action, read: Intent) {
    match action
    case Dispatch(_, _) => read.status == "approved"
    case Report(_, execution, _, _) =>
      read.status == "executing" && read.execution.executionId == Some(execution)
    case Retry(_) => read.status == "failed" && read.execution.state in RETRYABLE && read.execution.executionId.Some?
    case Decide(_, decision) => read.status == "proposed" || (read.status == "approved" && decision == Reject)
    case Stale(_) => read.status != "stale"
    case Repropose(_) => read.status == "stale"
    case AttachEvidence(_) => read.status != "stale"
    case ObserveRun(_) => read.execution.executionId.Some?
  }

  function OutcomeStatus(outcome: Outcome): string {
    match outcome
    case Submitted => "executing"
    case Completed => "approved"
    case ReportedFailed => "failed"
  }

  function OutcomeState(outcome: Outcome, before: string): string {
    match outcome
    case Submitted => "pipeline_run_created"
    case Completed => "pipeline_run_succeeded"
    case ReportedFailed => if before == "pipeline_run_created" then "pipeline_run_failed" else "failed"
  }

  /** The status a prepared write stores, if it stores one. */
  function DraftStatus(d: Draft): Option<string> {
    match d.action
    case Dispatch(_, _) => Some("executing")
    case Report(_, _, outcome, _) => Some(OutcomeStatus(outcome))
    case Retry(_) => Some("proposed")
    case Decide(_, decision) =>
      Some(match decision case Propose => "proposed" case Approve => "approved" case Reject => "rejected")
    case Stale(_) => Some("stale")
    case Repropose(_) => Some("proposed")
    case AttachEvidence(_) => None
    case ObserveRun(_) => Some(d.read.status)
  }

  /** The execution a prepared write stores, if it stores a document: whatever it does not set is as it was read. */
  function DraftDocument(d: Draft): Option<ExecutionState> {
    match d.action
    case Dispatch(_, execution) => Some(ExecutionState(Some(execution), None, "dispatching", None))
    case Report(_, _, outcome, error) =>
      Some(d.read.execution.(state := OutcomeState(outcome, d.read.execution.state), error := error))
    case Retry(_) => Some(NO_EXECUTION)
    case Decide(_, _) => None
    case Stale(_) => None
    case Repropose(_) => Some(NO_EXECUTION)
    case AttachEvidence(_) => Some(d.read.execution)
    case ObserveRun(_) => Some(d.read.execution)
  }

  predicate Names(document: ExecutionState, execution: string, job: string) {
    document.executionId == Some(execution) && document.jobName == Some(job)
  }

  function Target(e: Event): IntentId {
    if e.Stored? then e.draft.action.id else e.id
  }

  function StatusOf(e: Event): Option<string> {
    match e
    case Stored(d) => DraftStatus(d)
    case JobRecorded(_, _, _) => Some("executing")
    case DispatchFailed(_, _, _) => Some("failed")
  }

  function DocumentOf(e: Event): Option<ExecutionState> {
    match e
    case Stored(d) => DraftDocument(d)
    case JobRecorded(_, execution, job) =>
      Some(ExecutionState(Some(execution), Some(job), "executor_job_created", None))
    case DispatchFailed(_, execution, error) => Some(ExecutionState(Some(execution), None, "dispatch_failed", error))
  }

  function Or<T>(written: Option<T>, before: T): T {
    if written.Some? then written.value else before
  }

  /** The write itself: it names the row and nothing else. */
  function Happen(s: Intents, e: Event): Intents {
    if Target(e) !in s then s
    else s[Target(e) := Intent(Or(StatusOf(e), s[Target(e)].status), Or(DocumentOf(e), s[Target(e)].execution))]
  }

  // ------------------------------------------------------------------ the whole system

  /** One failure the reaper has in mind. */
  datatype Call = Call(id: IntentId, execution: string, job: string, reason: string)

  /**
    A pass under way: the listed Jobs, the names given to Jobs by then, the listed intents once they
    are listed, the next of the two lists to look at, and the failure checked but not yet written.
   */
  datatype Progress = Progress(
    items: seq<JobItem>, known: set<string>, listed: Option<seq<(IntentId, Intent)>>, at: nat, pending: Option<Call>)

  /**
    `drafts` are the writes that others have prepared and not yet made, `born` all names ever given to a
    Job, `audit` what the reaper has failed.
   */
  datatype System = System(
    intents: Intents, drafts: seq<Draft>, jobs: seq<JobItem>, born: set<string>, progress: Option<Progress>,
    audit: seq<Call>)

  datatype Step =
    | Prepare(action: Action)
    | Store(k: nat)
    | Other(event: Event)
    | JobCreated(name: string, intent: IntentId, execution: string)
    | JobEnds(name: string, badly: bool)
    | JobRemoved(name: string)
    | ListJobs
    | Look
    | Write
    | ListIntents(order: seq<IntentId>)
    | Finish

  predicate Outsider(step: Step) {
    step.Prepare? || step.Store? || step.Other? || step.JobCreated? || step.JobEnds? || step.JobRemoved?
  }

  function Ends(item: JobItem, name: string, badly: bool): JobItem {
    if item.name != Some(name) then item
    else if badly then item.(failed := item.failed + 1) else item.(succeeded := item.succeeded + 1)
  }

  function EndAll(jobs: seq<JobItem>, name: string, badly: bool): (ended: seq<JobItem>)
    ensures |ended| == |jobs| && forall i | 0 <= i < |jobs| :: ended[i] == Ends(jobs[i], name, badly)
  {
    seq(|jobs|, i requires 0 <= i < |jobs| => Ends(jobs[i], name, badly))
  }

  function Remove(jobs: seq<JobItem>, name: string): seq<JobItem> {
    if jobs == [] then []
    else Remove(jobs[..|jobs| - 1], name) + if jobs[|jobs| - 1].name == Some(name) then [] else [jobs[|jobs| - 1]]
  }

  /** What a listed Job asks for: nothing while it runs, or when a name or an annotation is missing. */
  function CallOf(item: JobItem): Option<Call> {
    if item.intent.None? || item.execution.None? || item.name.None? || !Ended(item) then None
    else Some(Call(item.intent.value, item.execution.value, item.name.value, Why(item)))
  }

  /** What a listed intent asks for: nothing while its Job is visible, or when nothing is recorded. */
  function CallFor(entry: (IntentId, Intent), visible: set<string>): Option<Call> {
    var x := entry.1.execution;
    if x.jobName.None? || x.jobName.value in visible || x.executionId.None? then None
    else Some(Call(entry.0, x.executionId.value, x.jobName.value, JOB_DISAPPEARED))
  }

  /** The call at the reaper's present position, if it has not come to the end of its list. */
  function NextCall(p: Progress): Option<Call> {
    if p.listed.None? then if p.at < |p.items| then CallOf(p.items[p.at]) else None
    else if p.at < |p.listed.value| then CallFor(p.listed.value[p.at], Visible(p.items)) else None
  }

  function Length(p: Progress): nat {
    if p.listed.None? then |p.items| else |p.listed.value|
  }

  predicate IsCurrent(s: Intents, c: Call) {
    c.id in s && Current(s[c.id], c.execution, c.job)
  }

  /** One step; a step that is not enabled changes nothing. */
  function Next(s: System, step: Step): System {
    match step
    case Prepare(action) =>
      if action.id !in s.intents || !Allowed(action, s.intents[action.id]) then s
      else s.(drafts := s.drafts + [Draft(action, s.intents[action.id])])
    case Store(k) =>
      if k >= |s.drafts| then s
      else s.(intents := Happen(s.intents, Stored(s.drafts[k])), drafts := s.drafts[..k] + s.drafts[k + 1..])
    case Other(e) =>
      if e.Stored? || (e.JobRecorded? && e.job !in s.born) then s else s.(intents := Happen(s.intents, e))
    case JobCreated(name, intent, execution) =>
      if name in s.born then s
      else s.(jobs := s.jobs + [JobItem(Some(name), Some(intent), Some(execution), 0, 0)], born := s.born + {name})
    case JobEnds(name, badly) => s.(jobs := EndAll(s.jobs, name, badly))
    case JobRemoved(name) => s.(jobs := Remove(s.jobs, name))
    case ListJobs => if s.progress.Some? then s else s.(progress := Some(Progress(s.jobs, s.born, None, 0, None)))
    case Look =>
      if s.progress.None? || s.progress.value.pending.Some? || s.progress.value.at >= Length(s.progress.value) then s
      else
        var p := s.progress.value;
        var c := NextCall(p);
        var pending := if c.Some? && IsCurrent(s.intents, c.value) then c else None;
        s.(progress := Some(p.(at := p.at + 1, pending := pending)))
    case Write =>
      if s.progress.None? || s.progress.value.pending.None? then s
      else
        var c := s.progress.value.pending.value;
        s.(intents := s.intents[c.id := Lost(c.execution, c.job, c.reason)],
           progress := Some(s.progress.value.(pending := None)), audit := s.audit + [c])
    case ListIntents(order) =>
      if s.progress.None? || s.progress.value.listed.Some? || !AtEnd(s.progress.value) then s
      else s.(progress := Some(s.progress.value.(listed := Some(Listed(s.intents, order, WINDOW)), at := 0)))
    case Finish =>
      if s.progress.None? || s.progress.value.listed.None? || !AtEnd(s.progress.value) then s
      else s.(progress := None)
  }

  predicate AtEnd(p: Progress) {
    p.at >= Length(p) && p.pending.None?
  }

  function After(s: System, steps: seq<Step>): System {
    if steps == [] then s else Next(After(s, steps[..|steps| - 1]), steps[|steps| - 1])
  }

  lemma AfterNone(s: System)
    ensures After(s, []) == s
  {
  }

  lemma {:induction false} AfterSplit(s: System, a: seq<Step>, b: seq<Step>)
    ensures After(s, a + b) == After(After(s, a), b)
    decreases |b|
  {
    hide Next;
    if b == [] {
      assert a + b == a;
    } else {
      AfterSplit(s, a, b[..|b| - 1]);
      assert (a + b)[..|a + b| - 1] == a + b[..|b| - 1];
    }
  }

  lemma AfterOne(s: System, steps: seq<Step>, step: Step)
    ensures After(s, steps + [step]) == Next(After(s, steps), step)
  {
    hide Next;
    assert (steps + [step])[..|steps + [step]| - 1] == steps;
  }

  // ------------------------------------------------------------------ what every step keeps

  predicate RecordedIn(intent: Intent, names: set<string>) {
    intent.execution.jobName.Some? ==> intent.execution.jobName.value in names
  }

  /** A Job is recorded only after it was given its name. */
  ghost predicate Tracked(s: System) {
    && Visible(s.jobs) <= s.born
    && (forall id | id in s.intents :: RecordedIn(s.intents[id], s.born))
    && (forall d | d in s.drafts :: RecordedIn(d.read, s.born))
    && (s.progress.Some? ==> ProgressTracked(s.progress.value, s.born))
  }

  ghost predicate ProgressTracked(p: Progress, born: set<string>) {
    && Visible(p.items) <= p.known <= born
    && p.at <= Length(p)
    && (p.listed.Some? ==> forall x | x in p.listed.value :: RecordedIn(x.1, born))
    && (p.pending.Some? ==> p.pending.value.job in born && Justified(p, p.pending.value))
  }

  /** The failure comes from a listed Job that has ended, or from a listed intent whose Job was not listed. */
  ghost predicate Justified(p: Progress, c: Call) {
    if p.listed.None? then exists item :: item in p.items && CallOf(item) == Some(c)
    else exists entry :: entry in p.listed.value && CallFor(entry, Visible(p.items)) == Some(c)
  }
}
