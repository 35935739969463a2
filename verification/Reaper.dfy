/** One pass of the executor reaper: which executions it fails, and what a second pass would do. */
module Reaper {
  import opened Wrappers

  type IntentId = string

  /** The execution part of a PipelineIntent's document. */
  datatype ExecutionState = ExecutionState(
    executionId: Option<string>, jobName: Option<string>, state: string, error: Option<string>)

  datatype Intent = Intent(status: string, execution: ExecutionState)

  /** One executor Job as listed: its name, its two annotations, and how many Pods ended which way. */
  datatype JobItem = JobItem(
    name: Option<string>, intent: Option<IntentId>, execution: Option<string>, failed: nat, succeeded: nat)

  type Intents = map<IntentId, Intent>

  const WINDOW: nat := 200

  // ------------------------------------------------------------------ failing one execution

  predicate Current(intent: Intent, execution: string, job: string) {
    && intent.status == "executing"
    && intent.execution.executionId == Some(execution)
    && intent.execution.jobName == Some(job)
  }

  function Lost(execution: string, job: string, reason: string): Intent {
    Intent("failed", ExecutionState(Some(execution), Some(job), "executor_job_lost", Some(reason)))
  }

  function FailIfCurrent(s: Intents, id: IntentId, execution: string, job: string, reason: string): Intents {
    if id in s && Current(s[id], execution, job) then s[id := Lost(execution, job, reason)] else s
  }

  predicate Ended(item: JobItem) {
    item.failed > 0 || item.succeeded > 0
  }

  const JOB_FAILED := "Tekton executor Job failed before reporting a durable outcome"
  const JOB_COMPLETED := "Tekton executor Job completed without reporting a durable outcome"
  const JOB_DISAPPEARED := "Tekton executor Job disappeared before reporting a durable outcome"

  function Why(item: JobItem): string {
    if item.failed > 0 then JOB_FAILED else JOB_COMPLETED
  }

  // ------------------------------------------------------------------ the two loops

  function ReapItem(s: Intents, item: JobItem): Intents {
    if item.intent.None? || item.execution.None? || item.name.None? || !Ended(item) then s
    else FailIfCurrent(s, item.intent.value, item.execution.value, item.name.value, Why(item))
  }

  function ReapItems(s: Intents, items: seq<JobItem>): Intents {
    if items == [] then s else ReapItem(ReapItems(s, items[..|items| - 1]), items[|items| - 1])
  }

  function Visible(items: seq<JobItem>): set<string> {
    set item | item in items && item.name.Some? :: item.name.value
  }

  function ReapMissing(s: Intents, id: IntentId, listed: Intent, visible: set<string>): Intents {
    if listed.execution.jobName.None? || listed.execution.jobName.value in visible then s
    else if listed.execution.executionId.None? then s
    else FailIfCurrent(s, id, listed.execution.executionId.value, listed.execution.jobName.value, JOB_DISAPPEARED)
  }

  function ReapListed(s: Intents, listed: seq<(IntentId, Intent)>, visible: set<string>): Intents {
    if listed == [] then s
    else
      var last := listed[|listed| - 1];
      ReapMissing(ReapListed(s, listed[..|listed| - 1], visible), last.0, last.1, visible)
  }

  /** The executing intents in the store's order, newest first, cut off at the window. */
  function InExecution(s: Intents, order: seq<IntentId>): seq<(IntentId, Intent)> {
    if order == [] then []
    else
      var id := order[|order| - 1];
      InExecution(s, order[..|order| - 1]) + if id in s && s[id].status == "executing" then [(id, s[id])] else []
  }

  function Listed(s: Intents, order: seq<IntentId>, window: nat): seq<(IntentId, Intent)> {
    var all := InExecution(s, order);
    if |all| <= window then all else all[..window]
  }

  /** A pass during which nothing else touches the store; `ReaperActions` ties it to the steps. */
  function Pass(s: Intents, items: seq<JobItem>, order: seq<IntentId>, window: nat): Intents {
    var t := ReapItems(s, items);
    ReapListed(t, Listed(t, order, window), Visible(items))
  }

  lemma VisibleGrows(items: seq<JobItem>, item: JobItem)
    ensures Visible(items + [item]) == Visible(items) + if item.name.Some? then {item.name.value} else {}
  {
    assert forall x :: x in items + [item] <==> x in items || x == item;
  }
}
