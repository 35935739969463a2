/** The records that finalizing a Run reads and writes, and the single-record writes themselves. */
module WorkStore {
  import opened Wrappers

  type RunId = string
  type ExecId = string
  type ItemId = string
  type ChainId = string
  type PlanId = string

  datatype RunStatus =
    | Preparing | Queued | Running
    | ApprovalRequired | BudgetExtensionRequired
    | Completed | Failed | Cancelled

  predicate Terminal(s: RunStatus) {
    s == Completed || s == Failed || s == Cancelled
  }

  datatype Consumption = Consumption(
    allowedTurns: nat, allowedTokens: nat, turns: nat, tokens: nat, seconds: nat, extensions: nat)

  /** What a worker reports. The status is text: a worker may send anything. */
  datatype Attempt = Attempt(status: string, consumption: Consumption, pause: Option<Consumption>)

  /** The stored result; a hosted Run also keeps the attempt that ended it. */
  datatype RunResult = RunResult(status: string, budgetExtension: bool, terminalAttempt: Option<Attempt>)

  datatype Stage = Plan | Implement | Test | Verify | Other(name: string)

  /** The Repo Mode part of a Run's execution target. */
  datatype Binding = Binding(
    execution: ExecId,
    stage: Option<Stage>,
    chain: Option<ChainId>,
    deterministicTest: bool,
    testDiagnosis: bool,
    diagnosisOf: Option<ExecId>,
    reliabilityV2: bool,
    selected: seq<string>,
    catalog: seq<string>)

  datatype Run = Run(
    status: RunStatus,
    result: Option<RunResult>,
    consumption: Consumption,
    binding: Option<Binding>,
    workItem: Option<ItemId>,
    hosted: bool)

  datatype Execution = Execution(item: ItemId, stage: Stage, run: Option<RunId>)

  datatype StageStatus = Succeeded | Blocked | StageFailed | StageCancelled

  /** A sealed outcome, identified by the execution it belongs to. */
  datatype Sealed = Sealed(item: ItemId, stage: Stage, status: StageStatus, repair: bool, contradicted: bool)

  datatype ItemStatus = Proposed | Approved | Executing | Verifying | AwaitingApproval | ItemBlocked

  datatype Item = Item(status: ItemStatus, closed: bool)

  datatype WorkPlan = WorkPlan(id: PlanId, revision: nat, run: RunId, document: string)

  datatype ReviewStatus = ChangeProposed | ChangeApproved | ChangeRejected

  /** The material a ChangeSet is derived from; `plan` and `planRevision` are part of it. */
  datatype Material = Material(
    plan: PlanId, planRevision: nat, builderRun: RunId, patch: string, outcomes: set<ExecId>, verification: ExecId)

  datatype ChangeSet = ChangeSet(status: ReviewStatus, material: Material, revision: nat)

  datatype Store = Store(
    runs: map<RunId, Run>,
    executions: map<ExecId, Execution>,
    outcomes: map<ExecId, Sealed>,
    effective: map<(ItemId, Stage), ExecId>,
    items: map<ItemId, Item>,
    chains: map<ItemId, ChainId>,
    plans: map<ItemId, WorkPlan>,
    changeSets: map<PlanId, ChangeSet>)

  /** A step over the store; what was written before a refusal stays written. */
  datatype Effect = Effect(store: Store, ok: bool)

  // ------------------------------------------------------------------ single writes

  function SetRun(s: Store, id: RunId, run: Run): Store {
    s.(runs := s.runs[id := run])
  }

  function CompleteRun(s: Store, id: RunId, status: RunStatus, result: RunResult): Store
    requires id in s.runs
  {
    SetRun(s, id, s.runs[id].(status := status, result := Some(result)))
  }

  function UpdateItem(s: Store, id: ItemId, status: ItemStatus): Effect {
    if id !in s.items || s.items[id].closed then Effect(s, false)
    else Effect(s.(items := s.items[id := s.items[id].(status := status)]), true)
  }

  /** The table of outcomes admits one row for each execution. */
  function Seal(s: Store, execution: ExecId, sealed: Sealed, isEffective: bool): Effect {
    if execution !in s.executions || execution in s.outcomes then Effect(s, false)
    else if s.executions[execution].item != sealed.item || s.executions[execution].stage != sealed.stage
      then Effect(s, false)
    else
      var t := s.(outcomes := s.outcomes[execution := sealed]);
      Effect(if isEffective then t.(effective := t.effective[(sealed.item, sealed.stage) := execution]) else t, true)
  }

  /** Withdraws an authorization; `chains` holds the one active authorization of each WorkItem. */
  function Revoke(s: Store, chain: Option<ChainId>): Store {
    if chain.Some? then s.(chains := map i | i in s.chains && s.chains[i] != chain.value :: s.chains[i]) else s
  }

  function ImplementCount(s: Store, item: ItemId): nat {
    |set e | e in s.executions && s.executions[e].item == item && s.executions[e].stage == Implement|
  }

  function EffectiveStatus(s: Store, item: ItemId, stage: Stage): Option<StageStatus> {
    if (item, stage) in s.effective && s.effective[(item, stage)] in s.outcomes
    then Some(s.outcomes[s.effective[(item, stage)]].status)
    else None
  }
}
