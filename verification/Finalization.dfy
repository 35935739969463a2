/**
  The racing ways a Run is brought to its end: worker callbacks, dispatch failures and the reaper.
  Each holds the finalization lock for its whole length, so an interleaving is a sequence of steps.
 */
module Finalization {
  import opened Wrappers
  import opened WorkStore
  import opened StageSeals

  // ------------------------------------------------------------------ normalization after a seal

  function SetItemIfNeeded(s: Store, item: ItemId, status: ItemStatus): Effect {
    if item !in s.items then Effect(s, false)
    else if s.items[item].status == status then Effect(s, true)
    else UpdateItem(s, item, status)
  }

  /** Completes what followed a verification that is already sealed. */
  function FinishVerify(s: Store, b: Binding, execution: ExecId, ev: Evidence): Effect
    requires execution in s.outcomes
  {
    var sealed := s.outcomes[execution];
    var item, passed := sealed.item, sealed.status == Succeeded;
    if (item, Verify) !in s.effective || s.effective[(item, Verify)] != execution then Effect(s, false)
    else if passed && sealed.contradicted then Effect(s, false)
    else
      var e := if passed then DeriveChangeSet(s, item, execution, ev) else Effect(s, true);
      if !e.ok then e
      else
        // A decision already made on the same ChangeSet is not reset.
        var f :=
          if !passed then SetItemIfNeeded(e.store, item, if sealed.repair then Executing else ItemBlocked)
          else if item in s.plans && s.plans[item].id in e.store.changeSets
                  && e.store.changeSets[s.plans[item].id].status == ChangeProposed
          then SetItemIfNeeded(e.store, item, AwaitingApproval)
          else e;
        if !f.ok || (!passed && sealed.repair) then f else Effect(Revoke(f.store, b.chain), true)
  }

  function FinishTest(s: Store, b: Binding, execution: ExecId): Effect
    requires execution in s.outcomes
  {
    var sealed := s.outcomes[execution];
    var e := if b.testDiagnosis
             then SetItemIfNeeded(s, sealed.item, if sealed.repair then Executing else ItemBlocked)
             else Effect(s, true);
    if !e.ok || sealed.status == Succeeded || sealed.repair then e else Effect(Revoke(e.store, b.chain), true)
  }

  /** A stage that is already sealed is never judged again; hosted Runs redo what came after. */
  function FinishSealed(s: Store, run: Run, b: Binding, execution: ExecId, ev: Evidence): Effect
    requires execution in s.outcomes && execution in s.executions
  {
    var sealed, stage := s.outcomes[execution], s.executions[execution].stage;
    if !run.hosted then Effect(s, true)
    else if sealed.item != s.executions[execution].item || sealed.stage != stage then Effect(s, false)
    else if stage == Implement then
      Effect(if sealed.status != Succeeded then Revoke(s, b.chain) else s, true)
    else if stage == Verify then FinishVerify(s, b, execution, ev)
    else if stage == Test then FinishTest(s, b, execution)
    else Effect(s, true)
  }

  // ------------------------------------------------------------------ synchronizing a stage

  function SealStage(s: Store, run: RunId, b: Binding, attempt: Attempt, ev: Evidence): Effect
    requires b.execution in s.executions
  {
    match s.executions[b.execution].stage
    case Plan => SealPlan(s, run, b.execution, attempt, ev)
    case Implement => SealImplement(s, b, b.execution, attempt, ev)
    case Test =>
      if b.testDiagnosis then SealDiagnosis(s, b, b.execution, attempt, ev)
      else SealTest(s, b, b.execution, attempt, ev)
    case Verify => SealVerify(s, b, b.execution, attempt, ev)
    case Other(_) => SealUnimplemented(s, b.execution, attempt)
  }

  predicate TerminalText(status: string) {
    status == "completed" || status == "failed" || status == "cancelled"
  }

  predicate AsksApproval(status: string) {
    status == "approval_required"
  }

  predicate AsksExtension(status: string)
    ensures AsksExtension(status) ==> !TerminalText(status) && !AsksApproval(status)
  {
    status == "budget_extension_required"
  }

  function SyncStage(s: Store, id: RunId, attempt: Attempt, ev: Evidence): Effect
    requires id in s.runs
  {
    match s.runs[id].binding
    case None => Effect(s, true)
    case Some(b) =>
      if b.stage.None? || b.execution !in s.executions then Effect(s, false)
      else if s.executions[b.execution].run != Some(id) || s.executions[b.execution].stage != b.stage.value
        then Effect(s, false)
      else if b.execution in s.outcomes then FinishSealed(s, s.runs[id], b, b.execution, ev)
      else if !TerminalText(attempt.status) then Effect(s, true)
      else if !ev.retrievalsAccepted then Effect(s, false)
      else SealStage(s, id, b, attempt, ev)
  }

  // ------------------------------------------------------------------ the worker's callback

  function StatusOf(text: string): RunStatus {
    if text == "completed" then Completed else if text == "failed" then Failed else Cancelled
  }

  function ResultOf(run: Run, attempt: Attempt): RunResult {
    RunResult(attempt.status, attempt.pause.Some?,
              if run.hosted && TerminalText(attempt.status) then Some(attempt) else None)
  }

  /** A callback that reports no budget at all leaves the recorded consumption in place. */
  function Reported(run: Run, attempt: Attempt): Consumption {
    if attempt.consumption.allowedTurns == 0 && attempt.consumption.allowedTokens == 0
    then run.consumption else attempt.consumption
  }

  predicate Acceptable(run: Run, c: Consumption) {
    && c.allowedTurns == run.consumption.allowedTurns
    && c.allowedTokens == run.consumption.allowedTokens
    && c.turns >= run.consumption.turns
    && c.tokens >= run.consumption.tokens
    && c.seconds >= run.consumption.seconds
  }

  /** The second check, made on the resumable payload of a budget pause. */
  predicate PauseAcceptable(run: Run, c: Consumption) {
    && c.allowedTurns == run.consumption.allowedTurns
    && c.allowedTokens == run.consumption.allowedTokens
    && c.turns <= c.allowedTurns
    && c.tokens >= run.consumption.tokens
  }

  function Finish(s: Store, id: RunId, attempt: Attempt, ev: Evidence): Effect {
    if id !in s.runs then Effect(s, false)
    else
      var run := s.runs[id];
      var c := Reported(run, attempt);
      if Terminal(run.status) || !Acceptable(run, c) then Effect(s, false)
      else
        var t := SetRun(s, id, run.(consumption := c));
        var reported := attempt.(consumption := c);
        if !ev.workspaceAccepted then Effect(t, false)
        else if TerminalText(attempt.status) then
          SyncStage(CompleteRun(t, id, StatusOf(attempt.status), ResultOf(run, reported)), id, reported, ev)
        else if AsksApproval(attempt.status) then
          SyncStage(CompleteRun(t, id, ApprovalRequired, ResultOf(run, reported)), id, reported, ev)
        else if AsksExtension(attempt.status) then
          if attempt.pause.None? || !PauseAcceptable(run, attempt.pause.value) then Effect(t, false)
          else
            var u := SetRun(t, id, t.runs[id].(consumption := attempt.pause.value));
            if run.workItem.None? then Effect(u, false)
            else
              SyncStage(CompleteRun(u, id, BudgetExtensionRequired, RunResult(attempt.status, true, None)), id,
                        reported, ev)
        else Effect(t, false)
  }

  // ------------------------------------------------------------------ dispatch failures and the reaper

  function FailedAttempt(run: Run): Attempt {
    Attempt("failed", run.consumption, None)
  }

  predicate Resumable(run: Run) {
    run.status == Queued && run.consumption.extensions > 0 && run.result.Some? && run.result.value.budgetExtension
  }

  /** A failure outside the worker; an error while sealing the stage is swallowed. */
  function FailFromBoundary(s: Store, id: RunId, preserve: bool, ev: Evidence): Store {
    if id !in s.runs || Terminal(s.runs[id].status) then s
    else
      var run := s.runs[id];
      if preserve && Resumable(run) then SetRun(s, id, run.(status := Failed))
      else SyncStage(CompleteRun(s, id, Failed, ResultOf(run, FailedAttempt(run))), id, FailedAttempt(run), ev).store
  }

  /** Local normalization of a hosted Run that ended before its stage was sealed. */
  function Reconcile(s: Store, id: RunId, ev: Evidence): Effect {
    if id !in s.runs || !s.runs[id].hosted || !Terminal(s.runs[id].status) then Effect(s, false)
    else
      var run := s.runs[id];
      if run.binding.None? || run.binding.value.execution !in s.executions then Effect(s, false)
      else
        var b := run.binding.value;
        var x := s.executions[b.execution];
        if x.run != Some(id) || b.stage != Some(x.stage) || run.workItem != Some(x.item) then Effect(s, false)
        else if b.execution in s.outcomes then FinishSealed(s, run, b, b.execution, ev)
        else if run.result.None? || run.result.value.terminalAttempt.None? then Effect(s, false)
        else
          var attempt := run.result.value.terminalAttempt.value;
          if !TerminalText(attempt.status) || StatusOf(attempt.status) != run.status
             || attempt.consumption != run.consumption || run.result.value.status != attempt.status
          then Effect(s, false)
          else SyncStage(s, id, attempt, ev)
  }

  /** One failed worker Job, as the reaper treats it. */
  function Reap(s: Store, id: RunId, ev: Evidence): Effect {
    if id !in s.runs then Effect(s, true)
    else
      var run := s.runs[id];
      if run.status == Queued || run.status == Running then Effect(FailFromBoundary(s, id, false, ev), true)
      else if run.status == Failed then
        if run.hosted then Reconcile(s, id, ev) else SyncStage(s, id, FailedAttempt(run), ev)
      else Effect(s, true)
  }

  // ------------------------------------------------------------------ interleavings

  datatype Step =
    | Started(run: RunId)
    | Callback(run: RunId, attempt: Attempt, ev: Evidence)
    | DispatchFailed(run: RunId, preserve: bool, ev: Evidence)
    | Reaped(run: RunId, ev: Evidence)
    | Reconciled(run: RunId, ev: Evidence)
    | ExtensionApproved(run: RunId, turns: nat, tokens: nat)

  function Apply(s: Store, step: Step): Store {
    match step
    case Started(id) =>
      if id in s.runs && !Terminal(s.runs[id].status) then SetRun(s, id, s.runs[id].(status := Running)) else s
    case Callback(id, attempt, ev) => Finish(s, id, attempt, ev).store
    case DispatchFailed(id, preserve, ev) => FailFromBoundary(s, id, preserve, ev)
    case Reaped(id, ev) => Reap(s, id, ev).store
    case Reconciled(id, ev) => Reconcile(s, id, ev).store
    case ExtensionApproved(id, turns, tokens) =>
      if id in s.runs && s.runs[id].status == BudgetExtensionRequired then
        var c := s.runs[id].consumption;
        SetRun(s, id, s.runs[id].(status := Queued, consumption :=
          c.(allowedTurns := c.allowedTurns + turns, allowedTokens := c.allowedTokens + tokens,
             extensions := c.extensions + 1)))
      else s
  }

  function ApplyAll(s: Store, steps: seq<Step>): Store {
    if steps == [] then s else Apply(ApplyAll(s, steps[..|steps| - 1]), steps[|steps| - 1])
  }

  // ------------------------------------------------------------------ what every step keeps

  /** Every sealed outcome belongs to a Run that has ended, and a success to one that completed. */
  ghost predicate Inv(s: Store) {
    forall e | e in s.outcomes :: SealedProperly(s, e)
  }

  ghost predicate SealedProperly(s: Store, e: ExecId)
    requires e in s.outcomes
  {
    && e in s.executions
    && s.executions[e].run.Some?
    && s.executions[e].run.value in s.runs
    && Terminal(s.runs[s.executions[e].run.value].status)
    && (s.outcomes[e].status == Succeeded ==> s.runs[s.executions[e].run.value].status == Completed)
    && s.outcomes[e].item == s.executions[e].item
    && s.outcomes[e].stage == s.executions[e].stage
  }

  predicate SameTarget(a: Run, b: Run) {
    a.binding == b.binding && a.workItem == b.workItem && a.hosted == b.hosted
  }

  /** Ended Runs and sealed outcomes never change, and no execution is rewritten. */
  ghost predicate Settled(s: Store, t: Store) {
    && (forall r | r in s.runs :: r in t.runs && SameTarget(s.runs[r], t.runs[r]))
    && (forall r | r in s.runs && Terminal(s.runs[r].status) :: t.runs[r] == s.runs[r])
    && (forall e | e in s.outcomes :: e in t.outcomes && t.outcomes[e] == s.outcomes[e])
    && t.executions == s.executions && t.runs.Keys == s.runs.Keys
  }

  /** Sealing one execution touches no Run, and adds at most the outcome of that execution. */
  ghost predicate SealsOnly(s: Store, t: Store, e: ExecId, completed: bool) {
    && t.runs == s.runs && t.executions == s.executions
    && (t.outcomes == s.outcomes ||
        (e !in s.outcomes && e in s.executions && e in t.outcomes && t.outcomes == s.outcomes[e := t.outcomes[e]]
         && t.outcomes[e].item == s.executions[e].item && t.outcomes[e].stage == s.executions[e].stage
         && (t.outcomes[e].status == Succeeded ==> completed)))
  }

  ghost predicate SameRecords(s: Store, t: Store) {
    t.runs == s.runs && t.executions == s.executions && t.outcomes == s.outcomes
  }

  lemma SealAdds(r: Store, s: Store, e: ExecId, sealed: Sealed, isEffective: bool, completed: bool)
    requires SameRecords(r, s) && (sealed.status == Succeeded ==> completed)
    ensures var f := Seal(s, e, sealed, isEffective);
            && SealsOnly(r, f.store, e, completed)
            && f.store.items == s.items && f.store.chains == s.chains
            && f.store.plans == s.plans && f.store.changeSets == s.changeSets
            && (f.ok ==> e in f.store.outcomes && f.store.outcomes[e] == sealed)
            && (!f.ok ==> f.store == s)
  {
  }

  lemma UpdateItemKeeps(s: Store, item: ItemId, status: ItemStatus)
    ensures var f := UpdateItem(s, item, status);
            && SameRecords(s, f.store) && f.store.chains == s.chains
            && (f.ok ==> item in f.store.items && f.store.items[item].status == status)
            && (!f.ok ==> f.store == s)
  {
  }

  lemma DeriveKeeps(s: Store, item: ItemId, e: ExecId, ev: Evidence)
    ensures var f := DeriveChangeSet(s, item, e, ev);
            && SameRecords(s, f.store) && f.store.chains == s.chains && f.store.items == s.items
            && f.store.effective == s.effective && f.store.plans == s.plans
  {
    hide DeriveChangeSet;
  }

  lemma MaterialNeedsPlan(s: Store, item: ItemId, e: ExecId, ev: Evidence)
    ensures MaterialFor(s, item, e, ev).Some? ==> item in s.plans
  {
  }

  lemma SealsOnlyThen(s: Store, a: Store, b: Store, e: ExecId, completed: bool)
    requires SealsOnly(s, a, e, completed) && SameRecords(a, b)
    ensures SealsOnly(s, b, e, completed)
  {
  }

  lemma RevokeKeeps(s: Store, chain: Option<ChainId>)
    ensures SameRecords(s, Revoke(s, chain))
  {
  }

  lemma VerifySealsOnly(s: Store, b: Binding, e: ExecId, attempt: Attempt, ev: Evidence)
    requires e in s.executions
    ensures SealsOnly(s, SealVerify(s, b, e, attempt, ev).store, e, attempt.status == "completed")
  {
    var item, completed := s.executions[e].item, attempt.status == "completed";
    var passed, repair := VerifyPassed(s, item, attempt, ev), VerifyCorrectable(s, item, b, attempt, ev);
    var sealed := Sealed(item, Verify, if passed then Succeeded else FailureStatus(attempt), repair, !passed);
    var status := if passed then AwaitingApproval else if repair then Executing else ItemBlocked;
    assert sealed.status == Succeeded ==> completed;
    hide SealsOnly, SameRecords, Seal, UpdateItem, DeriveChangeSet, Revoke, VerifyPassed, VerifyCorrectable;
    SameRecordsSelf(s);
    SealAdds(s, s, e, sealed, true, completed);
    var e1 := Seal(s, e, sealed, true);
    DeriveKeeps(e1.store, item, e, ev);
    SealsOnlyThen(s, e1.store, DeriveChangeSet(e1.store, item, e, ev).store, e, completed);
    var f := if passed then DeriveChangeSet(e1.store, item, e, ev) else e1;
    var g := UpdateItem(f.store, item, status);
    UpdateItemKeeps(f.store, item, status);
    SealsOnlyThen(s, f.store, g.store, e, completed);
    RevokeKeeps(g.store, b.chain);
    SealsOnlyThen(s, g.store, Revoke(g.store, b.chain), e, completed);
  }

  lemma SameRecordsSelf(s: Store)
    ensures SameRecords(s, s)
  {
  }

  lemma TestSealsOnly(s: Store, b: Binding, e: ExecId, attempt: Attempt, ev: Evidence)
    requires e in s.executions
    ensures SealsOnly(s, SealTest(s, b, e, attempt, ev).store, e, attempt.status == "completed")
  {
    var item := s.executions[e].item;
    var passed, repair := TestPassed(b, attempt, ev), TestCorrectable(s, item, b, attempt, ev);
    var status := if passed then Verifying else if repair then Executing else ItemBlocked;
    UpdateItemKeeps(s, item, status);
    SealAdds(s, UpdateItem(s, item, status).store, e,
             Sealed(item, Test, if passed then Succeeded else FailureStatus(attempt), repair, !passed), true,
             attempt.status == "completed");
    hide Seal, UpdateItem, TestPassed, TestCorrectable;
  }

  lemma DiagnosisSealsOnly(s: Store, b: Binding, e: ExecId, attempt: Attempt, ev: Evidence)
    requires e in s.executions
    ensures SealsOnly(s, SealDiagnosis(s, b, e, attempt, ev).store, e, attempt.status == "completed")
  {
    var item := s.executions[e].item;
    var completed := attempt.status == "completed";
    var valid := DiagnosisValid(ev.diagnosis, b.catalog, completed);
    var repair := Repairable(ev.diagnosis, b.catalog, completed);
    var verdict := if repair then Succeeded else if valid then Blocked else FailureStatus(attempt);
    var sealed := Sealed(item, Test, verdict, repair, !valid);
    assert sealed.status == Succeeded ==> completed;
    NothingSealed(s, e, completed);
    hide SealsOnly, SameRecords, Seal, UpdateItem, Revoke, DiagnosisValid, Repairable;
    SameRecordsSelf(s);
    SealAdds(s, s, e, sealed, false, completed);
    var e1 := Seal(s, e, sealed, false);
    var f := UpdateItem(e1.store, item, if repair then Executing else ItemBlocked);
    UpdateItemKeeps(e1.store, item, if repair then Executing else ItemBlocked);
    SealsOnlyThen(s, e1.store, f.store, e, completed);
    RevokeKeeps(f.store, b.chain);
    SealsOnlyThen(s, f.store, Revoke(f.store, b.chain), e, completed);
  }

  lemma NothingSealed(s: Store, e: ExecId, completed: bool)
    ensures SealsOnly(s, s, e, completed)
  {
  }

  lemma ImplementSealsOnly(s: Store, b: Binding, e: ExecId, attempt: Attempt, ev: Evidence)
    requires e in s.executions
    ensures SealsOnly(s, SealImplement(s, b, e, attempt, ev).store, e, attempt.status == "completed")
  {
    var item := s.executions[e].item;
    var valid := BuildValid(attempt, ev);
    UpdateItemKeeps(s, item, if valid then Verifying else ItemBlocked);
    SealAdds(s, UpdateItem(s, item, if valid then Verifying else ItemBlocked).store, e,
             Sealed(item, Implement, if valid then Succeeded else FailureStatus(attempt), false, !valid), true,
             attempt.status == "completed");
    hide Seal, UpdateItem, BuildValid;
  }

  lemma PlanSealsOnly(s: Store, run: RunId, e: ExecId, attempt: Attempt, ev: Evidence)
    requires e in s.executions
    ensures SealsOnly(s, SealPlan(s, run, e, attempt, ev).store, e, attempt.status == "completed")
  {
    var item := s.executions[e].item;
    var verdict := PlanVerdict(attempt, ev);
    var status := if verdict == Succeeded then AwaitingApproval else ItemBlocked;
    var t := RecordPlan(s, item, run, attempt, ev);
    RecordPlanKeeps(s, item, run, attempt, ev);
    PlanSucceedsCompleted(attempt, ev);
    hide SealsOnly, SameRecords, Seal, UpdateItem, RecordPlan, PlanVerdict;
    UpdateItemKeeps(t, item, status);
    var u := UpdateItem(t, item, status).store;
    NothingSealed(s, e, attempt.status == "completed");
    SealsOnlyThen(s, s, t, e, attempt.status == "completed");
    SealsOnlyThen(s, t, u, e, attempt.status == "completed");
    RecordsTrans(s, t, u);
    SealAdds(s, u, e, Sealed(item, Plan, verdict, false, false), true, attempt.status == "completed");
  }

  lemma RecordPlanKeeps(s: Store, item: ItemId, run: RunId, attempt: Attempt, ev: Evidence)
    ensures SameRecords(s, RecordPlan(s, item, run, attempt, ev))
  {
    hide RecordPlan;
  }

  lemma PlanSucceedsCompleted(attempt: Attempt, ev: Evidence)
    ensures PlanVerdict(attempt, ev) == Succeeded ==> attempt.status == "completed"
  {
  }

  lemma RecordsTrans(a: Store, b: Store, c: Store)
    requires SameRecords(a, b) && SameRecords(b, c)
    ensures SameRecords(a, c)
  {
  }

  lemma UnimplementedSealsOnly(s: Store, e: ExecId, attempt: Attempt)
    requires e in s.executions
    ensures SealsOnly(s, SealUnimplemented(s, e, attempt).store, e, attempt.status == "completed")
  {
    var x := s.executions[e];
    UpdateItemKeeps(s, x.item, ItemBlocked);
    SealAdds(s, UpdateItem(s, x.item, ItemBlocked).store, e,
             Sealed(x.item, x.stage, OtherVerdict(attempt), false, false),
             true, attempt.status == "completed");
    hide Seal, UpdateItem;
  }

  lemma SealStageSealsOnly(s: Store, run: RunId, b: Binding, attempt: Attempt, ev: Evidence)
    requires b.execution in s.executions
    ensures SealsOnly(s, SealStage(s, run, b, attempt, ev).store, b.execution, attempt.status == "completed")
  {
    var e := b.execution;
    PlanSealsOnly(s, run, e, attempt, ev);
    ImplementSealsOnly(s, b, e, attempt, ev);
    TestSealsOnly(s, b, e, attempt, ev);
    DiagnosisSealsOnly(s, b, e, attempt, ev);
    VerifySealsOnly(s, b, e, attempt, ev);
    UnimplementedSealsOnly(s, e, attempt);
    hide SealPlan, SealImplement, SealTest, SealDiagnosis, SealVerify, SealUnimplemented, SealsOnly;
  }

  lemma SameRecordsTrans(a: Store, b: Store, c: Store)
    requires SameRecords(a, b) && SameRecords(b, c)
    ensures SameRecords(a, c)
  {
  }

  lemma SetItemKeeps(s: Store, item: ItemId, status: ItemStatus)
    ensures SameRecords(s, SetItemIfNeeded(s, item, status).store)
  {
    UpdateItemKeeps(s, item, status);
  }

  lemma FinishVerifySealsNothing(s: Store, b: Binding, e: ExecId, ev: Evidence)
    requires e in s.outcomes
    ensures SameRecords(s, FinishVerify(s, b, e, ev).store)
  {
    var sealed := s.outcomes[e];
    var item, passed := sealed.item, sealed.status == Succeeded;
    hide SameRecords, DeriveChangeSet, SetItemIfNeeded, Revoke;
    SameRecordsSelf(s);
    DeriveKeeps(s, item, e, ev);
    var d := if passed then DeriveChangeSet(s, item, e, ev) else Effect(s, true);
    var status := if passed then AwaitingApproval else if sealed.repair then Executing else ItemBlocked;
    var f := SetItemIfNeeded(d.store, item, status);
    SetItemKeeps(d.store, item, status);
    SameRecordsTrans(s, d.store, f.store);
    RevokeKeeps(f.store, b.chain);
    SameRecordsTrans(s, f.store, Revoke(f.store, b.chain));
    RevokeKeeps(d.store, b.chain);
    SameRecordsTrans(s, d.store, Revoke(d.store, b.chain));
  }

  lemma FinishTestSealsNothing(s: Store, b: Binding, e: ExecId)
    requires e in s.outcomes
    ensures SameRecords(s, FinishTest(s, b, e).store)
  {
    var sealed := s.outcomes[e];
    SetItemKeeps(s, sealed.item, if sealed.repair then Executing else ItemBlocked);
    hide SetItemIfNeeded;
  }

  lemma FinishSealedSealsNothing(s: Store, run: Run, b: Binding, e: ExecId, ev: Evidence)
    requires e in s.outcomes && e in s.executions
    ensures SameRecords(s, FinishSealed(s, run, b, e, ev).store)
  {
    FinishVerifySealsNothing(s, b, e, ev);
    FinishTestSealsNothing(s, b, e);
    RevokeKeeps(s, b.chain);
    SameRecordsSelf(s);
    hide FinishVerify, FinishTest, SameRecords, Revoke;
  }

  lemma SyncSealsOnly(s: Store, id: RunId, attempt: Attempt, ev: Evidence)
    requires id in s.runs
    ensures var t := SyncStage(s, id, attempt, ev).store;
            && t.runs == s.runs && t.executions == s.executions
            && (t.outcomes != s.outcomes ==>
                && s.runs[id].binding.Some? && TerminalText(attempt.status)
                && var e := s.runs[id].binding.value.execution;
                   e in s.executions && s.executions[e].run == Some(id)
                   && SealsOnly(s, t, e, attempt.status == "completed"))
  {
    hide SealStage, FinishSealed;
    if s.runs[id].binding.Some? {
      var b := s.runs[id].binding.value;
      if b.execution in s.executions {
        SealStageSealsOnly(s, id, b, attempt, ev);
        if b.execution in s.outcomes {
          FinishSealedSealsNothing(s, s.runs[id], b, b.execution, ev);
        }
      }
    }
  }

  /** Synchronizing a Run that has ended keeps the invariant and everything settled. */
  lemma SyncKeeps(s: Store, id: RunId, attempt: Attempt, ev: Evidence)
    requires Inv(s) && id in s.runs
    requires TerminalText(attempt.status) ==> Terminal(s.runs[id].status)
    requires attempt.status == "completed" ==> s.runs[id].status == Completed
    ensures var t := SyncStage(s, id, attempt, ev).store; Inv(t) && Settled(s, t)
  {
    SyncSealsOnly(s, id, attempt, ev);
    hide SyncStage;
    var t := SyncStage(s, id, attempt, ev).store;
    forall e | e in t.outcomes
      ensures SealedProperly(t, e)
    {
      if e in s.outcomes {
        assert SealedProperly(s, e);
      }
    }
  }

  /** Changing a Run that has not ended disturbs nothing settled. */
  lemma OpenRunMayChange(s: Store, id: RunId, run: Run)
    requires Inv(s) && id in s.runs && !Terminal(s.runs[id].status) && SameTarget(s.runs[id], run)
    ensures Inv(SetRun(s, id, run)) && Settled(s, SetRun(s, id, run))
  {
    var t := SetRun(s, id, run);
    forall e | e in t.outcomes
      ensures SealedProperly(t, e)
    {
      assert SealedProperly(s, e);
    }
  }

  lemma SettledTrans(a: Store, b: Store, c: Store)
    requires Settled(a, b) && Settled(b, c)
    ensures Settled(a, c)
  {
  }

  lemma FinishKeeps(s: Store, id: RunId, attempt: Attempt, ev: Evidence)
    requires Inv(s)
    ensures var t := Finish(s, id, attempt, ev).store; Inv(t) && Settled(s, t)
  {
    hide Inv, Settled, Finish, SyncStage, SetRun;
    if id !in s.runs || Terminal(s.runs[id].status) {
      FinishRefused(s, id, attempt, ev);
      SettledSelf(s);
    } else {
      var run := s.runs[id];
      var c := Reported(run, attempt);
      var reported := attempt.(consumption := c);
      var r1 := run.(consumption := c);
      var r2 := if AsksExtension(attempt.status) && attempt.pause.Some?
                then r1.(consumption := attempt.pause.value) else r1;
      var status := if TerminalText(attempt.status) then StatusOf(attempt.status)
                    else if AsksApproval(attempt.status) then ApprovalRequired else BudgetExtensionRequired;
      var result := if AsksExtension(attempt.status)
                    then RunResult(attempt.status, true, None) else ResultOf(run, reported);
      var done := r2.(status := status, result := Some(result));
      FinishIs(s, id, attempt, ev, r1, r2, done);
      OpenRunMayChange(s, id, r1);
      OpenRunMayChange(s, id, r2);
      OpenRunMayChange(s, id, done);
      SettledSelf(s);
      SetRunHas(s, id, done);
      var u := SetRun(s, id, done);
      SyncKeeps(u, id, reported, ev);
      SettledTrans(s, u, SyncStage(u, id, reported, ev).store);
    }
  }

  lemma FinishRefused(s: Store, id: RunId, attempt: Attempt, ev: Evidence)
    requires id !in s.runs || Terminal(s.runs[id].status)
    ensures Finish(s, id, attempt, ev) == Effect(s, false)
  {
    hide SyncStage;
  }

  lemma SettledSelf(s: Store)
    ensures Settled(s, s)
  {
  }

  lemma SetRunHas(s: Store, id: RunId, run: Run)
    ensures id in SetRun(s, id, run).runs && SetRun(s, id, run).runs[id] == run
  {
  }

  /** The four stores a callback can leave behind. */
  lemma FinishIs(s: Store, id: RunId, attempt: Attempt, ev: Evidence, r1: Run, r2: Run, done: Run)
    requires id in s.runs && !Terminal(s.runs[id].status)
    requires r1 == s.runs[id].(consumption := Reported(s.runs[id], attempt))
    requires r2 == if AsksExtension(attempt.status) && attempt.pause.Some?
                   then r1.(consumption := attempt.pause.value) else r1
    requires done == r2.(
      status := if TerminalText(attempt.status) then StatusOf(attempt.status)
                else if AsksApproval(attempt.status) then ApprovalRequired else BudgetExtensionRequired,
      result := Some(if AsksExtension(attempt.status)
                     then RunResult(attempt.status, true, None)
                     else ResultOf(s.runs[id], attempt.(consumption := Reported(s.runs[id], attempt)))))
    ensures var t := Finish(s, id, attempt, ev).store;
            || t == s || t == SetRun(s, id, r1) || t == SetRun(s, id, r2)
            || t == SyncStage(SetRun(s, id, done), id, attempt.(consumption := Reported(s.runs[id], attempt)), ev).store
  {
    hide SyncStage;
    var t := SetRun(s, id, r1);
    assert SetRun(t, id, r2) == SetRun(s, id, r2);
    assert SetRun(t, id, done) == SetRun(s, id, done);
    assert SetRun(SetRun(t, id, r2), id, done) == SetRun(s, id, done);
  }

  lemma BoundaryKeeps(s: Store, id: RunId, preserve: bool, ev: Evidence)
    requires Inv(s)
    ensures var t := FailFromBoundary(s, id, preserve, ev); Inv(t) && Settled(s, t)
  {
    hide Inv, Settled, SyncStage, SetRun;
    SettledSelf(s);
    if id in s.runs && !Terminal(s.runs[id].status) {
      var run := s.runs[id];
      OpenRunMayChange(s, id, run.(status := Failed));
      var done := run.(status := Failed, result := Some(ResultOf(run, FailedAttempt(run))));
      OpenRunMayChange(s, id, done);
      SetRunHas(s, id, done);
      hide FailedAttempt, ResultOf, Resumable;
      var u := SetRun(s, id, done);
      SyncKeeps(u, id, FailedAttempt(run), ev);
      SettledTrans(s, u, SyncStage(u, id, FailedAttempt(run), ev).store);
    }
  }

  lemma ReconcileKeeps(s: Store, id: RunId, ev: Evidence)
    requires Inv(s)
    ensures var t := Reconcile(s, id, ev).store; Inv(t) && Settled(s, t)
  {
    SettledSelf(s);
    if id in s.runs && s.runs[id].binding.Some? {
      var b := s.runs[id].binding.value;
      if b.execution in s.outcomes && b.execution in s.executions {
        FinishSealedSealsNothing(s, s.runs[id], b, b.execution, ev);
        SameRecordsKeep(s, FinishSealed(s, s.runs[id], b, b.execution, ev).store);
      }
      if s.runs[id].result.Some? && s.runs[id].result.value.terminalAttempt.Some? {
        var attempt := s.runs[id].result.value.terminalAttempt.value;
        if Terminal(s.runs[id].status) && TerminalText(attempt.status)
          && StatusOf(attempt.status) == s.runs[id].status {
          SyncKeeps(s, id, attempt, ev);
        }
      }
    }
    hide Inv, Settled, SyncStage, FinishSealed, SameRecords;
  }

  lemma SameRecordsKeep(s: Store, t: Store)
    requires Inv(s) && SameRecords(s, t)
    ensures Inv(t) && Settled(s, t)
  {
    forall e | e in t.outcomes
      ensures SealedProperly(t, e)
    {
      assert SealedProperly(s, e);
    }
  }

  lemma StepKeeps(s: Store, step: Step)
    requires Inv(s)
    ensures Inv(Apply(s, step)) && Settled(s, Apply(s, step))
  {
    hide Inv, Settled, Finish, FailFromBoundary, Reconcile, SyncStage;
    SettledSelf(s);
    match step
    case Started(id) =>
      if id in s.runs && !Terminal(s.runs[id].status) {
        OpenRunMayChange(s, id, s.runs[id].(status := Running));
      }
    case Callback(id, attempt, ev) => FinishKeeps(s, id, attempt, ev);
    case DispatchFailed(id, preserve, ev) => BoundaryKeeps(s, id, preserve, ev);
    case Reaped(id, ev) =>
      BoundaryKeeps(s, id, false, ev);
      ReconcileKeeps(s, id, ev);
      if id in s.runs && s.runs[id].status == Failed {
        SyncKeeps(s, id, FailedAttempt(s.runs[id]), ev);
      }
    case Reconciled(id, ev) => ReconcileKeeps(s, id, ev);
    case ExtensionApproved(id, turns, tokens) =>
      if id in s.runs && s.runs[id].status == BudgetExtensionRequired {
        var c := s.runs[id].consumption;
        OpenRunMayChange(s, id, s.runs[id].(status := Queued, consumption :=
          c.(allowedTurns := c.allowedTurns + turns, allowedTokens := c.allowedTokens + tokens,
             extensions := c.extensions + 1)));
      }
  }

  /**
    In every interleaving: a Run that has ended keeps its whole record, so it ends at most once; a
    sealed outcome is never replaced; and a sealed success belongs to a Run that completed.
   */
  lemma {:induction false} EveryInterleaving(s: Store, steps: seq<Step>, i: nat)
    requires Inv(s) && i <= |steps|
    ensures Inv(ApplyAll(s, steps))
    ensures Settled(ApplyAll(s, steps[..i]), ApplyAll(s, steps))
    decreases |steps|
  {
    hide Inv, Settled, Apply;
    if i == |steps| {
      assert steps[..i] == steps;
      SettledSelf(ApplyAll(s, steps));
      if |steps| > 0 {
        EveryInterleaving(s, steps[..|steps| - 1], 0);
        StepKeeps(ApplyAll(s, steps[..|steps| - 1]), steps[|steps| - 1]);
      }
    } else {
      var before := steps[..|steps| - 1];
      assert before[..i] == steps[..i];
      EveryInterleaving(s, before, i);
      StepKeeps(ApplyAll(s, before), steps[|steps| - 1]);
      SettledTrans(ApplyAll(s, steps[..i]), ApplyAll(s, before), ApplyAll(s, steps));
    }
  }
}
