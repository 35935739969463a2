/**
  The finalizer as it runs: a database whose tables are overwritten one record after another, with
  early returns on every refusal. Each method leaves exactly the store its function describes.
 */
module WorkerActions {
  import opened Wrappers
  import opened WorkStore
  import opened StageSeals
  import opened Finalization
  import opened JobCapacity

  class Database {
    var runs: map<RunId, Run>
    var executions: map<ExecId, Execution>
    var outcomes: map<ExecId, Sealed>
    var effective: map<(ItemId, Stage), ExecId>
    var items: map<ItemId, Item>
    var chains: map<ItemId, ChainId>
    var plans: map<ItemId, WorkPlan>
    var changeSets: map<PlanId, ChangeSet>

    function View(): Store
      reads this
    {
      Store(runs, executions, outcomes, effective, items, chains, plans, changeSets)
    }

    constructor (s: Store)
      ensures View() == s
    {
      runs, executions, outcomes, effective := s.runs, s.executions, s.outcomes, s.effective;
      items, chains, plans, changeSets := s.items, s.chains, s.plans, s.changeSets;
    }

    // ---------------------------------------------------------------- single records

    method UpdateWorkItemStatus(id: ItemId, status: ItemStatus) returns (ok: bool)
      modifies this`items
      ensures Effect(View(), ok) == UpdateItem(old(View()), id, status)
    {
      if id !in items || items[id].closed {
        return false;
      }
      items := items[id := items[id].(status := status)];
      ok := true;
    }

    method SetStatusIfNeeded(id: ItemId, status: ItemStatus) returns (ok: bool)
      modifies this`items
      ensures Effect(View(), ok) == SetItemIfNeeded(old(View()), id, status)
    {
      if id !in items {
        return false;
      }
      if items[id].status == status {
        return true;
      }
      ok := UpdateWorkItemStatus(id, status);
    }

    method SealStageOutcome(execution: ExecId, sealed: Sealed, isEffective: bool) returns (ok: bool)
      modifies this`outcomes, this`effective
      ensures Effect(View(), ok) == Seal(old(View()), execution, sealed, isEffective)
    {
      if execution !in executions || execution in outcomes {
        return false;
      }
      if executions[execution].item != sealed.item || executions[execution].stage != sealed.stage {
        return false;
      }
      outcomes := outcomes[execution := sealed];
      if isEffective {
        effective := effective[(sealed.item, sealed.stage) := execution];
      }
      ok := true;
    }

    method RevokeChainForRun(chain: Option<ChainId>)
      modifies this`chains
      ensures View() == Revoke(old(View()), chain)
    {
      if chain.Some? {
        chains := map i | i in chains && chains[i] != chain.value :: chains[i];
      }
    }

    // ---------------------------------------------------------------- the stages

    method SealPlanStage(run: RunId, execution: ExecId, attempt: Attempt, ev: Evidence) returns (ok: bool)
      requires execution in executions
      modifies this
      ensures Effect(View(), ok) == SealPlan(old(View()), run, execution, attempt, ev)
    {
      hide UpdateItem, Seal;
      var item := executions[execution].item;
      var verdict := PlanVerdict(attempt, ev);
      if attempt.status == "completed" && ev.plan.Some? && ev.plan.value.valid {
        if item !in plans {
          plans := plans[item := WorkPlan("wplan_" + run, 1, run, ev.plan.value.document)];
        } else if plans[item].run != run || plans[item].document != ev.plan.value.document {
          plans := plans[item := plans[item].(
            revision := plans[item].revision + 1, run := run, document := ev.plan.value.document)];
        }
      }
      ok := UpdateWorkItemStatus(item, if verdict == Succeeded then AwaitingApproval else ItemBlocked);
      if !ok {
        return;
      }
      ok := SealStageOutcome(execution, Sealed(item, Plan, verdict, false, false), true);
    }

    method SealImplementStage(b: Binding, execution: ExecId, attempt: Attempt, ev: Evidence) returns (ok: bool)
      requires execution in executions
      modifies this
      ensures Effect(View(), ok) == SealImplement(old(View()), b, execution, attempt, ev)
    {
      hide UpdateItem, Seal, Revoke, BuildValid;
      var item := executions[execution].item;
      var valid := BuildValid(attempt, ev);
      ok := UpdateWorkItemStatus(item, if valid then Verifying else ItemBlocked);
      if !ok {
        return;
      }
      ok := SealStageOutcome(
        execution, Sealed(item, Implement, if valid then Succeeded else FailureStatus(attempt), false, !valid), true);
      if ok && !valid {
        RevokeChainForRun(b.chain);
      }
    }

    method SealTestStage(b: Binding, execution: ExecId, attempt: Attempt, ev: Evidence) returns (ok: bool)
      requires execution in executions
      modifies this
      ensures Effect(View(), ok) == SealTest(old(View()), b, execution, attempt, ev)
    {
      hide UpdateItem, Seal, Revoke, TestPassed, TestCorrectable;
      var item := executions[execution].item;
      var passed, repair := TestPassed(b, attempt, ev), TestCorrectable(View(), item, b, attempt, ev);
      ok := UpdateWorkItemStatus(item, if passed then Verifying else if repair then Executing else ItemBlocked);
      if !ok {
        return;
      }
      ok := SealStageOutcome(
        execution, Sealed(item, Test, if passed then Succeeded else FailureStatus(attempt), repair, !passed), true);
      if ok && !passed && !repair {
        RevokeChainForRun(b.chain);
      }
    }

    method SealTestDiagnosisStage(b: Binding, execution: ExecId, attempt: Attempt, ev: Evidence) returns (ok: bool)
      requires execution in executions
      modifies this
      ensures Effect(View(), ok) == SealDiagnosis(old(View()), b, execution, attempt, ev)
    {
      hide UpdateItem, Seal, Revoke, DiagnosisValid, Repairable;
      var item := executions[execution].item;
      if b.diagnosisOf.None? || b.diagnosisOf.value !in outcomes {
        return false;
      }
      var target := outcomes[b.diagnosisOf.value];
      if target.item != item || target.stage != Test || target.status != StageFailed {
        return false;
      }
      var completed := attempt.status == "completed";
      var valid := DiagnosisValid(ev.diagnosis, b.catalog, completed);
      var repair := Repairable(ev.diagnosis, b.catalog, completed);
      var status := if repair then Succeeded else if valid then Blocked else FailureStatus(attempt);
      ok := SealStageOutcome(execution, Sealed(item, Test, status, repair, !valid), false);
      if !ok {
        return;
      }
      ok := UpdateWorkItemStatus(item, if repair then Executing else ItemBlocked);
      if ok && !repair {
        RevokeChainForRun(b.chain);
      }
    }

    method CreateRepoChangeSet(item: ItemId, verification: ExecId, ev: Evidence) returns (ok: bool)
      modifies this`changeSets
      ensures Effect(View(), ok) == DeriveChangeSet(old(View()), item, verification, ev)
    {
      hide MaterialFor, Revisable;
      var material := MaterialFor(View(), item, verification, ev);
      if material.None? {
        return false;
      }
      MaterialNeedsPlan(View(), item, verification, ev);
      var plan := plans[item];
      if plan.id in changeSets {
        var existing := changeSets[plan.id];
        if existing.material == material.value {
          return true;
        }
        if !Revisable(existing, plan) {
          return false;
        }
        changeSets := changeSets[plan.id := ChangeSet(ChangeProposed, material.value, existing.revision + 1)];
        return true;
      }
      changeSets := changeSets[plan.id := ChangeSet(ChangeProposed, material.value, 1)];
      ok := true;
    }

    method SealVerifyStage(b: Binding, execution: ExecId, attempt: Attempt, ev: Evidence) returns (ok: bool)
      requires execution in executions
      modifies this
      ensures Effect(View(), ok) == SealVerify(old(View()), b, execution, attempt, ev)
    {
      hide UpdateItem, Seal, Revoke, VerifyPassed, VerifyCorrectable, DeriveChangeSet;
      var item := executions[execution].item;
      var passed := VerifyPassed(View(), item, attempt, ev);
      var repair := VerifyCorrectable(View(), item, b, attempt, ev);
      ok := SealStageOutcome(
        execution, Sealed(item, Verify, if passed then Succeeded else FailureStatus(attempt), repair, !passed), true);
      if !ok {
        return;
      }
      if passed {
        ok := CreateRepoChangeSet(item, execution, ev);
        if !ok {
          return;
        }
      }
      ok := UpdateWorkItemStatus(item, if passed then AwaitingApproval else if repair then Executing else ItemBlocked);
      if ok && (passed || !repair) {
        RevokeChainForRun(b.chain);
      }
    }

    method SealUnimplementedStage(execution: ExecId, attempt: Attempt) returns (ok: bool)
      requires execution in executions
      modifies this
      ensures Effect(View(), ok) == SealUnimplemented(old(View()), execution, attempt)
    {
      hide UpdateItem, Seal;
      var item, stage := executions[execution].item, executions[execution].stage;
      ok := UpdateWorkItemStatus(item, ItemBlocked);
      if !ok {
        return;
      }
      ok := SealStageOutcome(
        execution, Sealed(item, stage, OtherVerdict(attempt), false, false),
        true);
    }

    // ---------------------------------------------------------------- after a seal

    method FinishSealedStage(run: Run, b: Binding, execution: ExecId, ev: Evidence) returns (ok: bool)
      requires execution in outcomes && execution in executions
      modifies this
      ensures Effect(View(), ok) == FinishSealed(old(View()), run, b, execution, ev)
    {
      hide SetItemIfNeeded, Revoke, DeriveChangeSet;
      var sealed, stage := outcomes[execution], executions[execution].stage;
      if !run.hosted {
        return true;
      }
      if sealed.item != executions[execution].item || sealed.stage != stage {
        return false;
      }
      if stage == Implement && sealed.status != Succeeded {
        RevokeChainForRun(b.chain);
      }
      if stage != Verify && stage != Test {
        return true;
      }
      if stage == Verify {
        ok := FinishSealedVerify(b, execution, ev);
      } else {
        ok := FinishSealedTest(b, execution);
      }
    }

    method FinishSealedVerify(b: Binding, execution: ExecId, ev: Evidence) returns (ok: bool)
      requires execution in outcomes
      modifies this
      ensures Effect(View(), ok) == FinishVerify(old(View()), b, execution, ev)
    {
      hide SetItemIfNeeded, Revoke, DeriveChangeSet;
      var sealed := outcomes[execution];
      var item, passed := sealed.item, sealed.status == Succeeded;
      if (item, Verify) !in effective || effective[(item, Verify)] != execution {
        return false;
      }
      if passed && sealed.contradicted {
        return false;
      }
      if passed {
        DeriveKeeps(View(), item, execution, ev);
        ok := CreateRepoChangeSet(item, execution, ev);
        if !ok {
          return;
        }
        if item in plans && plans[item].id in changeSets && changeSets[plans[item].id].status == ChangeProposed {
          ok := SetStatusIfNeeded(item, AwaitingApproval);
        }
      } else {
        ok := SetStatusIfNeeded(item, if sealed.repair then Executing else ItemBlocked);
      }
      if ok && (passed || !sealed.repair) {
        RevokeChainForRun(b.chain);
      }
    }

    method FinishSealedTest(b: Binding, execution: ExecId) returns (ok: bool)
      requires execution in outcomes
      modifies this
      ensures Effect(View(), ok) == FinishTest(old(View()), b, execution)
    {
      hide SetItemIfNeeded, Revoke;
      var sealed := outcomes[execution];
      ok := true;
      if b.testDiagnosis {
        ok := SetStatusIfNeeded(sealed.item, if sealed.repair then Executing else ItemBlocked);
      }
      if ok && sealed.status != Succeeded && !sealed.repair {
        RevokeChainForRun(b.chain);
      }
    }

    method SyncRepoStageRun(id: RunId, attempt: Attempt, ev: Evidence) returns (ok: bool)
      requires id in runs
      modifies this
      ensures Effect(View(), ok) == SyncStage(old(View()), id, attempt, ev)
    {
      hide SealPlan, SealImplement, SealTest, SealDiagnosis, SealVerify, SealUnimplemented, FinishSealed, TerminalText;
      if runs[id].binding.None? {
        return true;
      }
      var b := runs[id].binding.value;
      if b.stage.None? || b.execution !in executions {
        return false;
      }
      var execution := executions[b.execution];
      if execution.run != Some(id) || execution.stage != b.stage.value {
        return false;
      }
      if b.execution in outcomes {
        ok := FinishSealedStage(runs[id], b, b.execution, ev);
        return;
      }
      if !TerminalText(attempt.status) {
        return true;
      }
      if !ev.retrievalsAccepted {
        return false;
      }
      match execution.stage {
        case Plan =>
          ok := SealPlanStage(id, b.execution, attempt, ev);
        case Implement =>
          ok := SealImplementStage(b, b.execution, attempt, ev);
        case Test =>
          if b.testDiagnosis {
            ok := SealTestDiagnosisStage(b, b.execution, attempt, ev);
          } else {
            ok := SealTestStage(b, b.execution, attempt, ev);
          }
        case Verify =>
          ok := SealVerifyStage(b, b.execution, attempt, ev);
        case Other(_) =>
          ok := SealUnimplementedStage(b.execution, attempt);
      }
    }

    // ---------------------------------------------------------------- bringing a Run to its end

    method Complete(id: RunId, status: RunStatus, result: RunResult)
      requires id in runs
      modifies this`runs
      ensures View() == CompleteRun(old(View()), id, status, result)
    {
      runs := runs[id := runs[id].(status := status, result := Some(result))];
    }

    method UpdateConsumption(id: RunId, c: Consumption)
      requires id in runs
      modifies this`runs
      ensures View() == SetRun(old(View()), id, old(runs)[id].(consumption := c)) && id in runs
    {
      runs := runs[id := runs[id].(consumption := c)];
    }

    method FinishRunFromAttempt(id: RunId, attempt: Attempt, ev: Evidence) returns (ok: bool)
      modifies this
      ensures Effect(View(), ok) == Finish(old(View()), id, attempt, ev)
    {
      hide SyncStage, TerminalText, Acceptable, PauseAcceptable, Terminal, StatusOf, ResultOf;
      if id !in runs {
        return false;
      }
      var run := runs[id];
      var c := Reported(run, attempt);
      if Terminal(run.status) || !Acceptable(run, c) {
        return false;
      }
      UpdateConsumption(id, c);
      var reported := attempt.(consumption := c);
      if !ev.workspaceAccepted {
        return false;
      }
      if TerminalText(attempt.status) {
        Complete(id, StatusOf(attempt.status), ResultOf(run, reported));
      } else if AsksApproval(attempt.status) {
        Complete(id, ApprovalRequired, ResultOf(run, reported));
      } else if AsksExtension(attempt.status) {
        if attempt.pause.None? || !PauseAcceptable(run, attempt.pause.value) {
          return false;
        }
        UpdateConsumption(id, attempt.pause.value);
        if run.workItem.None? {
          return false;
        }
        Complete(id, BudgetExtensionRequired, RunResult(attempt.status, true, None));
      } else {
        return false;
      }
      ok := SyncRepoStageRun(id, reported, ev);
    }

    method FailRunFromWorkerBoundary(id: RunId, preserve: bool, ev: Evidence)
      modifies this
      ensures View() == FailFromBoundary(old(View()), id, preserve, ev)
    {
      hide SyncStage, Resumable, Terminal;
      if id !in runs || Terminal(runs[id].status) {
        return;
      }
      var run := runs[id];
      if preserve && Resumable(run) {
        runs := runs[id := run.(status := Failed)];
        return;
      }
      Complete(id, Failed, ResultOf(run, FailedAttempt(run)));
      var _ := SyncRepoStageRun(id, FailedAttempt(run), ev);
    }

    method ReconcileTerminalHostedRun(id: RunId, ev: Evidence) returns (ok: bool)
      modifies this
      ensures Effect(View(), ok) == Reconcile(old(View()), id, ev)
    {
      hide SyncStage, FinishSealed;
      if id !in runs || !runs[id].hosted || !Terminal(runs[id].status) {
        return false;
      }
      var run := runs[id];
      if run.binding.None? || run.binding.value.execution !in executions {
        return false;
      }
      var b := run.binding.value;
      var x := executions[b.execution];
      if x.run != Some(id) || b.stage != Some(x.stage) || run.workItem != Some(x.item) {
        return false;
      }
      if b.execution in outcomes {
        ok := FinishSealedStage(run, b, b.execution, ev);
        return;
      }
      if run.result.None? || run.result.value.terminalAttempt.None? {
        return false;
      }
      var attempt := run.result.value.terminalAttempt.value;
      if !TerminalText(attempt.status) || StatusOf(attempt.status) != run.status
         || attempt.consumption != run.consumption || run.result.value.status != attempt.status {
        return false;
      }
      ok := SyncRepoStageRun(id, attempt, ev);
    }

    // ---------------------------------------------------------------- the reaper of worker Jobs

    method ReapRun(id: RunId, ev: Evidence) returns (ok: bool)
      modifies this
      ensures Effect(View(), ok) == Reap(old(View()), id, ev)
    {
      hide SyncStage, FailFromBoundary, Reconcile;
      if id !in runs {
        return true;
      }
      var run := runs[id];
      if run.status == Queued || run.status == Running {
        FailRunFromWorkerBoundary(id, false, ev);
      } else if run.status == Failed {
        if run.hosted {
          ok := ReconcileTerminalHostedRun(id, ev);
        } else {
          ok := SyncRepoStageRun(id, FailedAttempt(run), ev);
        }
        return;
      }
      ok := true;
    }

    /**
      One pass over the listed worker Jobs, in order; `evidence` is what is stored for each Run. The
      first refusal ends the pass.
     */
    method ReapRunJobs(jobs: seq<FailedJob>, evidence: map<RunId, Evidence>, nothing: Evidence) returns (ok: bool)
      modifies this
      ensures Effect(View(), ok) == ReapPass(old(View()), jobs, evidence, nothing)
    {
      hide Reap;
      ok := true;
      for i := 0 to |jobs|
        invariant ok && Effect(View(), true) == ReapPass(old(View()), jobs[..i], evidence, nothing)
      {
        assert jobs[..i + 1][..i] == jobs[..i];
        var job := jobs[i];
        if job.runLabel.Some? && job.failed > 0 {
          var id := LabelToRunId(job.runLabel.value);
          ok := ReapRun(id, if id in evidence then evidence[id] else nothing);
          if !ok {
            StoppedPass(old(View()), jobs, evidence, nothing, i + 1);
            return;
          }
        }
      }
      assert jobs[..|jobs|] == jobs;
    }
  }

  lemma {:induction false} StoppedPass(
    s: Store, jobs: seq<FailedJob>, evidence: map<RunId, Evidence>, nothing: Evidence, k: nat)
    requires k <= |jobs| && !ReapPass(s, jobs[..k], evidence, nothing).ok
    ensures ReapPass(s, jobs, evidence, nothing) == ReapPass(s, jobs[..k], evidence, nothing)
    decreases |jobs|
  {
    hide Reap;
    if k == |jobs| {
      assert jobs[..k] == jobs;
    } else {
      assert jobs[..|jobs| - 1][..k] == jobs[..k];
      StoppedPass(s, jobs[..|jobs| - 1], evidence, nothing, k);
    }
  }

  /** A listed worker Job: its Run label, and how many of its Pods failed. */
  datatype FailedJob = FailedJob(runLabel: Option<string>, failed: nat)

  function ReapPass(s: Store, jobs: seq<FailedJob>, evidence: map<RunId, Evidence>, nothing: Evidence): Effect {
    if jobs == [] then Effect(s, true)
    else
      var before, last := ReapPass(s, jobs[..|jobs| - 1], evidence, nothing), jobs[|jobs| - 1];
      if !before.ok || last.runLabel.None? || last.failed == 0 then before
      else
        var id := LabelToRunId(last.runLabel.value);
        Reap(before.store, id, if id in evidence then evidence[id] else nothing)
  }

  /** A whole pass of the reaper, finished or cut short, keeps what every interleaving keeps. */
  lemma {:induction false} ReaperPassSettles(s: Store, jobs: seq<FailedJob>, evidence: map<RunId, Evidence>,
        nothing: Evidence)
    requires Inv(s)
    ensures var t := ReapPass(s, jobs, evidence, nothing).store; Inv(t) && Settled(s, t)
    decreases |jobs|
  {
    hide Inv, Settled, Reap, Finish, FailFromBoundary, Reconcile;
    if jobs == [] {
      SettledSelf(s);
    } else {
      var before, last := ReapPass(s, jobs[..|jobs| - 1], evidence, nothing), jobs[|jobs| - 1];
      ReaperPassSettles(s, jobs[..|jobs| - 1], evidence, nothing);
      if before.ok && last.runLabel.Some? && last.failed > 0 {
        var id := LabelToRunId(last.runLabel.value);
        var ev := if id in evidence then evidence[id] else nothing;
        StepKeeps(before.store, Reaped(id, ev));
        SettledTrans(s, before.store, Reap(before.store, id, ev).store);
      }
    }
  }
}
