/** The authorized stage chain of one WorkItem: what a seal leaves behind, and what is started next. */
module StageChain {
  import opened Wrappers
  import opened WorkStore
  import opened StageSeals
  import opened Finalization

  // ------------------------------------------------------------------ a seal and its authorization

  predicate Moving(status: ItemStatus) {
    status == Verifying || status == Executing
  }

  predicate ChainStage(stage: Stage) {
    stage == Implement || stage == Test || stage == Verify
  }

  /** The Run carries the authorization that is active for the WorkItem of its execution. */
  ghost predicate Carries(s: Store, b: Binding) {
    && b.execution in s.executions
    && s.executions[b.execution].item in s.chains
    && b.chain == Some(s.chains[s.executions[b.execution].item])
  }

  /** After the seal the authorization is active exactly if the WorkItem is still moving. */
  ghost predicate ChainFollowsItem(t: Store, item: ItemId) {
    && item in t.items
    && (item in t.chains <==> Moving(t.items[item].status))
  }

  lemma ImplementMoves(s: Store, b: Binding, attempt: Attempt, ev: Evidence)
    requires Carries(s, b) && SealImplement(s, b, b.execution, attempt, ev).ok
    ensures ChainFollowsItem(SealImplement(s, b, b.execution, attempt, ev).store, s.executions[b.execution].item)
  {
    hide BuildValid;
  }

  lemma TestMoves(s: Store, b: Binding, attempt: Attempt, ev: Evidence)
    requires Carries(s, b) && SealTest(s, b, b.execution, attempt, ev).ok
    ensures ChainFollowsItem(SealTest(s, b, b.execution, attempt, ev).store, s.executions[b.execution].item)
  {
    var e, item := b.execution, s.executions[b.execution].item;
    var passed, repair := TestPassed(b, attempt, ev), TestCorrectable(s, item, b, attempt, ev);
    var status := if passed then Verifying else if repair then Executing else ItemBlocked;
    UpdateItemKeeps(s, item, status);
    SealAdds(s, UpdateItem(s, item, status).store, e,
             Sealed(item, Test, if passed then Succeeded else FailureStatus(attempt), repair, !passed), true,
             attempt.status == "completed");
    hide TestPassed, TestCorrectable, UpdateItem, Seal, SealsOnly, SameRecords;
  }

  lemma DiagnosisMoves(s: Store, b: Binding, attempt: Attempt, ev: Evidence)
    requires Carries(s, b) && SealDiagnosis(s, b, b.execution, attempt, ev).ok
    ensures ChainFollowsItem(SealDiagnosis(s, b, b.execution, attempt, ev).store, s.executions[b.execution].item)
  {
    hide DiagnosisValid, Repairable;
  }

  lemma VerifyMoves(s: Store, b: Binding, attempt: Attempt, ev: Evidence)
    requires Carries(s, b) && SealVerify(s, b, b.execution, attempt, ev).ok
    ensures ChainFollowsItem(SealVerify(s, b, b.execution, attempt, ev).store, s.executions[b.execution].item)
  {
    var e, item := b.execution, s.executions[b.execution].item;
    var passed, repair := VerifyPassed(s, item, attempt, ev), VerifyCorrectable(s, item, b, attempt, ev);
    var sealed := Sealed(item, Verify, if passed then Succeeded else FailureStatus(attempt), repair, !passed);
    SealAdds(s, s, e, sealed, true, attempt.status == "completed");
    var e1 := Seal(s, e, sealed, true);
    DeriveKeeps(e1.store, item, e, ev);
    hide VerifyPassed, VerifyCorrectable, DeriveChangeSet, Seal, SealsOnly;
  }

  /**
    A completed seal keeps authorization and WorkItem in step exactly for the three stages of a
    chain: any other stage leaves the authorization as it was.
   */
  lemma SealKeepsChainInStep(s: Store, run: RunId, b: Binding, attempt: Attempt, ev: Evidence)
    requires Carries(s, b) && SealStage(s, run, b, attempt, ev).ok
    ensures var x := s.executions[b.execution];
            ChainFollowsItem(SealStage(s, run, b, attempt, ev).store, x.item) <==> ChainStage(x.stage)
  {
    hide SealImplement, SealTest, SealDiagnosis, SealVerify;
    match s.executions[b.execution].stage
    case Implement => ImplementMoves(s, b, attempt, ev);
    case Test =>
      if b.testDiagnosis { DiagnosisMoves(s, b, attempt, ev); } else { TestMoves(s, b, attempt, ev); }
    case Verify => VerifyMoves(s, b, attempt, ev);
    case Plan => PlanStays(s, run, b, attempt, ev);
    case Other(_) => OtherStays(s, b, attempt);
  }

  lemma PlanStays(s: Store, run: RunId, b: Binding, attempt: Attempt, ev: Evidence)
    requires Carries(s, b) && SealPlan(s, run, b.execution, attempt, ev).ok
    ensures var t := SealPlan(s, run, b.execution, attempt, ev).store;
            var item := s.executions[b.execution].item;
            t.chains == s.chains && item in t.items && !Moving(t.items[item].status)
  {
    hide PlanVerdict;
  }

  lemma OtherStays(s: Store, b: Binding, attempt: Attempt)
    requires Carries(s, b) && SealUnimplemented(s, b.execution, attempt).ok
    ensures var t := SealUnimplemented(s, b.execution, attempt).store;
            var item := s.executions[b.execution].item;
            t.chains == s.chains && item in t.items && t.items[item].status == ItemBlocked
  {
  }

  // ------------------------------------------------------------------ what the controller starts next

  datatype Config = Config(reliabilityV2: bool, inference: bool, diagnoserPlanned: bool, verifierV2: bool)

  datatype Next = Nothing | Refused | Start(stage: Stage, diagnosisOf: Option<ExecId>)

  /** A failure worth one repair, judged again from the recorded events and facts. */
  predicate RepairableFailure(s: Store, item: ItemId, b: Binding, stage: Stage, ev: Evidence) {
    && ImplementCount(s, item) == 1
    && match stage
       case Test =>
         && b.deterministicTest
         && ev.results != []
         && (forall result | result in ev.results :: Ran(result))
         && (exists result | result in ev.results :: result.exitCode != Some(0))
       case Verify => ev.decision.Some? && ev.decision.value != "approved"
       case _ => false
  }

  /** The reaction to a Run that has just been finalized. */
  function NextStage(s: Store, cfg: Config, id: RunId, ev: Evidence): Next
    requires id in s.runs
  {
    var run := s.runs[id];
    if run.binding.None? || run.binding.value.stage.None? || run.status != Completed then Nothing
    else
      var b := run.binding.value;
      if b.execution !in s.outcomes then Refused
      else
        var sealed := s.outcomes[b.execution];
        if b.testDiagnosis then
          if sealed.status != Succeeded then Nothing
          else if b.diagnosisOf.None? || b.diagnosisOf.value !in s.outcomes then Refused
          else Start(Implement, None)
        else if sealed.status != Succeeded then
          if cfg.reliabilityV2 && RepairableFailure(s, sealed.item, b, b.stage.value, ev) then
            if b.stage.value == Test && cfg.inference && cfg.diagnoserPlanned then Start(Test, Some(b.execution))
            else Start(Implement, None)
          else Nothing
        else if b.stage.value == Implement then Start(Test, None)
        else if b.stage.value == Test then Start(Verify, None)
        else Nothing
  }

  /** The binding of the stage that is started; it carries the WorkItem's active authorization. */
  function NextBinding(s: Store, cfg: Config, item: ItemId, next: Next, e: ExecId, prior: Binding): Binding
    requires next.Start? && item in s.chains
  {
    var diagnosis := next.diagnosisOf.Some?;
    Binding(e, Some(next.stage), Some(s.chains[item]), cfg.reliabilityV2 && next.stage == Test && !diagnosis,
            diagnosis, next.diagnosisOf, next.stage == Verify && cfg.verifierV2, prior.selected, prior.catalog)
  }

  function Launch(s: Store, cfg: Config, item: ItemId, next: Next, r: RunId, e: ExecId, prior: Binding,
        budget: Consumption): Store
    requires next.Start? && item in s.chains
  {
    var run := Run(Queued, None, budget, Some(NextBinding(s, cfg, item, next, e, prior)), Some(item), false);
    s.(runs := s.runs[r := run], executions := s.executions[e := Execution(item, next.stage, Some(r))])
  }

  /** A continuation that could not be dispatched withdraws the authorization and blocks the WorkItem. */
  function ContinuationFailed(s: Store, item: Option<ItemId>): Store {
    if item.None? then s
    else
      var t := if item.value in s.chains then s.(chains := s.chains - {item.value}) else s;
      UpdateItem(t, item.value, ItemBlocked).store
  }

  /** `ready` stands for the plan, workspace and profile checks made before a stage is dispatched. */
  function Continue(s: Store, cfg: Config, id: RunId, ev: Evidence, ready: bool, r: RunId, e: ExecId,
        budget: Consumption): Store
    requires id in s.runs
  {
    var next := NextStage(s, cfg, id, ev);
    match next
    case Nothing => s
    case Refused => ContinuationFailed(s, s.runs[id].workItem)
    case Start(_, _) =>
      if ready && s.runs[id].workItem.Some? && s.runs[id].workItem.value in s.chains
      then Launch(s, cfg, s.runs[id].workItem.value, next, r, e, s.runs[id].binding.value, budget)
      else ContinuationFailed(s, s.runs[id].workItem)
  }

  // ------------------------------------------------------------------ words of stages

  datatype Kind = Build | Check | Diagnose | Review

  function Builds(w: seq<Kind>): nat {
    if w == [] then 0 else Builds(w[..|w| - 1]) + if w[|w| - 1] == Build then 1 else 0
  }

  predicate Follows(last: Kind, builds: nat, k: Kind) {
    match k
    case Check => last == Build
    case Review => last == Check
    case Diagnose => last == Check && builds == 1
    case Build => last == Diagnose || ((last == Check || last == Review) && builds == 1)
  }

  predicate MayFollow(w: seq<Kind>, k: Kind)
    requires w != []
  {
    Follows(w[|w| - 1], Builds(w), k)
  }

  predicate Orderly(w: seq<Kind>) {
    && w != [] && w[0] == Build
    && forall i | 0 < i < |w| :: MayFollow(w[..i], w[i])
  }

  function Rank(k: Kind): nat {
    match k
    case Build => 2
    case Check => 1
    case _ => 0
  }

  lemma {:induction false} OrderlyBounds(w: seq<Kind>)
    requires Orderly(w)
    ensures 1 <= Builds(w) <= 2
    ensures w[|w| - 1] == Diagnose ==> Builds(w) == 1
    ensures |w| + Rank(w[|w| - 1]) + 3 * (2 - Builds(w)) <= 6
    decreases |w|
  {
    var n := |w|;
    if n == 1 {
      assert w[..0] == [] && w[..n - 1] == [];
    } else {
      var v := w[..n - 1];
      assert v[..|v|] == v && w[..n - 1] == v;
      forall i | 0 < i < |v|
        ensures MayFollow(v[..i], v[i])
      {
        assert v[..i] == w[..i] && v[i] == w[i];
      }
      OrderlyBounds(v);
      assert MayFollow(w[..n - 1], w[n - 1]);
    }
  }

  /** One repair at most, and no more than six stages: each start lowers (repairs left, stages left). */
  lemma AtMostOneRepair(w: seq<Kind>)
    requires Orderly(w)
    ensures Builds(w) <= 2 && |w| <= 6
  {
    OrderlyBounds(w);
  }
}
