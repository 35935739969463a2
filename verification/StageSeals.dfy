/** Sealing one Repo Mode stage: the judgement on its evidence, and the writes that follow. */
module StageSeals {
  import opened Wrappers
  import opened WorkStore

  // ------------------------------------------------------------------ evidence

  datatype TestResult = TestResult(command: Option<string>, ok: bool, exitCode: Option<int>)

  datatype Caveats = Absent | Malformed | Listed(count: nat)

  datatype Diagnosis = Diagnosis(summaryGiven: bool, failureKind: Option<string>,
      evidenceRefs: Option<seq<Option<string>>>)

  /** A submitted WorkPlan: whether it passed validation, and whether it names blockers. */
  datatype PlanDraft = PlanDraft(valid: bool, blockers: bool, document: string)

  /** Everything the finalizer reads besides the store: events, artifacts and the worker's evidence. */
  datatype Evidence = Evidence(
    workspaceAccepted: bool,
    retrievalsAccepted: bool,
    diffPresent: bool,
    changedPaths: seq<string>,
    writable: seq<string>,
    artifactsPresent: bool,
    patch: string,
    results: seq<TestResult>,
    testSubmission: bool,
    decision: Option<string>,
    contradictions: Caveats,
    risks: Caveats,
    diagnosis: Option<Diagnosis>,
    plan: Option<PlanDraft>)

  function EndsWith(s: string, suffix: string): bool {
    |s| >= |suffix| && s[|s| - |suffix|..] == suffix
  }

  // A pattern ending in a slash and two stars covers the directory and everything below it;
  // any other pattern matches only itself.
  function PathMatches(pattern: string, path: string): bool {
    if EndsWith(pattern, "/**") then
      var prefix := pattern[..|pattern| - 3];
      path == prefix || prefix + "/" <= path
    else pattern == path
  }

  predicate BuildValid(attempt: Attempt, ev: Evidence) {
    && attempt.status == "completed"
    && ev.diffPresent && ev.changedPaths != []
    && forall path | path in ev.changedPaths :: exists pattern | pattern in ev.writable :: PathMatches(pattern, path)
  }

  predicate Passed(result: TestResult, command: string) {
    result.command == Some(command) && result.ok && result.exitCode == Some(0)
  }

  predicate ExactResults(selected: seq<string>, results: seq<TestResult>) {
    && (forall command | command in selected :: exists result | result in results :: Passed(result, command))
    && |results| == |selected|
  }

  predicate TestPassed(b: Binding, attempt: Attempt, ev: Evidence) {
    && attempt.status == "completed"
    && b.selected != []
    && ExactResults(b.selected, ev.results)
    && (b.deterministicTest || ev.testSubmission)
  }

  /** The command ran: it reported an exit code other than "not executable" and "not found". */
  predicate Ran(result: TestResult) {
    result.exitCode.Some? && result.exitCode.value != 126 && result.exitCode.value != 127
  }

  predicate TestCorrectable(s: Store, item: ItemId, b: Binding, attempt: Attempt, ev: Evidence) {
    && b.deterministicTest
    && !TestPassed(b, attempt, ev)
    && ImplementCount(s, item) == 1
    && |ev.results| == |b.selected|
    && (forall result | result in ev.results :: Ran(result))
  }

  predicate UpstreamSucceeded(s: Store, item: ItemId) {
    EffectiveStatus(s, item, Implement) == Some(Succeeded) && EffectiveStatus(s, item, Test) == Some(Succeeded)
  }

  predicate VerifyPassed(s: Store, item: ItemId, attempt: Attempt, ev: Evidence) {
    && attempt.status == "completed"
    && ev.decision == Some("approved")
    && UpstreamSucceeded(s, item)
    && !ev.contradictions.Malformed? && !ev.risks.Malformed?
    && (ev.contradictions.Listed? ==> ev.contradictions.count == 0)
  }

  predicate VerifyCorrectable(s: Store, item: ItemId, b: Binding, attempt: Attempt, ev: Evidence) {
    && b.reliabilityV2
    && !VerifyPassed(s, item, attempt, ev)
    && attempt.status == "completed"
    && ev.decision.Some? && ev.decision.value != "approved"
    && UpstreamSucceeded(s, item)
    && ImplementCount(s, item) == 1
  }

  const REPAIRABLE: set<string> := {"compilation", "assertion", "lint", "semantic_test"}
  const KINDS: set<string> := REPAIRABLE + {"structural_environment", "unknown"}

  predicate DiagnosisValid(d: Option<Diagnosis>, catalog: seq<string>, completed: bool) {
    && completed && d.Some? && d.value.summaryGiven
    && d.value.failureKind.Some? && d.value.failureKind.value in KINDS
    && d.value.evidenceRefs.Some? && d.value.evidenceRefs.value != []
    && (forall ref | ref in d.value.evidenceRefs.value :: ref.Some? && ref.value in catalog)
  }

  predicate Repairable(d: Option<Diagnosis>, catalog: seq<string>, completed: bool) {
    DiagnosisValid(d, catalog, completed) && d.value.failureKind.value in REPAIRABLE
  }

  function FailureStatus(attempt: Attempt): StageStatus {
    if attempt.status == "cancelled" then StageCancelled else StageFailed
  }

  /** The verdict on a stage that has no finalizer. */
  function OtherVerdict(attempt: Attempt): StageStatus {
    if attempt.status == "completed" then Blocked else FailureStatus(attempt)
  }

  // ------------------------------------------------------------------ plan

  function PlanVerdict(attempt: Attempt, ev: Evidence): StageStatus {
    if attempt.status != "completed" then FailureStatus(attempt)
    else if ev.plan.None? || !ev.plan.value.valid then StageFailed
    else if ev.plan.value.blockers then Blocked
    else Succeeded
  }

  function RecordPlan(s: Store, item: ItemId, run: RunId, attempt: Attempt, ev: Evidence): (t: Store)
    ensures t == s.(plans := t.plans)
  {
    if attempt.status == "completed" && ev.plan.Some? && ev.plan.value.valid then
      if item !in s.plans then
        s.(plans := s.plans[item := WorkPlan("wplan_" + run, 1, run, ev.plan.value.document)])
      else
        var plan := s.plans[item];
        if plan.run == run && plan.document == ev.plan.value.document then s
        else
          var revised := plan.(revision := plan.revision + 1, run := run, document := ev.plan.value.document);
          s.(plans := s.plans[item := revised])
    else s
  }

  function SealPlan(s: Store, run: RunId, execution: ExecId, attempt: Attempt, ev: Evidence): Effect
    requires execution in s.executions
  {
    var item := s.executions[execution].item;
    var verdict := PlanVerdict(attempt, ev);
    var status := if verdict == Succeeded then AwaitingApproval else ItemBlocked;
    var e := UpdateItem(RecordPlan(s, item, run, attempt, ev), item, status);
    if !e.ok then e else Seal(e.store, execution, Sealed(item, Plan, verdict, false, false), true)
  }

  // ------------------------------------------------------------------ implement

  function SealImplement(s: Store, b: Binding, execution: ExecId, attempt: Attempt, ev: Evidence): Effect
    requires execution in s.executions
  {
    var item := s.executions[execution].item;
    var valid := BuildValid(attempt, ev);
    var e := UpdateItem(s, item, if valid then Verifying else ItemBlocked);
    if !e.ok then e
    else
      var verdict := if valid then Succeeded else FailureStatus(attempt);
      var f := Seal(e.store, execution, Sealed(item, Implement, verdict, false, !valid), true);
      if !f.ok || valid then f else Effect(Revoke(f.store, b.chain), true)
  }

  // ------------------------------------------------------------------ test

  function SealTest(s: Store, b: Binding, execution: ExecId, attempt: Attempt, ev: Evidence): Effect
    requires execution in s.executions
  {
    var item := s.executions[execution].item;
    var passed, repair := TestPassed(b, attempt, ev), TestCorrectable(s, item, b, attempt, ev);
    var e := UpdateItem(s, item, if passed then Verifying else if repair then Executing else ItemBlocked);
    if !e.ok then e
    else
      var verdict := if passed then Succeeded else FailureStatus(attempt);
      var f := Seal(e.store, execution, Sealed(item, Test, verdict, repair, !passed), true);
      if !f.ok || passed || repair then f else Effect(Revoke(f.store, b.chain), true)
  }

  /** A diagnosis is sealed beside the failed Test outcome and never replaces it. */
  function SealDiagnosis(s: Store, b: Binding, execution: ExecId, attempt: Attempt, ev: Evidence): Effect
    requires execution in s.executions
  {
    var item := s.executions[execution].item;
    if b.diagnosisOf.None? || b.diagnosisOf.value !in s.outcomes then Effect(s, false)
    else
      var target := s.outcomes[b.diagnosisOf.value];
      if target.item != item || target.stage != Test || target.status != StageFailed then Effect(s, false)
      else
        var completed := attempt.status == "completed";
        var valid := DiagnosisValid(ev.diagnosis, b.catalog, completed);
        var repair := Repairable(ev.diagnosis, b.catalog, completed);
        var status := if repair then Succeeded else if valid then Blocked else FailureStatus(attempt);
        var e := Seal(s, execution, Sealed(item, Test, status, repair, !valid), false);
        if !e.ok then e
        else
          var f := UpdateItem(e.store, item, if repair then Executing else ItemBlocked);
          if !f.ok || repair then f else Effect(Revoke(f.store, b.chain), true)
  }

  // ------------------------------------------------------------------ verify

  function EffectiveOutcomes(s: Store, item: ItemId): set<ExecId> {
    set key | key in s.effective && key.0 == item :: s.effective[key]
  }

  function MaterialFor(s: Store, item: ItemId, verification: ExecId, ev: Evidence): Option<Material> {
    if item !in s.plans || EffectiveStatus(s, item, Implement) != Some(Succeeded) then None
    else
      var builder := s.effective[(item, Implement)];
      if builder !in s.executions || s.executions[builder].run.None? || !ev.artifactsPresent then None
      else
        Some(Material(s.plans[item].id, s.plans[item].revision, s.executions[builder].run.value, ev.patch,
                      EffectiveOutcomes(s, item), verification))
  }

  predicate Revisable(cs: ChangeSet, plan: WorkPlan) {
    cs.status == ChangeRejected && cs.material.plan == plan.id && cs.material.planRevision < plan.revision
  }

  /** Derives the ChangeSet of the WorkPlan from the verified build. */
  function DeriveChangeSet(s: Store, item: ItemId, verification: ExecId, ev: Evidence): (e: Effect)
    ensures e.store == s.(changeSets := e.store.changeSets)
  {
    match MaterialFor(s, item, verification, ev)
    case None => Effect(s, false)
    case Some(material) =>
      var plan := s.plans[item];
      if plan.id !in s.changeSets then
        Effect(s.(changeSets := s.changeSets[plan.id := ChangeSet(ChangeProposed, material, 1)]), true)
      else
        var existing := s.changeSets[plan.id];
        if existing.material == material then Effect(s, true)
        else if !Revisable(existing, plan) then Effect(s, false)
        else
          var revised := ChangeSet(ChangeProposed, material, existing.revision + 1);
          Effect(s.(changeSets := s.changeSets[plan.id := revised]), true)
  }

  function SealVerify(s: Store, b: Binding, execution: ExecId, attempt: Attempt, ev: Evidence): Effect
    requires execution in s.executions
  {
    var item := s.executions[execution].item;
    var passed, repair := VerifyPassed(s, item, attempt, ev), VerifyCorrectable(s, item, b, attempt, ev);
    var verdict := if passed then Succeeded else FailureStatus(attempt);
    var e := Seal(s, execution, Sealed(item, Verify, verdict, repair, !passed), true);
    if !e.ok then e
    else
      var f := if passed then DeriveChangeSet(e.store, item, execution, ev) else e;
      if !f.ok then f
      else
        var status := if passed then AwaitingApproval else if repair then Executing else ItemBlocked;
        var g := UpdateItem(f.store, item, status);
        if !g.ok || (!passed && repair) then g else Effect(Revoke(g.store, b.chain), true)
  }

  // ------------------------------------------------------------------ any other stage

  function SealUnimplemented(s: Store, execution: ExecId, attempt: Attempt): Effect
    requires execution in s.executions
  {
    var item, stage := s.executions[execution].item, s.executions[execution].stage;
    var e := UpdateItem(s, item, ItemBlocked);
    if !e.ok then e
    else Seal(e.store, execution, Sealed(item, stage, OtherVerdict(attempt), false, false), true)
  }
}
