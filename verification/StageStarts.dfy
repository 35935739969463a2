/** Which stage the controller starts after a Run of a chain, in terms of what was sealed. */
module StageStarts {
  import opened Wrappers
  import opened WorkStore
  import opened StageSeals
  import opened StageChain
  import opened StageVerdicts
  import opened StageRecords
  import opened Finalization
  import opened Offers

  // ------------------------------------------------------------------ what is due

  /** The Run of a stage has completed, and its stage has been sealed as a success or not. */
  ghost predicate StageOver(s: Store, id: RunId, b: Binding, succeeded: bool) {
    && id in s.runs && s.runs[id].status == Completed && s.runs[id].binding == Some(b) && b.stage.Some?
    && b.execution in s.outcomes && (s.outcomes[b.execution].status == Succeeded <==> succeeded)
  }

  /** Every command ran, and not every one of them returned zero. */
  ghost predicate RanAndFailed(results: seq<TestResult>) {
    && |results| >= 1 && (forall j | 0 <= j < |results| :: WasRun(results[j]))
    && exists j :: 0 <= j < |results| && results[j].exitCode != Some(0)
  }

  /** A WorkItem built once, whose Test ran and failed or whose Verify decided otherwise, is repaired. */
  ghost predicate Repaired(s: Store, b: Binding, ev: Evidence)
    requires b.execution in s.outcomes
  {
    && BuiltOnce(s, s.outcomes[b.execution].item)
    && ((b.stage == Some(Test) && b.deterministicTest && RanAndFailed(ev.results))
        || (b.stage == Some(Verify) && exists decision :: ev.decision == Some(decision) && decision != "approved"))
  }

  /** After a build a Test, after a Test a Verify, after a diagnosis a build, and after a failure its repair. */
  ghost predicate DueAfter(s: Store, cfg: Config, b: Binding, ev: Evidence, stage: Stage, diagnosisOf: Option<ExecId>)
    requires b.execution in s.outcomes
  {
    if b.testDiagnosis then
      && s.outcomes[b.execution].status == Succeeded && b.diagnosisOf.Some? && b.diagnosisOf.value in s.outcomes
      && stage == Implement && diagnosisOf.None?
    else if s.outcomes[b.execution].status == Succeeded then
      && ((b.stage == Some(Implement) && stage == Test) || (b.stage == Some(Test) && stage == Verify))
      && diagnosisOf.None?
    else
      && cfg.reliabilityV2 && Repaired(s, b, ev)
      && (if b.stage == Some(Test) && cfg.inference && cfg.diagnoserPlanned
          then stage == Test && diagnosisOf == Some(b.execution)
          else stage == Implement && diagnosisOf.None?)
  }

  ghost predicate Due(s: Store, cfg: Config, id: RunId, ev: Evidence, stage: Stage, diagnosisOf: Option<ExecId>) {
    exists b, succeeded :: StageOver(s, id, b, succeeded) && DueAfter(s, cfg, b, ev, stage, diagnosisOf)
  }

  /** A completed Run whose stage was never sealed, or a diagnosis whose failed Test is not there. */
  ghost predicate Broken(s: Store, id: RunId) {
    exists b :: id in s.runs && s.runs[id].status == Completed && s.runs[id].binding == Some(b) && b.stage.Some?
      && (b.execution !in s.outcomes
          || (b.testDiagnosis && s.outcomes[b.execution].status == Succeeded
              && (b.diagnosisOf.None? || b.diagnosisOf.value !in s.outcomes)))
  }

  lemma RepairIs(s: Store, b: Binding, ev: Evidence)
    requires b.execution in s.outcomes && b.stage.Some?
    ensures RepairableFailure(s, s.outcomes[b.execution].item, b, b.stage.value, ev) <==> Repaired(s, b, ev)
  {
    CountedOnce(s, s.outcomes[b.execution].item);
    AllRan(ev.results);
    SomeUnlike(ev.results);
    hide ImplementCount, BuiltOnce, Ran, WasRun;
    if ev.decision.Some? {
      assert ev.decision == Some(ev.decision.value);
    }
  }

  lemma SomeUnlike(results: seq<TestResult>)
    ensures (exists result | result in results :: result.exitCode != Some(0)) <==>
            exists j :: 0 <= j < |results| && results[j].exitCode != Some(0)
  {
    if result :| result in results && result.exitCode != Some(0) {
      var j :| 0 <= j < |results| && results[j] == result;
    }
    if j :| 0 <= j < |results| && results[j].exitCode != Some(0) {
      assert results[j] in results;
    }
  }

  /** The controller starts exactly the stage that is due, and refuses exactly a broken record. */
  lemma NextIsDue(s: Store, cfg: Config, id: RunId, ev: Evidence)
    requires id in s.runs
    ensures forall stage, d :: NextStage(s, cfg, id, ev) == Start(stage, d) <==> Due(s, cfg, id, ev, stage, d)
    ensures NextStage(s, cfg, id, ev) == Refused <==> Broken(s, id)
  {
    hide RepairableFailure, Repaired;
    if s.runs[id].binding.Some? && s.runs[id].binding.value.stage.Some? && s.runs[id].status == Completed {
      var b := s.runs[id].binding.value;
      if b.execution in s.outcomes {
        RepairIs(s, b, ev);
        assert StageOver(s, id, b, s.outcomes[b.execution].status == Succeeded);
      }
    }
  }

  // ------------------------------------------------------------------ what is started

  /** A new execution of the stage, with a queued Run bound to it under the active authorization. */
  ghost predicate Started(
    s: Store, t: Store, cfg: Config, item: ItemId, stage: Stage, d: Option<ExecId>, r: RunId, e: ExecId) {
    && t == s.(runs := t.runs, executions := s.executions[e := Execution(item, stage, Some(r))])
    && r in t.runs && t.runs == s.runs[r := t.runs[r]]
    && t.runs[r].status == Queued && t.runs[r].result.None? && t.runs[r].workItem == Some(item)
    && t.runs[r].binding.Some? && BoundTo(s, t.runs[r].binding.value, cfg, item, stage, d, e)
  }

  ghost predicate BoundTo(
    s: Store, b: Binding, cfg: Config, item: ItemId, stage: Stage, d: Option<ExecId>, e: ExecId) {
    && b.execution == e && b.stage == Some(stage) && item in s.chains && b.chain == Some(s.chains[item])
    && (b.testDiagnosis <==> d.Some?) && b.diagnosisOf == d
    && (b.deterministicTest <==> stage == Test && d.None? && cfg.reliabilityV2)
  }

  /** The authorization is withdrawn and an open WorkItem is blocked; nothing is started. */
  ghost predicate Withdrawn(s: Store, t: Store, item: Option<ItemId>) {
    && t == s.(chains := t.chains, items := t.items)
    && t.chains == (if item.Some? then s.chains - {item.value} else s.chains)
    && t.items.Keys == s.items.Keys
    && forall i | i in s.items ::
         t.items[i] == if item == Some(i) && !s.items[i].closed then Item(ItemBlocked, false) else s.items[i]
  }

  lemma LaunchStarts(
    s: Store, cfg: Config, item: ItemId, next: Next, r: RunId, e: ExecId, prior: Binding, budget: Consumption)
    requires next.Start? && item in s.chains
    ensures Started(s, Launch(s, cfg, item, next, r, e, prior, budget), cfg, item, next.stage, next.diagnosisOf, r, e)
  {
  }

  lemma FailureWithdraws(s: Store, item: Option<ItemId>)
    ensures Withdrawn(s, ContinuationFailed(s, item), item)
  {
    if item.Some? && item.value !in s.chains {
      assert s.chains - {item.value} == s.chains;
    }
  }

  /**
    After a Run has been finalized, the stage that is due is started if it can be dispatched under an active
    authorization. If it cannot, or the record is broken, the authorization is withdrawn. If nothing is due,
    nothing happens.
   */
  lemma ContinuesAsDue(
    s: Store, cfg: Config, id: RunId, ev: Evidence, ready: bool, r: RunId, e: ExecId, budget: Consumption)
    requires id in s.runs
    ensures var t, item := Continue(s, cfg, id, ev, ready, r, e, budget), s.runs[id].workItem;
            && (forall stage, d | Due(s, cfg, id, ev, stage, d) ::
                  if ready && item.Some? && item.value in s.chains
                  then Started(s, t, cfg, item.value, stage, d, r, e)
                  else Withdrawn(s, t, item))
            && (Broken(s, id) ==> Withdrawn(s, t, item))
            && (!Broken(s, id) && (forall stage, d :: !Due(s, cfg, id, ev, stage, d)) ==> t == s)
  {
    var next, item := NextStage(s, cfg, id, ev), s.runs[id].workItem;
    NextIsDue(s, cfg, id, ev);
    FailureWithdraws(s, item);
    NextBinds(s, cfg, id, ev);
    if next.Start? && item.Some? && item.value in s.chains {
      LaunchStarts(s, cfg, item.value, next, r, e, s.runs[id].binding.value, budget);
    }
    hide NextStage, Launch, ContinuationFailed, Due, Broken, Started, Withdrawn;
  }

  lemma NextBinds(s: Store, cfg: Config, id: RunId, ev: Evidence)
    requires id in s.runs
    ensures NextStage(s, cfg, id, ev).Start? ==> s.runs[id].binding.Some?
  {
    hide RepairableFailure;
  }

  // ------------------------------------------------------------------ from the evidence to the next stage

  /** What makes a build or a Test a success, and the stage that follows it. */
  ghost predicate LeadsOn(b: Binding, attempt: Attempt, ev: Evidence, stage: Stage) {
    || (b.stage == Some(Implement) && InScope(attempt, ev) && stage == Test)
    || (b.stage == Some(Test) && Tested(b, attempt, ev) && stage == Verify)
  }

  /** A build inside the writable paths is followed by a Test, and a Test that passes by a Verify. */
  lemma SuccessLeadsOn(
    s: Store, t: Store, id: RunId, b: Binding, attempt: Attempt, ev: Evidence, stage: Stage, cfg: Config,
    ready: bool, r: RunId, e: ExecId, budget: Consumption)
    requires JustSealed(s, t, id, b, attempt, ev) && !b.testDiagnosis && LeadsOn(b, attempt, ev, stage)
    ensures id in t.runs
    ensures var u, item := Continue(t, cfg, id, ev, ready, r, e, budget), s.executions[b.execution].item;
            if ready then Started(t, u, cfg, item, stage, None, r, e) else Withdrawn(t, u, Some(item))
  {
    SealedSuccess(s, t, id, b, attempt, ev, stage);
    var item := s.executions[b.execution].item;
    assert Due(t, cfg, id, ev, stage, None) by {
      assert StageOver(t, id, b, true) && DueAfter(t, cfg, b, ev, stage, None);
    }
    ContinuesAsDue(t, cfg, id, ev, ready, r, e, budget);
    hide Continue, Due, Started, Withdrawn, LeadsOn, JustSealed;
  }

  lemma SealedSuccess(
    s: Store, t: Store, id: RunId, b: Binding, attempt: Attempt, ev: Evidence, stage: Stage)
    requires JustSealed(s, t, id, b, attempt, ev) && !b.testDiagnosis && LeadsOn(b, attempt, ev, stage)
    ensures var item := s.executions[b.execution].item;
            && t.runs == s.runs && StageOver(t, id, b, true) && t.runs[id].workItem == Some(item) && item in t.chains
  {
    SealStageSealsOnly(s, id, b, attempt, ev);
    if b.stage == Some(Implement) {
      BuildRecord(s, b, attempt, ev);
    } else {
      TestRecord(s, b, attempt, ev);
    }
    hide InScope, Tested, TestWorthRepair, SealImplement, SealTest, SealsOnly;
  }
}
