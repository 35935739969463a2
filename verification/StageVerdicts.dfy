/** What a stage's evidence must be for each verdict, in terms of what was recorded. */
module StageVerdicts {
  import opened Wrappers
  import opened WorkStore
  import opened StageSeals
  import opened Finalization
  import opened StageChain

  // ------------------------------------------------------------------ earlier stages

  /** The outcome that is effective for a stage of the WorkItem is a success. */
  ghost predicate StageSucceeded(s: Store, item: ItemId, stage: Stage) {
    && (item, stage) in s.effective && s.effective[(item, stage)] in s.outcomes
    && s.outcomes[s.effective[(item, stage)]].status == Succeeded
  }

  ghost predicate IsBuild(s: Store, item: ItemId, e: ExecId) {
    e in s.executions && s.executions[e].item == item && s.executions[e].stage == Implement
  }

  /** The WorkItem has been built once, so a repair is still to be had. */
  ghost predicate BuiltOnce(s: Store, item: ItemId) {
    exists e :: IsBuild(s, item, e) && forall f | IsBuild(s, item, f) :: f == e
  }

  lemma CountedOnce(s: Store, item: ItemId)
    ensures ImplementCount(s, item) == 1 <==> BuiltOnce(s, item)
  {
    var builds := set e | e in s.executions && s.executions[e].item == item && s.executions[e].stage == Implement;
    if |builds| == 1 {
      var e :| e in builds;
      assert |builds - {e}| == 0;
      forall f | IsBuild(s, item, f)
        ensures f == e
      {
        assert f in builds;
      }
      assert IsBuild(s, item, e);
    }
    if e :| IsBuild(s, item, e) && forall f | IsBuild(s, item, f) :: f == e {
      forall f | f in builds
        ensures f == e
      {
        assert IsBuild(s, item, f);
      }
      assert builds == {e};
    }
  }

  // ------------------------------------------------------------------ Test

  ghost predicate Reports(results: seq<TestResult>, j: int, command: string) {
    0 <= j < |results| && results[j].command == Some(command) && results[j].ok && results[j].exitCode == Some(0)
  }

  ghost predicate Reported(results: seq<TestResult>, command: string) {
    exists j :: Reports(results, j, command)
  }

  /** The result has an exit code, and not that of a command that could not be run or found. */
  ghost predicate WasRun(result: TestResult) {
    exists code :: result.exitCode == Some(code) && code != 126 && code != 127
  }

  /**
    The attempt completed, some commands were selected, there is one result for each and a passing one for
    every command, and the results are the controller's own or the worker submitted them.
   */
  ghost predicate Tested(b: Binding, attempt: Attempt, ev: Evidence) {
    && attempt.status == "completed" && |b.selected| >= 1 && |ev.results| == |b.selected|
    && (forall i | 0 <= i < |b.selected| :: Reported(ev.results, b.selected[i]))
    && (b.deterministicTest || ev.testSubmission)
  }

  /** Only for results of the controller's own: every command ran, whatever it returned. */
  ghost predicate TestWorthRepair(s: Store, item: ItemId, b: Binding, attempt: Attempt, ev: Evidence) {
    && b.deterministicTest && !Tested(b, attempt, ev) && BuiltOnce(s, item) && |ev.results| == |b.selected|
    && forall j | 0 <= j < |ev.results| :: WasRun(ev.results[j])
  }

  lemma ExactIsReported(selected: seq<string>, results: seq<TestResult>)
    ensures ExactResults(selected, results) <==>
            |results| == |selected| && forall i | 0 <= i < |selected| :: Reported(results, selected[i])
  {
    forall command: string
      ensures (exists result | result in results :: Passed(result, command)) <==> Reported(results, command)
    {
      if result :| result in results && Passed(result, command) {
        var j :| 0 <= j < |results| && results[j] == result;
        assert Reports(results, j, command);
      }
      if j :| Reports(results, j, command) {
        assert results[j] in results && Passed(results[j], command);
      }
    }
    hide Passed, Reported;
    assert forall i | 0 <= i < |selected| :: selected[i] in selected;
    if ExactResults(selected, results) {
      assert forall i | 0 <= i < |selected| :: Reported(results, selected[i]);
    }
    if forall i | 0 <= i < |selected| :: Reported(results, selected[i]) {
      forall command | command in selected
        ensures exists result | result in results :: Passed(result, command)
      {
        assert Reported(results, command);
      }
    }
  }

  lemma PassedIsTested(b: Binding, attempt: Attempt, ev: Evidence)
    ensures TestPassed(b, attempt, ev) <==> Tested(b, attempt, ev)
  {
    ExactIsReported(b.selected, ev.results);
    hide ExactResults, Reported;
  }

  lemma AllRan(results: seq<TestResult>)
    ensures (forall result | result in results :: Ran(result)) <==>
            forall j | 0 <= j < |results| :: WasRun(results[j])
  {
    forall j | 0 <= j < |results|
      ensures Ran(results[j]) <==> WasRun(results[j])
    {
      if Ran(results[j]) {
        assert results[j].exitCode == Some(results[j].exitCode.value);
      }
    }
    hide Ran, WasRun;
    assert forall j | 0 <= j < |results| :: results[j] in results;
  }

  lemma CorrectableIsWorthRepair(s: Store, item: ItemId, b: Binding, attempt: Attempt, ev: Evidence)
    ensures TestCorrectable(s, item, b, attempt, ev) <==> TestWorthRepair(s, item, b, attempt, ev)
  {
    PassedIsTested(b, attempt, ev);
    CountedOnce(s, item);
    AllRan(ev.results);
    hide TestPassed, Tested, ImplementCount, BuiltOnce, Ran;
  }

  // ------------------------------------------------------------------ Verify

  /**
    The attempt completed with the decision "approved", Implement and Test have succeeded, both lists of
    caveats are lists if they are there at all, and no contradiction is listed.
   */
  ghost predicate Verified(s: Store, item: ItemId, attempt: Attempt, ev: Evidence) {
    && attempt.status == "completed" && ev.decision == Some("approved")
    && StageSucceeded(s, item, Implement) && StageSucceeded(s, item, Test)
    && (ev.contradictions == Absent || ev.contradictions == Listed(0))
    && (ev.risks == Absent || exists n :: ev.risks == Listed(n))
  }

  ghost predicate VerifyWorthRepair(s: Store, item: ItemId, b: Binding, attempt: Attempt, ev: Evidence) {
    && b.reliabilityV2 && attempt.status == "completed"
    && (exists decision :: ev.decision == Some(decision) && decision != "approved")
    && StageSucceeded(s, item, Implement) && StageSucceeded(s, item, Test) && BuiltOnce(s, item)
  }

  lemma PassedIsVerified(s: Store, item: ItemId, attempt: Attempt, ev: Evidence)
    ensures VerifyPassed(s, item, attempt, ev) <==> Verified(s, item, attempt, ev)
  {
    if ev.risks.Listed? {
      assert ev.risks == Listed(ev.risks.count);
    }
  }

  lemma CorrectableIsVerifyWorthRepair(s: Store, item: ItemId, b: Binding, attempt: Attempt, ev: Evidence)
    ensures VerifyCorrectable(s, item, b, attempt, ev) <==> VerifyWorthRepair(s, item, b, attempt, ev)
  {
    CountedOnce(s, item);
    hide ImplementCount, BuiltOnce;
  }

  // ------------------------------------------------------------------ diagnosis

  /** A summary, a known kind of failure, and references that all name evidence of the failed Test. */
  ghost predicate Diagnosed(attempt: Attempt, ev: Evidence, catalog: seq<string>, kinds: set<string>) {
    && attempt.status == "completed"
    && exists kind, refs :: ev.diagnosis == Some(Diagnosis(true, Some(kind), Some(refs)))
         && kind in kinds && |refs| >= 1 && forall i | 0 <= i < |refs| :: RefersTo(refs[i], catalog)
  }

  ghost predicate RefersTo(ref: Option<string>, catalog: seq<string>) {
    exists name :: ref == Some(name) && name in catalog
  }

  const REPAIRABLE_KINDS: set<string> := {"compilation", "assertion", "lint", "semantic_test"}
  const KNOWN_KINDS: set<string> :=
    {"compilation", "assertion", "lint", "semantic_test", "structural_environment", "unknown"}

  lemma ValidIsDiagnosed(attempt: Attempt, ev: Evidence, catalog: seq<string>)
    ensures DiagnosisValid(ev.diagnosis, catalog, attempt.status == "completed") <==>
            Diagnosed(attempt, ev, catalog, KNOWN_KINDS)
    ensures Repairable(ev.diagnosis, catalog, attempt.status == "completed") <==>
            Diagnosed(attempt, ev, catalog, REPAIRABLE_KINDS)
  {
    assert KINDS == KNOWN_KINDS && REPAIRABLE == REPAIRABLE_KINDS && REPAIRABLE_KINDS <= KNOWN_KINDS;
    hide KINDS, KNOWN_KINDS, REPAIRABLE, REPAIRABLE_KINDS;
    if ev.diagnosis.Some? && ev.diagnosis.value.failureKind.Some? && ev.diagnosis.value.evidenceRefs.Some? {
      var d := ev.diagnosis.value;
      AllRefer(d.evidenceRefs.value, catalog);
      assert d == Diagnosis(d.summaryGiven, Some(d.failureKind.value), Some(d.evidenceRefs.value));
    }
    hide RefersTo;
  }

  lemma AllRefer(refs: seq<Option<string>>, catalog: seq<string>)
    ensures (forall ref | ref in refs :: ref.Some? && ref.value in catalog) <==>
            forall i | 0 <= i < |refs| :: RefersTo(refs[i], catalog)
  {
    forall ref: Option<string>
      ensures RefersTo(ref, catalog) <==> ref.Some? && ref.value in catalog
    {
    }
    hide RefersTo;
    assert forall i | 0 <= i < |refs| :: refs[i] in refs;
  }

  /** What a stage that did not succeed is recorded as. */
  ghost function FailedAs(attempt: Attempt): StageStatus {
    if attempt.status == "cancelled" then StageCancelled else StageFailed
  }

  lemma FailureIs(attempt: Attempt)
    ensures FailureStatus(attempt) == FailedAs(attempt) != Succeeded
  {
  }
}
