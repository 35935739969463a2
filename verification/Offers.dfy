/** Which sealed repair offers are taken up, and that nothing is started that was not offered. */
module Offers {
  import opened Wrappers
  import opened WorkStore
  import opened StageSeals
  import opened Finalization
  import opened StageChain
  import opened StageVerdicts

  /** The Run of a chain stage that has not been sealed yet, as its target describes it. */
  ghost predicate Pending(s: Store, id: RunId, b: Binding) {
    && id in s.runs && s.runs[id].binding == Some(b) && Carries(s, b)
    && s.executions[b.execution].run == Some(id)
    && b.stage == Some(s.executions[b.execution].stage) && ChainStage(s.executions[b.execution].stage)
    && s.runs[id].workItem == Some(s.executions[b.execution].item)
    && b.execution !in s.outcomes
  }

  /** The store just after the stage of a completed Run was sealed. */
  ghost predicate JustSealed(s: Store, t: Store, id: RunId, b: Binding, attempt: Attempt, ev: Evidence) {
    && Pending(s, id, b) && s.runs[id].status == Completed && attempt.status == "completed"
    && SealStage(s, id, b, attempt, ev) == Effect(t, true)
  }

  /** A stage that failed without offering a repair has lost its authorization: nothing can follow. */
  lemma NothingUnoffered(
    s: Store, t: Store, id: RunId, b: Binding, attempt: Attempt, ev: Evidence, cfg: Config, ready: bool,
    r: RunId, e: ExecId, budget: Consumption)
    requires JustSealed(s, t, id, b, attempt, ev)
    requires b.execution in t.outcomes && t.outcomes[b.execution].status != Succeeded && !t.outcomes[b.execution].repair
    ensures id in t.runs && Continue(t, cfg, id, ev, ready, r, e, budget).executions == t.executions
  {
    var item := s.executions[b.execution].item;
    SealStageSealsOnly(s, id, b, attempt, ev);
    SealKeepsChainInStep(s, id, b, attempt, ev);
    UnofferedStops(s, id, b, attempt, ev);
    hide SealStage, NextStage, ChainFollowsItem, SealsOnly;
    assert item !in t.chains;
  }

  lemma TestSealing(s: Store, b: Binding, attempt: Attempt, ev: Evidence)
    requires Carries(s, b) && SealTest(s, b, b.execution, attempt, ev).ok
    ensures var t, item := SealTest(s, b, b.execution, attempt, ev).store, s.executions[b.execution].item;
            && b.execution in t.outcomes
            && t.outcomes[b.execution].item == item
            && (t.outcomes[b.execution].status == Succeeded <==> TestPassed(b, attempt, ev))
            && t.outcomes[b.execution].repair == TestCorrectable(s, item, b, attempt, ev)
            && (item in t.chains <==> t.outcomes[b.execution].repair || t.outcomes[b.execution].status == Succeeded)
  {
    var e, item := b.execution, s.executions[b.execution].item;
    var passed, repair := TestPassed(b, attempt, ev), TestCorrectable(s, item, b, attempt, ev);
    var status := if passed then Verifying else if repair then Executing else ItemBlocked;
    UpdateItemKeeps(s, item, status);
    SealAdds(s, UpdateItem(s, item, status).store, e,
             Sealed(item, Test, if passed then Succeeded else FailureStatus(attempt), repair, !passed), true,
             attempt.status == "completed");
    hide TestPassed, TestCorrectable, UpdateItem, Seal, SealsOnly, SameRecords;
  }

  lemma VerifySealing(s: Store, b: Binding, attempt: Attempt, ev: Evidence)
    requires Carries(s, b) && SealVerify(s, b, b.execution, attempt, ev).ok
    ensures var t, item := SealVerify(s, b, b.execution, attempt, ev).store, s.executions[b.execution].item;
            && b.execution in t.outcomes
            && t.outcomes[b.execution].item == item
            && (t.outcomes[b.execution].status == Succeeded <==> VerifyPassed(s, item, attempt, ev))
            && t.outcomes[b.execution].repair == VerifyCorrectable(s, item, b, attempt, ev)
            && (item in t.chains <==> t.outcomes[b.execution].repair)
  {
    var e, item := b.execution, s.executions[b.execution].item;
    var passed, repair := VerifyPassed(s, item, attempt, ev), VerifyCorrectable(s, item, b, attempt, ev);
    assert repair ==> !passed;
    var sealed := Sealed(item, Verify, if passed then Succeeded else FailureStatus(attempt), repair, !passed);
    SealAdds(s, s, e, sealed, true, attempt.status == "completed");
    var e1 := Seal(s, e, sealed, true);
    DeriveKeeps(e1.store, item, e, ev);
    hide VerifyPassed, VerifyCorrectable, DeriveChangeSet, Seal, SealsOnly;
  }

  lemma DiagnosisSealing(s: Store, b: Binding, attempt: Attempt, ev: Evidence)
    requires Carries(s, b) && SealDiagnosis(s, b, b.execution, attempt, ev).ok
    ensures var t, item := SealDiagnosis(s, b, b.execution, attempt, ev).store, s.executions[b.execution].item;
            && b.execution in t.outcomes
            && (item in t.chains <==> t.outcomes[b.execution].repair)
            && (t.outcomes[b.execution].repair <==> t.outcomes[b.execution].status == Succeeded)
            && (t.outcomes[b.execution].repair <==> Repairable(ev.diagnosis, b.catalog, attempt.status == "completed"))
            && t.effective == s.effective
            && forall e | e in s.outcomes :: e in t.outcomes && t.outcomes[e] == s.outcomes[e]
  {
    hide DiagnosisValid, Repairable;
  }

  // ------------------------------------------------------------------ the records, in terms of the evidence

  /** What a completed seal of a Test leaves behind: the outcome, the WorkItem, and the authorization if it goes on. */
  lemma TestRecord(s: Store, b: Binding, attempt: Attempt, ev: Evidence)
    requires Carries(s, b) && SealTest(s, b, b.execution, attempt, ev).ok
    ensures var t, item := SealTest(s, b, b.execution, attempt, ev).store, s.executions[b.execution].item;
            var passed, repair := Tested(b, attempt, ev), TestWorthRepair(s, item, b, attempt, ev);
            && b.execution in t.outcomes && t.outcomes[b.execution] ==
                 Sealed(item, Test, if passed then Succeeded else FailedAs(attempt), repair, !passed)
            && item in t.items
            && t.items[item].status == (if passed then Verifying else if repair then Executing else ItemBlocked)
            && (item in t.chains <==> passed || repair) && t.changeSets == s.changeSets
  {
    var e, item := b.execution, s.executions[b.execution].item;
    var passed, repair := TestPassed(b, attempt, ev), TestCorrectable(s, item, b, attempt, ev);
    PassedIsTested(b, attempt, ev);
    CorrectableIsWorthRepair(s, item, b, attempt, ev);
    FailureIs(attempt);
    hide TestPassed, TestCorrectable, Tested, TestWorthRepair, FailureStatus, FailedAs;
    var status := if passed then Verifying else if repair then Executing else ItemBlocked;
    UpdateItemKeeps(s, item, status);
    UpdateItemOnly(s, item, status);
    SealAdds(s, UpdateItem(s, item, status).store, e,
             Sealed(item, Test, if passed then Succeeded else FailureStatus(attempt), repair, !passed), true, passed);
    hide UpdateItem, Seal, SealsOnly, SameRecords;
  }

  lemma UpdateItemOnly(s: Store, item: ItemId, status: ItemStatus)
    ensures var t := UpdateItem(s, item, status).store; t == s.(items := t.items)
  {
  }

  /** What a completed seal of a Verify leaves behind; the ChangeSets change only for a verified change. */
  lemma VerifyRecord(s: Store, b: Binding, attempt: Attempt, ev: Evidence)
    requires Carries(s, b) && SealVerify(s, b, b.execution, attempt, ev).ok
    ensures var t, item := SealVerify(s, b, b.execution, attempt, ev).store, s.executions[b.execution].item;
            var passed, repair := Verified(s, item, attempt, ev), VerifyWorthRepair(s, item, b, attempt, ev);
            && b.execution in t.outcomes && t.outcomes[b.execution] ==
                 Sealed(item, Verify, if passed then Succeeded else FailedAs(attempt), repair, !passed)
            && item in t.items
            && t.items[item].status == (if passed then AwaitingApproval else if repair then Executing else ItemBlocked)
            && (item in t.chains <==> repair) && (t.changeSets != s.changeSets ==> passed)
  {
    var e, item := b.execution, s.executions[b.execution].item;
    var passed, repair := VerifyPassed(s, item, attempt, ev), VerifyCorrectable(s, item, b, attempt, ev);
    assert repair ==> !passed;
    PassedIsVerified(s, item, attempt, ev);
    CorrectableIsVerifyWorthRepair(s, item, b, attempt, ev);
    FailureIs(attempt);
    hide VerifyPassed, VerifyCorrectable, Verified, VerifyWorthRepair, FailureStatus, FailedAs;
    var sealed := Sealed(item, Verify, if passed then Succeeded else FailureStatus(attempt), repair, !passed);
    SealAdds(s, s, e, sealed, true, passed);
    var e1 := Seal(s, e, sealed, true);
    DeriveKeeps(e1.store, item, e, ev);
    var f := if passed then DeriveChangeSet(e1.store, item, e, ev) else e1;
    var status := if passed then AwaitingApproval else if repair then Executing else ItemBlocked;
    UpdateItemKeeps(f.store, item, status);
    UpdateItemOnly(f.store, item, status);
    hide DeriveChangeSet, Seal, SealsOnly, UpdateItem, SameRecords;
  }

  /** However far the seal of a Verify gets, a ChangeSet is added or replaced only for a verified change. */
  lemma OnlyVerifiedDerives(s: Store, b: Binding, e: ExecId, attempt: Attempt, ev: Evidence)
    requires e in s.executions && SealVerify(s, b, e, attempt, ev).store.changeSets != s.changeSets
    ensures Verified(s, s.executions[e].item, attempt, ev)
  {
    var item := s.executions[e].item;
    var passed, repair := VerifyPassed(s, item, attempt, ev), VerifyCorrectable(s, item, b, attempt, ev);
    PassedIsVerified(s, item, attempt, ev);
    hide VerifyPassed, VerifyCorrectable, Verified;
    var sealed := Sealed(item, Verify, if passed then Succeeded else FailureStatus(attempt), repair, !passed);
    SealAdds(s, s, e, sealed, true, passed || FailureStatus(attempt) == Succeeded);
    UpdateItemOnly(Seal(s, e, sealed, true).store, item, if repair then Executing else ItemBlocked);
    hide DeriveChangeSet, Seal, SealsOnly, UpdateItem, SameRecords;
  }

  /**
    What a completed seal of a diagnosis leaves behind: it succeeds for a repairable kind, is blocked for
    another known one, and replaces no outcome.
   */
  lemma DiagnosisRecord(s: Store, b: Binding, attempt: Attempt, ev: Evidence)
    requires Carries(s, b) && SealDiagnosis(s, b, b.execution, attempt, ev).ok
    ensures var t, item := SealDiagnosis(s, b, b.execution, attempt, ev).store, s.executions[b.execution].item;
            var valid := Diagnosed(attempt, ev, b.catalog, KNOWN_KINDS);
            var repair := Diagnosed(attempt, ev, b.catalog, REPAIRABLE_KINDS);
            && b.execution in t.outcomes && t.outcomes[b.execution] ==
                 Sealed(item, Test, if repair then Succeeded else if valid then Blocked else FailedAs(attempt),
                        repair, !valid)
            && item in t.items && t.items[item].status == (if repair then Executing else ItemBlocked)
            && (item in t.chains <==> repair) && t.effective == s.effective && t.changeSets == s.changeSets
            && (exists failed :: b.diagnosisOf == Some(failed) && failed in s.outcomes
                  && s.outcomes[failed].item == item && s.outcomes[failed].stage == Test
                  && s.outcomes[failed].status == StageFailed)
            && forall e | e in s.outcomes :: e in t.outcomes && t.outcomes[e] == s.outcomes[e]
  {
    ValidIsDiagnosed(attempt, ev, b.catalog);
    FailureIs(attempt);
    assert b.diagnosisOf == Some(b.diagnosisOf.value);
    hide DiagnosisValid, Repairable, Diagnosed, FailureStatus, FailedAs;
  }

  /** A stage without a finalizer is blocked if the attempt completed, and the WorkItem is blocked either way. */
  lemma OtherRecord(s: Store, e: ExecId, attempt: Attempt)
    requires e in s.executions && SealUnimplemented(s, e, attempt).ok
    ensures var t, x := SealUnimplemented(s, e, attempt).store, s.executions[e];
            && e in t.outcomes && t.outcomes[e] ==
                 Sealed(x.item, x.stage, if attempt.status == "completed" then Blocked else FailedAs(attempt), false,
                        false)
            && x.item in t.items && t.items[x.item].status == ItemBlocked
            && t.chains == s.chains && t.changeSets == s.changeSets
  {
    FailureIs(attempt);
    hide FailureStatus, FailedAs;
  }

  lemma UnofferedStops(s: Store, id: RunId, b: Binding, attempt: Attempt, ev: Evidence)
    requires Carries(s, b) && ChainStage(s.executions[b.execution].stage)
    requires SealStage(s, id, b, attempt, ev).ok
    requires var t := SealStage(s, id, b, attempt, ev).store;
             b.execution in t.outcomes && t.outcomes[b.execution].status != Succeeded && !t.outcomes[b.execution].repair
    ensures s.executions[b.execution].item !in SealStage(s, id, b, attempt, ev).store.chains
  {
    hide SealTest, SealVerify, SealDiagnosis, BuildValid;
    match s.executions[b.execution].stage
    case Implement =>
    case Test =>
      if b.testDiagnosis { DiagnosisSealing(s, b, attempt, ev); } else { TestSealing(s, b, attempt, ev); }
    case Verify =>
      VerifySealing(s, b, attempt, ev);
  }

  /** Some command ran and did not exit with zero. */
  predicate SomeFailure(ev: Evidence) {
    exists result | result in ev.results :: result.exitCode != Some(0)
  }

  /** The Run was brought to its end as the attempt reported, and its stage has just been sealed. */
  ghost predicate SealedAs(s: Store, t: Store, id: RunId, b: Binding, attempt: Attempt, ev: Evidence) {
    && Pending(s, id, b) && TerminalText(attempt.status) && s.runs[id].status == StatusOf(attempt.status)
    && SealStage(s, id, b, attempt, ev) == Effect(t, true)
    && b.execution in t.outcomes && t.outcomes[b.execution].repair
  }

  lemma SameCount(s: Store, t: Store, item: ItemId)
    requires t.executions == s.executions
    ensures ImplementCount(t, item) == ImplementCount(s, item)
  {
  }

  /**
    A repair offered by a Test is taken up exactly when the feature is on, the Run completed and
    some command reported a nonzero exit; otherwise the WorkItem keeps waiting with its
    authorization active and nothing to run.
   */
  lemma TestOfferTaken(s: Store, t: Store, id: RunId, b: Binding, cfg: Config, attempt: Attempt, ev: Evidence)
    requires SealedAs(s, t, id, b, attempt, ev) && b.stage == Some(Test) && !b.testDiagnosis
    ensures id in t.runs
    ensures NextStage(t, cfg, id, ev).Start? <==> cfg.reliabilityV2 && attempt.status == "completed" && SomeFailure(ev)
  {
    var item := s.executions[b.execution].item;
    SealStageSealsOnly(s, id, b, attempt, ev);
    TestSealing(s, b, attempt, ev);
    SameCount(s, t, item);
    assert SealStage(s, id, b, attempt, ev) == SealTest(s, b, b.execution, attempt, ev);
    hide SealTest, SealStage, TestPassed, ImplementCount;
  }

  lemma VerifyOfferTaken(s: Store, t: Store, id: RunId, b: Binding, cfg: Config, attempt: Attempt, ev: Evidence)
    requires SealedAs(s, t, id, b, attempt, ev) && b.stage == Some(Verify) && !b.testDiagnosis
    ensures id in t.runs
    ensures NextStage(t, cfg, id, ev).Start? <==> cfg.reliabilityV2
  {
    var item := s.executions[b.execution].item;
    SealStageSealsOnly(s, id, b, attempt, ev);
    VerifySealing(s, b, attempt, ev);
    SameCount(s, t, item);
    assert SealStage(s, id, b, attempt, ev) == SealVerify(s, b, b.execution, attempt, ev);
    hide SealVerify, SealStage, VerifyPassed, ImplementCount;
  }

  /** A Test whose only command exited with zero without being reported as passed, about to be sealed. */
  function VainStore(b: Binding): Store {
    Store(map["r" := Run(Completed, None, Consumption(1, 1, 0, 0, 0, 0), Some(b), Some("w"), false)],
          map["i" := Execution("w", Implement, None), "t" := Execution("w", Test, Some("r"))], map[], map[],
          map["w" := Item(Verifying, false)], map["w" := "c"], map[], map[])
  }

  function VainBinding(): Binding {
    Binding("t", Some(Test), Some("c"), true, false, None, true, ["make test"], [])
  }

  function VainAttempt(): Attempt {
    Attempt("completed", Consumption(1, 1, 0, 0, 0, 0), None)
  }

  const VAIN_RESULT := TestResult(Some("make test"), false, Some(0))
  const VAIN_EVIDENCE :=
    Evidence(true, true, true, [], [], true, "", [VAIN_RESULT], false, None, Absent, Absent, None, None)

  lemma VainOffer(b: Binding, attempt: Attempt)
    requires b == VainBinding() && attempt.status == "completed"
    ensures TestCorrectable(VainStore(b), "w", b, attempt, VAIN_EVIDENCE) && !SomeFailure(VAIN_EVIDENCE)
  {
    var s := VainStore(b);
    assert (set e | e in s.executions && s.executions[e].item == "w" && s.executions[e].stage == Implement) == {"i"};
    assert "make test" in b.selected && !Passed(VAIN_RESULT, "make test");
    assert VAIN_RESULT in VAIN_EVIDENCE.results;
    assert !ExactResults(b.selected, VAIN_EVIDENCE.results);
  }

  lemma VainSeal(b: Binding, attempt: Attempt)
    requires b == VainBinding() && attempt.status == "completed"
    ensures Pending(VainStore(b), "r", b) && SealTest(VainStore(b), b, "t", attempt, VAIN_EVIDENCE).ok
  {
    hide TestPassed, TestCorrectable;
  }

  /** A completed Test has just been sealed with an offer of repair, the feature is on, and nothing is started. */
  ghost predicate InVain(s: Store, t: Store, id: RunId, b: Binding, cfg: Config, attempt: Attempt, ev: Evidence) {
    && SealedAs(s, t, id, b, attempt, ev) && b.stage == Some(Test) && !b.testDiagnosis
    && attempt.status == "completed" && cfg.reliabilityV2
    && s.executions[b.execution].item in t.chains && id in t.runs && !NextStage(t, cfg, id, ev).Start?
  }

  lemma UnfailedOfferIsVain(s: Store, t: Store, id: RunId, b: Binding, cfg: Config, attempt: Attempt, ev: Evidence)
    requires SealedAs(s, t, id, b, attempt, ev) && b.stage == Some(Test) && !b.testDiagnosis
    requires attempt.status == "completed" && cfg.reliabilityV2 && !SomeFailure(ev)
    ensures InVain(s, t, id, b, cfg, attempt, ev)
  {
    TestOfferTaken(s, t, id, b, cfg, attempt, ev);
    assert SealStage(s, id, b, attempt, ev) == SealTest(s, b, b.execution, attempt, ev);
    TestSealing(s, b, attempt, ev);
    hide SealTest, SealStage, TestPassed, TestCorrectable, NextStage, SomeFailure;
  }

  lemma VainIsSealed(b: Binding, attempt: Attempt)
    requires b == VainBinding() && attempt.status == "completed"
    ensures var s := VainStore(b);
            && b.execution in s.executions && !SomeFailure(VAIN_EVIDENCE)
            && SealedAs(s, SealStage(s, "r", b, attempt, VAIN_EVIDENCE).store, "r", b, attempt, VAIN_EVIDENCE)
  {
    var s := VainStore(b);
    VainOffer(b, attempt);
    VainSeal(b, attempt);
    TestSealing(s, b, attempt, VAIN_EVIDENCE);
    hide SealTest, TestCorrectable, TestPassed, SomeFailure;
  }

  lemma VainStarts(s: Store, t: Store, cfg: Config)
    requires s == VainStore(VainBinding()) && cfg.reliabilityV2
    requires t == SealStage(s, "r", VainBinding(), VainAttempt(), VAIN_EVIDENCE).store
    ensures InVain(s, t, "r", VainBinding(), cfg, VainAttempt(), VAIN_EVIDENCE)
  {
    VainIsSealed(VainBinding(), VainAttempt());
    hide SealedAs, SealStage, SomeFailure, VainStore, InVain;
    UnfailedOfferIsVain(s, t, "r", VainBinding(), cfg, VainAttempt(), VAIN_EVIDENCE);
  }

  lemma VainExecution()
    ensures VainBinding().execution in VainStore(VainBinding()).executions
  {
  }

  /** There is such a Test: its only command exited with zero but was not reported as passed. */
  lemma OfferInVain()
    ensures exists s: Store, t: Store, id: RunId, b: Binding, cfg: Config, attempt: Attempt, ev: Evidence ::
              InVain(s, t, id, b, cfg, attempt, ev)
  {
    hide SealStage, VainStore, InVain, VainBinding, VainAttempt;
    VainExecution();
    var s := VainStore(VainBinding());
    VainStarts(s, SealStage(s, "r", VainBinding(), VainAttempt(), VAIN_EVIDENCE).store,
               Config(true, false, false, false));
  }

  // ------------------------------------------------------------------ exact acceptance results

  ghost predicate Distinct<T(!new)>(s: seq<T>) {
    forall i, j | 0 <= i < j < |s| :: s[i] != s[j]
  }

  lemma {:induction false} InjectionOnto(n: nat, f: seq<nat>)
    requires |f| == n && Distinct(f) && (forall i | 0 <= i < n :: f[i] < n)
    ensures forall k: nat | k < n :: k in f
    decreases n
  {
    if n > 0 {
      // Exchange the image of the last position with the largest value, and drop both.
      var last := f[n - 1];
      var g := seq(n - 1, i requires 0 <= i < n - 1 => if f[i] == n - 1 then last else f[i]);
      forall i | 0 <= i < n - 1
        ensures g[i] < n - 1
      {
        assert f[i] != last;
      }
      forall i, j | 0 <= i < j < n - 1
        ensures g[i] != g[j]
      {
        assert f[i] != f[j] && f[i] != last && f[j] != last;
      }
      InjectionOnto(n - 1, g);
      forall k: nat | k < n
        ensures k in f
      {
        if k == last {
          assert f[n - 1] == k;
        } else if k == n - 1 {
          assert last in g;
          var i :| 0 <= i < n - 1 && g[i] == last;
          assert f[i] == n - 1;
        } else {
          assert k in g;
        }
      }
    }
  }

  /**
    With distinct selected commands, exact results are one-to-one with them: every recorded result
    is a passing run of a selected command, and no command is reported twice.
   */
  lemma ExactIsOneToOne(selected: seq<string>, results: seq<TestResult>)
    requires Distinct(selected) && ExactResults(selected, results)
    ensures forall j | 0 <= j < |results| ::
              results[j].command.Some? && results[j].command.value in selected
              && results[j].ok && results[j].exitCode == Some(0)
    ensures forall i, j | 0 <= i < j < |results| :: results[i].command != results[j].command
  {
    var n := |selected|;
    var f := Witnesses(selected, results, n);
    forall i, j | 0 <= i < j < n
      ensures f[i] != f[j]
    {
      assert selected[i] != selected[j];
    }
    InjectionOnto(n, f);
    forall j: nat | j < |results|
      ensures j in f
      ensures results[j].command.Some? && results[j].command.value in selected
              && results[j].ok && results[j].exitCode == Some(0)
    {
      assert j in f;
      var i :| 0 <= i < n && f[i] == j;
      assert Passed(results[f[i]], selected[i]);
    }
    forall i: nat, j: nat | 0 <= i < j < |results|
      ensures results[i].command != results[j].command
    {
      assert i in f && j in f;
      var a :| 0 <= a < n && f[a] == i;
      var b :| 0 <= b < n && f[b] == j;
      assert selected[a] != selected[b];
    }
  }

  lemma Witnesses(selected: seq<string>, results: seq<TestResult>, n: nat) returns (f: seq<nat>)
    requires n <= |selected| && ExactResults(selected, results)
    ensures |f| == n && forall i | 0 <= i < n :: f[i] < |results| && Passed(results[f[i]], selected[i])
  {
    f := [];
    while |f| < n
      invariant |f| <= n
      invariant forall i | 0 <= i < |f| :: f[i] < |results| && Passed(results[f[i]], selected[i])
    {
      var command := selected[|f|];
      assert command in selected;
      var result :| result in results && Passed(result, command);
      var k :| 0 <= k < |results| && results[k] == result;
      f := f + [k];
    }
  }
}
