/**
  A process may stop between any two writes of a seal. A hosted Run is then normalized again from
  what is stored, and ends with exactly the store an undisturbed seal would have left.
 */
module Recovery {
  import opened Wrappers
  import opened WorkStore
  import opened StageSeals
  import opened Finalization
  import opened ChangeSets

  /** Every ChangeSet was derived from a verification that is sealed. */
  ghost predicate Rooted(s: Store) {
    forall plan | plan in s.changeSets :: s.changeSets[plan].material.verification in s.outcomes
  }

  /** The Run and the target of a stage that is about to be sealed. */
  ghost predicate Open(s: Store, id: RunId, b: Binding, attempt: Attempt, ev: Evidence) {
    && id in s.runs && s.runs[id].binding == Some(b)
    && b.execution in s.executions && s.executions[b.execution].run == Some(id)
    && b.stage == Some(s.executions[b.execution].stage)
    && b.execution !in s.outcomes && TerminalText(attempt.status) && ev.retrievalsAccepted
  }

  // ------------------------------------------------------------------ the stores a seal passes through

  function PlanWrites(s: Store, run: RunId, e: ExecId, attempt: Attempt, ev: Evidence): seq<Store>
    requires e in s.executions
  {
    var item, verdict := s.executions[e].item, PlanVerdict(attempt, ev);
    var planned := RecordPlan(s, item, run, attempt, ev);
    [s, planned, UpdateItem(planned, item, if verdict == Succeeded then AwaitingApproval else ItemBlocked).store,
     SealPlan(s, run, e, attempt, ev).store]
  }

  function ImplementSeal(s: Store, e: ExecId, attempt: Attempt, ev: Evidence): Sealed
    requires e in s.executions
  {
    var valid := BuildValid(attempt, ev);
    Sealed(s.executions[e].item, Implement, if valid then Succeeded else FailureStatus(attempt), false, !valid)
  }

  function ImplementWrites(s: Store, b: Binding, e: ExecId, attempt: Attempt, ev: Evidence): seq<Store>
    requires e in s.executions
  {
    var status := if BuildValid(attempt, ev) then Verifying else ItemBlocked;
    var updated := UpdateItem(s, s.executions[e].item, status).store;
    [s, updated, Seal(updated, e, ImplementSeal(s, e, attempt, ev), true).store,
     SealImplement(s, b, e, attempt, ev).store]
  }

  function TestSeal(s: Store, b: Binding, e: ExecId, attempt: Attempt, ev: Evidence): Sealed
    requires e in s.executions
  {
    var item, passed := s.executions[e].item, TestPassed(b, attempt, ev);
    var verdict := if passed then Succeeded else FailureStatus(attempt);
    Sealed(item, Test, verdict, TestCorrectable(s, item, b, attempt, ev), !passed)
  }

  function TestWrites(s: Store, b: Binding, e: ExecId, attempt: Attempt, ev: Evidence): seq<Store>
    requires e in s.executions
  {
    var item, sealed := s.executions[e].item, TestSeal(s, b, e, attempt, ev);
    var status := if TestPassed(b, attempt, ev) then Verifying else if sealed.repair then Executing else ItemBlocked;
    var updated := UpdateItem(s, item, status).store;
    [s, updated, Seal(updated, e, sealed, true).store, SealTest(s, b, e, attempt, ev).store]
  }

  function DiagnosisSeal(s: Store, b: Binding, e: ExecId, attempt: Attempt, ev: Evidence): Sealed
    requires e in s.executions
  {
    var completed := attempt.status == "completed";
    var valid := DiagnosisValid(ev.diagnosis, b.catalog, completed);
    var repair := Repairable(ev.diagnosis, b.catalog, completed);
    var verdict := if repair then Succeeded else if valid then Blocked else FailureStatus(attempt);
    Sealed(s.executions[e].item, Test, verdict, repair, !valid)
  }

  function DiagnosisWrites(s: Store, b: Binding, e: ExecId, attempt: Attempt, ev: Evidence): seq<Store>
    requires e in s.executions
  {
    var item, sealed := s.executions[e].item, DiagnosisSeal(s, b, e, attempt, ev);
    var written := Seal(s, e, sealed, false).store;
    [s, written, UpdateItem(written, item, if sealed.repair then Executing else ItemBlocked).store,
     SealDiagnosis(s, b, e, attempt, ev).store]
  }

  function VerifySeal(s: Store, b: Binding, e: ExecId, attempt: Attempt, ev: Evidence): Sealed
    requires e in s.executions
  {
    var item := s.executions[e].item;
    var passed := VerifyPassed(s, item, attempt, ev);
    var verdict := if passed then Succeeded else FailureStatus(attempt);
    Sealed(item, Verify, verdict, VerifyCorrectable(s, item, b, attempt, ev), !passed)
  }

  function VerifyWrites(s: Store, b: Binding, e: ExecId, attempt: Attempt, ev: Evidence): seq<Store>
    requires e in s.executions
  {
    var item, sealed := s.executions[e].item, VerifySeal(s, b, e, attempt, ev);
    var written := Seal(s, e, sealed, true).store;
    var derived := if !sealed.contradicted then DeriveChangeSet(written, item, e, ev).store else written;
    var status := if !sealed.contradicted then AwaitingApproval else if sealed.repair then Executing else ItemBlocked;
    [s, written, derived, UpdateItem(derived, item, status).store, SealVerify(s, b, e, attempt, ev).store]
  }

  function OtherWrites(s: Store, e: ExecId, attempt: Attempt): seq<Store>
    requires e in s.executions
  {
    [s, UpdateItem(s, s.executions[e].item, ItemBlocked).store, SealUnimplemented(s, e, attempt).store]
  }

  /** The store before the seal, after each of its writes, and at its end. */
  function Writes(s: Store, id: RunId, b: Binding, attempt: Attempt, ev: Evidence): seq<Store>
    requires b.execution in s.executions
  {
    var e := b.execution;
    match s.executions[e].stage
    case Plan => PlanWrites(s, id, e, attempt, ev)
    case Implement => ImplementWrites(s, b, e, attempt, ev)
    case Test => if b.testDiagnosis then DiagnosisWrites(s, b, e, attempt, ev) else TestWrites(s, b, e, attempt, ev)
    case Verify => VerifyWrites(s, b, e, attempt, ev)
    case Other(_) => OtherWrites(s, e, attempt)
  }

  // ------------------------------------------------------------------ writing again

  lemma UpdateAgain(s: Store, item: ItemId, status: ItemStatus)
    requires UpdateItem(s, item, status).ok
    ensures var t := UpdateItem(s, item, status).store;
            && UpdateItem(t, item, status) == Effect(t, true)
            && SetItemIfNeeded(t, item, status) == Effect(t, true)
            && SetItemIfNeeded(s, item, status) == Effect(t, true)
            && t == s.(items := t.items)
  {
    var t := UpdateItem(s, item, status).store;
    if s.items[item].status == status {
      assert t.items == s.items;
    }
    assert UpdateItem(t, item, status).store.items == t.items;
  }

  lemma RevokeAgain(s: Store, chain: Option<ChainId>)
    ensures Revoke(Revoke(s, chain), chain) == Revoke(s, chain)
    ensures Revoke(s, chain) == s.(chains := Revoke(s, chain).chains)
  {
    var t := Revoke(s, chain);
    assert Revoke(t, chain).chains == t.chains;
  }

  lemma SealWrites(s: Store, e: ExecId, sealed: Sealed, isEffective: bool)
    requires Seal(s, e, sealed, isEffective).ok
    ensures var t := Seal(s, e, sealed, isEffective).store;
            && e in s.executions && e !in s.outcomes
            && sealed.item == s.executions[e].item && sealed.stage == s.executions[e].stage
            && t == s.(outcomes := s.outcomes[e := sealed], effective := t.effective)
            && e in t.outcomes && t.outcomes[e] == sealed
            && (isEffective ==>
                (sealed.item, sealed.stage) in t.effective && t.effective[(sealed.item, sealed.stage)] == e)
  {
  }

  /** Continues from a stored state, as the finalizer does when it is called again. */
  function Resume(u: Store, run: Run, id: RunId, b: Binding, attempt: Attempt, ev: Evidence): Effect
    requires b.execution in u.executions
  {
    if b.execution in u.outcomes then FinishSealed(u, run, b, b.execution, ev) else SealStage(u, id, b, attempt, ev)
  }

  lemma SamePlanSeal(s: Store, u: Store, run: RunId, e: ExecId, attempt: Attempt, ev: Evidence)
    requires e in s.executions && u.executions == s.executions
    requires var item := s.executions[e].item;
             var status := if PlanVerdict(attempt, ev) == Succeeded then AwaitingApproval else ItemBlocked;
             UpdateItem(RecordPlan(u, item, run, attempt, ev), item, status) ==
             UpdateItem(RecordPlan(s, item, run, attempt, ev), item, status)
    ensures SealPlan(u, run, e, attempt, ev) == SealPlan(s, run, e, attempt, ev)
  {
    hide UpdateItem, RecordPlan, Seal, PlanVerdict;
  }

  lemma SealedPlanResumes(s: Store, run: Run, id: RunId, b: Binding, attempt: Attempt, ev: Evidence)
    requires b.execution in s.executions && s.executions[b.execution].stage == Plan && b.execution !in s.outcomes
    requires SealPlan(s, id, b.execution, attempt, ev).ok
    ensures var f := SealPlan(s, id, b.execution, attempt, ev);
            b.execution in f.store.executions && Resume(f.store, run, id, b, attempt, ev) == f
  {
    var e, item, verdict := b.execution, s.executions[b.execution].item, PlanVerdict(attempt, ev);
    var t := RecordPlan(s, item, id, attempt, ev);
    var updated := UpdateItem(t, item, if verdict == Succeeded then AwaitingApproval else ItemBlocked).store;
    UpdateItemKeeps(t, item, if verdict == Succeeded then AwaitingApproval else ItemBlocked);
    SealWrites(updated, e, Sealed(item, Plan, verdict, false, false), true);
    hide UpdateItem, RecordPlan, Seal, PlanVerdict;
  }

  lemma UnsealedPlanResumes(s: Store, id: RunId, e: ExecId, attempt: Attempt, ev: Evidence, u: Store)
    requires e in s.executions && SealPlan(s, id, e, attempt, ev).ok
    requires u in PlanWrites(s, id, e, attempt, ev)[..3]
    ensures u.executions == s.executions && u.outcomes == s.outcomes
    ensures SealPlan(u, id, e, attempt, ev) == SealPlan(s, id, e, attempt, ev)
  {
    var item, verdict := s.executions[e].item, PlanVerdict(attempt, ev);
    var planned := RecordPlan(s, item, id, attempt, ev);
    var status := if verdict == Succeeded then AwaitingApproval else ItemBlocked;
    var updated := UpdateItem(planned, item, status).store;
    assert UpdateItem(planned, item, status).ok;
    PlanAgain(s, item, id, attempt, ev);
    hide Seal, PlanVerdict;
    UpdateAgain(planned, item, status);
    PlanKeepsItems(updated, planned, item, id, attempt, ev);
    hide UpdateItem, RecordPlan, SealPlan;
    if u == updated {
      SamePlanSeal(s, updated, id, e, attempt, ev);
    } else if u == planned {
      SamePlanSeal(s, planned, id, e, attempt, ev);
    }
  }

  lemma PlanResumes(s: Store, run: Run, id: RunId, b: Binding, attempt: Attempt, ev: Evidence, u: Store)
    requires b.execution in s.executions && s.executions[b.execution].stage == Plan && b.execution !in s.outcomes
    requires SealStage(s, id, b, attempt, ev).ok && u in Writes(s, id, b, attempt, ev)
    ensures b.execution in u.executions && Resume(u, run, id, b, attempt, ev) == SealStage(s, id, b, attempt, ev)
  {
    SealedPlanResumes(s, run, id, b, attempt, ev);
    hide SealPlan, FinishSealed;
    if u in PlanWrites(s, id, b.execution, attempt, ev)[..3] {
      UnsealedPlanResumes(s, id, b.execution, attempt, ev, u);
    } else {
      assert u == PlanWrites(s, id, b.execution, attempt, ev)[3];
    }
    hide PlanWrites;
  }

  /** The WorkPlan a valid submission leaves behind. */
  function NewPlan(s: Store, item: ItemId, run: RunId, document: string): WorkPlan {
    if item !in s.plans then WorkPlan("wplan_" + run, 1, run, document)
    else if s.plans[item].run == run && s.plans[item].document == document then s.plans[item]
    else s.plans[item].(revision := s.plans[item].revision + 1, run := run, document := document)
  }

  lemma PlanIs(s: Store, item: ItemId, run: RunId, attempt: Attempt, ev: Evidence)
    ensures RecordPlan(s, item, run, attempt, ev) ==
            if attempt.status == "completed" && ev.plan.Some? && ev.plan.value.valid
            then s.(plans := s.plans[item := NewPlan(s, item, run, ev.plan.value.document)]) else s
  {
    if item in s.plans {
      assert s.plans[item := s.plans[item]] == s.plans;
    }
  }

  lemma PlanAgain(s: Store, item: ItemId, run: RunId, attempt: Attempt, ev: Evidence)
    ensures var t := RecordPlan(s, item, run, attempt, ev);
            && RecordPlan(t, item, run, attempt, ev) == t
            && t == s.(plans := t.plans)
  {
    var t := RecordPlan(s, item, run, attempt, ev);
    PlanIs(s, item, run, attempt, ev);
    PlanIs(t, item, run, attempt, ev);
    hide RecordPlan;
    if attempt.status == "completed" && ev.plan.Some? && ev.plan.value.valid {
      assert NewPlan(t, item, run, ev.plan.value.document) == t.plans[item];
      assert t.plans[item := t.plans[item]] == t.plans;
    }
  }

  lemma PlanKeepsItems(u: Store, planned: Store, item: ItemId, run: RunId, attempt: Attempt, ev: Evidence)
    requires u == planned.(items := u.items) && RecordPlan(planned, item, run, attempt, ev) == planned
    ensures RecordPlan(u, item, run, attempt, ev) == u
  {
  }

  lemma ImplementResumes(s: Store, run: Run, id: RunId, b: Binding, attempt: Attempt, ev: Evidence, u: Store)
    requires b.execution in s.executions && s.executions[b.execution].stage == Implement && b.execution !in s.outcomes
    requires SealStage(s, id, b, attempt, ev).ok && u in Writes(s, id, b, attempt, ev)
    requires run.hosted || b.execution !in u.outcomes
    ensures b.execution in u.executions && Resume(u, run, id, b, attempt, ev) == SealStage(s, id, b, attempt, ev)
  {
    var e, item, valid := b.execution, s.executions[b.execution].item, BuildValid(attempt, ev);
    var status := if valid then Verifying else ItemBlocked;
    UpdateAgain(s, item, status);
    var updated := UpdateItem(s, item, status).store;
    SealWrites(updated, e, ImplementSeal(s, e, attempt, ev), true);
    RevokeAgain(Seal(updated, e, ImplementSeal(s, e, attempt, ev), true).store, b.chain);
    hide UpdateItem, Seal, Revoke, BuildValid;
  }

  function TestStatus(b: Binding, attempt: Attempt, ev: Evidence, sealed: Sealed): ItemStatus {
    if TestPassed(b, attempt, ev) then Verifying else if sealed.repair then Executing else ItemBlocked
  }

  lemma TestIs(s: Store, b: Binding, e: ExecId, attempt: Attempt, ev: Evidence)
    requires e in s.executions
    ensures var sealed := TestSeal(s, b, e, attempt, ev);
            var updated := UpdateItem(s, sealed.item, TestStatus(b, attempt, ev, sealed));
            var f := Seal(updated.store, e, sealed, true);
            && (sealed.status == Succeeded <==> TestPassed(b, attempt, ev))
            && SealTest(s, b, e, attempt, ev) ==
               (if !updated.ok then updated
                else if !f.ok || sealed.status == Succeeded || sealed.repair then f
                else Effect(Revoke(f.store, b.chain), true))
            && TestWrites(s, b, e, attempt, ev) == [s, updated.store, f.store, SealTest(s, b, e, attempt, ev).store]
  {
    assert FailureStatus(attempt) != Succeeded;
    hide UpdateItem, Seal, Revoke, TestPassed, TestCorrectable, FailureStatus;
  }

  lemma FinishTestFrom(u: Store, b: Binding, e: ExecId, sealed: Sealed)
    requires e in u.outcomes && u.outcomes[e] == sealed && !b.testDiagnosis
    ensures FinishTest(u, b, e) ==
            Effect(if sealed.status == Succeeded || sealed.repair then u else Revoke(u, b.chain), true)
  {
    hide Revoke;
  }

  lemma TestJudgedAgain(s: Store, u: Store, b: Binding, e: ExecId, attempt: Attempt, ev: Evidence)
    requires e in s.executions && u == s.(items := u.items)
    ensures TestSeal(u, b, e, attempt, ev) == TestSeal(s, b, e, attempt, ev)
  {
    assert ImplementCount(u, s.executions[e].item) == ImplementCount(s, s.executions[e].item);
    hide TestPassed, ImplementCount, FailureStatus;
  }

  lemma TestResumes(s: Store, run: Run, id: RunId, b: Binding, attempt: Attempt, ev: Evidence, u: Store)
    requires b.execution in s.executions && s.executions[b.execution].stage == Test && b.execution !in s.outcomes
    requires !b.testDiagnosis
    requires SealStage(s, id, b, attempt, ev).ok && u in Writes(s, id, b, attempt, ev)
    requires run.hosted || b.execution !in u.outcomes
    ensures b.execution in u.executions && Resume(u, run, id, b, attempt, ev) == SealStage(s, id, b, attempt, ev)
  {
    var e, sealed := b.execution, TestSeal(s, b, b.execution, attempt, ev);
    assert sealed.item == s.executions[e].item && sealed.stage == Test;
    var status := TestStatus(b, attempt, ev, sealed);
    TestIs(s, b, e, attempt, ev);
    UpdateAgain(s, sealed.item, status);
    var updated := UpdateItem(s, sealed.item, status).store;
    TestJudgedAgain(s, updated, b, e, attempt, ev);
    TestIs(updated, b, e, attempt, ev);
    hide UpdateItem, SealTest, TestSeal, TestStatus, TestWrites, FinishTest;
    SealWrites(updated, e, sealed, true);
    var written := Seal(updated, e, sealed, true).store;
    hide Seal;
    RevokeAgain(written, b.chain);
    hide Revoke;
    FinishTestFrom(written, b, e, sealed);
    FinishTestFrom(Revoke(written, b.chain), b, e, sealed);
  }

  /** The store after a diagnosis was sealed and its WorkItem moved. */
  function Moved(s: Store, e: ExecId, sealed: Sealed): Effect {
    UpdateItem(Seal(s, e, sealed, false).store, sealed.item, if sealed.repair then Executing else ItemBlocked)
  }

  lemma DiagnosisIs(s: Store, b: Binding, e: ExecId, attempt: Attempt, ev: Evidence)
    requires e in s.executions && SealDiagnosis(s, b, e, attempt, ev).ok
    ensures var sealed := DiagnosisSeal(s, b, e, attempt, ev);
            && Seal(s, e, sealed, false).ok && Moved(s, e, sealed).ok
            && (sealed.status == Succeeded <==> sealed.repair)
            && SealDiagnosis(s, b, e, attempt, ev)
               == Effect(if sealed.repair then Moved(s, e, sealed).store
                         else Revoke(Moved(s, e, sealed).store, b.chain), true)
  {
    hide Seal, UpdateItem, Revoke, DiagnosisValid, Repairable;
  }

  lemma FinishDiagnosisFrom(u: Store, b: Binding, e: ExecId, sealed: Sealed, v: Store)
    requires e in u.outcomes && u.outcomes[e] == sealed && b.testDiagnosis
    requires SetItemIfNeeded(u, sealed.item, if sealed.repair then Executing else ItemBlocked) == Effect(v, true)
    requires sealed.status == Succeeded <==> sealed.repair
    ensures FinishTest(u, b, e) == Effect(if sealed.repair then v else Revoke(v, b.chain), true)
  {
    hide SetItemIfNeeded, Revoke;
  }

  lemma DiagnosisResumes(s: Store, run: Run, id: RunId, b: Binding, attempt: Attempt, ev: Evidence, u: Store)
    requires b.execution in s.executions && s.executions[b.execution].stage == Test && b.execution !in s.outcomes
    requires b.testDiagnosis
    requires SealStage(s, id, b, attempt, ev).ok && u in Writes(s, id, b, attempt, ev)
    requires run.hosted || b.execution !in u.outcomes
    ensures b.execution in u.executions && Resume(u, run, id, b, attempt, ev) == SealStage(s, id, b, attempt, ev)
  {
    var e, item, sealed := b.execution, s.executions[b.execution].item, DiagnosisSeal(s, b, b.execution, attempt, ev);
    var written, moved := Seal(s, e, sealed, false).store, Moved(s, e, sealed).store;
    var last := if sealed.repair then moved else Revoke(moved, b.chain);
    DiagnosisIs(s, b, e, attempt, ev);
    SealWrites(s, e, sealed, false);
    var status := if sealed.repair then Executing else ItemBlocked;
    UpdateAgain(written, item, status);
    UpdateItemKeeps(written, item, status);
    RevokeAgain(moved, b.chain);
    AfterRevoke(moved, b.chain, item, status);
    hide UpdateItem, Seal, Revoke, DiagnosisSeal, SetItemIfNeeded, SealDiagnosis, FinishTest;
    FinishDiagnosisFrom(written, b, e, sealed, moved);
    FinishDiagnosisFrom(moved, b, e, sealed, moved);
    FinishDiagnosisFrom(last, b, e, sealed, last);
    assert Writes(s, id, b, attempt, ev) == [s, written, moved, last];
  }

  lemma AfterRevoke(u: Store, chain: Option<ChainId>, item: ItemId, status: ItemStatus)
    requires SetItemIfNeeded(u, item, status) == Effect(u, true) && item in u.items && u.items[item].status == status
    ensures SetItemIfNeeded(Revoke(u, chain), item, status) == Effect(Revoke(u, chain), true)
  {
  }

  lemma OtherResumes(s: Store, run: Run, id: RunId, b: Binding, attempt: Attempt, ev: Evidence, u: Store)
    requires b.execution in s.executions && s.executions[b.execution].stage.Other? && b.execution !in s.outcomes
    requires SealStage(s, id, b, attempt, ev).ok && u in Writes(s, id, b, attempt, ev)
    ensures b.execution in u.executions && Resume(u, run, id, b, attempt, ev) == SealStage(s, id, b, attempt, ev)
  {
    var e, item, stage := b.execution, s.executions[b.execution].item, s.executions[b.execution].stage;
    UpdateAgain(s, item, ItemBlocked);
    SealWrites(UpdateItem(s, item, ItemBlocked).store, e,
               Sealed(item, stage, OtherVerdict(attempt), false, false), true);
    hide UpdateItem, Seal;
  }

  // ------------------------------------------------------------------ verify

  /** A derivation from a verification that no ChangeSet cites yet ends with a proposed one. */
  lemma DeriveProposes(w: Store, item: ItemId, e: ExecId, ev: Evidence)
    requires DeriveChangeSet(w, item, e, ev).ok
    requires forall plan | plan in w.changeSets :: w.changeSets[plan].material.verification != e
    ensures var d := DeriveChangeSet(w, item, e, ev).store;
            && d == w.(changeSets := d.changeSets)
            && item in w.plans && w.plans[item].id in d.changeSets
            && d.changeSets[w.plans[item].id].status == ChangeProposed
  {
    hide EffectiveStatus, EffectiveOutcomes, Revisable;
  }

  /** Items and authorizations play no part in a derivation. */
  lemma DeriveElsewhere(w: Store, u: Store, item: ItemId, e: ExecId, ev: Evidence)
    requires u == w.(items := u.items, chains := u.chains) && DeriveChangeSet(w, item, e, ev) == Effect(w, true)
    ensures DeriveChangeSet(u, item, e, ev) == Effect(u, true)
  {
    assert MaterialFor(u, item, e, ev) == MaterialFor(w, item, e, ev);
    hide MaterialFor, Revisable;
  }

  ghost predicate SealedVerify(u: Store, e: ExecId, sealed: Sealed) {
    && e in u.outcomes && u.outcomes[e] == sealed
    && (sealed.item, Verify) in u.effective && u.effective[(sealed.item, Verify)] == e
  }

  ghost predicate ProposedIn(d: Store, item: ItemId) {
    item in d.plans && d.plans[item].id in d.changeSets && d.changeSets[d.plans[item].id].status == ChangeProposed
  }

  lemma FinishPassedFrom(u: Store, b: Binding, e: ExecId, sealed: Sealed, ev: Evidence, d: Store, v: Store)
    requires SealedVerify(u, e, sealed) && sealed.status == Succeeded && !sealed.contradicted
    requires DeriveChangeSet(u, sealed.item, e, ev) == Effect(d, true) && d.plans == u.plans
             && ProposedIn(d, sealed.item)
    requires SetItemIfNeeded(d, sealed.item, AwaitingApproval) == Effect(v, true)
    ensures FinishVerify(u, b, e, ev) == Effect(Revoke(v, b.chain), true)
  {
    hide DeriveChangeSet, SetItemIfNeeded, Revoke;
  }

  lemma FinishFailedFrom(u: Store, b: Binding, e: ExecId, sealed: Sealed, ev: Evidence, v: Store)
    requires SealedVerify(u, e, sealed) && sealed.status != Succeeded
    requires SetItemIfNeeded(u, sealed.item, if sealed.repair then Executing else ItemBlocked) == Effect(v, true)
    ensures FinishVerify(u, b, e, ev) == Effect(if sealed.repair then v else Revoke(v, b.chain), true)
  {
    hide DeriveChangeSet, SetItemIfNeeded, Revoke;
  }

  /** The first write of the seal, then what was derived, then the moved WorkItem. */
  function Written(s: Store, e: ExecId, sealed: Sealed): Store {
    Seal(s, e, sealed, true).store
  }

  function DerivedFrom(w: Store, e: ExecId, sealed: Sealed, ev: Evidence): Effect {
    if sealed.contradicted then Effect(w, true) else DeriveChangeSet(w, sealed.item, e, ev)
  }

  function NextStatus(sealed: Sealed): ItemStatus {
    if !sealed.contradicted then AwaitingApproval else if sealed.repair then Executing else ItemBlocked
  }

  lemma VerifyIs(s: Store, b: Binding, e: ExecId, attempt: Attempt, ev: Evidence)
    requires e in s.executions && SealVerify(s, b, e, attempt, ev).ok
    ensures var sealed := VerifySeal(s, b, e, attempt, ev);
            var d := DerivedFrom(Written(s, e, sealed), e, sealed, ev);
            var f := UpdateItem(d.store, sealed.item, NextStatus(sealed));
            && Seal(s, e, sealed, true).ok && d.ok && f.ok
            && (sealed.status == Succeeded <==> !sealed.contradicted) && (sealed.repair ==> sealed.contradicted)
            && SealVerify(s, b, e, attempt, ev) ==
               Effect(if sealed.repair then f.store else Revoke(f.store, b.chain), true)
            && VerifyWrites(s, b, e, attempt, ev) ==
               [s, Written(s, e, sealed), d.store, f.store, SealVerify(s, b, e, attempt, ev).store]
  {
    var item := s.executions[e].item;
    assert VerifyCorrectable(s, item, b, attempt, ev) ==> !VerifyPassed(s, item, attempt, ev);
    assert FailureStatus(attempt) != Succeeded;
    hide Seal, UpdateItem, Revoke, VerifyPassed, VerifyCorrectable, DeriveChangeSet, FailureStatus;
  }

  lemma PassedOnce(s: Store, e: ExecId, sealed: Sealed, ev: Evidence)
    requires Rooted(s) && Seal(s, e, sealed, true).ok && sealed.stage == Verify
    requires DeriveChangeSet(Written(s, e, sealed), sealed.item, e, ev).ok
    ensures var w := Written(s, e, sealed);
            var d := DeriveChangeSet(w, sealed.item, e, ev).store;
            && SealedVerify(w, e, sealed) && w.executions == s.executions
            && d == w.(changeSets := d.changeSets) && ProposedIn(d, sealed.item)
            && DeriveChangeSet(d, sealed.item, e, ev) == Effect(d, true)
  {
    var w := Written(s, e, sealed);
    SealWrites(s, e, sealed, true);
    assert forall plan | plan in w.changeSets :: w.changeSets[plan].material.verification != e;
    hide Seal, Rooted;
    DeriveProposes(w, sealed.item, e, ev);
    DerivingTwice(w, sealed.item, e, ev);
    hide DeriveChangeSet;
  }

  lemma PassedLater(d: Store, item: ItemId, chain: Option<ChainId>, e: ExecId, ev: Evidence)
    requires DeriveChangeSet(d, item, e, ev) == Effect(d, true) && UpdateItem(d, item, AwaitingApproval).ok
    ensures var f := UpdateItem(d, item, AwaitingApproval).store;
            var r := Revoke(f, chain);
            && SetItemIfNeeded(d, item, AwaitingApproval) == Effect(f, true)
            && SetItemIfNeeded(f, item, AwaitingApproval) == Effect(f, true)
            && SetItemIfNeeded(r, item, AwaitingApproval) == Effect(r, true)
            && DeriveChangeSet(f, item, e, ev) == Effect(f, true) && DeriveChangeSet(r, item, e, ev) == Effect(r, true)
            && f == d.(items := f.items) && r == d.(items := r.items, chains := r.chains) && Revoke(r, chain) == r
  {
    hide DeriveChangeSet;
    UpdateAgain(d, item, AwaitingApproval);
    UpdateItemKeeps(d, item, AwaitingApproval);
    var f := UpdateItem(d, item, AwaitingApproval).store;
    hide UpdateItem;
    RevokeAgain(f, chain);
    AfterRevoke(f, chain, item, AwaitingApproval);
    DeriveElsewhere(d, f, item, e, ev);
    DeriveElsewhere(d, Revoke(f, chain), item, e, ev);
    hide Revoke, SetItemIfNeeded;
  }

  lemma PassedVerifyResumes(s: Store, b: Binding, e: ExecId, sealed: Sealed, ev: Evidence, u: Store)
    requires Rooted(s) && Seal(s, e, sealed, true).ok && sealed.stage == Verify
    requires sealed.status == Succeeded && !sealed.contradicted && !sealed.repair
    requires DeriveChangeSet(Written(s, e, sealed), sealed.item, e, ev).ok
    requires var d := DeriveChangeSet(Written(s, e, sealed), sealed.item, e, ev).store;
             var f := UpdateItem(d, sealed.item, AwaitingApproval);
             f.ok && u in [Written(s, e, sealed), d, f.store, Revoke(f.store, b.chain)]
    ensures var d := DeriveChangeSet(Written(s, e, sealed), sealed.item, e, ev).store;
            && SealedVerify(u, e, sealed)
            && u.executions == s.executions
            && FinishVerify(u, b, e, ev) ==
               Effect(Revoke(UpdateItem(d, sealed.item, AwaitingApproval).store, b.chain), true)
  {
    hide Seal, Rooted, DeriveChangeSet, UpdateItem, Revoke, SetItemIfNeeded, FinishVerify, Written;
    var item, w := sealed.item, Written(s, e, sealed);
    var d := DeriveChangeSet(w, item, e, ev).store;
    var f := UpdateItem(d, item, AwaitingApproval).store;
    var r := Revoke(f, b.chain);
    PassedOnce(s, e, sealed, ev);
    PassedLater(d, item, b.chain, e, ev);
    if u == w {
      FinishPassedFrom(w, b, e, sealed, ev, d, f);
    } else if u == d {
      FinishPassedFrom(d, b, e, sealed, ev, d, f);
    } else if u == f {
      FinishPassedFrom(f, b, e, sealed, ev, f, f);
    } else {
      FinishPassedFrom(r, b, e, sealed, ev, r, r);
    }
  }

  lemma FailedVerifyResumes(s: Store, b: Binding, e: ExecId, sealed: Sealed, ev: Evidence, u: Store)
    requires Seal(s, e, sealed, true).ok && sealed.stage == Verify && sealed.status != Succeeded && sealed.contradicted
    requires var f := UpdateItem(Written(s, e, sealed), sealed.item, NextStatus(sealed));
             f.ok && u in [Written(s, e, sealed), f.store, if sealed.repair then f.store else Revoke(f.store, b.chain)]
    ensures var f := UpdateItem(Written(s, e, sealed), sealed.item, NextStatus(sealed)).store;
            && SealedVerify(u, e, sealed)
            && u.executions == s.executions
            && FinishVerify(u, b, e, ev) == Effect(if sealed.repair then f else Revoke(f, b.chain), true)
  {
    var item, w, status := sealed.item, Written(s, e, sealed), NextStatus(sealed);
    SealWrites(s, e, sealed, true);
    hide Seal;
    UpdateAgain(w, item, status);
    UpdateItemKeeps(w, item, status);
    var f := UpdateItem(w, item, status).store;
    hide UpdateItem;
    RevokeAgain(f, b.chain);
    AfterRevoke(f, b.chain, item, status);
    hide Revoke, SetItemIfNeeded, FinishVerify;
    FinishFailedFrom(w, b, e, sealed, ev, f);
    FinishFailedFrom(f, b, e, sealed, ev, f);
    FinishFailedFrom(Revoke(f, b.chain), b, e, sealed, ev, Revoke(f, b.chain));
  }

  lemma VerifyResumes(s: Store, run: Run, id: RunId, b: Binding, attempt: Attempt, ev: Evidence, u: Store)
    requires Rooted(s)
    requires b.execution in s.executions && s.executions[b.execution].stage == Verify && b.execution !in s.outcomes
    requires SealStage(s, id, b, attempt, ev).ok && u in Writes(s, id, b, attempt, ev)
    requires run.hosted || b.execution !in u.outcomes
    ensures b.execution in u.executions && Resume(u, run, id, b, attempt, ev) == SealStage(s, id, b, attempt, ev)
  {
    var e, sealed := b.execution, VerifySeal(s, b, b.execution, attempt, ev);
    VerifyIs(s, b, e, attempt, ev);
    if u != s {
      if sealed.contradicted {
        FailedVerifyResumes(s, b, e, sealed, ev, u);
      } else {
        PassedVerifyResumes(s, b, e, sealed, ev, u);
      }
    }
    hide SealVerify, FinishVerify, Seal, UpdateItem, Revoke, VerifyWrites, VerifySeal, DeriveChangeSet;
  }

  // ------------------------------------------------------------------ the whole seal

  predicate SameFrame(s: Store, u: Store) {
    u.runs == s.runs && u.executions == s.executions
  }

  lemma WriteKeepsFrame(s: Store, e: ExecId, sealed: Sealed, isEffective: bool, item: ItemId, status: ItemStatus,
        chain: Option<ChainId>, ev: Evidence)
    ensures SameFrame(s, Seal(s, e, sealed, isEffective).store) && SameFrame(s, UpdateItem(s, item, status).store)
    ensures SameFrame(s, Revoke(s, chain)) && SameFrame(s, DeriveChangeSet(s, item, e, ev).store)
  {
    DeriveKeeps(s, item, e, ev);
    hide DeriveChangeSet;
  }

  lemma SealKeepsFrame(s: Store, id: RunId, b: Binding, attempt: Attempt, ev: Evidence)
    requires b.execution in s.executions
    ensures SameFrame(s, SealStage(s, id, b, attempt, ev).store)
  {
    SealStageSealsOnly(s, id, b, attempt, ev);
    hide SealStage;
  }

  lemma PlanFrame(s: Store, run: RunId, e: ExecId, attempt: Attempt, ev: Evidence, u: Store)
    requires e in s.executions && u in PlanWrites(s, run, e, attempt, ev)
             && SameFrame(s, SealPlan(s, run, e, attempt, ev).store)
    ensures SameFrame(s, u)
  {
    var item, planned := s.executions[e].item, RecordPlan(s, s.executions[e].item, run, attempt, ev);
    hide SealPlan, RecordPlan, UpdateItem, PlanVerdict;
    PlanAgain(s, item, run, attempt, ev);
    WriteKeepsFrame(planned, e, Sealed(item, Plan, Blocked, false, false), true, item,
                    if PlanVerdict(attempt, ev) == Succeeded then AwaitingApproval else ItemBlocked, None, ev);
  }

  lemma ImplementFrame(s: Store, b: Binding, e: ExecId, attempt: Attempt, ev: Evidence, u: Store)
    requires e in s.executions && u in ImplementWrites(s, b, e, attempt, ev)
             && SameFrame(s, SealImplement(s, b, e, attempt, ev).store)
    ensures SameFrame(s, u)
  {
    hide SealImplement, UpdateItem, Seal, BuildValid, ImplementSeal;
    var item, status := s.executions[e].item, if BuildValid(attempt, ev) then Verifying else ItemBlocked;
    WriteKeepsFrame(s, e, ImplementSeal(s, e, attempt, ev), true, item, status, None, ev);
    WriteKeepsFrame(UpdateItem(s, item, status).store, e, ImplementSeal(s, e, attempt, ev), true, item, status, None,
                    ev);
  }

  lemma TestFrame(s: Store, b: Binding, e: ExecId, attempt: Attempt, ev: Evidence, u: Store)
    requires e in s.executions && u in TestWrites(s, b, e, attempt, ev)
             && SameFrame(s, SealTest(s, b, e, attempt, ev).store)
    ensures SameFrame(s, u)
  {
    hide SealTest, UpdateItem, Seal, TestPassed, TestSeal;
    var item, sealed := s.executions[e].item, TestSeal(s, b, e, attempt, ev);
    var status := if TestPassed(b, attempt, ev) then Verifying else if sealed.repair then Executing else ItemBlocked;
    WriteKeepsFrame(s, e, sealed, true, item, status, None, ev);
    WriteKeepsFrame(UpdateItem(s, item, status).store, e, sealed, true, item, status, None, ev);
  }

  lemma DiagnosisFrame(s: Store, b: Binding, e: ExecId, attempt: Attempt, ev: Evidence, u: Store)
    requires e in s.executions && u in DiagnosisWrites(s, b, e, attempt, ev)
             && SameFrame(s, SealDiagnosis(s, b, e, attempt, ev).store)
    ensures SameFrame(s, u)
  {
    hide SealDiagnosis, UpdateItem, Seal, DiagnosisSeal;
    var item, sealed := s.executions[e].item, DiagnosisSeal(s, b, e, attempt, ev);
    var status := if sealed.repair then Executing else ItemBlocked;
    WriteKeepsFrame(s, e, sealed, false, item, status, None, ev);
    WriteKeepsFrame(Seal(s, e, sealed, false).store, e, sealed, false, item, status, None, ev);
  }

  lemma VerifyFrame(s: Store, b: Binding, e: ExecId, attempt: Attempt, ev: Evidence, u: Store)
    requires e in s.executions && u in VerifyWrites(s, b, e, attempt, ev)
             && SameFrame(s, SealVerify(s, b, e, attempt, ev).store)
    ensures SameFrame(s, u)
  {
    hide SealVerify, UpdateItem, Seal, VerifySeal, DeriveChangeSet;
    var item, sealed := s.executions[e].item, VerifySeal(s, b, e, attempt, ev);
    var written := Seal(s, e, sealed, true).store;
    var derived := if !sealed.contradicted then DeriveChangeSet(written, item, e, ev).store else written;
    var status := if !sealed.contradicted then AwaitingApproval else if sealed.repair then Executing else ItemBlocked;
    WriteKeepsFrame(s, e, sealed, true, item, status, None, ev);
    WriteKeepsFrame(written, e, sealed, true, item, status, None, ev);
    WriteKeepsFrame(derived, e, sealed, true, item, status, None, ev);
  }

  lemma OtherFrame(s: Store, e: ExecId, attempt: Attempt, ev: Evidence, u: Store)
    requires e in s.executions && u in OtherWrites(s, e, attempt)
             && SameFrame(s, SealUnimplemented(s, e, attempt).store)
    ensures SameFrame(s, u)
  {
    hide SealUnimplemented, UpdateItem;
    WriteKeepsFrame(s, e, Sealed(s.executions[e].item, Plan, Blocked, false, false), true, s.executions[e].item,
                    ItemBlocked, None, ev);
  }

  lemma WritesKeepFrame(s: Store, id: RunId, b: Binding, attempt: Attempt, ev: Evidence, u: Store)
    requires b.execution in s.executions && u in Writes(s, id, b, attempt, ev)
    ensures SameFrame(s, u)
  {
    var e := b.execution;
    SealKeepsFrame(s, id, b, attempt, ev);
    hide PlanWrites, ImplementWrites, TestWrites, DiagnosisWrites, VerifyWrites, OtherWrites, SameFrame;
    hide SealPlan, SealImplement, SealTest, SealDiagnosis, SealVerify, SealUnimplemented;
    match s.executions[e].stage
    case Plan => PlanFrame(s, id, e, attempt, ev, u);
    case Implement => ImplementFrame(s, b, e, attempt, ev, u);
    case Test =>
      if b.testDiagnosis { DiagnosisFrame(s, b, e, attempt, ev, u); } else { TestFrame(s, b, e, attempt, ev, u); }
    case Verify => VerifyFrame(s, b, e, attempt, ev, u);
    case Other(_) => OtherFrame(s, e, attempt, ev, u);
  }

  /** Called again after any write, the finalizer completes the seal if the Run is hosted or nothing is sealed yet. */
  lemma SecondCallCompletes(s: Store, id: RunId, b: Binding, attempt: Attempt, ev: Evidence, u: Store)
    requires Open(s, id, b, attempt, ev) && Rooted(s)
    requires SealStage(s, id, b, attempt, ev).ok && u in Writes(s, id, b, attempt, ev)
    requires s.runs[id].hosted || b.execution !in u.outcomes
    ensures id in u.runs && SyncStage(u, id, attempt, ev) == SealStage(s, id, b, attempt, ev)
  {
    var run := s.runs[id];
    WritesKeepFrame(s, id, b, attempt, ev, u);
    match s.executions[b.execution].stage {
      case Plan => PlanResumes(s, run, id, b, attempt, ev, u);
      case Implement => ImplementResumes(s, run, id, b, attempt, ev, u);
      case Test =>
        if b.testDiagnosis {
          DiagnosisResumes(s, run, id, b, attempt, ev, u);
        } else {
          TestResumes(s, run, id, b, attempt, ev, u);
        }
      case Verify => VerifyResumes(s, run, id, b, attempt, ev, u);
      case Other(_) => OtherResumes(s, run, id, b, attempt, ev, u);
    }
    hide SealStage, FinishSealed, Writes;
  }

  /**
    Stopped after any of its writes and called again with the same evidence, the finalizer of a
    hosted Run reaches the very store that an undisturbed seal leaves behind.
   */
  lemma InterruptedSealIsCompleted(s: Store, id: RunId, b: Binding, attempt: Attempt, ev: Evidence, u: Store)
    requires Open(s, id, b, attempt, ev) && Rooted(s) && s.runs[id].hosted
    requires SealStage(s, id, b, attempt, ev).ok && u in Writes(s, id, b, attempt, ev)
    ensures id in u.runs && SyncStage(u, id, attempt, ev) == SealStage(s, id, b, attempt, ev)
  {
    hide Open, Rooted, SealStage, Writes, SyncStage;
    SecondCallCompletes(s, id, b, attempt, ev, u);
  }

  /**
    For any other Run the second call reaches that store exactly when the first one stopped before its
    outcome was sealed, or had nothing left to write.
   */
  lemma PlainSealIsCompletedUnlessSealed(s: Store, id: RunId, b: Binding, attempt: Attempt, ev: Evidence, u: Store)
    requires Open(s, id, b, attempt, ev) && Rooted(s) && !s.runs[id].hosted
    requires SealStage(s, id, b, attempt, ev).ok && u in Writes(s, id, b, attempt, ev)
    ensures id in u.runs
    ensures SyncStage(u, id, attempt, ev).store == SealStage(s, id, b, attempt, ev).store <==>
            b.execution !in u.outcomes || u == SealStage(s, id, b, attempt, ev).store
  {
    WritesKeepFrame(s, id, b, attempt, ev, u);
    if b.execution !in u.outcomes {
      SecondCallCompletes(s, id, b, attempt, ev, u);
    }
    hide SealStage, Writes, Rooted;
  }

  /** A failed build that stopped once its outcome was sealed keeps its authorization after the second call. */
  lemma StoppedBuildKeepsAuthorization(s: Store, id: RunId, b: Binding, attempt: Attempt, ev: Evidence, item: ItemId)
    requires Open(s, id, b, attempt, ev) && !s.runs[id].hosted && SealStage(s, id, b, attempt, ev).ok
    requires b.stage == Some(Implement) && !BuildValid(attempt, ev) && item == s.executions[b.execution].item
    requires item in s.chains && b.chain == Some(s.chains[item])
    ensures var u := ImplementWrites(s, b, b.execution, attempt, ev)[2];
            && u in Writes(s, id, b, attempt, ev) && b.execution in u.outcomes && id in u.runs
            && item in SyncStage(u, id, attempt, ev).store.chains
            && item !in SealStage(s, id, b, attempt, ev).store.chains
  {
    var e := b.execution;
    var updated := UpdateItem(s, item, ItemBlocked).store;
    var u := ImplementWrites(s, b, e, attempt, ev)[2];
    assert u in Writes(s, id, b, attempt, ev);
    WritesKeepFrame(s, id, b, attempt, ev, u);
    UpdateAgain(s, item, ItemBlocked);
    SealWrites(updated, e, ImplementSeal(s, e, attempt, ev), true);
    assert item !in Revoke(u, b.chain).chains;
    hide Seal, UpdateItem, BuildValid, FailureStatus;
  }

  lemma StoppedBuildExists()
    ensures exists s: Store, id: RunId, b: Binding, attempt: Attempt, ev: Evidence ::
              && Open(s, id, b, attempt, ev) && Rooted(s) && !s.runs[id].hosted && SealStage(s, id, b, attempt, ev).ok
              && b.stage == Some(Implement) && !BuildValid(attempt, ev)
              && s.executions[b.execution].item in s.chains && b.chain == Some(s.chains[s.executions[b.execution].item])
  {
    var b := Binding("e", Some(Implement), Some("c"), false, false, None, false, [], []);
    var use := Consumption(1, 1, 0, 0, 0, 0);
    var s := Store(map["r" := Run(Failed, None, use, Some(b), Some("i"), false)],
                   map["e" := Execution("i", Implement, Some("r"))], map[], map[],
                   map["i" := Item(Executing, false)], map["i" := "c"], map[], map[]);
    var attempt := Attempt("failed", use, None);
    var ev := Evidence(true, true, false, [], [], false, "", [], false, None, Absent, Absent, None, None);
    assert Open(s, "r", b, attempt, ev);
    assert SealImplement(s, b, "e", attempt, ev).ok;
  }

  // ------------------------------------------------------------------ the assumption holds in every interleaving

  lemma DeriveKeepsRooted(s: Store, item: ItemId, e: ExecId, ev: Evidence)
    requires Rooted(s) && e in s.outcomes
    ensures Rooted(DeriveChangeSet(s, item, e, ev).store)
  {
    hide EffectiveStatus, EffectiveOutcomes, Revisable;
  }

  lemma SameChangeSetsRooted(s: Store, t: Store)
    requires Rooted(s) && t.changeSets == s.changeSets && forall e | e in s.outcomes :: e in t.outcomes
    ensures Rooted(t)
  {
  }

  lemma UpdateKeepsChangeSets(s: Store, item: ItemId, status: ItemStatus)
    ensures UpdateItem(s, item, status).store.changeSets == s.changeSets
    ensures UpdateItem(s, item, status).store.outcomes == s.outcomes
    ensures SetItemIfNeeded(s, item, status).store.changeSets == s.changeSets
    ensures SetItemIfNeeded(s, item, status).store.outcomes == s.outcomes
  {
  }

  lemma RevokeKeepsChangeSets(s: Store, chain: Option<ChainId>)
    ensures Revoke(s, chain).changeSets == s.changeSets && Revoke(s, chain).outcomes == s.outcomes
  {
  }

  lemma SealKeepsChangeSets(s: Store, e: ExecId, sealed: Sealed, isEffective: bool)
    ensures Seal(s, e, sealed, isEffective).store.changeSets == s.changeSets
  {
  }

  lemma PlanDerivesNothing(s: Store, run: RunId, e: ExecId, attempt: Attempt, ev: Evidence)
    requires e in s.executions
    ensures SealPlan(s, run, e, attempt, ev).store.changeSets == s.changeSets
  {
    var item, verdict := s.executions[e].item, PlanVerdict(attempt, ev);
    var status := if verdict == Succeeded then AwaitingApproval else ItemBlocked;
    var planned := RecordPlan(s, item, run, attempt, ev);
    PlanningDerivesNothing(s, item, run, attempt, ev);
    UpdateKeepsChangeSets(planned, item, status);
    SealKeepsChangeSets(UpdateItem(planned, item, status).store, e, Sealed(item, Plan, verdict, false, false), true);
    hide RecordPlan, UpdateItem, Seal, PlanVerdict;
  }

  lemma ImplementDerivesNothing(s: Store, b: Binding, e: ExecId, attempt: Attempt, ev: Evidence)
    requires e in s.executions
    ensures SealImplement(s, b, e, attempt, ev).store.changeSets == s.changeSets
  {
    var item, valid := s.executions[e].item, BuildValid(attempt, ev);
    var status := if valid then Verifying else ItemBlocked;
    UpdateKeepsChangeSets(s, item, status);
    SealKeepsChangeSets(UpdateItem(s, item, status).store, e,
                        ImplementSeal(s, e, attempt, ev), true);
    hide UpdateItem, Seal, BuildValid, FailureStatus;
  }

  lemma TestDerivesNothing(s: Store, b: Binding, e: ExecId, attempt: Attempt, ev: Evidence)
    requires e in s.executions
    ensures SealTest(s, b, e, attempt, ev).store.changeSets == s.changeSets
  {
    var sealed := TestSeal(s, b, e, attempt, ev);
    var status := TestStatus(b, attempt, ev, sealed);
    TestIs(s, b, e, attempt, ev);
    UpdateKeepsChangeSets(s, sealed.item, status);
    SealKeepsChangeSets(UpdateItem(s, sealed.item, status).store, e, sealed, true);
    hide UpdateItem, Seal, TestSeal, TestStatus, SealTest, TestWrites;
  }

  lemma DiagnosisDerivesNothing(s: Store, b: Binding, e: ExecId, attempt: Attempt, ev: Evidence)
    requires e in s.executions
    ensures SealDiagnosis(s, b, e, attempt, ev).store.changeSets == s.changeSets
  {
    var sealed := DiagnosisSeal(s, b, e, attempt, ev);
    var status := if sealed.repair then Executing else ItemBlocked;
    SealKeepsChangeSets(s, e, sealed, false);
    UpdateKeepsChangeSets(Seal(s, e, sealed, false).store, sealed.item, status);
    hide UpdateItem, Seal, DiagnosisValid, Repairable, FailureStatus;
  }

  lemma OtherDerivesNothing(s: Store, e: ExecId, attempt: Attempt)
    requires e in s.executions
    ensures SealUnimplemented(s, e, attempt).store.changeSets == s.changeSets
  {
    hide FailureStatus;
  }

  /** Sealing anything but a verification derives nothing. */
  lemma OtherSealsDeriveNothing(s: Store, run: RunId, b: Binding, attempt: Attempt, ev: Evidence)
    requires b.execution in s.executions && s.executions[b.execution].stage != Verify
    ensures SealStage(s, run, b, attempt, ev).store.changeSets == s.changeSets
  {
    PlanDerivesNothing(s, run, b.execution, attempt, ev);
    ImplementDerivesNothing(s, b, b.execution, attempt, ev);
    TestDerivesNothing(s, b, b.execution, attempt, ev);
    DiagnosisDerivesNothing(s, b, b.execution, attempt, ev);
    OtherDerivesNothing(s, b.execution, attempt);
    hide SealPlan, SealImplement, SealTest, SealDiagnosis, SealVerify, SealUnimplemented;
  }

  lemma VerifyKeepsRooted(s: Store, b: Binding, e: ExecId, attempt: Attempt, ev: Evidence)
    requires Rooted(s) && e in s.executions
    ensures Rooted(SealVerify(s, b, e, attempt, ev).store)
  {
    var item, sealed := s.executions[e].item, VerifySeal(s, b, e, attempt, ev);
    var w := Seal(s, e, sealed, true);
    hide Rooted, DeriveChangeSet, UpdateItem, Revoke, VerifyPassed, VerifyCorrectable, FailureStatus;
    if w.ok {
      SealWrites(s, e, sealed, true);
      SameChangeSetsRooted(s, w.store);
      DeriveKeepsRooted(w.store, item, e, ev);
      var d := if !sealed.contradicted then DeriveChangeSet(w.store, item, e, ev) else w;
      var status := if !sealed.contradicted then AwaitingApproval else if sealed.repair then Executing else ItemBlocked;
      var f := UpdateItem(d.store, item, status).store;
      UpdateKeepsChangeSets(d.store, item, status);
      SameChangeSetsRooted(d.store, f);
      RevokeKeepsChangeSets(f, b.chain);
      SameChangeSetsRooted(f, Revoke(f, b.chain));
    }
    hide Seal;
  }

  lemma SealKeepsRooted(s: Store, id: RunId, b: Binding, attempt: Attempt, ev: Evidence)
    requires Rooted(s) && b.execution in s.executions
    ensures Rooted(SealStage(s, id, b, attempt, ev).store)
  {
    SealStageSealsOnly(s, id, b, attempt, ev);
    VerifyKeepsRooted(s, b, b.execution, attempt, ev);
    hide Rooted, SealPlan, SealImplement, SealTest, SealDiagnosis, SealVerify, SealUnimplemented;
    if s.executions[b.execution].stage != Verify {
      OtherSealsDeriveNothing(s, id, b, attempt, ev);
      SameChangeSetsRooted(s, SealStage(s, id, b, attempt, ev).store);
    }
  }

  lemma FinishVerifyKeepsRooted(s: Store, b: Binding, e: ExecId, ev: Evidence)
    requires Rooted(s) && e in s.outcomes
    ensures Rooted(FinishVerify(s, b, e, ev).store)
  {
    var sealed := s.outcomes[e];
    var item, passed := sealed.item, sealed.status == Succeeded;
    hide Rooted, DeriveChangeSet, SetItemIfNeeded, Revoke;
    DeriveKeepsRooted(s, item, e, ev);
    var d := if passed then DeriveChangeSet(s, item, e, ev).store else s;
    var status := if passed then AwaitingApproval else if sealed.repair then Executing else ItemBlocked;
    var f := SetItemIfNeeded(d, item, status).store;
    UpdateKeepsChangeSets(d, item, status);
    SameChangeSetsRooted(d, f);
    RevokeKeepsChangeSets(f, b.chain);
    SameChangeSetsRooted(f, Revoke(f, b.chain));
    RevokeKeepsChangeSets(d, b.chain);
    SameChangeSetsRooted(d, Revoke(d, b.chain));
  }

  lemma FinishSealedKeepsRooted(s: Store, run: Run, b: Binding, e: ExecId, ev: Evidence)
    requires Rooted(s) && e in s.outcomes && e in s.executions
    ensures Rooted(FinishSealed(s, run, b, e, ev).store)
  {
    var sealed := s.outcomes[e];
    hide Rooted, FinishVerify, SetItemIfNeeded, Revoke;
    FinishVerifyKeepsRooted(s, b, e, ev);
    var f := SetItemIfNeeded(s, sealed.item, if sealed.repair then Executing else ItemBlocked).store;
    UpdateKeepsChangeSets(s, sealed.item, if sealed.repair then Executing else ItemBlocked);
    SameChangeSetsRooted(s, f);
    RevokeKeepsChangeSets(s, b.chain);
    SameChangeSetsRooted(s, Revoke(s, b.chain));
    RevokeKeepsChangeSets(f, b.chain);
    SameChangeSetsRooted(f, Revoke(f, b.chain));
  }

  lemma SyncKeepsRooted(s: Store, id: RunId, attempt: Attempt, ev: Evidence)
    requires Rooted(s) && id in s.runs
    ensures Rooted(SyncStage(s, id, attempt, ev).store)
  {
    hide Rooted, SealStage, FinishSealed;
    if s.runs[id].binding.Some? {
      var b := s.runs[id].binding.value;
      if b.execution in s.executions {
        SealKeepsRooted(s, id, b, attempt, ev);
        if b.execution in s.outcomes {
          FinishSealedKeepsRooted(s, s.runs[id], b, b.execution, ev);
        }
      }
    }
  }

  lemma RunKeepsRooted(s: Store, id: RunId, run: Run)
    requires Rooted(s)
    ensures Rooted(SetRun(s, id, run))
  {
  }

  lemma FinishKeepsRooted(s: Store, id: RunId, attempt: Attempt, ev: Evidence)
    requires Rooted(s)
    ensures Rooted(Finish(s, id, attempt, ev).store)
  {
    hide Rooted, Finish, SyncStage, SetRun;
    if id !in s.runs || Terminal(s.runs[id].status) {
      FinishRefused(s, id, attempt, ev);
    } else {
      var c := Reported(s.runs[id], attempt);
      var reported := attempt.(consumption := c);
      var r1 := s.runs[id].(consumption := c);
      var r2 := if AsksExtension(attempt.status) && attempt.pause.Some?
                then r1.(consumption := attempt.pause.value) else r1;
      var done := r2.(
        status := if TerminalText(attempt.status) then StatusOf(attempt.status)
                  else if AsksApproval(attempt.status) then ApprovalRequired else BudgetExtensionRequired,
        result := Some(if AsksExtension(attempt.status)
                       then RunResult(attempt.status, true, None) else ResultOf(s.runs[id], reported)));
      FinishIs(s, id, attempt, ev, r1, r2, done);
      RunKeepsRooted(s, id, r1);
      RunKeepsRooted(s, id, r2);
      RunKeepsRooted(s, id, done);
      SetRunHas(s, id, done);
      SyncKeepsRooted(SetRun(s, id, done), id, reported, ev);
    }
  }

  lemma BoundaryKeepsRooted(s: Store, id: RunId, preserve: bool, ev: Evidence)
    requires Rooted(s)
    ensures Rooted(FailFromBoundary(s, id, preserve, ev))
  {
    hide Rooted, SyncStage, SetRun;
    if id in s.runs {
      var run := s.runs[id];
      var done := run.(status := Failed, result := Some(ResultOf(run, FailedAttempt(run))));
      RunKeepsRooted(s, id, run.(status := Failed));
      RunKeepsRooted(s, id, done);
      SetRunHas(s, id, done);
      SyncKeepsRooted(SetRun(s, id, done), id, FailedAttempt(run), ev);
    }
  }

  lemma ReconcileKeepsRooted(s: Store, id: RunId, ev: Evidence)
    requires Rooted(s)
    ensures Rooted(Reconcile(s, id, ev).store)
  {
    hide Rooted, SyncStage, FinishSealed;
    if id in s.runs && s.runs[id].binding.Some? {
      var b := s.runs[id].binding.value;
      if b.execution in s.outcomes && b.execution in s.executions {
        FinishSealedKeepsRooted(s, s.runs[id], b, b.execution, ev);
      }
      if s.runs[id].result.Some? && s.runs[id].result.value.terminalAttempt.Some? {
        SyncKeepsRooted(s, id, s.runs[id].result.value.terminalAttempt.value, ev);
      }
    }
  }

  lemma StepKeepsRooted(s: Store, step: Step)
    requires Rooted(s)
    ensures Rooted(Apply(s, step))
  {
    hide Rooted, Finish, FailFromBoundary, Reconcile, SyncStage, SetRun;
    match step
    case Started(id) =>
      if id in s.runs { RunKeepsRooted(s, id, s.runs[id].(status := Running)); }
    case Callback(id, attempt, ev) => FinishKeepsRooted(s, id, attempt, ev);
    case DispatchFailed(id, preserve, ev) => BoundaryKeepsRooted(s, id, preserve, ev);
    case Reaped(id, ev) =>
      BoundaryKeepsRooted(s, id, false, ev);
      ReconcileKeepsRooted(s, id, ev);
      if id in s.runs { SyncKeepsRooted(s, id, FailedAttempt(s.runs[id]), ev); }
    case Reconciled(id, ev) => ReconcileKeepsRooted(s, id, ev);
    case ExtensionApproved(id, turns, tokens) =>
      if id in s.runs {
        ExtensionIs(s, id, turns, tokens);
        RunKeepsRooted(s, id, Apply(s, step).runs[id]);
      }
  }

  lemma ExtensionIs(s: Store, id: RunId, turns: nat, tokens: nat)
    requires id in s.runs
    ensures var t := Apply(s, ExtensionApproved(id, turns, tokens));
            id in t.runs && (t == s || t == SetRun(s, id, t.runs[id]))
  {
  }

  /** A store in which nothing is sealed and no ChangeSet derived satisfies what every step keeps. */
  lemma NothingSealedYet(s: Store)
    requires s.outcomes == map[] && s.changeSets == map[]
    ensures Inv(s) && Rooted(s)
  {
  }

  /** In every interleaving each ChangeSet stays derived from a verification that is sealed. */
  lemma {:induction false} AlwaysRooted(s: Store, steps: seq<Step>)
    requires Rooted(s)
    ensures Rooted(ApplyAll(s, steps))
    decreases |steps|
  {
    if steps != [] {
      hide Rooted, Apply;
      AlwaysRooted(s, steps[..|steps| - 1]);
      StepKeepsRooted(ApplyAll(s, steps[..|steps| - 1]), steps[|steps| - 1]);
    }
  }
}
