/** The ChangeSet of one WorkPlan over any sequence of derivations, review decisions and new plan revisions. */
module ChangeSets {
  import opened Wrappers
  import opened WorkStore
  import opened StageSeals
  import opened Finalization
  import opened StageChain
  import opened StageVerdicts

  datatype Event =
    | Derived(item: ItemId, verification: ExecId, ev: Evidence)
    | Reviewed(plan: PlanId, status: ReviewStatus)
    | Planned(item: ItemId, run: RunId, attempt: Attempt, ev: Evidence)
    | Elsewhere(store: Store)

  /** A write that touches neither plans nor ChangeSets may change everything else. */
  function Happen(s: Store, e: Event): Store {
    match e
    case Derived(item, verification, ev) => DeriveChangeSet(s, item, verification, ev).store
    case Reviewed(plan, status) =>
      if plan in s.changeSets then s.(changeSets := s.changeSets[plan := s.changeSets[plan].(status := status)]) else s
    case Planned(item, run, attempt, ev) => RecordPlan(s, item, run, attempt, ev)
    case Elsewhere(t) => t.(plans := s.plans, changeSets := s.changeSets)
  }

  function History(s: Store, events: seq<Event>): Store {
    if events == [] then s else Happen(History(s, events[..|events| - 1]), events[|events| - 1])
  }

  // ------------------------------------------------------------------ what a ChangeSet is derived from

  /** The build that is effective for the WorkItem succeeded, and this Run made it. */
  ghost predicate BuiltBy(s: Store, item: ItemId, run: RunId) {
    && StageSucceeded(s, item, Implement)
    && s.effective[(item, Implement)] in s.executions
    && s.executions[s.effective[(item, Implement)]].run == Some(run)
  }

  ghost predicate EffectiveFor(s: Store, item: ItemId, e: ExecId) {
    exists stage :: (item, stage) in s.effective && s.effective[(item, stage)] == e
  }

  /**
    The material: the recorded plan and its revision, the Run of the effective build and its patch, the
    executions that are effective for the WorkItem, and the verification. It is there when all of them are.
   */
  ghost predicate Records(s: Store, item: ItemId, verification: ExecId, ev: Evidence, m: Material) {
    && item in s.plans && m.plan == s.plans[item].id && m.planRevision == s.plans[item].revision
    && BuiltBy(s, item, m.builderRun) && ev.artifactsPresent && m.patch == ev.patch
    && m.verification == verification
    && forall e :: e in m.outcomes <==> EffectiveFor(s, item, e)
  }

  lemma EffectiveOutcomesAre(s: Store, item: ItemId, e: ExecId)
    ensures e in EffectiveOutcomes(s, item) <==> EffectiveFor(s, item, e)
  {
    if e in EffectiveOutcomes(s, item) {
      var key :| key in s.effective && key.0 == item && s.effective[key] == e;
      assert (item, key.1) == key;
    }
  }

  lemma MaterialIs(s: Store, item: ItemId, verification: ExecId, ev: Evidence, m: Material)
    ensures MaterialFor(s, item, verification, ev) == Some(m) <==> Records(s, item, verification, ev, m)
  {
    hide EffectiveOutcomes, EffectiveFor;
    forall e
      ensures e in EffectiveOutcomes(s, item) <==> EffectiveFor(s, item, e)
    {
      EffectiveOutcomesAre(s, item, e);
    }
    if Records(s, item, verification, ev, m) {
      assert m.outcomes == EffectiveOutcomes(s, item);
    }
  }

  // ------------------------------------------------------------------ one derivation

  /** Deriving again from the same material succeeds and returns the ChangeSet as it is, whatever its review says. */
  lemma SameMaterialSameChangeSet(s: Store, item: ItemId, verification: ExecId, ev: Evidence, m: Material)
    requires Records(s, item, verification, ev, m) && m.plan in s.changeSets && s.changeSets[m.plan].material == m
    ensures DeriveChangeSet(s, item, verification, ev) == Effect(s, true)
  {
    MaterialIs(s, item, verification, ev, m);
    hide MaterialFor;
  }

  /** The ChangeSet is there to be revised: it was rejected, and is of an earlier revision of this plan. */
  ghost predicate Outdated(cs: ChangeSet, m: Material) {
    cs.status == ChangeRejected && cs.material.plan == m.plan && cs.material.planRevision < m.planRevision
  }

  /**
    A derivation succeeds exactly when there is material and the plan has no ChangeSet, or one of the same
    material, or an outdated one; then the plan's ChangeSet is of this material, proposed if it is new.
   */
  lemma DerivesExactly(s: Store, item: ItemId, verification: ExecId, ev: Evidence)
    ensures var f := DeriveChangeSet(s, item, verification, ev);
            && (f.ok <==> exists m :: Records(s, item, verification, ev, m)
                            && (m.plan !in s.changeSets || s.changeSets[m.plan].material == m
                                || Outdated(s.changeSets[m.plan], m)))
            && (!f.ok ==> f.store == s)
            && (forall m | f.ok && Records(s, item, verification, ev, m) ::
                  && m.plan in f.store.changeSets && f.store.changeSets[m.plan].material == m
                  && f.store == s.(changeSets := s.changeSets[m.plan := f.store.changeSets[m.plan]])
                  && (m.plan !in s.changeSets ==> f.store.changeSets[m.plan] == ChangeSet(ChangeProposed, m, 1))
                  && (f.store != s ==> f.store.changeSets[m.plan].status == ChangeProposed))
  {
    forall m
      ensures MaterialFor(s, item, verification, ev) == Some(m) <==> Records(s, item, verification, ev, m)
    {
      MaterialIs(s, item, verification, ev, m);
    }
    hide Records;
    PlanOfMaterial(s, item, verification, ev);
    hide MaterialFor;
  }

  lemma PlanOfMaterial(s: Store, item: ItemId, verification: ExecId, ev: Evidence)
    ensures MaterialFor(s, item, verification, ev).Some? ==>
              && item in s.plans && MaterialFor(s, item, verification, ev).value.plan == s.plans[item].id
              && MaterialFor(s, item, verification, ev).value.planRevision == s.plans[item].revision
  {
  }

  /** After a successful derivation a second one from the same evidence changes nothing. */
  lemma DerivingTwice(s: Store, item: ItemId, verification: ExecId, ev: Evidence)
    requires DeriveChangeSet(s, item, verification, ev).ok
    ensures var t := DeriveChangeSet(s, item, verification, ev).store;
            DeriveChangeSet(t, item, verification, ev) == Effect(t, true)
  {
    var t := DeriveChangeSet(s, item, verification, ev).store;
    assert MaterialFor(t, item, verification, ev) == MaterialFor(s, item, verification, ev);
    hide MaterialFor, Revisable;
  }

  /** A ChangeSet is replaced exactly when it was rejected, is of this plan, and of an earlier revision of it. */
  lemma ReplacedExactly(s: Store, item: ItemId, verification: ExecId, ev: Evidence, plan: PlanId)
    requires plan in s.changeSets
    ensures var t, existing := DeriveChangeSet(s, item, verification, ev).store, s.changeSets[plan];
            && plan in t.changeSets
            && (t.changeSets[plan] != existing <==>
                  exists m :: Records(s, item, verification, ev, m) && m.plan == plan && m != existing.material
                    && existing.status == ChangeRejected && existing.material.plan == plan
                    && existing.material.planRevision < m.planRevision)
            && (t.changeSets[plan] != existing ==>
                && Records(s, item, verification, ev, t.changeSets[plan].material)
                && t.changeSets[plan].status == ChangeProposed
                && t.changeSets[plan].revision == existing.revision + 1
                && t.changeSets[plan].material.planRevision > existing.material.planRevision)
  {
    forall m
      ensures MaterialFor(s, item, verification, ev) == Some(m) <==> Records(s, item, verification, ev, m)
    {
      MaterialIs(s, item, verification, ev, m);
    }
    PlanOfMaterial(s, item, verification, ev);
    hide MaterialFor, Records;
  }

  /** A verified change is on record with its plan, the effective build and the verification itself. */
  lemma VerifiedChangeIsRecorded(s: Store, b: Binding, e: ExecId, attempt: Attempt, ev: Evidence)
    requires e in s.executions && SealVerify(s, b, e, attempt, ev).ok
    requires Verified(s, s.executions[e].item, attempt, ev)
    ensures var t, item := SealVerify(s, b, e, attempt, ev).store, s.executions[e].item;
            exists m :: Records(t, item, e, ev, m) && e in m.outcomes && m.plan in t.changeSets
              && t.changeSets[m.plan].material == m
  {
    var item := s.executions[e].item;
    PassedIsVerified(s, item, attempt, ev);
    hide VerifyPassed, Verified, VerifyCorrectable;
    var sealed := Sealed(item, Verify, Succeeded, VerifyCorrectable(s, item, b, attempt, ev), false);
    var s1 := Seal(s, e, sealed, true).store;
    var s2 := DeriveChangeSet(s1, item, e, ev).store;
    var t := SealVerify(s, b, e, attempt, ev).store;
    VerifySteps(s, b, e, attempt, ev, sealed);
    DerivesExactly(s1, item, e, ev);
    var m :| Records(s1, item, e, ev, m);
    hide DeriveChangeSet, SealVerify, Seal;
    SameRecorded(s1, t, item, e, ev, m);
    assert EffectiveFor(s1, item, e) by {
      assert (item, Verify) in s1.effective;
    }
  }

  lemma VerifySteps(s: Store, b: Binding, e: ExecId, attempt: Attempt, ev: Evidence, sealed: Sealed)
    requires e in s.executions && SealVerify(s, b, e, attempt, ev).ok
    requires VerifyPassed(s, s.executions[e].item, attempt, ev)
    requires sealed == Sealed(s.executions[e].item, Verify, Succeeded,
                              VerifyCorrectable(s, s.executions[e].item, b, attempt, ev), false)
    ensures var f := Seal(s, e, sealed, true);
            var d := DeriveChangeSet(f.store, sealed.item, e, ev);
            var t := SealVerify(s, b, e, attempt, ev).store;
            && f.ok && d.ok && (sealed.item, Verify) in f.store.effective
            && f.store.effective[(sealed.item, Verify)] == e
            && t.changeSets == d.store.changeSets && t.effective == f.store.effective && t.plans == f.store.plans
            && t.outcomes == f.store.outcomes && t.executions == f.store.executions
  {
    hide VerifyPassed, VerifyCorrectable, DeriveChangeSet;
  }

  lemma SameRecorded(s: Store, t: Store, item: ItemId, e: ExecId, ev: Evidence, m: Material)
    requires t.effective == s.effective && t.plans == s.plans && t.outcomes == s.outcomes
    requires t.executions == s.executions
    requires Records(s, item, e, ev, m)
    ensures Records(t, item, e, ev, m)
  {
    forall x
      ensures EffectiveFor(t, item, x) <==> EffectiveFor(s, item, x)
    {
    }
    hide EffectiveFor;
  }

  // ------------------------------------------------------------------ whole histories

  /** How a ChangeSet may have moved on: every replacement is for a later revision of the plan. */
  ghost predicate MovedOn(before: ChangeSet, after: ChangeSet) {
    && after.revision >= before.revision
    && after.revision - before.revision <= after.material.planRevision - before.material.planRevision
    && (after.revision == before.revision ==> after.material == before.material)
  }

  lemma PlanningDerivesNothing(s: Store, item: ItemId, run: RunId, attempt: Attempt, ev: Evidence)
    ensures RecordPlan(s, item, run, attempt, ev).changeSets == s.changeSets
  {
  }

  lemma StepMovesOn(s: Store, e: Event, plan: PlanId)
    requires plan in s.changeSets
    ensures plan in Happen(s, e).changeSets && MovedOn(s.changeSets[plan], Happen(s, e).changeSets[plan])
    ensures s.changeSets[plan].status != ChangeRejected && e != Reviewed(plan, ChangeRejected) ==>
              && Happen(s, e).changeSets[plan].status != ChangeRejected
              && Happen(s, e).changeSets[plan].material == s.changeSets[plan].material
              && Happen(s, e).changeSets[plan].revision == s.changeSets[plan].revision
  {
    hide DeriveChangeSet, MaterialFor, RecordPlan;
    match e
    case Derived(item, verification, ev) => ReplacedExactly(s, item, verification, ev, plan);
    case Reviewed(_, _) =>
    case Planned(item, run, attempt, ev) => PlanningDerivesNothing(s, item, run, attempt, ev);
    case Elsewhere(_) =>
  }

  /**
    Over any history a WorkPlan keeps its one ChangeSet; its material changes only by replacement,
    and each replacement is for a strictly later recorded revision of the WorkPlan.
   */
  lemma {:induction false} RevisionsFollowThePlan(s: Store, events: seq<Event>, plan: PlanId)
    requires plan in s.changeSets
    ensures plan in History(s, events).changeSets
    ensures MovedOn(s.changeSets[plan], History(s, events).changeSets[plan])
    decreases |events|
  {
    if events != [] {
      hide Happen;
      RevisionsFollowThePlan(s, events[..|events| - 1], plan);
      StepMovesOn(History(s, events[..|events| - 1]), events[|events| - 1], plan);
    }
  }

  /** While no review rejects it, a ChangeSet keeps its material and its revision. */
  lemma {:induction false} UnrejectedIsKept(s: Store, events: seq<Event>, plan: PlanId)
    requires plan in s.changeSets && s.changeSets[plan].status != ChangeRejected
    requires Reviewed(plan, ChangeRejected) !in events
    ensures var t := History(s, events);
            && plan in t.changeSets && t.changeSets[plan].status != ChangeRejected
            && t.changeSets[plan].material == s.changeSets[plan].material
            && t.changeSets[plan].revision == s.changeSets[plan].revision
    decreases |events|
  {
    if events != [] {
      var front, last := events[..|events| - 1], events[|events| - 1];
      assert events == front + [last];
      UnrejectedIsKept(s, front, plan);
      hide Happen;
      StepMovesOn(History(s, front), last, plan);
    }
  }
}
