/** What a completed seal of a Plan or a build records, in terms of the evidence. */
module StageRecords {
  import opened Wrappers
  import opened WorkStore
  import opened StageSeals
  import opened Finalization
  import opened StageChain
  import opened Recovery
  import opened StageVerdicts

  // ------------------------------------------------------------------ plan

  predicate PlanSubmitted(attempt: Attempt, ev: Evidence) {
    attempt.status == "completed" && ev.plan.Some? && ev.plan.value.valid
  }

  /**
    The plan as recorded before and after a seal: a valid submission is the next revision unless it
    is recorded already.
   */
  ghost predicate PlanRecorded(s: Store, t: Store, item: ItemId, run: RunId, attempt: Attempt, ev: Evidence) {
    if PlanSubmitted(attempt, ev)
    then item in t.plans && t.plans[item].run == run && t.plans[item].document == ev.plan.value.document
         && (item in s.plans ==>
               t.plans[item].id == s.plans[item].id
               && t.plans[item].revision == s.plans[item].revision + if t.plans[item] == s.plans[item] then 0 else 1)
    else t.plans == s.plans
  }

  lemma SubmissionIsRecorded(s: Store, item: ItemId, run: RunId, attempt: Attempt, ev: Evidence)
    ensures PlanRecorded(s, RecordPlan(s, item, run, attempt, ev), item, run, attempt, ev)
    ensures SameRecords(s, RecordPlan(s, item, run, attempt, ev))
  {
    PlanIs(s, item, run, attempt, ev);
    hide RecordPlan;
  }

  lemma VerdictIs(attempt: Attempt, ev: Evidence)
    ensures PlanVerdict(attempt, ev) == Succeeded <==> PlanSubmitted(attempt, ev) && !ev.plan.value.blockers
    ensures PlanVerdict(attempt, ev) == Blocked <==> PlanSubmitted(attempt, ev) && ev.plan.value.blockers
    ensures PlanVerdict(attempt, ev) == Succeeded ==> attempt.status == "completed"
    ensures !PlanSubmitted(attempt, ev) ==> PlanVerdict(attempt, ev) == FailedAs(attempt)
  {
  }

  /**
    A Plan succeeds exactly for a completed attempt with a valid submission without blockers, and is blocked
    by blockers; a valid submission is recorded either way.
   */
  lemma PlanRecord(s: Store, run: RunId, e: ExecId, attempt: Attempt, ev: Evidence)
    requires e in s.executions && SealPlan(s, run, e, attempt, ev).ok
    ensures var t, item := SealPlan(s, run, e, attempt, ev).store, s.executions[e].item;
            && e in t.outcomes && t.outcomes[e].item == item && t.outcomes[e].stage == Plan
            && (t.outcomes[e].status == Succeeded <==> PlanSubmitted(attempt, ev) && !ev.plan.value.blockers)
            && (t.outcomes[e].status == Blocked <==> PlanSubmitted(attempt, ev) && ev.plan.value.blockers)
            && (!PlanSubmitted(attempt, ev) ==> t.outcomes[e].status == FailedAs(attempt))
            && !t.outcomes[e].repair && !t.outcomes[e].contradicted && t.chains == s.chains
            && item in t.items
            && t.items[item].status == (if t.outcomes[e].status == Succeeded then AwaitingApproval else ItemBlocked)
            && PlanRecorded(s, t, item, run, attempt, ev)
  {
    var item, verdict := s.executions[e].item, PlanVerdict(attempt, ev);
    var status := if verdict == Succeeded then AwaitingApproval else ItemBlocked;
    var planned := RecordPlan(s, item, run, attempt, ev);
    SubmissionIsRecorded(s, item, run, attempt, ev);
    VerdictIs(attempt, ev);
    hide RecordPlan, PlanVerdict;
    UpdateItemKeeps(planned, item, status);
    PlansUntouched(planned, item, status);
    var updated := UpdateItem(planned, item, status).store;
    hide UpdateItem;
    SealAdds(planned, updated, e, Sealed(item, Plan, verdict, false, false), true, attempt.status == "completed");
    hide Seal, SealsOnly, SameRecords, PlanSubmitted;
  }

  lemma PlansUntouched(s: Store, item: ItemId, status: ItemStatus)
    ensures UpdateItem(s, item, status).store.plans == s.plans
  {
  }

  // ------------------------------------------------------------------ build

  /**
    A declared path covers itself; one that ends in a slash and two stars covers the directory
    before it and all below.
   */
  ghost predicate Covers(pattern: string, path: string) {
    if exists directory :: pattern == directory + "/**"
    then exists directory :: pattern == directory + "/**" && Within(directory, path)
    else pattern == path
  }

  ghost predicate Within(directory: string, path: string) {
    path == directory || exists below :: path == directory + "/" + below
  }

  lemma MatchingCovers(pattern: string, path: string)
    ensures PathMatches(pattern, path) <==> Covers(pattern, path)
  {
    if EndsWith(pattern, "/**") {
      var directory := pattern[..|pattern| - 3];
      assert pattern == directory + "/**";
      if directory + "/" <= path {
        assert path == directory + "/" + path[|directory| + 1..];
      }
      forall d | pattern == d + "/**"
        ensures d == directory
      {
        assert |d| == |directory| && d == pattern[..|d|];
      }
    } else {
      forall d: string
        ensures pattern != d + "/**"
      {
        var p := d + "/**";
        assert p[|p| - 3..] == "/**";
      }
    }
  }

  ghost predicate InScope(attempt: Attempt, ev: Evidence) {
    && attempt.status == "completed" && ev.diffPresent && ev.changedPaths != []
    && forall path | path in ev.changedPaths :: exists pattern | pattern in ev.writable :: Covers(pattern, path)
  }

  /**
    A build succeeds exactly for a completed attempt that changed something and only what the writable
    paths cover; otherwise the WorkItem is blocked and the authorization withdrawn.
   */
  lemma BuildRecord(s: Store, b: Binding, attempt: Attempt, ev: Evidence)
    requires Carries(s, b) && SealImplement(s, b, b.execution, attempt, ev).ok
    ensures var t, item := SealImplement(s, b, b.execution, attempt, ev).store, s.executions[b.execution].item;
            && b.execution in t.outcomes && t.outcomes[b.execution] ==
                 Sealed(item, Implement, if InScope(attempt, ev) then Succeeded else FailedAs(attempt), false,
                        !InScope(attempt, ev))
            && (item in t.chains <==> InScope(attempt, ev))
            && item in t.items && t.items[item].status == (if InScope(attempt, ev) then Verifying else ItemBlocked)
  {
    var e, item, valid := b.execution, s.executions[b.execution].item, BuildValid(attempt, ev);
    var status := if valid then Verifying else ItemBlocked;
    ValidIsInScope(attempt, ev);
    UpdateItemKeeps(s, item, status);
    SealAdds(s, UpdateItem(s, item, status).store, e,
             Sealed(item, Implement, if valid then Succeeded else FailureStatus(attempt), false, !valid), true,
             attempt.status == "completed");
    FailureIs(attempt);
    hide UpdateItem, Seal, SealsOnly, SameRecords, BuildValid, InScope, FailureStatus, FailedAs;
  }

  lemma ValidIsInScope(attempt: Attempt, ev: Evidence)
    ensures BuildValid(attempt, ev) <==> InScope(attempt, ev)
  {
    hide PathMatches, Covers;
    forall pattern, path
      ensures PathMatches(pattern, path) <==> Covers(pattern, path)
    {
      MatchingCovers(pattern, path);
    }
  }
}
