/** The stages of one WorkItem over a whole run of the system: their order, and that they end. */
module StageTrail {
  import opened Wrappers
  import opened WorkStore
  import opened StageSeals
  import opened Finalization
  import opened StageChain

  /** The execution, its Run and the Run's target agree on which stage of the WorkItem this is. */
  ghost predicate Bound(s: Store, item: ItemId, e: ExecId) {
    && e in s.executions
    && s.executions[e].item == item && ChainStage(s.executions[e].stage)
    && s.executions[e].run.Some? && s.executions[e].run.value in s.runs
    && var run := s.runs[s.executions[e].run.value];
       && run.workItem == Some(item) && run.binding.Some?
       && run.binding.value.execution == e && run.binding.value.stage == Some(s.executions[e].stage)
       && (run.binding.value.testDiagnosis ==> s.executions[e].stage == Test)
  }

  ghost function BindingOf(s: Store, item: ItemId, e: ExecId): Binding
    requires Bound(s, item, e)
  {
    s.runs[s.executions[e].run.value].binding.value
  }

  ghost function KindOf(s: Store, item: ItemId, e: ExecId): Kind
    requires Bound(s, item, e)
  {
    match s.executions[e].stage
    case Implement => Build
    case Verify => Review
    case _ => if BindingOf(s, item, e).testDiagnosis then Diagnose else Check
  }

  ghost predicate AllBound(s: Store, item: ItemId, trail: seq<ExecId>) {
    forall i | 0 <= i < |trail| :: Bound(s, item, trail[i])
  }

  ghost function Word(s: Store, item: ItemId, trail: seq<ExecId>): (w: seq<Kind>)
    requires AllBound(s, item, trail)
    ensures |w| == |trail|
    ensures forall i | 0 <= i < |w| :: w[i] == KindOf(s, item, trail[i])
  {
    seq(|trail|, i requires 0 <= i < |trail| => KindOf(s, item, trail[i]))
  }

  /** `trail` lists the chain's executions of the WorkItem in the order in which they were started. */
  ghost predicate Trailed(s: Store, item: ItemId, trail: seq<ExecId>) {
    && AllBound(s, item, trail)
    && (forall i, j | 0 <= i < j < |trail| :: trail[i] != trail[j])
    && (forall e | e in s.executions && s.executions[e].item == item && ChainStage(s.executions[e].stage) :: e in trail)
    && Orderly(Word(s, item, trail))
  }

  // ------------------------------------------------------------------ counting builds

  ghost function BuildSet(s: Store, item: ItemId, trail: seq<ExecId>): set<ExecId>
    requires AllBound(s, item, trail)
  {
    set e | e in trail && s.executions[e].stage == Implement
  }

  lemma {:induction false} BuildSetSize(s: Store, item: ItemId, trail: seq<ExecId>)
    requires AllBound(s, item, trail)
    requires forall i, j | 0 <= i < j < |trail| :: trail[i] != trail[j]
    ensures |BuildSet(s, item, trail)| == Builds(Word(s, item, trail))
    decreases |trail|
  {
    var n := |trail|;
    if n == 0 {
      assert BuildSet(s, item, trail) == {};
    } else {
      var before, last := trail[..n - 1], trail[n - 1];
      BuildSetSize(s, item, before);
      assert Word(s, item, trail)[..n - 1] == Word(s, item, before);
      assert last !in before;
      if s.executions[last].stage == Implement {
        assert BuildSet(s, item, trail) == BuildSet(s, item, before) + {last};
      } else {
        assert BuildSet(s, item, trail) == BuildSet(s, item, before);
      }
    }
  }

  lemma CountIsBuilds(s: Store, item: ItemId, trail: seq<ExecId>)
    requires Trailed(s, item, trail)
    ensures ImplementCount(s, item) == Builds(Word(s, item, trail))
  {
    BuildSetSize(s, item, trail);
    assert BuildSet(s, item, trail) ==
           set e | e in s.executions && s.executions[e].item == item && s.executions[e].stage == Implement;
  }

  // ------------------------------------------------------------------ events

  /**
    Any step of the finalizers; the callback of any Run; and, after the lock is given back and others
    were at work, what the controller starts for a Run whose callback was accepted.
   */
  datatype Event =
    | Elsewhere(step: Step)
    | Returned(id: RunId, attempt: Attempt, ev: Evidence)
    | Continued(id: RunId, ev: Evidence, cfg: Config, ready: bool, run: RunId, execution: ExecId, budget: Consumption)

  /** `due` are the Runs whose callback was accepted and whose continuation has not been made. */
  datatype System = System(store: Store, trail: seq<ExecId>, due: set<RunId>)

  /** A Run of the WorkItem whose end may make the controller start something. */
  predicate Continues(run: Run, item: ItemId) {
    && run.workItem == Some(item) && run.binding.Some? && run.binding.value.stage.Some?
    && (run.binding.value.testDiagnosis || ChainStage(run.binding.value.stage.value))
  }

  ghost predicate RunsOne(s: Store, trail: seq<ExecId>, r: RunId) {
    exists i :: 0 <= i < |trail| && trail[i] in s.executions && s.executions[trail[i]].run == Some(r)
  }

  /** Every such Run runs an execution of the trail. */
  ghost predicate Owned(s: Store, item: ItemId, trail: seq<ExecId>) {
    forall r {:trigger s.runs[r]} | r in s.runs && Continues(s.runs[r], item) :: RunsOne(s, trail, r)
  }

  /** The Runs of all stages but the latest have ended. */
  ghost predicate EarlierEnded(s: Store, trail: seq<ExecId>) {
    forall i | 0 <= i < |trail| - 1 :: HasEnded(s, trail[i])
  }

  ghost predicate HasEnded(s: Store, e: ExecId) {
    && e in s.executions && s.executions[e].run.Some? && s.executions[e].run.value in s.runs
    && Terminal(s.runs[s.executions[e].run.value].status)
  }

  ghost predicate NotEarlier(s: Store, trail: seq<ExecId>, id: RunId) {
    forall i | 0 <= i < |trail| - 1 :: trail[i] in s.executions ==> s.executions[trail[i]].run != Some(id)
  }

  /** No continuation is due for a Run of an earlier stage. */
  ghost predicate DueAreLatest(s: Store, trail: seq<ExecId>, due: set<RunId>) {
    forall id | id in due :: NotEarlier(s, trail, id)
  }

  ghost predicate Sound(x: System, item: ItemId) {
    && Inv(x.store) && Trailed(x.store, item, x.trail)
    && Owned(x.store, item, x.trail) && EarlierEnded(x.store, x.trail)
    && DueAreLatest(x.store, x.trail, x.due)
  }

  function Happen(x: System, event: Event, item: ItemId): System {
    match event
    case Elsewhere(step) => x.(store := Apply(x.store, step))
    case Returned(id, attempt, ev) =>
      var f := Finish(x.store, id, attempt, ev);
      x.(store := f.store, due := if f.ok then x.due + {id} else x.due)
    case Continued(id, ev, cfg, ready, r, e, budget) =>
      var s := x.store;
      if id !in x.due || id !in s.runs || r in s.runs || e in s.executions then x
      else
        var t := Continue(s, cfg, id, ev, ready, r, e, budget);
        System(t, if e in t.executions && t.executions[e].item == item then x.trail + [e] else x.trail, x.due - {id})
  }

  function HappenAll(x: System, events: seq<Event>, item: ItemId): System {
    if events == [] then x else Happen(HappenAll(x, events[..|events| - 1], item), events[|events| - 1], item)
  }

  lemma TrailSurvives(s: Store, t: Store, item: ItemId, trail: seq<ExecId>)
    requires Trailed(s, item, trail) && Settled(s, t)
    ensures Trailed(t, item, trail)
  {
    hide Orderly;
    forall i | 0 <= i < |trail|
      ensures Bound(t, item, trail[i]) && KindOf(t, item, trail[i]) == KindOf(s, item, trail[i])
    {
      assert Bound(s, item, trail[i]);
    }
    assert Word(t, item, trail) == Word(s, item, trail);
  }

  lemma FailedContinuationKeeps(s: Store, item: Option<ItemId>)
    ensures SameRecords(s, ContinuationFailed(s, item))
  {
    if item.Some? {
      UpdateItemKeeps(s, item.value, ItemBlocked);
      UpdateItemKeeps(s.(chains := s.chains - {item.value}), item.value, ItemBlocked);
    }
    hide UpdateItem;
  }

  function KindStarted(next: Next): Kind
    requires next.Start?
  {
    if next.stage == Implement then Build else if next.stage == Verify then Review
    else if next.diagnosisOf.Some? then Diagnose else Check
  }

  predicate WellStarted(next: Next) {
    next.Start? && ChainStage(next.stage) && (next.diagnosisOf.Some? ==> next.stage == Test)
  }

  lemma NextFollows(s: Store, item: ItemId, last: ExecId, cfg: Config, ev: Evidence, id: RunId)
    requires Bound(s, item, last) && s.executions[last].run == Some(id)
    requires last in s.outcomes ==> s.outcomes[last].item == item
    requires NextStage(s, cfg, id, ev).Start?
    ensures WellStarted(NextStage(s, cfg, id, ev))
    ensures Follows(KindOf(s, item, last), ImplementCount(s, item), KindStarted(NextStage(s, cfg, id, ev)))
  {
    hide ImplementCount, Ran;
  }

  /** What is started after the last stage of a trail may follow it. */
  lemma NextIsOrderly(s: Store, item: ItemId, trail: seq<ExecId>, cfg: Config, ev: Evidence, id: RunId)
    requires Trailed(s, item, trail) && Inv(s)
    requires s.executions[trail[|trail| - 1]].run == Some(id)
    requires id in s.runs && NextStage(s, cfg, id, ev).Start?
    ensures WellStarted(NextStage(s, cfg, id, ev))
    ensures MayFollow(Word(s, item, trail), KindStarted(NextStage(s, cfg, id, ev)))
  {
    hide ImplementCount, Orderly, NextStage, Follows;
    CountIsBuilds(s, item, trail);
    LastBound(s, item, trail);
    var last := trail[|trail| - 1];
    if last in s.outcomes {
      assert SealedProperly(s, last);
    }
    NextFollows(s, item, last, cfg, ev, id);
  }

  lemma LaunchBinds(s: Store, item: ItemId, cfg: Config, next: Next, r: RunId, e: ExecId, prior: Binding,
        budget: Consumption)
    requires WellStarted(next) && item in s.chains && r !in s.runs && e !in s.executions
    ensures var t := Launch(s, cfg, item, next, r, e, prior, budget);
            && Bound(t, item, e) && KindOf(t, item, e) == KindStarted(next)
            && (forall o | Bound(s, item, o) :: Bound(t, item, o) && KindOf(t, item, o) == KindOf(s, item, o))
            && (forall o | o in t.executions :: o == e || (o in s.executions && t.executions[o] == s.executions[o]))
  {
  }

  lemma LaunchExtends(s: Store, item: ItemId, trail: seq<ExecId>, cfg: Config, next: Next,
                      r: RunId, e: ExecId, prior: Binding, budget: Consumption)
    requires Trailed(s, item, trail) && Inv(s) && WellStarted(next) && item in s.chains
    requires r !in s.runs && e !in s.executions
    requires MayFollow(Word(s, item, trail), KindStarted(next))
    ensures var t := Launch(s, cfg, item, next, r, e, prior, budget);
            Inv(t) && Trailed(t, item, trail + [e])
  {
    hide Inv, Orderly, Launch, KindOf, Bound, MayFollow, KindStarted;
    var t := Launch(s, cfg, item, next, r, e, prior, budget);
    var trail' := trail + [e];
    LaunchInv(s, item, cfg, next, r, e, prior, budget);
    LaunchBinds(s, item, cfg, next, r, e, prior, budget);
    assert AllBound(t, item, trail') by {
      forall i | 0 <= i < |trail'|
        ensures Bound(t, item, trail'[i])
      {
        assert i < |trail| ==> Bound(s, item, trail[i]);
      }
    }
    assert Word(t, item, trail') == Word(s, item, trail) + [KindStarted(next)] by {
      forall i | 0 <= i < |trail|
        ensures KindOf(t, item, trail'[i]) == KindOf(s, item, trail[i])
      {
        assert Bound(s, item, trail[i]);
      }
    }
    OrderlyExtends(Word(s, item, trail), KindStarted(next));
    TrailDistinct(s, item, trail, e);
  }

  lemma TrailDistinct(s: Store, item: ItemId, trail: seq<ExecId>, e: ExecId)
    requires Trailed(s, item, trail) && e !in s.executions
    ensures forall i, j | 0 <= i < j < |trail + [e]| :: (trail + [e])[i] != (trail + [e])[j]
  {
    hide Orderly;
    forall i | 0 <= i < |trail|
      ensures trail[i] != e
    {
      assert Bound(s, item, trail[i]);
    }
  }

  lemma LaunchInv(s: Store, item: ItemId, cfg: Config, next: Next, r: RunId, e: ExecId, prior: Binding,
        budget: Consumption)
    requires Inv(s) && next.Start? && item in s.chains && r !in s.runs && e !in s.executions
    ensures Inv(Launch(s, cfg, item, next, r, e, prior, budget))
  {
    var t := Launch(s, cfg, item, next, r, e, prior, budget);
    forall o | o in t.outcomes
      ensures SealedProperly(t, o)
    {
      assert SealedProperly(s, o);
    }
  }

  lemma OrderlyExtends(w: seq<Kind>, k: Kind)
    requires Orderly(w) && MayFollow(w, k)
    ensures Orderly(w + [k])
  {
    var v := w + [k];
    forall i | 0 < i < |v|
      ensures MayFollow(v[..i], v[i])
    {
      if i < |w| {
        assert v[..i] == w[..i];
      } else {
        assert v[..i] == w;
      }
    }
  }

  lemma OnlyItsRunsContinue(s: Store, item: ItemId, cfg: Config, ev: Evidence, id: RunId)
    requires id in s.runs && s.runs[id].workItem == Some(item) && NextStage(s, cfg, id, ev).Start?
    ensures Continues(s.runs[id], item) && s.runs[id].status == Completed
  {
    hide ImplementCount, Ran;
  }

  /** What stays as it was: targets, executions, and every Run that had ended. */
  lemma OwnedSurvives(s: Store, t: Store, item: ItemId, trail: seq<ExecId>)
    requires Owned(s, item, trail) && EarlierEnded(s, trail) && Settled(s, t)
    ensures Owned(t, item, trail) && EarlierEnded(t, trail)
  {
    forall r | r in t.runs && Continues(t.runs[r], item)
      ensures RunsOne(t, trail, r)
    {
      assert Continues(s.runs[r], item) && RunsOne(s, trail, r);
    }
    forall i | 0 <= i < |trail| - 1
      ensures HasEnded(t, trail[i])
    {
      assert HasEnded(s, trail[i]);
    }
  }

  lemma LaunchOwned(
    s: Store, item: ItemId, trail: seq<ExecId>, cfg: Config, next: Next, r: RunId, e: ExecId, prior: Binding,
    budget: Consumption)
    requires Trailed(s, item, trail) && Owned(s, item, trail) && EarlierEnded(s, trail)
    requires HasEnded(s, trail[|trail| - 1])
    requires next.Start? && item in s.chains && r !in s.runs && e !in s.executions
    ensures var t := Launch(s, cfg, item, next, r, e, prior, budget);
            Owned(t, item, trail + [e]) && EarlierEnded(t, trail + [e])
  {
    hide Trailed, Continues;
    var t, trail' := Launch(s, cfg, item, next, r, e, prior, budget), trail + [e];
    forall o | o in t.runs && Continues(t.runs[o], item)
      ensures RunsOne(t, trail', o)
    {
      if o == r {
        assert trail'[|trail|] == e && t.executions[e].run == Some(r);
      } else {
        assert RunsOne(s, trail, o);
        var i :| 0 <= i < |trail| && trail[i] in s.executions && s.executions[trail[i]].run == Some(o);
        assert trail'[i] == trail[i] && t.executions[trail[i]] == s.executions[trail[i]];
      }
    }
    forall i | 0 <= i < |trail'| - 1
      ensures HasEnded(t, trail'[i])
    {
      assert HasEnded(s, trail[i]);
    }
  }

  /** Starting a stage of another WorkItem leaves this one's trail alone. */
  lemma LaunchElsewhere(
    s: Store, item: ItemId, trail: seq<ExecId>, cfg: Config, other: ItemId, next: Next, r: RunId, e: ExecId,
    prior: Binding, budget: Consumption)
    requires Inv(s) && Trailed(s, item, trail) && Owned(s, item, trail) && EarlierEnded(s, trail)
    requires next.Start? && other in s.chains && other != item && r !in s.runs && e !in s.executions
    ensures var t := Launch(s, cfg, other, next, r, e, prior, budget);
            Inv(t) && Trailed(t, item, trail) && Owned(t, item, trail) && EarlierEnded(t, trail)
  {
    hide Inv, Orderly;
    var t := Launch(s, cfg, other, next, r, e, prior, budget);
    LaunchInv(s, other, cfg, next, r, e, prior, budget);
    forall i | 0 <= i < |trail|
      ensures Bound(t, item, trail[i]) && KindOf(t, item, trail[i]) == KindOf(s, item, trail[i])
    {
      assert Bound(s, item, trail[i]);
    }
    assert Word(t, item, trail) == Word(s, item, trail);
    forall o | o in t.runs && Continues(t.runs[o], item)
      ensures RunsOne(t, trail, o)
    {
      assert o != r && RunsOne(s, trail, o);
    }
    forall i | 0 <= i < |trail| - 1
      ensures HasEnded(t, trail[i])
    {
      assert HasEnded(s, trail[i]);
    }
  }

  /** A Run of the WorkItem that makes the controller start something runs the latest stage. */
  lemma OnlyTheLatestContinues(s: Store, item: ItemId, trail: seq<ExecId>, id: RunId)
    requires id in s.runs && Continues(s.runs[id], item) && Owned(s, item, trail) && NotEarlier(s, trail, id)
    ensures trail != [] && trail[|trail| - 1] in s.executions && s.executions[trail[|trail| - 1]].run == Some(id)
  {
    hide Continues;
    assert RunsOne(s, trail, id);
  }

  lemma DueSurvives(s: Store, t: Store, trail: seq<ExecId>, due: set<RunId>)
    requires DueAreLatest(s, trail, due) && t.executions == s.executions
    ensures DueAreLatest(t, trail, due)
  {
    forall id | id in due
      ensures NotEarlier(t, trail, id)
    {
      assert NotEarlier(s, trail, id);
    }
  }

  /** With its own continuation made, a Run may become an earlier one. */
  lemma DueExtends(
    s: Store, t: Store, item: ItemId, trail: seq<ExecId>, due: set<RunId>, id: RunId, e: ExecId, x: Execution)
    requires Trailed(s, item, trail) && DueAreLatest(s, trail, due) && trail != []
    requires s.executions[trail[|trail| - 1]].run == Some(id)
    requires e !in s.executions && t.executions == s.executions[e := x]
    ensures DueAreLatest(t, trail + [e], due - {id})
  {
    hide Orderly;
    forall other | other in due - {id}
      ensures NotEarlier(t, trail + [e], other)
    {
      assert NotEarlier(s, trail, other);
      forall i | 0 <= i < |trail|
        ensures t.executions[trail[i]].run != Some(other)
      {
        assert Bound(s, item, trail[i]);
      }
    }
  }

  lemma DueElsewhere(s: Store, t: Store, item: ItemId, trail: seq<ExecId>, due: set<RunId>, e: ExecId, x: Execution)
    requires Trailed(s, item, trail) && DueAreLatest(s, trail, due)
    requires e !in s.executions && t.executions == s.executions[e := x]
    ensures DueAreLatest(t, trail, due)
  {
    hide Orderly;
    forall id | id in due
      ensures NotEarlier(t, trail, id)
    {
      assert NotEarlier(s, trail, id);
      forall i | 0 <= i < |trail|
        ensures t.executions[trail[i]] == s.executions[trail[i]]
      {
        assert Bound(s, item, trail[i]);
      }
    }
  }

  lemma FewerDue(s: Store, trail: seq<ExecId>, due: set<RunId>, id: RunId)
    requires DueAreLatest(s, trail, due)
    ensures DueAreLatest(s, trail, due - {id})
  {
    hide NotEarlier;
  }

  lemma OneMoreDue(s: Store, trail: seq<ExecId>, due: set<RunId>, id: RunId)
    requires DueAreLatest(s, trail, due) && NotEarlier(s, trail, id)
    ensures DueAreLatest(s, trail, due + {id})
  {
    hide NotEarlier;
  }

  /** The continuation of a Run of this very WorkItem. */
  lemma OwnLaunchSound(
    x: System, item: ItemId, id: RunId, ev: Evidence, cfg: Config, r: RunId, e: ExecId, prior: Binding,
    budget: Consumption)
    requires Sound(x, item) && id in x.store.runs && r !in x.store.runs && e !in x.store.executions
    requires NotEarlier(x.store, x.trail, id)
    requires x.store.runs[id].workItem == Some(item) && item in x.store.chains
    requires NextStage(x.store, cfg, id, ev).Start?
    ensures Sound(System(Launch(x.store, cfg, item, NextStage(x.store, cfg, id, ev), r, e, prior, budget),
                         x.trail + [e], x.due - {id}), item)
  {
    var s, trail, next := x.store, x.trail, NextStage(x.store, cfg, id, ev);
    OnlyItsRunsContinue(s, item, cfg, ev, id);
    OnlyTheLatestContinues(s, item, trail, id);
    CompletedHasEnded(s, trail[|trail| - 1], id);
    LaunchExecutions(s, cfg, item, next, r, e, prior, budget);
    hide Inv, Trailed, Owned, EarlierEnded, NextStage, Launch, MayFollow, KindStarted, HasEnded, Continues,
      DueAreLatest, NotEarlier;
    NextIsOrderly(s, item, trail, cfg, ev, id);
    LaunchExtends(s, item, trail, cfg, next, r, e, prior, budget);
    LaunchOwned(s, item, trail, cfg, next, r, e, prior, budget);
    var t := Launch(s, cfg, item, next, r, e, prior, budget);
    DueExtends(s, t, item, trail, x.due, id, e, t.executions[e]);
  }

  lemma LaunchExecutions(
    s: Store, cfg: Config, item: ItemId, next: Next, r: RunId, e: ExecId, prior: Binding, budget: Consumption)
    requires next.Start? && item in s.chains
    ensures var t := Launch(s, cfg, item, next, r, e, prior, budget);
            e in t.executions && t.executions == s.executions[e := t.executions[e]]
  {
  }

  lemma ContinueSound(
    x: System, item: ItemId, id: RunId, ev: Evidence, cfg: Config, ready: bool, r: RunId, e: ExecId,
      budget: Consumption)
    requires Sound(x, item) && id in x.store.runs && r !in x.store.runs && e !in x.store.executions
    requires NotEarlier(x.store, x.trail, id)
    ensures var t := Continue(x.store, cfg, id, ev, ready, r, e, budget);
            Sound(System(t, if e in t.executions && t.executions[e].item == item then x.trail + [e] else x.trail,
                         x.due - {id}), item)
  {
    hide NextStage, Launch, ContinuationFailed, NotEarlier, Inv, Trailed, Owned, EarlierEnded, DueAreLatest;
    var s, next, prior := x.store, NextStage(x.store, cfg, id, ev), x.store.runs[id].binding;
    FailureSound(x, item, s.runs[id].workItem);
    FewerDue(s, x.trail, x.due, id);
    FewerDue(ContinuationFailed(s, s.runs[id].workItem), x.trail, x.due, id);
    if next.Start? && ready && s.runs[id].workItem.Some? && s.runs[id].workItem.value in s.chains {
      var owner := s.runs[id].workItem.value;
      StartHasBinding(s, cfg, id, ev);
      LaunchAdds(s, cfg, owner, next, r, e, prior.value, budget);
      if owner == item {
        OwnLaunchSound(x, item, id, ev, cfg, r, e, prior.value, budget);
      } else {
        LaunchElsewhere(s, item, x.trail, cfg, owner, next, r, e, prior.value, budget);
        LaunchExecutions(s, cfg, owner, next, r, e, prior.value, budget);
        var t := Launch(s, cfg, owner, next, r, e, prior.value, budget);
        DueElsewhere(s, t, item, x.trail, x.due - {id}, e, t.executions[e]);
      }
    }
  }

  lemma StartHasBinding(s: Store, cfg: Config, id: RunId, ev: Evidence)
    requires id in s.runs && NextStage(s, cfg, id, ev).Start?
    ensures s.runs[id].binding.Some?
  {
    hide RepairableFailure;
  }

  lemma CompletedHasEnded(s: Store, e: ExecId, id: RunId)
    requires e in s.executions && s.executions[e].run == Some(id) && id in s.runs && s.runs[id].status == Completed
    ensures HasEnded(s, e)
  {
  }

  lemma FailureSound(x: System, item: ItemId, owner: Option<ItemId>)
    requires Sound(x, item)
    ensures Sound(x.(store := ContinuationFailed(x.store, owner)), item)
    ensures ContinuationFailed(x.store, owner).executions == x.store.executions
  {
    var t := ContinuationFailed(x.store, owner);
    FailedContinuationKeeps(x.store, owner);
    SameRecordsKeep(x.store, t);
    TrailSurvives(x.store, t, item, x.trail);
    OwnedSurvives(x.store, t, item, x.trail);
    DueSurvives(x.store, t, x.trail, x.due);
    hide Inv, Trailed, Owned, EarlierEnded, DueAreLatest, Settled, ContinuationFailed;
  }

  lemma LaunchAdds(
    s: Store, cfg: Config, item: ItemId, next: Next, r: RunId, e: ExecId, prior: Binding, budget: Consumption)
    requires next.Start? && item in s.chains
    ensures var t := Launch(s, cfg, item, next, r, e, prior, budget);
            e in t.executions && t.executions[e].item == item
  {
  }

  /** A Run that has ended is no Run of an open stage: a callback that is accepted is not an earlier stage's. */
  lemma AcceptedIsNotEarlier(s: Store, trail: seq<ExecId>, id: RunId, attempt: Attempt, ev: Evidence)
    requires EarlierEnded(s, trail) && Finish(s, id, attempt, ev).ok
    ensures NotEarlier(s, trail, id)
  {
    hide Finish;
    if id !in s.runs || Terminal(s.runs[id].status) {
      FinishRefused(s, id, attempt, ev);
    }
    forall i | 0 <= i < |trail| - 1
      ensures trail[i] in s.executions ==> s.executions[trail[i]].run != Some(id)
    {
      assert HasEnded(s, trail[i]);
    }
  }

  lemma EarlierIsNotDue(s: Store, trail: seq<ExecId>, due: set<RunId>, id: RunId, i: nat)
    requires DueAreLatest(s, trail, due) && i < |trail| - 1
    requires trail[i] in s.executions && s.executions[trail[i]].run == Some(id)
    ensures id !in due
  {
    forall other | other in due
      ensures other != id
    {
      assert NotEarlier(s, trail, other);
    }
  }

  /** A late callback or continuation for an earlier stage is refused and starts nothing. */
  lemma LateCallbackStartsNothing(x: System, item: ItemId, event: Event, i: nat)
    requires Sound(x, item) && (event.Returned? || event.Continued?) && i < |x.trail| - 1
    requires x.trail[i] in x.store.executions && x.store.executions[x.trail[i]].run == Some(event.id)
    ensures Happen(x, event, item) == x
  {
    assert HasEnded(x.store, x.trail[i]);
    if event.Returned? {
      FinishRefused(x.store, event.id, event.attempt, event.ev);
    } else {
      EarlierIsNotDue(x.store, x.trail, x.due, event.id, i);
    }
    hide Finish, Continue, Inv, Trailed, Owned;
  }

  lemma FinishSound(x: System, item: ItemId, id: RunId, attempt: Attempt, ev: Evidence)
    requires Sound(x, item)
    ensures Sound(x.(store := Finish(x.store, id, attempt, ev).store), item)
    ensures Finish(x.store, id, attempt, ev).store.executions == x.store.executions
    ensures Finish(x.store, id, attempt, ev).store.runs.Keys == x.store.runs.Keys
  {
    var t := Finish(x.store, id, attempt, ev).store;
    FinishKeeps(x.store, id, attempt, ev);
    hide Finish;
    TrailSurvives(x.store, t, item, x.trail);
    OwnedSurvives(x.store, t, item, x.trail);
    SettledKeys(x.store, t);
    DueSurvives(x.store, t, x.trail, x.due);
    hide Inv, Trailed, Owned, EarlierEnded, DueAreLatest, Settled;
  }

  lemma EventSound(x: System, event: Event, item: ItemId)
    requires Sound(x, item)
    ensures Sound(Happen(x, event, item), item)
  {
    hide Inv, Trailed, Owned, EarlierEnded, DueAreLatest, NotEarlier, Finish, Continue, Settled, Apply;
    match event
    case Elsewhere(step) =>
      var t := Apply(x.store, step);
      StepKeeps(x.store, step);
      TrailSurvives(x.store, t, item, x.trail);
      OwnedSurvives(x.store, t, item, x.trail);
      SettledKeys(x.store, t);
      DueSurvives(x.store, t, x.trail, x.due);
    case Returned(id, attempt, ev) =>
      var f := Finish(x.store, id, attempt, ev);
      FinishSound(x, item, id, attempt, ev);
      if f.ok {
        AcceptedIsNotEarlier(x.store, x.trail, id, attempt, ev);
        SameNotEarlier(x.store, f.store, x.trail, id);
        OneMoreDue(f.store, x.trail, x.due, id);
      }
    case Continued(id, ev, cfg, ready, r, e, budget) =>
      if id in x.due && id in x.store.runs && r !in x.store.runs && e !in x.store.executions {
        DueIsNotEarlier(x.store, x.trail, x.due, id);
        ContinueSound(x, item, id, ev, cfg, ready, r, e, budget);
      }
  }

  lemma SameNotEarlier(s: Store, t: Store, trail: seq<ExecId>, id: RunId)
    requires NotEarlier(s, trail, id) && t.executions == s.executions
    ensures NotEarlier(t, trail, id)
  {
  }

  lemma DueIsNotEarlier(s: Store, trail: seq<ExecId>, due: set<RunId>, id: RunId)
    requires DueAreLatest(s, trail, due) && id in due
    ensures NotEarlier(s, trail, id)
  {
  }

  lemma SettledKeys(s: Store, t: Store)
    requires Settled(s, t)
    ensures t.executions == s.executions && t.runs.Keys == s.runs.Keys
  {
  }

  lemma LastBound(s: Store, item: ItemId, trail: seq<ExecId>)
    requires Trailed(s, item, trail)
    ensures trail != [] && Bound(s, item, trail[|trail| - 1])
  {
  }

  /**
    Whatever happens, in whatever order, to whichever Run a callback or a continuation belongs: the
    stages started for a WorkItem form an orderly word, so there is at most one repair and there are at
    most six stage executions.
   */
  lemma {:induction false} ChainEnds(x: System, events: seq<Event>, item: ItemId)
    requires Sound(x, item)
    ensures Sound(HappenAll(x, events, item), item)
    ensures ImplementCount(HappenAll(x, events, item).store, item) <= 2
    ensures |HappenAll(x, events, item).trail| <= 6
    decreases |events|
  {
    hide Happen, ImplementCount, Orderly;
    if events != [] {
      ChainEnds(x, events[..|events| - 1], item);
      EventSound(HappenAll(x, events[..|events| - 1], item), events[|events| - 1], item);
    }
    var y := HappenAll(x, events, item);
    CountIsBuilds(y.store, item, y.trail);
    AtMostOneRepair(Word(y.store, item, y.trail));
  }

  /** The first build of an authorized chain begins such a trail. */
  lemma ChainStarts(s: Store, item: ItemId, e: ExecId)
    requires Inv(s) && Bound(s, item, e) && s.executions[e].stage == Implement
    requires forall x | x in s.executions && s.executions[x].item == item && ChainStage(s.executions[x].stage) :: x == e
    requires forall r | r in s.runs && Continues(s.runs[r], item) :: s.executions[e].run == Some(r)
    ensures forall due :: Sound(System(s, [e], due), item)
  {
    assert Word(s, item, [e]) == [Build];
    forall r | r in s.runs && Continues(s.runs[r], item)
      ensures RunsOne(s, [e], r)
    {
      assert [e][0] == e;
    }
    hide Inv;
  }
}
