/** What finalizing a Run does to its recorded consumption. */
module Budget {
  import opened Wrappers
  import opened WorkStore
  import opened StageSeals
  import opened Finalization

  predicate SameAllowance(c: Consumption, d: Consumption) {
    d.allowedTurns == c.allowedTurns && d.allowedTokens == c.allowedTokens
  }

  predicate UsedAtLeast(c: Consumption, d: Consumption) {
    d.turns >= c.turns && d.tokens >= c.tokens && d.seconds >= c.seconds
  }

  /** The resumable payload of a budget pause reports less than is already recorded. */
  predicate PausesLower(run: Run, attempt: Attempt) {
    && AsksExtension(attempt.status) && attempt.pause.Some?
    && (attempt.pause.value.turns < run.consumption.turns || attempt.pause.value.seconds < run.consumption.seconds)
  }

  /** The callback gets as far as recording the payload. */
  predicate PauseRecorded(run: Run, attempt: Attempt, ev: Evidence) {
    && !Terminal(run.status) && Acceptable(run, Reported(run, attempt)) && ev.workspaceAccepted
    && AsksExtension(attempt.status) && attempt.pause.Some? && PauseAcceptable(run, attempt.pause.value)
  }

  lemma SyncKeepsRuns(s: Store, id: RunId, attempt: Attempt, ev: Evidence)
    requires id in s.runs
    ensures SyncStage(s, id, attempt, ev).store.runs == s.runs
  {
    SyncSealsOnly(s, id, attempt, ev);
    hide *;
  }

  ghost predicate OnlyUse(s: Store, t: Store, id: RunId, use: Consumption)
    requires id in s.runs
  {
    && t.runs.Keys == s.runs.Keys
    && (forall r | r in s.runs && r != id :: t.runs[r] == s.runs[r])
    && t.runs[id].consumption == use
  }

  lemma CompletedUse(s: Store, id: RunId, use: Consumption, status: RunStatus, result: RunResult, attempt: Attempt,
        ev: Evidence)
    requires id in s.runs
    ensures var t := SetRun(s, id, s.runs[id].(consumption := use));
            && OnlyUse(s, t, id, use)
            && OnlyUse(s, SyncStage(CompleteRun(t, id, status, result), id, attempt, ev).store, id, use)
  {
    hide SyncStage;
    var t := SetRun(s, id, s.runs[id].(consumption := use));
    SyncKeepsRuns(CompleteRun(t, id, status, result), id, attempt, ev);
  }

  lemma SetTwice(s: Store, id: RunId, a: Consumption, b: Consumption)
    requires id in s.runs
    ensures var t := SetRun(s, id, s.runs[id].(consumption := a));
            id in t.runs
            && SetRun(t, id, t.runs[id].(consumption := b)) == SetRun(s, id, s.runs[id].(consumption := b))
  {
  }

  /** The consumption a callback leaves behind. */
  lemma FinishRecords(s: Store, id: RunId, attempt: Attempt, ev: Evidence)
    requires id in s.runs
    ensures var run := s.runs[id];
            OnlyUse(s, Finish(s, id, attempt, ev).store, id,
                    if Terminal(run.status) || !Acceptable(run, Reported(run, attempt)) then run.consumption
                    else if PauseRecorded(run, attempt, ev) then attempt.pause.value
                    else Reported(run, attempt))
  {
    hide SyncStage, Acceptable, PauseAcceptable, StatusOf, ResultOf, TerminalText, Terminal, Reported, SetRun,
      CompleteRun, AsksApproval, AsksExtension;
    var run := s.runs[id];
    var c := Reported(run, attempt);
    var reported := attempt.(consumption := c);
    CompletedUse(s, id, c, StatusOf(attempt.status), ResultOf(run, reported), reported, ev);
    CompletedUse(s, id, c, ApprovalRequired, ResultOf(run, reported), reported, ev);
    if attempt.pause.Some? {
      SetTwice(s, id, c, attempt.pause.value);
      CompletedUse(
        s, id, attempt.pause.value, BudgetExtensionRequired, RunResult(attempt.status, true, None), reported, ev);
    }
    hide OnlyUse;
    if Terminal(run.status) || !Acceptable(run, c) {
      UseStays(s, id);
    }
  }

  lemma UseStays(s: Store, id: RunId)
    requires id in s.runs
    ensures OnlyUse(s, s, id, s.runs[id].consumption)
  {
  }

  /**
    A callback never changes the allowance and never lowers the tokens; it lowers the recorded
    turns or seconds exactly when it records a pause whose payload reports less.
   */
  lemma CallbackLowersExactly(s: Store, id: RunId, attempt: Attempt, ev: Evidence)
    requires id in s.runs
    ensures var run, t := s.runs[id], Finish(s, id, attempt, ev).store;
            && id in t.runs && SameAllowance(run.consumption, t.runs[id].consumption)
            && t.runs[id].consumption.tokens >= run.consumption.tokens
            && (!UsedAtLeast(run.consumption, t.runs[id].consumption) <==>
                PauseRecorded(run, attempt, ev) && PausesLower(run, attempt))
  {
    FinishRecords(s, id, attempt, ev);
    hide Finish;
  }

  const SPENT: Consumption := Consumption(10, 100, 5, 50, 60, 0)

  const SPENDER: Run := Run(Running, None, SPENT, None, None, false)

  const SPENDING: Store := Store(map["r" := SPENDER], map[], map[], map[], map[], map[], map[], map[])

  const LOW_PAUSE: Attempt := Attempt("budget_extension_required", SPENT, Some(SPENT.(turns := 1)))

  const NO_RECORDS: Evidence :=
    Evidence(true, true, true, [], [], true, "", [], false, None, Absent, Absent, None, None)

  /** A payload below the recorded use is accepted: recorded turns and seconds fall. */
  lemma PauseMayLower()
    ensures exists s: Store, id: RunId, attempt: Attempt, ev: Evidence ::
              id in s.runs && id in Finish(s, id, attempt, ev).store.runs
              && Finish(s, id, attempt, ev).store.runs[id].consumption.turns < s.runs[id].consumption.turns
  {
    FinishRecords(SPENDING, "r", LOW_PAUSE, NO_RECORDS);
    LowPauseRecorded();
    hide Finish, PauseRecorded;
  }

  lemma LowPauseRecorded()
    ensures PauseRecorded(SPENDER, LOW_PAUSE, NO_RECORDS)
  {
  }

  // ------------------------------------------------------------------ whole histories

  /** No step of the history records a pause below what is recorded for this Run. */
  ghost predicate NoLowering(s: Store, steps: seq<Step>, id: RunId) {
    forall i {:trigger steps[i]} | 0 <= i < |steps| && steps[i].Callback? && steps[i].run == id ::
      id in ApplyAll(s, steps[..i]).runs ==> !PausesLower(ApplyAll(s, steps[..i]).runs[id], steps[i].attempt)
  }

  predicate Extends(step: Step, id: RunId) {
    step.ExtensionApproved? && step.run == id
  }

  lemma BoundaryRecords(s: Store, id: RunId, preserve: bool, ev: Evidence, r: RunId)
    requires r in s.runs
    ensures var t := FailFromBoundary(s, id, preserve, ev);
            r in t.runs && t.runs[r].consumption == s.runs[r].consumption
  {
    hide SyncStage;
    if id in s.runs {
      var run := s.runs[id];
      SyncSealsOnly(CompleteRun(s, id, Failed, ResultOf(run, FailedAttempt(run))), id, FailedAttempt(run), ev);
    }
  }

  lemma ReconcileRecords(s: Store, id: RunId, ev: Evidence)
    ensures Reconcile(s, id, ev).store.runs == s.runs
  {
    hide SyncStage, FinishSealed;
    if id in s.runs && s.runs[id].binding.Some? {
      var b := s.runs[id].binding.value;
      if b.execution in s.outcomes && b.execution in s.executions {
        FinishSealedSealsNothing(s, s.runs[id], b, b.execution, ev);
      }
      if s.runs[id].result.Some? && s.runs[id].result.value.terminalAttempt.Some? {
        SyncSealsOnly(s, id, s.runs[id].result.value.terminalAttempt.value, ev);
      }
    }
  }

  /** The use did not fall and the allowance did not shrink; `fixed` says that it did not grow either. */
  predicate Kept(s: Store, t: Store, id: RunId, fixed: bool)
    requires id in s.runs
  {
    && id in t.runs && UsedAtLeast(s.runs[id].consumption, t.runs[id].consumption)
    && (fixed ==> SameAllowance(s.runs[id].consumption, t.runs[id].consumption))
    && t.runs[id].consumption.allowedTurns >= s.runs[id].consumption.allowedTurns
    && t.runs[id].consumption.allowedTokens >= s.runs[id].consumption.allowedTokens
  }

  lemma CallbackKeeps(s: Store, r: RunId, attempt: Attempt, ev: Evidence, id: RunId)
    requires id in s.runs && (r == id ==> !PausesLower(s.runs[id], attempt))
    ensures Kept(s, Finish(s, r, attempt, ev).store, id, true)
  {
    if r in s.runs {
      FinishRecords(s, r, attempt, ev);
      CallbackLowersExactly(s, r, attempt, ev);
    } else {
      FinishRefused(s, r, attempt, ev);
    }
    hide Finish, PausesLower, PauseRecorded, Acceptable, Terminal, Reported;
  }

  lemma ReapKeeps(s: Store, r: RunId, ev: Evidence, id: RunId)
    requires id in s.runs
    ensures Kept(s, Reap(s, r, ev).store, id, true)
  {
    hide FailFromBoundary, Reconcile, SyncStage, FailedAttempt;
    BoundaryRecords(s, r, false, ev, id);
    ReconcileRecords(s, r, ev);
    if r in s.runs {
      SyncSealsOnly(s, r, FailedAttempt(s.runs[r]), ev);
    }
  }

  lemma SameUseKept(s: Store, t: Store, id: RunId)
    requires id in s.runs && id in t.runs && t.runs[id].consumption == s.runs[id].consumption
    ensures Kept(s, t, id, true)
  {
  }

  lemma ExtensionKeeps(s: Store, r: RunId, turns: nat, tokens: nat, id: RunId)
    requires id in s.runs
    ensures Kept(s, Apply(s, ExtensionApproved(r, turns, tokens)), id, r != id)
  {
  }

  lemma StepRecords(s: Store, step: Step, id: RunId)
    requires id in s.runs
    requires step.Callback? && step.run == id ==> !PausesLower(s.runs[id], step.attempt)
    ensures Kept(s, Apply(s, step), id, !Extends(step, id))
  {
    hide Finish, FailFromBoundary, Reconcile, SyncStage, Reap, PausesLower, Kept;
    match step
    case Started(_) => SameUseKept(s, Apply(s, step), id);
    case ExtensionApproved(r, turns, tokens) => ExtensionKeeps(s, r, turns, tokens, id);
    case Callback(r, attempt, ev) => CallbackKeeps(s, r, attempt, ev, id);
    case DispatchFailed(r, preserve, ev) =>
      BoundaryRecords(s, r, preserve, ev, id);
      SameUseKept(s, Apply(s, step), id);
    case Reaped(r, ev) => ReapKeeps(s, r, ev, id);
    case Reconciled(r, ev) =>
      ReconcileRecords(s, r, ev);
      SameUseKept(s, Apply(s, step), id);
  }

  lemma NoLoweringPrefix(s: Store, steps: seq<Step>, id: RunId)
    requires steps != [] && NoLowering(s, steps, id)
    ensures NoLowering(s, steps[..|steps| - 1], id)
    ensures var before, last := ApplyAll(s, steps[..|steps| - 1]), steps[|steps| - 1];
            last.Callback? && last.run == id && id in before.runs ==> !PausesLower(before.runs[id], last.attempt)
  {
    hide ApplyAll, PausesLower;
    var front := steps[..|steps| - 1];
    forall i | 0 <= i < |front| && front[i].Callback? && front[i].run == id
      ensures id in ApplyAll(s, front[..i]).runs ==> !PausesLower(ApplyAll(s, front[..i]).runs[id], front[i].attempt)
    {
      assert front[i] == steps[i] && front[..i] == steps[..i];
    }
  }

  /**
    Over any interleaving in which no pause reports less than is recorded, the use of a Run never
    falls; and its allowance changes only by an approved extension, which never lowers it.
   */
  lemma {:induction false} UseNeverFalls(s: Store, steps: seq<Step>, id: RunId)
    requires id in s.runs && NoLowering(s, steps, id)
    ensures var t := ApplyAll(s, steps);
            Kept(s, t, id, forall step | step in steps :: !Extends(step, id))
    decreases |steps|
  {
    hide Apply, NoLowering, PausesLower, Extends;
    if steps != [] {
      var front, last := steps[..|steps| - 1], steps[|steps| - 1];
      assert steps == front + [last];
      NoLoweringPrefix(s, steps, id);
      UseNeverFalls(s, front, id);
      StepRecords(ApplyAll(s, front), last, id);
    }
  }
}
