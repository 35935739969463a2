/** What a worker's callback, and a failure outside the worker, leave on the Run, in the words of the report. */
module CallbackRecords {
  import opened Wrappers
  import opened WorkStore
  import opened StageSeals
  import opened Finalization
  import opened Budget

  // ------------------------------------------------------------------ what is accepted

  /** A Run that has neither completed, nor failed, nor been cancelled. */
  ghost predicate Open(run: Run) {
    run.status != Completed && run.status != Failed && run.status != Cancelled
  }

  /** The recorded consumption is the reported one, unless the report names no budget at all. */
  ghost predicate Recorded(run: Run, attempt: Attempt, use: Consumption) {
    if attempt.consumption.allowedTurns + attempt.consumption.allowedTokens > 0
    then use == attempt.consumption
    else use == run.consumption
  }

  /** The Run is open, the allowance is the one on record, and no use went down. */
  ghost predicate InBudget(run: Run, use: Consumption) {
    && Open(run) && SameAllowance(run.consumption, use) && UsedAtLeast(run.consumption, use)
  }

  /** The payload of a pause: the allowance on record, turns within it, and tokens that did not go down. */
  ghost predicate PauseInBudget(run: Run, pause: Consumption) {
    && SameAllowance(run.consumption, pause) && pause.tokens >= run.consumption.tokens
    && pause.turns <= run.consumption.allowedTurns
  }

  ghost predicate EndText(text: string) {
    text in {"completed", "failed", "cancelled"}
  }

  /** A callback that gets as far as ending or pausing its Run. */
  ghost predicate Accepted(run: Run, attempt: Attempt, ev: Evidence, use: Consumption) {
    && InBudget(run, use) && ev.workspaceAccepted
    && (|| EndText(attempt.status)
        || attempt.status == "approval_required"
        || (attempt.status == "budget_extension_required" && attempt.pause.Some?
            && PauseInBudget(run, attempt.pause.value) && run.workItem.Some?))
  }

  /** The stored result; a hosted Run that has ended also keeps the attempt, with the recorded consumption. */
  ghost predicate ResultKept(run: Run, attempt: Attempt, use: Consumption, result: RunResult) {
    && result.status == attempt.status && result.budgetExtension == attempt.pause.Some?
    && (if run.hosted && EndText(attempt.status)
        then result.terminalAttempt == Some(Attempt(attempt.status, use, attempt.pause))
        else result.terminalAttempt.None?)
  }

  /** How a Run ends, or pauses, on an accepted callback: exactly as the reported text says. */
  ghost predicate EndsAs(run: Run, attempt: Attempt, use: Consumption, ended: Run) {
    && SameTarget(run, ended)
    && (ended.status == Completed <==> attempt.status == "completed")
    && (ended.status == Failed <==> attempt.status == "failed")
    && (ended.status == Cancelled <==> attempt.status == "cancelled")
    && (ended.status == ApprovalRequired <==> attempt.status == "approval_required")
    && (ended.status == BudgetExtensionRequired <==> attempt.status == "budget_extension_required")
    && (attempt.status != "budget_extension_required" ==> ended.consumption == use)
    && (attempt.status == "budget_extension_required" ==> attempt.pause == Some(ended.consumption))
    && ended.result.Some? && ResultKept(run, attempt, use, ended.result.value)
  }

  /** Of all Runs, only this one changed. */
  ghost predicate OnlyRun(s: Store, t: Store, id: RunId) {
    id in s.runs && t.runs.Keys == s.runs.Keys && forall r | r in s.runs && r != id :: t.runs[r] == s.runs[r]
  }

  // ------------------------------------------------------------------ the callback

  lemma UseIs(run: Run, attempt: Attempt, use: Consumption)
    requires Recorded(run, attempt, use)
    ensures use == Reported(run, attempt)
    ensures InBudget(run, use) <==> !Terminal(run.status) && Acceptable(run, use)
  {
  }

  lemma PauseIs(run: Run, pause: Consumption)
    ensures PauseInBudget(run, pause) <==> PauseAcceptable(run, pause)
  {
  }

  /** What a refused callback leaves: the store as it was, or with a consumption recorded. */
  ghost predicate RefusedWith(s: Store, t: Store, id: RunId, attempt: Attempt, ev: Evidence, use: Consumption)
    requires id in s.runs
  {
    var run := s.runs[id];
    if !InBudget(run, use) then t == s
    else
      || t == s.(runs := s.runs[id := run.(consumption := use)])
      || (ev.workspaceAccepted && attempt.status == "budget_extension_required" && attempt.pause.Some?
          && PauseInBudget(run, attempt.pause.value) && run.workItem.None?
          && t == s.(runs := s.runs[id := run.(consumption := attempt.pause.value)]))
  }

  lemma RefusedEarly(s: Store, id: RunId, attempt: Attempt, ev: Evidence, use: Consumption)
    requires id in s.runs && Recorded(s.runs[id], attempt, use)
    requires !InBudget(s.runs[id], use) || !ev.workspaceAccepted
    ensures var f := Finish(s, id, attempt, ev); !f.ok && RefusedWith(s, f.store, id, attempt, ev, use)
  {
    UseIs(s.runs[id], attempt, use);
    hide SyncStage, Reported, InBudget, Acceptable, Terminal, Recorded, PauseAcceptable, PauseInBudget, StatusOf,
      ResultOf, CompleteRun, TerminalText, AsksApproval, AsksExtension;
  }

  lemma RefusedLate(s: Store, id: RunId, attempt: Attempt, ev: Evidence, use: Consumption)
    requires id in s.runs && Recorded(s.runs[id], attempt, use) && InBudget(s.runs[id], use) && ev.workspaceAccepted
    requires !TerminalText(attempt.status) && !AsksApproval(attempt.status)
    requires !(AsksExtension(attempt.status) && attempt.pause.Some?
               && PauseInBudget(s.runs[id], attempt.pause.value) && s.runs[id].workItem.Some?)
    ensures var f := Finish(s, id, attempt, ev); !f.ok && RefusedWith(s, f.store, id, attempt, ev, use)
  {
    var run := s.runs[id];
    UseIs(run, attempt, use);
    assert AsksExtension(attempt.status) ==> attempt.status == "budget_extension_required";
    hide SyncStage, Reported, InBudget, Acceptable, Terminal, Recorded, PauseAcceptable, PauseInBudget, StatusOf,
      ResultOf, CompleteRun, TerminalText, AsksApproval, AsksExtension;
    var t := SetRun(s, id, run.(consumption := use));
    if attempt.pause.Some? {
      PauseIs(run, attempt.pause.value);
      var u := SetRun(t, id, t.runs[id].(consumption := attempt.pause.value));
      assert u == s.(runs := s.runs[id := run.(consumption := attempt.pause.value)]);
    }
  }

  /** A refused callback reports the refusal, and at most records a consumption. */
  lemma RefusedCallback(s: Store, id: RunId, attempt: Attempt, ev: Evidence, use: Consumption)
    requires id in s.runs && Recorded(s.runs[id], attempt, use) && !Accepted(s.runs[id], attempt, ev, use)
    ensures var f := Finish(s, id, attempt, ev); !f.ok && RefusedWith(s, f.store, id, attempt, ev, use)
  {
    hide Finish, Recorded, InBudget, PauseInBudget, RefusedWith;
    if !InBudget(s.runs[id], use) || !ev.workspaceAccepted {
      RefusedEarly(s, id, attempt, ev, use);
    } else {
      RefusedLate(s, id, attempt, ev, use);
    }
  }

  /**
    An accepted callback ends or pauses the Run as the reported text says, and records that text, the
    consumption and, on a hosted Run that has ended, the attempt. The stage is then synchronized.
   */
  lemma AcceptedCallback(s: Store, id: RunId, attempt: Attempt, ev: Evidence, use: Consumption)
    requires id in s.runs && Recorded(s.runs[id], attempt, use) && Accepted(s.runs[id], attempt, ev, use)
    ensures var t := Finish(s, id, attempt, ev).store;
            OnlyRun(s, t, id) && EndsAs(s.runs[id], attempt, use, t.runs[id])
  {
    var run := s.runs[id];
    var reported := attempt.(consumption := use);
    var status := if TerminalText(attempt.status) then StatusOf(attempt.status)
                  else if AsksApproval(attempt.status) then ApprovalRequired else BudgetExtensionRequired;
    var paused := AsksExtension(attempt.status);
    var result := if paused then RunResult(attempt.status, true, None) else ResultOf(run, reported);
    var done := run.(consumption := if paused then attempt.pause.value else use, status := status,
                     result := Some(result));
    FinishEnds(s, id, attempt, ev, use, done);
    DoneEnds(run, attempt, use, done);
    hide *;
    OneRunSet(s, id, done, reported, ev);
  }

  lemma OneRunSet(s: Store, id: RunId, done: Run, attempt: Attempt, ev: Evidence)
    requires id in s.runs
    ensures id in SetRun(s, id, done).runs
    ensures var t := SyncStage(SetRun(s, id, done), id, attempt, ev).store; OnlyRun(s, t, id) && t.runs[id] == done
  {
    hide SyncStage;
    SyncKeepsRuns(SetRun(s, id, done), id, attempt, ev);
  }

  lemma DoneEnds(run: Run, attempt: Attempt, use: Consumption, done: Run)
    requires || EndText(attempt.status) || attempt.status == "approval_required"
             || (attempt.status == "budget_extension_required" && attempt.pause.Some?)
    requires done == run.(
      consumption := if AsksExtension(attempt.status) then attempt.pause.value else use,
      status := if TerminalText(attempt.status) then StatusOf(attempt.status)
                else if AsksApproval(attempt.status) then ApprovalRequired else BudgetExtensionRequired,
      result := Some(if AsksExtension(attempt.status) then RunResult(attempt.status, true, None)
                     else ResultOf(run, attempt.(consumption := use))))
    ensures EndsAs(run, attempt, use, done)
  {
  }

  lemma FinishEnds(s: Store, id: RunId, attempt: Attempt, ev: Evidence, use: Consumption, done: Run)
    requires id in s.runs && Recorded(s.runs[id], attempt, use)
    requires InBudget(s.runs[id], use) && ev.workspaceAccepted
    requires || TerminalText(attempt.status) || AsksApproval(attempt.status)
             || (AsksExtension(attempt.status) && attempt.pause.Some?
                 && PauseInBudget(s.runs[id], attempt.pause.value) && s.runs[id].workItem.Some?)
    requires done == s.runs[id].(
      consumption := if AsksExtension(attempt.status) then attempt.pause.value else use,
      status := if TerminalText(attempt.status) then StatusOf(attempt.status)
                else if AsksApproval(attempt.status) then ApprovalRequired else BudgetExtensionRequired,
      result := Some(if AsksExtension(attempt.status) then RunResult(attempt.status, true, None)
                     else ResultOf(s.runs[id], attempt.(consumption := use))))
    ensures Finish(s, id, attempt, ev) == SyncStage(SetRun(s, id, done), id, attempt.(consumption := use), ev)
  {
    var run := s.runs[id];
    UseIs(run, attempt, use);
    hide SyncStage, Reported, InBudget, Acceptable, Terminal, Recorded, PauseAcceptable, PauseInBudget, StatusOf,
      ResultOf, TerminalText, AsksApproval, AsksExtension;
    var t := SetRun(s, id, run.(consumption := use));
    assert SetRun(t, id, done) == SetRun(s, id, done);
    if attempt.pause.Some? {
      PauseIs(run, attempt.pause.value);
      assert SetRun(SetRun(t, id, t.runs[id].(consumption := attempt.pause.value)), id, done) == SetRun(s, id, done);
    }
  }

  // ------------------------------------------------------------------ a failure outside the worker

  /** The Run waits to be dispatched again after an approved extension, and its pause is still on record. */
  ghost predicate WaitsToResume(run: Run) {
    && run.status == Queued && run.consumption.extensions >= 1
    && exists result :: run.result == Some(result) && result.budgetExtension
  }

  /**
    A failure outside the worker ends exactly the Runs that are open. The consumption stays; a Run that waits
    to be resumed keeps the result it resumes from, and any other gets the result of a failed attempt.
   */
  lemma OutsideFailure(s: Store, id: RunId, preserve: bool, ev: Evidence)
    requires id in s.runs
    ensures var run, t := s.runs[id], FailFromBoundary(s, id, preserve, ev);
            && OnlyRun(s, t, id) && (!Open(run) ==> t == s)
            && (Open(run) && preserve && WaitsToResume(run) ==> t == s.(runs := s.runs[id := run.(status := Failed)]))
            && (Open(run) && !(preserve && WaitsToResume(run)) ==>
                  EndsAs(run, Attempt("failed", run.consumption, None), run.consumption, t.runs[id]))
  {
    var run := s.runs[id];
    WaitsIs(run);
    var done := run.(status := Failed, result := Some(ResultOf(run, FailedAttempt(run))));
    DoneEnds(run, FailedAttempt(run), run.consumption, done);
    OneRunSet(s, id, done, FailedAttempt(run), ev);
    hide SyncStage, Resumable, WaitsToResume, EndsAs, ResultOf;
  }

  lemma WaitsIs(run: Run)
    ensures Resumable(run) <==> WaitsToResume(run)
  {
    if Resumable(run) {
      assert run.result == Some(run.result.value);
    }
  }

  // ------------------------------------------------------------------ the stage of a Run

  /** The execution that the Run's binding names is of that stage and of this very Run. */
  ghost predicate OwnStage(s: Store, id: RunId, b: Binding) {
    && id in s.runs && s.runs[id].binding == Some(b) && b.execution in s.executions
    && b.stage == Some(s.executions[b.execution].stage) && s.executions[b.execution].run == Some(id)
  }

  /** A Run's stage is judged if it is its own and has no outcome yet, and the end and the evidence are acceptable. */
  ghost predicate Judged(s: Store, id: RunId, b: Binding, attempt: Attempt, ev: Evidence) {
    && OwnStage(s, id, b) && b.execution !in s.outcomes
    && EndText(attempt.status) && ev.retrievalsAccepted
  }

  /** Synchronizing a Run seals an outcome only if its stage is judged; a judged stage is sealed by its finalizer. */
  lemma OnlyItsOwnStageIsSealed(s: Store, id: RunId, b: Binding, attempt: Attempt, ev: Evidence)
    requires id in s.runs && s.runs[id].binding == Some(b)
    ensures var f := SyncStage(s, id, attempt, ev);
            && (f.store.outcomes != s.outcomes ==> Judged(s, id, b, attempt, ev))
            && (Judged(s, id, b, attempt, ev) ==> f == SealStage(s, id, b, attempt, ev))
            && (f.ok ==> OwnStage(s, id, b))
  {
    SyncSealsOnly(s, id, attempt, ev);
    if OwnStage(s, id, b) && b.execution in s.outcomes {
      FinishSealedSealsNothing(s, s.runs[id], b, b.execution, ev);
    }
    hide SealStage, FinishSealed, SealsOnly;
  }

  // ------------------------------------------------------------------ reconciling an ended Run

  /** The attempt is the one that ended the Run: same end, same consumption. */
  ghost predicate Ended(run: Run, attempt: Attempt) {
    && (attempt.status == "completed" <==> run.status == Completed)
    && (attempt.status == "failed" <==> run.status == Failed)
    && (attempt.status == "cancelled" <==> run.status == Cancelled)
    && attempt.consumption == run.consumption
  }

  ghost predicate KeepsEvidence(run: Run, attempt: Attempt) {
    && run.result.Some? && run.result.value.status == attempt.status
    && run.result.value.terminalAttempt == Some(attempt) && Ended(run, attempt)
  }

  /** A hosted Run that ended, with its own stage of its own WorkItem. */
  ghost predicate Identified(s: Store, id: RunId, b: Binding) {
    && OwnStage(s, id, b) && s.runs[id].hosted && !Open(s.runs[id])
    && s.runs[id].workItem == Some(s.executions[b.execution].item)
  }

  /**
    An ended hosted Run is reconciled exactly when it is identified and its stage is sealed or its evidence
    is kept; that is the synchronization which the interrupted callback did not come to.
   */
  lemma ReconcilesExactly(s: Store, id: RunId, b: Binding, attempt: Attempt, ev: Evidence)
    requires id in s.runs && s.runs[id].binding == Some(b)
    ensures Identified(s, id, b) && b.execution in s.outcomes ==>
              Reconcile(s, id, ev) == SyncStage(s, id, attempt, ev)
    ensures Identified(s, id, b) && b.execution !in s.outcomes && KeepsEvidence(s.runs[id], attempt) ==>
              Reconcile(s, id, ev) == SyncStage(s, id, attempt, ev)
    ensures !Identified(s, id, b) ==> Reconcile(s, id, ev) == Effect(s, false)
    ensures b.execution !in s.outcomes && (forall kept :: !KeepsEvidence(s.runs[id], kept)) ==>
              Reconcile(s, id, ev) == Effect(s, false)
  {
    hide SealStage, FinishSealed;
    var run := s.runs[id];
    if run.result.Some? && run.result.value.terminalAttempt.Some? {
      var kept := run.result.value.terminalAttempt.value;
      EndedIs(run, kept);
      assert KeepsEvidence(run, kept) <==> Ended(run, kept) && run.result.value.status == kept.status;
    }
    EndedIs(run, attempt);
    hide Ended, StatusOf, TerminalText;
  }

  lemma EndedIs(run: Run, attempt: Attempt)
    ensures !Open(run) && Ended(run, attempt) <==>
              TerminalText(attempt.status) && StatusOf(attempt.status) == run.status
              && attempt.consumption == run.consumption
  {
  }

  /** What an accepted terminal callback leaves on a hosted Run is all that reconciling it needs. */
  lemma CallbackKeepsEvidence(s: Store, id: RunId, attempt: Attempt, ev: Evidence, use: Consumption)
    requires id in s.runs && s.runs[id].hosted && EndText(attempt.status)
    requires Recorded(s.runs[id], attempt, use) && Accepted(s.runs[id], attempt, ev, use)
    ensures var t := Finish(s, id, attempt, ev).store;
            id in t.runs && !Open(t.runs[id]) && KeepsEvidence(t.runs[id], Attempt(attempt.status, use, attempt.pause))
  {
    AcceptedCallback(s, id, attempt, ev, use);
    hide Finish, Recorded, Accepted;
  }

  // ------------------------------------------------------------------ the reaper of worker Jobs

  /**
    A failed Job fails a Run that was queued or running, and leaves any other open Run alone; for a Run that
    has failed already the stage is brought to its end.
   */
  lemma ReapedRun(s: Store, id: RunId, ev: Evidence)
    ensures var f := Reap(s, id, ev);
            && (id in s.runs && s.runs[id].status in {Queued, Running} ==>
                  && f.ok && f.store == FailFromBoundary(s, id, false, ev)
                  && id in f.store.runs && f.store.runs[id].status == Failed)
            && (id !in s.runs || s.runs[id].status !in {Queued, Running, Failed} ==> f == Effect(s, true))
            && (id in s.runs && s.runs[id].status == Failed ==>
                  f == if s.runs[id].hosted then Reconcile(s, id, ev)
                       else SyncStage(s, id, Attempt("failed", s.runs[id].consumption, None), ev))
  {
    if id in s.runs {
      OutsideFailure(s, id, false, ev);
    }
    hide FailFromBoundary, Reconcile, SyncStage;
  }
}
