/** A report that is written late brings a failed execution back, as often as it likes. */
module ReaperRestorations {
  import opened Wrappers
  import opened Reaper
  import opened ReaperSystem
  import opened ReaperHistory
  import opened ReaperLosses

  // ------------------------------------------------------------------ histories put together

  lemma AfterFirst(s: System, step: Step, rest: seq<Step>)
    ensures After(s, [step] + rest) == After(Next(s, step), rest)
  {
    hide Next;
    AfterSplit(s, [step], rest);
    assert [] + [step] == [step];
    AfterOne(s, [], step);
    AfterNone(s);
  }

  lemma {:induction false} LateStoresSplit(s: System, a: seq<Step>, b: seq<Step>, id: IntentId, execution: string)
    ensures LateStores(s, a + b, id, execution) ==
            LateStores(s, a, id, execution) + LateStores(After(s, a), b, id, execution)
    decreases |b|
  {
    hide RestoresLate, Next;
    if b == [] {
      assert a + b == a;
    } else {
      var front, last := b[..|b| - 1], b[|b| - 1];
      LateStoresSplit(s, a, front, id, execution);
      AfterSplit(s, a, front);
      assert (a + b)[..|a + b| - 1] == a + front && (a + b)[|a + b| - 1] == last;
    }
  }

  lemma {:induction false} RecordingsSplit(a: seq<Step>, b: seq<Step>, id: IntentId, execution: string)
    ensures Recordings(a + b, id, execution) == Recordings(a, id, execution) + Recordings(b, id, execution)
    decreases |b|
  {
    hide RecordsJobOf;
    if b == [] {
      assert a + b == a;
    } else {
      RecordingsSplit(a, b[..|b| - 1], id, execution);
      assert (a + b)[..|a + b| - 1] == a + b[..|b| - 1] && (a + b)[|a + b| - 1] == b[|b| - 1];
    }
  }

  lemma {:induction false} NoStoresNoneLate(s: System, steps: seq<Step>, id: IntentId, execution: string)
    requires forall step | step in steps :: !step.Store?
    ensures LateStores(s, steps, id, execution) == 0
    decreases |steps|
  {
    if steps != [] {
      var front, last := steps[..|steps| - 1], steps[|steps| - 1];
      assert last in steps && forall step | step in front :: step in steps;
      NoStoresNoneLate(s, front, id, execution);
      hide After;
    }
  }

  lemma {:induction false} NoRecords(steps: seq<Step>, id: IntentId, execution: string)
    requires forall step | step in steps :: !step.Other?
    ensures Recordings(steps, id, execution) == 0
    decreases |steps|
  {
    if steps != [] {
      var front, last := steps[..|steps| - 1], steps[|steps| - 1];
      assert last in steps && forall step | step in front :: step in steps;
      NoRecords(front, id, execution);
    }
  }

  // ------------------------------------------------------------------ one pass between a report's read and its write

  const DUE := Call("i", "e", "j", JOB_DISAPPEARED)

  /** The intent waits for a Job that is not in the cluster. */
  function Waiting(state: string): Intent {
    Intent("executing", ExecutionState(Some("e"), Some("j"), state, None))
  }

  function Between(state: string, audit: seq<Call>): System {
    System(map["i" := Waiting(state)], [], [], {"j"}, None, audit)
  }

  const SUBMITTED := Report("i", "e", Submitted, None)

  /** The executor's report reads the intent, a whole pass fails the execution, and the report is written. */
  function Pass(): seq<Step> {
    [ListJobs, ListIntents(["i"]), Look, Write, Finish]
  }

  lemma ListingFindsIt(state: string, audit: seq<Call>, drafts: seq<Draft>)
    ensures var s := Between(state, audit).(drafts := drafts);
            && Next(s, ListJobs) == s.(progress := Some(Progress([], {"j"}, None, 0, None)))
            && Next(Next(s, ListJobs), ListIntents(["i"])) ==
               s.(progress := Some(Progress([], {"j"}, Some([("i", Waiting(state))]), 0, None)))
  {
    var s, x := Between(state, audit).(drafts := drafts), ("i", Waiting(state));
    assert ["i"][..0] == [] && InExecution(s.intents, []) == [];
    assert InExecution(s.intents, ["i"]) == [x] && Listed(s.intents, ["i"], WINDOW) == [x];
    hide InExecution, Listed;
  }

  lemma MissingIsDue(state: string)
    ensures CallFor(("i", Waiting(state)), Visible([])) == Some(DUE)
  {
    assert Visible([]) == {};
  }

  lemma SweepFailsIt(state: string, audit: seq<Call>, drafts: seq<Draft>)
    ensures var s := Between(state, audit).(drafts := drafts);
            After(s, Pass()) == s.(intents := map["i" := Lost("e", "j", JOB_DISAPPEARED)], audit := audit + [DUE])
  {
    hide InExecution, Listed, CallFor, Visible, After;
    var s, x, p := Between(state, audit).(drafts := drafts), ("i", Waiting(state)), Pass();
    ListingFindsIt(state, audit, drafts);
    MissingIsDue(state);
    var s2 := s.(progress := Some(Progress([], {"j"}, Some([x]), 0, None)));
    var s3 := s.(progress := Some(Progress([], {"j"}, Some([x]), 1, Some(DUE))));
    assert Next(s2, Look) == s3;
    FourSteps(s, ListJobs, ListIntents(["i"]), Look, Write);
    AfterOne(s, [ListJobs, ListIntents(["i"]), Look, Write], Finish);
    assert p == [ListJobs, ListIntents(["i"]), Look, Write] + [Finish];
  }

  function Round(): seq<Step> {
    [Prepare(SUBMITTED)] + Pass() + [Store(0)]
  }

  lemma RoundRestores(state: string, audit: seq<Call>)
    ensures var s := Between(state, audit);
            && After(s, Round()) == Between("pipeline_run_created", audit + [DUE])
            && LateStores(s, Round(), "i", "e") == 1 && Recordings(Round(), "i", "e") == 0
  {
    var s := Between(state, audit);
    var d := Draft(SUBMITTED, Waiting(state));
    var s1 := s.(drafts := [d]);
    assert Next(s, Prepare(SUBMITTED)) == s1;
    SweepFailsIt(state, audit, [d]);
    var s2 := After(s1, Pass());
    assert Next(s2, Store(0)) == Between("pipeline_run_created", audit + [DUE]);
    assert RestoresLate(s2, Store(0), "i", "e");
    var front := [Prepare(SUBMITTED)] + Pass();
    AfterFirst(s, Prepare(SUBMITTED), Pass());
    AfterOne(s, front, Store(0));
    NoStoresNoneLate(s, front, "i", "e");
    NoRecords(Round(), "i", "e");
    hide After, Next, RestoresLate;
    assert Round()[..|Round()| - 1] == front;
  }

  function Rounds(n: nat): seq<Step> {
    if n == 0 then [] else Rounds(n - 1) + Round()
  }

  /** The state after `n` rounds, in which the execution has been failed `n` times. */
  lemma {:induction false} RoundsRestore(n: nat)
    ensures var s := Between("executor_job_created", []);
            && LateStores(s, Rounds(n), "i", "e") == n && Recordings(Rounds(n), "i", "e") == 0
            && exists state, audit :: After(s, Rounds(n)) == Between(state, audit) && Failures(audit, "i", "e") == n
  {
    var s := Between("executor_job_created", []);
    hide After, Between, LateStores, Recordings, Round;
    if n == 0 {
      AfterNone(s);
      NoStoresNoneLate(s, [], "i", "e");
      NoRecords([], "i", "e");
    } else {
      RoundsRestore(n - 1);
      var state, audit :|
        After(s, Rounds(n - 1)) == Between(state, audit) && Failures(audit, "i", "e") == n - 1;
      RoundRestores(state, audit);
      AfterSplit(s, Rounds(n - 1), Round());
      LateStoresSplit(s, Rounds(n - 1), Round(), "i", "e");
      RecordingsSplit(Rounds(n - 1), Round(), "i", "e");
      assert (audit + [DUE])[..|audit|] == audit;
      assert After(s, Rounds(n)) == Between("pipeline_run_created", audit + [DUE]);
    }
  }

  lemma BetweenIsTracked(state: string, audit: seq<Call>)
    ensures Tracked(Between(state, audit)) && AtStake(Between(state, audit), "i", "e")
  {
  }

  /**
    The bound on failures is reached: an execution whose Job was recorded once is failed `n` times, and
    is waited for again, when `n` reports are written late.
   */
  lemma FailedAgainAndAgain(n: nat)
    ensures exists s: System, steps: seq<Step>, id: IntentId, execution: string ::
              && Tracked(s) && AtStake(s, id, execution) && s.audit == [] && Recordings(steps, id, execution) == 0
              && LateStores(s, steps, id, execution) == n
              && Failures(After(s, steps).audit, id, execution) == n && AtStake(After(s, steps), id, execution)
  {
    var s := Between("executor_job_created", []);
    RoundsRestore(n);
    var state, audit :| After(s, Rounds(n)) == Between(state, audit) && Failures(audit, "i", "e") == n;
    BetweenIsTracked("executor_job_created", []);
    BetweenIsTracked(state, audit);
    hide After, LateStores, Recordings, Tracked, AtStake, Rounds, Failures;
  }
}
