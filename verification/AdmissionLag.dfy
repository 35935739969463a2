/** The bound on live Jobs is reached: a listing that misses Jobs really does admit too many. */
module AdmissionLag {
  import opened Wrappers
  import opened Strings
  import opened WorkStore
  import opened JobCapacity
  import opened JobAdmission
  import opened AdmissionSafety
  import opened AdmissionHandoff

  lemma {:induction false} AfterSplit(s: System, a: seq<Step>, b: seq<Step>)
    ensures After(s, a + b) == After(After(s, a), b)
    decreases |b|
  {
    hide Next;
    if b == [] {
      assert a + b == a;
    } else {
      AfterSplit(s, a, b[..|b| - 1]);
      assert (a + b)[..|a + b| - 1] == a + b[..|b| - 1];
    }
  }

  lemma MissesAppend(s: System, a: seq<Step>, b: seq<Step>, k: nat)
    requires MissesAtMost(s, a, k) && MissesAtMost(After(s, a), b, k)
    ensures MissesAtMost(s, a + b, k)
  {
    hide After, Unstarted;
    forall i | 0 <= i < |a + b| && (a + b)[i].List?
      ensures Unstarted(After(s, (a + b)[..i]).jobs) <= k
    {
      if i < |a| {
        assert (a + b)[..i] == a[..i] && (a + b)[i] == a[i];
      } else {
        assert (a + b)[..i] == a + b[..i - |a|] && (a + b)[i] == b[i - |a|];
        AfterSplit(s, a, b[..i - |a|]);
      }
    }
  }

  function Plain(n: nat): Request {
    Request(Numeral(n), "run_1", false, None, None)
  }

  function Fresh(n: nat): Job {
    Job(Numeral(n), "run_1", false, None, None, Starting)
  }

  /** The steps of one undisturbed ordinary dispatch. */
  function Whole(s: System, n: nat): seq<Step> {
    var d := |s.dispatches|;
    [Arrive(Plain(n)), Enter(d), Proceed(d), List(d), Create(d, Created)]
  }

  lemma WholeDispatch(s: System, n: nat, k: nat)
    requires s.lock == None && Named(s.jobs, Numeral(n)).None?
    requires Live(s.jobs) - Unstarted(s.jobs) < s.limit && Unstarted(s.jobs) <= k
    ensures var t := After(s, Whole(s, n));
            t.lock == None && t.limit == s.limit && t.jobs == s.jobs + [Fresh(n)]
    ensures MissesAtMost(s, Whole(s, n), k)
  {
    var d, steps := |s.dispatches|, Whole(s, n);
    ListingCounts(s.jobs);
    hide Named, Listing, ActiveCount, Live, Unstarted;
    var s1 := s.(dispatches := s.dispatches + [Dispatch(Plain(n), Waiting)]);
    assert After(s, steps[..0]) == s && steps[..1][..0] == steps[..0];
    assert After(s, steps[..1]) == s1;
    var s2 := Put(s1, d, Entered).(lock := Some(d));
    assert steps[..2][..1] == steps[..1];
    assert After(s, steps[..2]) == s2;
    var s3 := Put(s2, d, Polling(0));
    assert steps[..3][..2] == steps[..2];
    assert After(s, steps[..3]) == s3;
    var s4 := Put(s3, d, Admitted);
    assert steps[..4][..3] == steps[..3];
    assert After(s, steps[..4]) == s4;
    var s5 := Return(s4.(jobs := s.jobs + [Fresh(n)]), d, true);
    assert steps[..4] == steps[..|steps| - 1];
    assert After(s, steps) == s5;
  }

  /** `n` Jobs created one after the other, of which the first `limit - 1` were started at once. */
  ghost predicate Filled(s: System, limit: nat, n: nat) {
    && s.lock == None && s.limit == limit && |s.jobs| == n
    && (forall i | 0 <= i < n :: |s.jobs[i].name| == i)
    && Live(s.jobs) == n
    && Unstarted(s.jobs) == if n < limit then 0 else n + 1 - limit
  }

  lemma {:induction false} Fill(limit: nat, k: nat, n: nat) returns (steps: seq<Step>)
    requires 1 <= limit && n <= limit + k
    ensures MissesAtMost(Idle(limit, map[]), steps, k)
    ensures Filled(After(Idle(limit, map[]), steps), limit, n)
    decreases n
  {
    var s0 := Idle(limit, map[]);
    steps := [];
    if n > 0 {
      hide *;
      var before := Fill(limit, k, n - 1);
      steps := FillOne(s0, before, limit, k, n - 1);
    }
  }

  /** One more Job, started at once while there are fewer than `limit`. */
  lemma FillOne(s0: System, before: seq<Step>, limit: nat, k: nat, m: nat) returns (steps: seq<Step>)
    requires 1 <= limit && m + 1 <= limit + k
    requires MissesAtMost(s0, before, k) && Filled(After(s0, before), limit, m)
    ensures MissesAtMost(s0, steps, k) && Filled(After(s0, steps), limit, m + 1)
  {
    hide Live, Unstarted, Next, MissesAtMost, After, Whole, Named;
    var s := After(s0, before);
    NamedFinds(s.jobs, Numeral(m));
    WholeDispatch(s, m, k);
    MissesAppend(s0, before, Whole(s, m), k);
    AfterSplit(s0, before, Whole(s, m));
    steps := before + Whole(s, m);
    OneFilled(s, After(s0, steps), limit, m);
    if m + 1 < limit {
      FillStart(s0, steps, After(s0, steps), m, k);
      steps := steps + [JobStarts(m)];
    }
  }

  lemma OneFilled(s: System, t: System, limit: nat, m: nat)
    requires Filled(s, limit, m) && t.lock == None && t.limit == limit && t.jobs == s.jobs + [Fresh(m)]
    ensures |t.jobs| == m + 1 && t.jobs[m] == Fresh(m) && (forall i | 0 <= i < m + 1 :: |t.jobs[i].name| == i)
    ensures Live(t.jobs) == m + 1 && Unstarted(t.jobs) == Unstarted(s.jobs) + 1
  {
    LiveSplit(s.jobs, [Fresh(m)]);
    LiveOne(Fresh(m));
    hide Live, Unstarted;
  }

  lemma FillStart(s0: System, steps: seq<Step>, t: System, m: nat, k: nat)
    requires t == After(s0, steps) && MissesAtMost(s0, steps, k)
    requires m < |t.jobs| && t.jobs[m] == Fresh(m)
    ensures MissesAtMost(s0, steps + [JobStarts(m)], k)
    ensures var u := After(s0, steps + [JobStarts(m)]);
            && u == t.(jobs := t.jobs[m := Fresh(m).(phase := Working)])
            && Live(u.jobs) == Live(t.jobs) && Unstarted(u.jobs) == Unstarted(t.jobs) - 1
  {
    hide Live, Unstarted;
    var more := steps + [JobStarts(m)];
    assert more[..|more| - 1] == steps;
    LiveReplaced(t.jobs, m, Fresh(m).(phase := Working));
    LiveOne(Fresh(m));
    LiveOne(Fresh(m).(phase := Working));
    assert MissesAtMost(t, [JobStarts(m)], k);
    MissesAppend(s0, steps, [JobStarts(m)], k);
  }

  /**
    If a listing may miss `k` created Jobs, then a pool of any size can be overfilled by exactly
    `k`: the bound of `AdmissionSafety.LiveJobsAreBounded` cannot be lowered.
   */
  lemma LagIsReached(limit: nat, k: nat)
    requires 1 <= limit
    ensures exists steps ::
              MissesAtMost(Idle(limit, map[]), steps, k) && Live(After(Idle(limit, map[]), steps).jobs) == limit + k
  {
    hide MissesAtMost, After, Live;
    var steps := Fill(limit, k, limit + k);
  }
}
