/** What a second reaper pass finds when one listing does not hold all executing intents. */
module ReaperWindow {
  import opened Wrappers
  import opened Strings
  import opened Reaper
  import opened ReaperPasses

  // ------------------------------------------------------------------ what the first pass leaves to the second

  predicate Distinct(order: seq<IntentId>) {
    forall i, j | 0 <= i < j < |order| :: order[i] != order[j]
  }

  /** The listed entries that the pass leaves executing. */
  function Seen(listed: seq<(IntentId, Intent)>, visible: set<string>): (seen: seq<(IntentId, Intent)>)
    ensures |seen| == |listed| - MissedIn(listed, visible)
    ensures forall p | p in seen :: !Unseen(p.1, visible)
  {
    if listed == [] then []
    else Seen(listed[..|listed| - 1], visible)
         + if Unseen(listed[|listed| - 1].1, visible) then [] else [listed[|listed| - 1]]
  }

  function MissedIn(listed: seq<(IntentId, Intent)>, visible: set<string>): (n: nat)
    ensures n <= |listed|
  {
    if listed == [] then 0
    else MissedIn(listed[..|listed| - 1], visible) + if Unseen(listed[|listed| - 1].1, visible) then 1 else 0
  }

  function Head<T>(all: seq<T>, window: nat): seq<T> {
    if |all| <= window then all else all[..window]
  }

  function Rest<T>(all: seq<T>, window: nat): seq<T> {
    if |all| <= window then [] else all[window..]
  }

  /** `t` fails the unseen among the first `window` executing intents of `u` and keeps the others. */
  ghost predicate FailsHead(u: Intents, t: Intents, order: seq<IntentId>, window: nat, visible: set<string>) {
    var all := InExecution(u, order);
    && (forall k | 0 <= k < |all| ::
          all[k].0 in t
          && if k < window && Unseen(all[k].1, visible) then t[all[k].0].status == "failed"
             else t[all[k].0] == all[k].1)
    && (forall id | id in order && id in t && t[id].status == "executing" :: id in u && u[id].status == "executing")
  }

  lemma OneMoreEntry(before: seq<(IntentId, Intent)>, p: (IntentId, Intent), window: nat, visible: set<string>)
    ensures Seen(Head(before + [p], window), visible) + Rest(before + [p], window) ==
            Seen(Head(before, window), visible) + Rest(before, window)
            + if |before| < window && Unseen(p.1, visible) then [] else [p]
  {
    hide Unseen;
    var all := before + [p];
    if |before| < window {
      assert Head(all, window) == all && all[..|all| - 1] == before == Head(before, window);
    } else {
      assert Head(all, window) == Head(before, window) && Rest(all, window) == Rest(before, window) + [p];
    }
  }

  lemma FailsHeadBefore(
    u: Intents, t: Intents, order: seq<IntentId>, window: nat, visible: set<string>)
    requires order != [] && FailsHead(u, t, order, window, visible)
    ensures FailsHead(u, t, order[..|order| - 1], window, visible)
  {
    var before := InExecution(u, order[..|order| - 1]);
    assert forall k | 0 <= k < |before| :: InExecution(u, order)[k] == before[k];
    hide InExecution, Unseen;
  }

  lemma {:induction false} LeftInExecution(
    u: Intents, t: Intents, order: seq<IntentId>, window: nat, visible: set<string>)
    requires FailsHead(u, t, order, window, visible)
    ensures var all := InExecution(u, order);
            InExecution(t, order) == Seen(Head(all, window), visible) + Rest(all, window)
    decreases |order|
  {
    hide Unseen, Seen, Head, Rest;
    if order == [] {
      NothingLeft(window, visible);
    } else {
      var front, id := order[..|order| - 1], order[|order| - 1];
      var before := InExecution(u, front);
      assert order == front + [id];
      FailsHeadBefore(u, t, order, window, visible);
      LeftInExecution(u, t, front, window, visible);
      if id in u && u[id].status == "executing" {
        var k, p := |before|, (id, u[id]);
        OneMoreEntry(before, p, window, visible);
        assert InExecution(u, order) == before + [p] && InExecution(u, order)[k] == p;
        assert id in t && if k < window && Unseen(p.1, visible) then t[id].status == "failed" else t[id] == p.1;
      } else {
        assert id in order && InExecution(u, order) == before;
      }
    }
  }

  lemma NothingLeft(window: nat, visible: set<string>)
    ensures Seen(Head([], window), visible) + Rest([], window) == []
  {
  }

  lemma {:induction false} EntriesDistinct(s: Intents, order: seq<IntentId>, i: nat, j: nat)
    requires Distinct(order) && i < j < |InExecution(s, order)|
    ensures InExecution(s, order)[i].0 != InExecution(s, order)[j].0
    decreases |order|
  {
    var front, id := order[..|order| - 1], order[|order| - 1];
    var before := InExecution(s, front);
    assert forall k | 0 <= k < |front| :: order[k] != order[|front|];
    if j < |before| {
      EntriesDistinct(s, front, i, j);
    } else {
      assert before[i] in before;
      InExecutionHas(s, front, before[i]);
    }
  }

  lemma PassFailsHead(u: Intents, order: seq<IntentId>, window: nat, visible: set<string>)
    requires Distinct(order)
    ensures FailsHead(u, ReapListed(u, Listed(u, order, window), visible), order, window, visible)
  {
    var all, listed := InExecution(u, order), Listed(u, order, window);
    var t := ReapListed(u, listed, visible);
    AllListed(u, order, window);
    assert listed == Head(all, window);
    hide ReapListed, InExecution, Unseen, Listed;
    forall k | 0 <= k < |all|
      ensures all[k].0 in t
      ensures if k < window && Unseen(all[k].1, visible) then t[all[k].0].status == "failed"
              else t[all[k].0] == all[k].1
    {
      InExecutionHas(u, order, all[k]);
      ListedDecide(u, listed, visible, all[k].0);
      if k < window {
        assert listed[k] == all[k];
      } else {
        forall j | 0 <= j < |listed|
          ensures listed[j] != all[k]
        {
          EntriesDistinct(u, order, j, k);
        }
      }
    }
    forall id | id in order && id in t && t[id].status == "executing"
      ensures id in u && u[id].status == "executing"
    {
      ListedDecide(u, listed, visible, id);
    }
  }

  lemma SecondListing(all: seq<(IntentId, Intent)>, window: nat, visible: set<string>)
    ensures var f := MissedIn(Head(all, window), visible);
            Head(Seen(Head(all, window), visible) + Rest(all, window), window) ==
            Seen(Head(all, window), visible) + Head(Rest(all, window), f)
  {
    hide Seen, MissedIn;
  }

  /**
    In terms of the first store: the second pass changes nothing exactly when none of the executing
    intents that move up into the window, one for each the first pass failed there, has an unseen Job.
   */
  lemma SecondPassIsNoOp(s: Intents, items: seq<JobItem>, order: seq<IntentId>, window: nat)
    requires Distinct(order)
    ensures var all, t := InExecution(ReapItems(s, items), order), Pass(s, items, order, window);
            var failed := MissedIn(Listed(ReapItems(s, items), order, window), Visible(items));
            Pass(t, items, order, window) == t <==>
            forall k | window <= k < window + failed && k < |all| :: !Unseen(all[k].1, Visible(items))
  {
    hide *;
    var u, visible := ReapItems(s, items), Visible(items);
    var all, t := InExecution(u, order), Pass(s, items, order, window);
    var head, rest := Head(all, window), Rest(all, window);
    var failed := MissedIn(head, visible);
    PassIsSweep(s, items, order, window);
    PassFailsHead(u, order, window, visible);
    LeftInExecution(u, t, order, window, visible);
    SecondListing(all, window, visible);
    SecondListingDecides(s, items, order, window);
    ListedIsHead(u, order, window);
    ListedIsHead(t, order, window);
    assert Listed(t, order, window) == Seen(head, visible) + Head(rest, failed);
    JustBeyond(all, window, failed, visible);
    assert forall p :: p in Listed(t, order, window) <==> p in Seen(head, visible) || p in Head(rest, failed);
  }

  lemma PassIsSweep(s: Intents, items: seq<JobItem>, order: seq<IntentId>, window: nat)
    ensures var u := ReapItems(s, items);
            Pass(s, items, order, window) == ReapListed(u, Listed(u, order, window), Visible(items))
  {
  }

  lemma ListedIsHead(s: Intents, order: seq<IntentId>, window: nat)
    ensures Listed(s, order, window) == Head(InExecution(s, order), window)
  {
  }

  lemma JustBeyond(all: seq<(IntentId, Intent)>, window: nat, n: nat, visible: set<string>)
    ensures (forall p | p in Head(Rest(all, window), n) :: !Unseen(p.1, visible)) <==>
            (forall k | window <= k < window + n && k < |all| :: !Unseen(all[k].1, visible))
  {
    hide Unseen;
    var next := Head(Rest(all, window), n);
    assert forall k | 0 <= k < |next| :: next[k] == all[window + k];
    assert forall k | window <= k < window + n && k < |all| :: all[k] == next[k - window];
  }

  // ------------------------------------------------------------------ one execution more than the window

  /** `n` executing intents whose recorded Jobs are not in the cluster. */
  function Missing(n: nat): (s: Intents)
    ensures forall id | id in s :: s[id] == Absent() && |id| < n
    ensures forall k | 0 <= k < n :: Numeral(k) in s
  {
    if n == 0 then map[] else Missing(n - 1)[Numeral(n - 1) := Absent()]
  }

  function Absent(): Intent {
    Intent("executing", ExecutionState(Some("e"), Some("j"), "executor_job_created", None))
  }

  function Numerals(n: nat): (ids: seq<IntentId>)
    ensures |ids| == n && forall k | 0 <= k < n :: ids[k] == Numeral(k)
  {
    if n == 0 then [] else Numerals(n - 1) + [Numeral(n - 1)]
  }

  lemma {:induction false} AllMissingListed(s: Intents, order: seq<IntentId>)
    requires forall id | id in order :: id in s && s[id] == Absent()
    ensures InExecution(s, order) == seq(|order|, k requires 0 <= k < |order| => (order[k], Absent()))
    decreases |order|
  {
    if order != [] {
      assert order == order[..|order| - 1] + [order[|order| - 1]];
      AllMissingListed(s, order[..|order| - 1]);
    }
  }

  lemma FirstPassListing(window: nat)
    ensures var listed := Listed(Missing(window + 1), Numerals(window + 1), window);
            |listed| == window && forall k | 0 <= k < window :: listed[k] == (Numeral(k), Absent())
  {
    AllMissingListed(Missing(window + 1), Numerals(window + 1));
    hide InExecution, Missing;
  }

  /** A pass that finds no Job at all fails what it lists and nothing else. */
  lemma EmptyClusterPass(s: Intents, order: seq<IntentId>, window: nat, id: IntentId)
    requires id in s && s[id].status == "executing" && Recorded(s[id])
    ensures var t := Pass(s, [], order, window);
            id in t && if (id, s[id]) in Listed(s, order, window) then t[id].status == "failed" else t[id] == s[id]
  {
    assert ReapItems(s, []) == s && Visible([]) == {};
    hide ReapItems, ReapListed, Visible, Pass, Listed;
    PassDecides(s, [], order, window, id);
  }

  lemma FirstPassResult(window: nat, k: nat)
    requires k <= window
    ensures var t := Pass(Missing(window + 1), [], Numerals(window + 1), window);
            Numeral(k) in t && if k < window then t[Numeral(k)].status == "failed" else t[Numeral(k)] == Absent()
  {
    hide Missing, Numerals, Numeral, Pass, Listed;
    var s, order, p := Missing(window + 1), Numerals(window + 1), (Numeral(k), Absent());
    var listed := Listed(s, order, window);
    FirstPassListing(window);
    EmptyClusterPass(s, order, window, Numeral(k));
    if k < window {
      assert listed[k] == p;
    } else {
      assert forall j | 0 <= j < |listed| :: |listed[j].0| == j;
      assert p !in listed;
    }
  }

  lemma SecondPassListing(t: Intents, order: seq<IntentId>, window: nat)
    requires window >= 1 && |order| == window + 1
    requires forall k: nat | k < window :: order[k] in t && t[order[k]].status == "failed"
    requires order[window] in t && t[order[window]] == Absent()
    ensures (order[window], Absent()) in Listed(t, order, window)
  {
    OnlyLastLeft(t, order, window);
    InExecutionHas(t, order, (order[window], Absent()));
    assert order[window] in order;
    hide InExecution;
  }

  /** With one more missing execution than the window holds, the second pass still has something to fail. */
  lemma BeyondTheWindow(window: nat)
    requires window >= 1
    ensures var s, order := Missing(window + 1), Numerals(window + 1);
            var t := Pass(s, [], order, window);
            Pass(t, [], order, window) != t
  {
    hide Missing, Numerals, Numeral, Pass, Listed;
    var s, order := Missing(window + 1), Numerals(window + 1);
    var t := Pass(s, [], order, window);
    var id := Numeral(window);
    forall k: nat | k <= window
      ensures order[k] in t && if k < window then t[order[k]].status == "failed" else t[order[k]] == Absent()
    {
      FirstPassResult(window, k);
    }
    SecondPassListing(t, order, window);
    EmptyClusterPass(t, order, window, id);
  }

  lemma OnlyLastLeft(t: Intents, order: seq<IntentId>, window: nat)
    requires |order| == window + 1
    requires forall k: nat | k < window :: order[k] in t && t[order[k]].status == "failed"
    ensures |InExecution(t, order)| <= 1
  {
    NoneLeft(t, order[..window]);
  }

  lemma {:induction false} NoneLeft(t: Intents, order: seq<IntentId>)
    requires forall id | id in order :: id in t && t[id].status == "failed"
    ensures InExecution(t, order) == []
    decreases |order|
  {
    if order != [] {
      assert order == order[..|order| - 1] + [order[|order| - 1]];
      NoneLeft(t, order[..|order| - 1]);
    }
  }
}
