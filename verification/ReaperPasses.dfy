/** Which executions an undisturbed reaper pass fails, and when a second pass has nothing left to do. */
module ReaperPasses {
  import opened Wrappers
  import opened Reaper

  // ------------------------------------------------------------------ one pass, exactly

  /** A listed Job with a Pod that failed or succeeded, and the one recorded for this execution. */
  ghost predicate EndedJobOf(item: JobItem, id: IntentId, intent: Intent) {
    && item.intent == Some(id) && item.failed + item.succeeded >= 1
    && item.execution.Some? && item.execution == intent.execution.executionId
    && item.name.Some? && item.name == intent.execution.jobName
  }

  ghost predicate LostByEnd(items: seq<JobItem>, id: IntentId, intent: Intent) {
    intent.status == "executing" && exists item :: item in items && EndedJobOf(item, id, intent)
  }

  /** The first of these Jobs decides, and says whether a Pod of it failed. */
  ghost predicate EndedFirst(items: seq<JobItem>, i: nat, id: IntentId, intent: Intent) {
    i < |items| && EndedJobOf(items[i], id, intent) && forall j | 0 <= j < i :: !EndedJobOf(items[j], id, intent)
  }

  ghost function HowEnded(item: JobItem): string {
    if item.failed >= 1 then JOB_FAILED else JOB_COMPLETED
  }

  /** The intent has failed with this reason; the execution and its Job stay on record. */
  ghost predicate FailedFor(before: Intent, after: Intent, reason: string) {
    && after.status == "failed"
    && after.execution == before.execution.(state := "executor_job_lost", error := Some(reason))
  }

  ghost predicate FailedByFirst(items: seq<JobItem>, id: IntentId, before: Intent, after: Intent) {
    exists i: nat :: EndedFirst(items, i, id, before) && FailedFor(before, after, HowEnded(items[i]))
  }

  lemma FailedIsOver(items: seq<JobItem>, id: IntentId, before: Intent, after: Intent)
    requires FailedByFirst(items, id, before, after)
    ensures after.status == "failed"
  {
  }

  predicate Recorded(intent: Intent) {
    intent.execution.executionId.Some? && intent.execution.jobName.Some?
  }

  predicate Unseen(intent: Intent, visible: set<string>) {
    intent.status == "executing" && Recorded(intent) && intent.execution.jobName.value !in visible
  }

  lemma {:induction false} ItemsDecide(s: Intents, items: seq<JobItem>, id: IntentId)
    ensures var t := ReapItems(s, items);
            && t.Keys == s.Keys
            && (id in s && !LostByEnd(items, id, s[id]) ==> t[id] == s[id])
            && (id in s && LostByEnd(items, id, s[id]) ==> FailedByFirst(items, id, s[id], t[id]))
    decreases |items|
  {
    if items != [] {
      var front, last := items[..|items| - 1], items[|items| - 1];
      ItemsDecide(s, front, id);
      assert items == front + [last];
      hide ReapItems;
      if id in s {
        ItemDecides(ReapItems(s, front), last, id);
        EndedOneMore(front, last, id, s[id], ReapItems(s, front)[id]);
        hide EndedJobOf, FailedByFirst, ReapItem, FailedFor, HowEnded;
        if s[id].status == "executing" && EndedJobOf(last, id, s[id]) && !LostByEnd(front, id, s[id]) {
          EndedLast(front, last, id, s[id], ReapItem(ReapItems(s, front), last)[id]);
        }
      }
    }
  }

  /** Failing is final within the pass: nothing of what follows changes it. */
  lemma EndedOneMore(front: seq<JobItem>, last: JobItem, id: IntentId, intent: Intent, after: Intent)
    ensures LostByEnd(front + [last], id, intent) <==>
            LostByEnd(front, id, intent) || (intent.status == "executing" && EndedJobOf(last, id, intent))
    ensures FailedByFirst(front, id, intent, after) ==>
              FailedByFirst(front + [last], id, intent, after) && after.status != "executing"
  {
    hide EndedJobOf, HowEnded;
    forall j | 0 <= j < |front|
      ensures front[j] in front && (front + [last])[j] == front[j]
    {
    }
    if i: nat :| EndedFirst(front, i, id, intent) && FailedFor(intent, after, HowEnded(front[i])) {
      assert EndedFirst(front + [last], i, id, intent);
    }
  }

  lemma EndedLast(front: seq<JobItem>, last: JobItem, id: IntentId, intent: Intent, after: Intent)
    requires intent.status == "executing" && !LostByEnd(front, id, intent) && EndedJobOf(last, id, intent)
    requires FailedFor(intent, after, HowEnded(last))
    ensures FailedByFirst(front + [last], id, intent, after)
  {
    hide EndedJobOf, HowEnded, FailedFor;
    var items := front + [last];
    forall j | 0 <= j < |front|
      ensures !EndedJobOf(items[j], id, intent)
    {
      assert items[j] == front[j] && front[j] in front;
    }
    assert items[|front|] == last && EndedFirst(items, |front|, id, intent);
  }

  lemma ItemDecides(s: Intents, item: JobItem, id: IntentId)
    requires id in s
    ensures var t := ReapItem(s, item);
            && t.Keys == s.Keys
            && (s[id].status == "executing" && EndedJobOf(item, id, s[id]) ==> FailedFor(s[id], t[id], HowEnded(item)))
            && (s[id].status != "executing" || !EndedJobOf(item, id, s[id]) ==> t[id] == s[id])
  {
  }

  lemma {:induction false} InExecutionHas(s: Intents, order: seq<IntentId>, p: (IntentId, Intent))
    ensures p in InExecution(s, order) <==> p.0 in order && p.0 in s && s[p.0] == p.1 && p.1.status == "executing"
    ensures |InExecution(s, order)| <= |order|
    decreases |order|
  {
    if order != [] {
      InExecutionHas(s, order[..|order| - 1], p);
      assert order == order[..|order| - 1] + [order[|order| - 1]];
    }
  }

  lemma ListedHas(s: Intents, order: seq<IntentId>, window: nat, p: (IntentId, Intent))
    requires p in Listed(s, order, window)
    ensures p.0 in order && p.0 in s && s[p.0] == p.1 && p.1.status == "executing"
  {
    InExecutionHas(s, order, p);
    hide InExecution;
  }

  lemma {:induction false} ListedDecide(s: Intents, listed: seq<(IntentId, Intent)>, visible: set<string>, id: IntentId)
    requires forall p | p in listed :: p.0 in s && s[p.0] == p.1 && p.1.status == "executing"
    ensures var t := ReapListed(s, listed, visible);
            && t.Keys == s.Keys
            && (id in s ==>
                t[id] == if (id, s[id]) in listed && Unseen(s[id], visible)
                         then Lost(s[id].execution.executionId.value, s[id].execution.jobName.value, JOB_DISAPPEARED)
                         else s[id])
    decreases |listed|
  {
    if listed != [] {
      var front, last := listed[..|listed| - 1], listed[|listed| - 1];
      assert listed == front + [last];
      ListedDecide(s, front, visible, id);
    }
  }

  lemma AllListed(s: Intents, order: seq<IntentId>, window: nat)
    ensures forall p | p in Listed(s, order, window) :: p.0 in s && s[p.0] == p.1 && p.1.status == "executing"
  {
    hide Listed;
    forall p | p in Listed(s, order, window)
      ensures p.0 in s && s[p.0] == p.1 && p.1.status == "executing"
    {
      ListedHas(s, order, window, p);
    }
  }

  /** Failed because the recorded Job was not among the listed ones. */
  ghost predicate LostByAbsence(
    s: Intents, items: seq<JobItem>, order: seq<IntentId>, window: nat, id: IntentId)
    requires id in s
  {
    && !LostByEnd(items, id, s[id]) && Unseen(s[id], Visible(items))
    && (id, s[id]) in Listed(ReapItems(s, items), order, window)
  }

  lemma PassDecides(s: Intents, items: seq<JobItem>, order: seq<IntentId>, window: nat, id: IntentId)
    requires id in s
    ensures var t := Pass(s, items, order, window);
            && t.Keys == s.Keys
            && (LostByAbsence(s, items, order, window, id) ==> FailedFor(s[id], t[id], JOB_DISAPPEARED))
            && (LostByEnd(items, id, s[id]) ==> FailedByFirst(items, id, s[id], t[id]))
            && (!LostByEnd(items, id, s[id]) && !LostByAbsence(s, items, order, window, id) ==> t[id] == s[id])
  {
    var u := ReapItems(s, items);
    ItemsDecide(s, items, id);
    AllListed(u, order, window);
    ListedDecide(u, Listed(u, order, window), Visible(items), id);
    hide ReapItems, ReapListed, Listed, Visible, EndedJobOf, FailedByFirst;
  }

  // ------------------------------------------------------------------ the window

  /** The places before the k-th in the order whose intents execute and are not failed for an ended Job. */
  ghost function Ahead(s: Intents, items: seq<JobItem>, order: seq<IntentId>, k: nat): set<nat> {
    set j: nat | j < k && j < |order| && order[j] in s && s[order[j]].status == "executing"
                 && !LostByEnd(items, order[j], s[order[j]])
  }

  ghost predicate InWindowAt(
    s: Intents, items: seq<JobItem>, order: seq<IntentId>, window: nat, id: IntentId, k: nat) {
    k < |order| && order[k] == id && |Ahead(s, items, order, k)| < window
  }

  /** The intent executes, its Job was recorded but not listed, and fewer than a window's worth come before it. */
  ghost predicate JobMissing(s: Intents, items: seq<JobItem>, order: seq<IntentId>, window: nat, id: IntentId)
    requires id in s
  {
    && s[id].status == "executing" && s[id].execution.executionId.Some? && s[id].execution.jobName.Some?
    && (forall item | item in items :: item.name != s[id].execution.jobName)
    && exists k: nat :: InWindowAt(s, items, order, window, id, k)
  }

  lemma {:induction false} AheadIs(s: Intents, items: seq<JobItem>, order: seq<IntentId>, k: nat)
    requires k <= |order|
    ensures |Ahead(s, items, order, k)| == |InExecution(ReapItems(s, items), order[..k])|
    decreases k
  {
    hide ReapItems, LostByEnd;
    if k == 0 {
      assert Ahead(s, items, order, 0) == {};
    } else {
      AheadIs(s, items, order, k - 1);
      assert order[..k][..k - 1] == order[..k - 1];
      StillExecuting(s, items, order[k - 1]);
      AheadOneMore(s, items, order, k - 1);
      hide Ahead;
    }
  }

  lemma AheadOneMore(s: Intents, items: seq<JobItem>, order: seq<IntentId>, k: nat)
    requires k < |order|
    ensures |Ahead(s, items, order, k + 1)| ==
            |Ahead(s, items, order, k)|
            + if order[k] in s && s[order[k]].status == "executing" && !LostByEnd(items, order[k], s[order[k]])
              then 1 else 0
  {
    hide LostByEnd;
    var id := order[k];
    if id in s && s[id].status == "executing" && !LostByEnd(items, id, s[id]) {
      assert Ahead(s, items, order, k + 1) == Ahead(s, items, order, k) + {k};
    } else {
      assert Ahead(s, items, order, k + 1) == Ahead(s, items, order, k);
    }
  }

  lemma StillExecuting(s: Intents, items: seq<JobItem>, id: IntentId)
    ensures var u := ReapItems(s, items);
            id in u && u[id].status == "executing" <==>
            id in s && s[id].status == "executing" && !LostByEnd(items, id, s[id])
  {
    ItemsDecide(s, items, id);
    hide ReapItems, LostByEnd, FailedByFirst;
    if id in s && LostByEnd(items, id, s[id]) {
      FailedIsOver(items, id, s[id], ReapItems(s, items)[id]);
    }
  }

  /** An entry stands in the list at the place that the entries before it leave. */
  lemma {:induction false} PlaceOf(s: Intents, order: seq<IntentId>, k: nat)
    requires k < |order| && order[k] in s && s[order[k]].status == "executing"
    ensures var n, all := |InExecution(s, order[..k])|, InExecution(s, order);
            n < |all| && all[n] == (order[k], s[order[k]])
    decreases |order|
  {
    var front := order[..|order| - 1];
    if k == |front| {
      assert order[..k] == front;
    } else {
      assert front[..k] == order[..k] && front[k] == order[k];
      PlaceOf(s, front, k);
    }
  }

  lemma {:induction false} PlacedBy(s: Intents, order: seq<IntentId>, n: nat) returns (k: nat)
    requires n < |InExecution(s, order)|
    ensures k < |order| && |InExecution(s, order[..k])| == n && InExecution(s, order)[n].0 == order[k]
    decreases |order|
  {
    var front := order[..|order| - 1];
    if n < |InExecution(s, front)| {
      k := PlacedBy(s, front, n);
      assert front[..k] == order[..k];
    } else {
      k := |front|;
      assert order[..k] == front;
    }
  }

  lemma ListedIsInWindow(s: Intents, items: seq<JobItem>, order: seq<IntentId>, window: nat, id: IntentId)
    requires id in s && s[id].status == "executing" && !LostByEnd(items, id, s[id])
    ensures (id, s[id]) in Listed(ReapItems(s, items), order, window) <==>
            exists k: nat :: InWindowAt(s, items, order, window, id, k)
  {
    var u := ReapItems(s, items);
    ItemsDecide(s, items, id);
    hide ReapItems, LostByEnd, FailedByFirst, Ahead;
    var all := InExecution(u, order);
    if (id, s[id]) in Listed(u, order, window) {
      var n :| 0 <= n < |all| && n < window && all[n] == (id, s[id]);
      var k := PlacedBy(u, order, n);
      AheadIs(s, items, order, k);
      assert InWindowAt(s, items, order, window, id, k);
    }
    if k: nat :| InWindowAt(s, items, order, window, id, k) {
      AheadIs(s, items, order, k);
      PlaceOf(u, order, k);
      var n := |InExecution(u, order[..k])|;
      assert Listed(u, order, window)[n] == (id, s[id]);
    }
  }

  lemma UnseenIs(s: Intents, items: seq<JobItem>, order: seq<IntentId>, window: nat, id: IntentId)
    requires id in s && !LostByEnd(items, id, s[id])
    ensures LostByAbsence(s, items, order, window, id) <==> JobMissing(s, items, order, window, id)
  {
    if s[id].status == "executing" {
      ListedIsInWindow(s, items, order, window, id);
    }
    hide Listed, ReapItems, LostByEnd, InWindowAt;
  }

  /**
    A pass fails exactly two kinds of executing intents: those whose recorded Job was listed with a Pod that
    failed or succeeded, for having failed or for having completed, and those within the window whose recorded
    Job was not listed. Everything else is untouched.
   */
  lemma PassFailsExactly(s: Intents, items: seq<JobItem>, order: seq<IntentId>, window: nat, id: IntentId)
    requires id in s
    ensures var t := Pass(s, items, order, window);
            && t.Keys == s.Keys
            && (LostByEnd(items, id, s[id]) ==> FailedByFirst(items, id, s[id], t[id]))
            && (!LostByEnd(items, id, s[id]) && JobMissing(s, items, order, window, id) ==>
                FailedFor(s[id], t[id], JOB_DISAPPEARED))
            && (!LostByEnd(items, id, s[id]) && !JobMissing(s, items, order, window, id) ==> t[id] == s[id])
  {
    PassDecides(s, items, order, window, id);
    if !LostByEnd(items, id, s[id]) {
      UnseenIs(s, items, order, window, id);
    }
    hide Pass, LostByEnd, FailedByFirst, LostByAbsence, JobMissing, FailedFor;
  }

  // ------------------------------------------------------------------ a second pass

  lemma SecondLookAtJobs(s: Intents, items: seq<JobItem>, order: seq<IntentId>, window: nat)
    ensures var t := Pass(s, items, order, window); ReapItems(t, items) == t
  {
    var t := Pass(s, items, order, window);
    hide ReapListed, Listed, Visible, EndedJobOf, FailedByFirst, Pass, ReapItems, LostByAbsence;
    ItemsDecide(t, items, "");
    forall id | id in t
      ensures id in s && ReapItems(t, items)[id] == t[id]
    {
      if id in s {
        PassDecides(s, items, order, window, id);
        if LostByEnd(items, id, s[id]) {
          FailedIsOver(items, id, s[id], t[id]);
        }
      } else {
        ItemsDecide(s, items, id);
        PassKeys(s, items, order, window);
      }
      ItemsDecide(t, items, id);
    }
  }

  lemma PassKeys(s: Intents, items: seq<JobItem>, order: seq<IntentId>, window: nat)
    ensures Pass(s, items, order, window).Keys == s.Keys
  {
    var u := ReapItems(s, items);
    ItemsDecide(s, items, "");
    AllListed(u, order, window);
    ListedDecide(u, Listed(u, order, window), Visible(items), "");
  }

  /** A second pass over the same Jobs changes nothing exactly when it lists no execution without a visible Job. */
  lemma SecondListingDecides(s: Intents, items: seq<JobItem>, order: seq<IntentId>, window: nat)
    ensures var t := Pass(s, items, order, window);
            Pass(t, items, order, window) == t <==>
            forall p | p in Listed(t, order, window) :: !Unseen(p.1, Visible(items))
  {
    var t := Pass(s, items, order, window);
    var listed := Listed(t, order, window);
    SecondLookAtJobs(s, items, order, window);
    AllListed(t, order, window);
    ListedDecide(t, listed, Visible(items), "");
    assert Pass(t, items, order, window) == ReapListed(t, listed, Visible(items));
    hide Pass, ReapItems, Listed, Visible, Unseen;
    forall id | id in t
      ensures ReapListed(t, listed, Visible(items))[id] ==
              if (id, t[id]) in listed && Unseen(t[id], Visible(items))
              then Lost(t[id].execution.executionId.value, t[id].execution.jobName.value, JOB_DISAPPEARED) else t[id]
    {
      ListedDecide(t, listed, Visible(items), id);
    }
    forall p | p in listed && Unseen(p.1, Visible(items))
      ensures ReapListed(t, listed, Visible(items)) != t
    {
      assert (p.0, t[p.0]) == p;
      assert ReapListed(t, listed, Visible(items))[p.0].status == "failed";
    }
    assert (forall p | p in listed :: !Unseen(p.1, Visible(items))) ==> ReapListed(t, listed, Visible(items)) == t;
  }

  /** With no more executing intents than the window holds, the second pass finds nothing to do. */
  lemma SmallStoresSettle(s: Intents, items: seq<JobItem>, order: seq<IntentId>, window: nat)
    requires |InExecution(ReapItems(s, items), order)| <= window
    ensures var t := Pass(s, items, order, window); Pass(t, items, order, window) == t
  {
    var u, t := ReapItems(s, items), Pass(s, items, order, window);
    forall p | p in Listed(t, order, window)
      ensures !Unseen(p.1, Visible(items))
    {
      ListedHas(t, order, window, p);
      PassKeys(s, items, order, window);
      ItemsDecide(s, items, p.0);
      PassDecides(s, items, order, window, p.0);
      InExecutionHas(u, order, (p.0, s[p.0]));
    }
    SecondListingDecides(s, items, order, window);
  }
}
