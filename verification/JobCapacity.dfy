/** What one listing of worker Jobs says about free capacity. */
module JobCapacity {
  import opened Wrappers
  import opened WorkStore

  /** One item of a listing: its Run label, and how many of its Pods are active. */
  datatype Entry = Entry(runLabel: Option<string>, active: Option<nat>)

  datatype Capacity = Available | WaitingForPredecessor(active: nat) | LimitReached

  function Active(e: Entry): nat {
    if e.active.Some? then e.active.value else 0
  }

  function ActiveCount(items: seq<Entry>): nat {
    if items == [] then 0 else ActiveCount(items[..|items| - 1]) + Active(items[|items| - 1])
  }

  function OrdinaryCapacity(items: seq<Entry>, limit: nat): Capacity {
    if ActiveCount(items) >= limit then LimitReached else Available
  }

  predicate OnlyActiveIs(items: seq<Entry>, runLabel: string) {
    forall e | e in items && Active(e) > 0 :: e.runLabel == Some(runLabel)
  }

  function ChainedCapacity(items: seq<Entry>, limit: nat, runLabel: string): Capacity {
    var active := ActiveCount(items);
    if active < limit then Available
    else if OnlyActiveIs(items, runLabel) then WaitingForPredecessor(active)
    else LimitReached
  }

  lemma {:induction false} CountSplit(a: seq<Entry>, b: seq<Entry>)
    ensures ActiveCount(a + b) == ActiveCount(a) + ActiveCount(b)
    decreases |b|
  {
    if b == [] {
      assert a + b == a;
    } else {
      var n := |b| - 1;
      CountSplit(a, b[..n]);
      assert (a + b)[..|a + b| - 1] == a + b[..n];
    }
  }

  lemma {:induction false} CountIgnoresOrder(a: seq<Entry>, b: seq<Entry>)
    requires multiset(a) == multiset(b)
    ensures ActiveCount(a) == ActiveCount(b)
    decreases |a|
  {
    if a == [] {
      assert |multiset(b)| == |b|;
    } else {
      var n := |a| - 1;
      var last := a[n];
      assert a == a[..n] + [last];
      assert last in multiset(b);
      var k :| 0 <= k < |b| && b[k] == last;
      assert b == b[..k] + ([last] + b[k + 1..]);
      assert multiset(a) == multiset(a[..n]) + multiset{last};
      assert multiset(b) == multiset(b[..k] + b[k + 1..]) + multiset{last};
      assert multiset(a[..n]) == multiset(a) - multiset{last};
      assert multiset(a[..n]) == multiset(b[..k] + b[k + 1..]);
      CountIgnoresOrder(a[..n], b[..k] + b[k + 1..]);
      CountSplit(b[..k], b[k + 1..]);
      CountSplit(b[..k], [last] + b[k + 1..]);
      CountSplit([last], b[k + 1..]);
    }
  }

  /** The verdict on a listing does not depend on the order in which the Jobs are listed. */
  lemma VerdictIgnoresOrder(a: seq<Entry>, b: seq<Entry>, limit: nat, runLabel: string)
    requires multiset(a) == multiset(b)
    ensures OrdinaryCapacity(a, limit) == OrdinaryCapacity(b, limit)
    ensures ChainedCapacity(a, limit, runLabel) == ChainedCapacity(b, limit, runLabel)
  {
    CountIgnoresOrder(a, b);
    forall e | e in a || e in b
      ensures e in a && e in b
    {
      assert e in multiset(a) <==> e in a;
      assert e in multiset(b) <==> e in b;
    }
  }

  // ------------------------------------------------------------------ the verdict, in active Pods

  /** The active Pods of the listed Jobs: the place of the Job, and a number below its count. */
  ghost function ActivePods(items: seq<Entry>): set<(nat, nat)> {
    set i: nat, k: nat | i < |items| && items[i].active.Some? && k < items[i].active.value :: (i, k)
  }

  ghost function PodsAt(e: Entry, i: nat): set<(nat, nat)> {
    set k: nat | e.active.Some? && k < e.active.value :: (i, k)
  }

  lemma {:induction false} PodsOfOne(i: nat, n: nat)
    ensures |PodsAt(Entry(None, Some(n)), i)| == n
    decreases n
  {
    var all := PodsAt(Entry(None, Some(n)), i);
    if n == 0 {
      assert all == {};
    } else {
      PodsOfOne(i, n - 1);
      assert all == PodsAt(Entry(None, Some(n - 1)), i) + {(i, n - 1)};
    }
  }

  lemma PodsCount(e: Entry, i: nat)
    ensures |PodsAt(e, i)| == Active(e)
  {
    if e.active.Some? {
      PodsOfOne(i, e.active.value);
      assert PodsAt(e, i) == PodsAt(Entry(None, e.active), i);
    } else {
      assert PodsAt(e, i) == {};
    }
  }

  lemma {:induction false} CountIs(items: seq<Entry>)
    ensures ActiveCount(items) == |ActivePods(items)|
    decreases |items|
  {
    if items == [] {
      assert ActivePods(items) == {};
    } else {
      var n := |items| - 1;
      var front := items[..n];
      CountIs(front);
      PodsCount(items[n], n);
      hide ActiveCount;
      assert ActivePods(items) == ActivePods(front) + PodsAt(items[n], n);
      assert ActivePods(front) !! PodsAt(items[n], n);
    }
  }

  /** Every listed Job with an active Pod carries this Run label. */
  ghost predicate AllActiveAre(items: seq<Entry>, runLabel: string) {
    forall i | 0 <= i < |items| && items[i].active.Some? && items[i].active.value >= 1 ::
      items[i].runLabel == Some(runLabel)
  }

  /**
    There is room below the limit of active Pods. At the limit a chained Run waits when all of them are its
    predecessor's, and everything else is refused.
   */
  lemma VerdictIs(items: seq<Entry>, limit: nat, runLabel: string)
    ensures var n := |ActivePods(items)|;
            && (OrdinaryCapacity(items, limit) == if n < limit then Available else LimitReached)
            && (ChainedCapacity(items, limit, runLabel) ==
                  if n < limit then Available
                  else if AllActiveAre(items, runLabel) then WaitingForPredecessor(n) else LimitReached)
  {
    CountIs(items);
    assert OnlyActiveIs(items, runLabel) <==> AllActiveAre(items, runLabel) by {
      assert forall i | 0 <= i < |items| :: items[i] in items;
    }
    hide ActivePods, ActiveCount, OnlyActiveIs, AllActiveAre;
  }

  // ------------------------------------------------------------------ labels

  function RunLabel(id: RunId): (runLabel: string)
    ensures |runLabel| == |id|
    ensures forall i | 0 <= i < |id| :: runLabel[i] == if id[i] == '_' then '-' else id[i]
  {
    seq(|id|, i requires 0 <= i < |id| => if id[i] == '_' then '-' else id[i])
  }

  function LabelToRunId(runLabel: string): RunId {
    if "run-" <= runLabel then "run_" + runLabel[4..] else runLabel
  }

  /** The identifiers that survive the way to a label and back. */
  predicate Reversible(id: RunId) {
    if "run_" <= id then '_' !in id[4..] else '_' !in id && !("run-" <= id)
  }

  lemma LabelPrefix(id: RunId)
    ensures "run-" <= RunLabel(id) <==> "run_" <= id || "run-" <= id
  {
    var r := RunLabel(id);
    assert "run-" <= r <==> |r| >= 4 && r[0] == 'r' && r[1] == 'u' && r[2] == 'n' && r[3] == '-';
    assert "run-" <= id <==> |id| >= 4 && id[0] == 'r' && id[1] == 'u' && id[2] == 'n' && id[3] == '-';
    assert "run_" <= id <==> |id| >= 4 && id[0] == 'r' && id[1] == 'u' && id[2] == 'n' && id[3] == '_';
  }

  lemma LabelIsReversible(id: RunId)
    ensures LabelToRunId(RunLabel(id)) == id <==> Reversible(id)
  {
    var runLabel := RunLabel(id);
    var back := LabelToRunId(runLabel);
    LabelPrefix(id);
    if "run-" <= runLabel {
      assert runLabel[..4] == "run-" && |back| == |id|;
      assert runLabel[0] == 'r' && runLabel[1] == 'u' && runLabel[2] == 'n' && runLabel[3] == '-';
      assert id[0] == 'r' && id[1] == 'u' && id[2] == 'n' && (id[3] == '_' || id[3] == '-');
      if id[3] == '_' {
        assert id[..4] == "run_";
        if '_' in id[4..] {
          var k :| 4 <= k < |id| && id[k] == '_';
          assert back[k] == '-';
        } else {
          forall k | 0 <= k < |id|
            ensures back[k] == id[k]
          {
            if k >= 4 {
              assert id[k] in id[4..];
              assert back[k] == runLabel[k];
            }
          }
          assert back == id;
        }
      } else {
        assert id[..4] == "run-" && back[3] == '_';
      }
    } else {
      if '_' in id {
        var k :| 0 <= k < |id| && id[k] == '_';
        assert runLabel[k] == '-';
      } else {
        forall k | 0 <= k < |id|
          ensures runLabel[k] == id[k]
        {
          assert id[k] in id;
        }
        assert runLabel == id;
      }
    }
  }

  lemma LabelNamesOneRun(a: RunId, b: RunId)
    requires Reversible(a) && Reversible(b) && RunLabel(a) == RunLabel(b)
    ensures a == b
  {
    LabelIsReversible(a);
    LabelIsReversible(b);
  }

  // ------------------------------------------------------------------ waiting for a predecessor

  /** Sixty seconds of waiting, a quarter of a second between two looks. */
  const POLLS: nat := 240

  datatype Wait =
    | NoPredecessor
    | NotCompleted
    | Admit(at: nat)
    | Refuse(at: nat)
    | TimedOut(at: nat)
    | Unreadable(at: nat)
    | Unsettled

  predicate WaitsAt(listings: seq<Option<seq<Entry>>>, k: nat, limit: nat, runLabel: string) {
    k < |listings| && listings[k].Some? && ChainedCapacity(listings[k].value, limit, runLabel).WaitingForPredecessor?
  }

  /**
    The polling loop of a chained dispatch. `listings` are the looks it gets in turn, `None` where a
    look fails; it decides at the first look that is not a wait, or when its time is over.
   */
  method AwaitChainedRunCapacity(
    runs: map<RunId, RunStatus>, predecessor: RunId, limit: nat, listings: seq<Option<seq<Entry>>>)
    returns (wait: Wait)
    ensures wait == NoPredecessor <==> predecessor !in runs
    ensures wait == NotCompleted <==> predecessor in runs && runs[predecessor] != Completed
    ensures wait.Admit? ==> wait.at < |listings| && listings[wait.at].Some? && wait.at <= POLLS
                            && ActiveCount(listings[wait.at].value) < limit
    ensures wait.Refuse? ==> wait.at < |listings| && listings[wait.at].Some? && wait.at <= POLLS
                             && ActiveCount(listings[wait.at].value) >= limit
                             && !OnlyActiveIs(listings[wait.at].value, RunLabel(predecessor))
    ensures wait.Unreadable? ==> wait.at < |listings| && listings[wait.at].None? && wait.at <= POLLS
    ensures wait.TimedOut? ==> wait.at == POLLS && WaitsAt(listings, POLLS, limit, RunLabel(predecessor))
    ensures wait.Admit? || wait.Refuse? || wait.Unreadable? || wait.TimedOut? ==>
              forall k: nat | k < wait.at :: WaitsAt(listings, k, limit, RunLabel(predecessor))
    ensures wait.Unsettled? ==>
              |listings| <= POLLS
              && forall k: nat | k < |listings| :: WaitsAt(listings, k, limit, RunLabel(predecessor))
  {
    if predecessor !in runs {
      return NoPredecessor;
    }
    if runs[predecessor] != Completed {
      return NotCompleted;
    }
    var runLabel := RunLabel(predecessor);
    var polls := 0;
    while polls < |listings|
      invariant polls <= |listings| && polls <= POLLS
      invariant forall k: nat | k < polls :: WaitsAt(listings, k, limit, runLabel)
    {
      if listings[polls].None? {
        return Unreadable(polls);
      }
      match ChainedCapacity(listings[polls].value, limit, runLabel) {
        case Available =>
          return Admit(polls);
        case LimitReached =>
          return Refuse(polls);
        case WaitingForPredecessor(_) =>
          assert WaitsAt(listings, polls, limit, runLabel);
          if polls >= POLLS {
            return TimedOut(polls);
          }
          polls := polls + 1;
      }
    }
    wait := Unsettled;
  }
}
