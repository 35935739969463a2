/** The verdict of the import check: modules on a common cycle that avoids the root module. */
module CycleCheck {
  import opened ModuleGraph
  import opened ComponentSearch
  import opened Components

  const ROOT: Node := "<root>"

  /** The graph that is searched: the root module and every import of it are left out. */
  function Bounded(edges: Graph): Graph {
    map node | node in edges && node != ROOT :: set target | target in edges[node] && target != ROOT
  }

  /** A closed walk along imports between known modules, never through the root. */
  ghost predicate ImportCycle(edges: Graph, p: seq<Node>) {
    IsPath(edges, p) && ROOT !in p && |p| > 1 && p[0] == p[|p| - 1]
  }

  ghost predicate OnCommonCycle(edges: Graph, x: Node, y: Node) {
    exists p :: ImportCycle(edges, p) && x in p && y in p
  }

  lemma BoundedPath(edges: Graph, p: seq<Node>)
    ensures IsPath(Bounded(edges), p) <==> IsPath(edges, p) && ROOT !in p
  {
    if IsPath(edges, p) && ROOT !in p {
      forall i | 0 <= i < |p| - 1
        ensures Edge(Bounded(edges), p[i], p[i + 1])
      {
        assert Edge(edges, p[i], p[i + 1]) && p[i] in p && p[i + 1] in p;
      }
    }
    if IsPath(Bounded(edges), p) {
      forall i | 0 <= i < |p| - 1
        ensures Edge(edges, p[i], p[i + 1])
      {
        assert Edge(Bounded(edges), p[i], p[i + 1]);
      }
    }
  }

  lemma PathReaches(g: Graph, p: seq<Node>, i: nat, j: nat)
    requires IsPath(g, p) && i <= j < |p|
    ensures Reaches(g, p[i], p[j])
  {
    var q := p[i..j + 1];
    forall k | 0 <= k < |q| - 1
      ensures Edge(g, q[k], q[k + 1])
    {
      assert Edge(g, p[i + k], p[i + k + 1]);
    }
    assert Connects(g, q, p[i], p[j]);
  }

  lemma CycleReaches(edges: Graph, p: seq<Node>, x: Node, y: Node)
    requires ImportCycle(edges, p) && x in p && y in p
    ensures Reaches(Bounded(edges), x, y)
  {
    var g := Bounded(edges);
    BoundedPath(edges, p);
    var i :| 0 <= i < |p| && p[i] == x;
    var j :| 0 <= j < |p| && p[j] == y;
    PathReaches(g, p, i, |p| - 1);
    PathReaches(g, p, 0, j);
    ReachesTrans(g, x, p[0], y);
  }

  /** Two distinct modules import each other, directly or not, exactly when one closed walk visits both. */
  lemma CommonCycleIsMutual(edges: Graph, x: Node, y: Node)
    requires x != y
    ensures OnCommonCycle(edges, x, y) <==> Mutual(Bounded(edges), x, y)
  {
    var g := Bounded(edges);
    if OnCommonCycle(edges, x, y) {
      var p :| ImportCycle(edges, p) && x in p && y in p;
      CycleReaches(edges, p, x, y);
      CycleReaches(edges, p, y, x);
    }
    if Mutual(g, x, y) {
      var p :| Connects(g, p, x, y);
      var q :| Connects(g, q, y, x);
      var r := p + q[1..];
      forall i | 0 <= i < |r| - 1
        ensures Edge(g, r[i], r[i + 1])
      {
        if i >= |p| - 1 {
          assert Edge(g, q[i - |p| + 1], q[i - |p| + 2]);
        }
      }
      BoundedPath(edges, r);
      assert r[0] == x && r[|p| - 1] == y && r[|r| - 1] == x;
      assert ImportCycle(edges, r) && x in r && y in r;
    }
  }

  ghost predicate Together(cycles: seq<seq<Node>>, x: Node, y: Node) {
    exists i :: 0 <= i < |cycles| && x in cycles[i] && y in cycles[i]
  }

  /** `--check`: the reported lists and the exit status. */
  method Check(edges: Graph) returns (cycles: seq<seq<Node>>, exit: int)
    ensures forall x, y {:trigger Together(cycles, x, y)} | x != y ::
              Together(cycles, x, y) <==> OnCommonCycle(edges, x, y)
    ensures exit == 0 || exit == 1
    ensures exit == 1 <==> exists x, y :: x != y && OnCommonCycle(edges, x, y)
  {
    var components := StronglyConnectedComponents(Bounded(edges));
    cycles := [];
    for k := 0 to |components|
      invariant forall i | 0 <= i < |cycles| :: |cycles[i]| > 1 && cycles[i] in components
      invariant forall i | 0 <= i < k && |components[i]| > 1 :: components[i] in cycles
    {
      if |components[k]| > 1 {
        cycles := cycles + [components[k]];
      }
    }
    exit := if cycles != [] then 1 else 0;
    forall x, y | x != y
      ensures Together(cycles, x, y) <==> OnCommonCycle(edges, x, y)
    {
      Reported(edges, components, cycles, x, y);
    }
    if cycles != [] {
      var i :| 0 <= i < |components| && components[i] == cycles[0];
      assert cycles[0][0] != cycles[0][1];
      assert Together(cycles, cycles[0][0], cycles[0][1]);
    }
  }

  lemma Reported(edges: Graph, components: seq<seq<Node>>, cycles: seq<seq<Node>>, x: Node, y: Node)
    requires AreComponents(Bounded(edges), components)
    requires forall i | 0 <= i < |cycles| :: cycles[i] in components
    requires forall i | 0 <= i < |components| && |components[i]| > 1 :: components[i] in cycles
    requires x != y
    ensures Together(cycles, x, y) <==> OnCommonCycle(edges, x, y)
  {
    var g := Bounded(edges);
    CommonCycleIsMutual(edges, x, y);
    if Together(cycles, x, y) {
      var i :| 0 <= i < |cycles| && x in cycles[i] && y in cycles[i];
      var j :| 0 <= j < |components| && components[j] == cycles[i];
    }
    if Mutual(g, x, y) {
      var p :| Connects(g, p, x, y);
      assert p[0] == x;
      assert Emitted(components, x);
      var j :| 0 <= j < |components| && x in components[j];
      assert y in components[j];
      var a :| 0 <= a < |components[j]| && components[j][a] == x;
      var b :| 0 <= b < |components[j]| && components[j][b] == y;
      var i :| 0 <= i < |cycles| && cycles[i] == components[j];
    }
  }
}
