/** Import graphs: paths, reachability and the strongly connected classes they induce. */
module ModuleGraph {

  type Node = string
  type Graph = map<Node, set<Node>>

  /** An import is followed only when its target is itself a module of the graph. */
  ghost predicate Edge(g: Graph, x: Node, y: Node) {
    x in g && y in g[x] && y in g
  }

  ghost predicate IsPath(g: Graph, p: seq<Node>) {
    && |p| > 0
    && (forall i | 0 <= i < |p| :: p[i] in g)
    && (forall i | 0 <= i < |p| - 1 :: Edge(g, p[i], p[i + 1]))
  }

  ghost predicate Connects(g: Graph, p: seq<Node>, x: Node, y: Node) {
    IsPath(g, p) && p[0] == x && p[|p| - 1] == y
  }

  ghost predicate Reaches(g: Graph, x: Node, y: Node) {
    exists p :: Connects(g, p, x, y)
  }

  ghost predicate Mutual(g: Graph, x: Node, y: Node) {
    Reaches(g, x, y) && Reaches(g, y, x)
  }

  lemma ReachesSelf(g: Graph, x: Node)
    requires x in g
    ensures Reaches(g, x, x)
  {
    assert Connects(g, [x], x, x);
  }

  lemma ReachesEdge(g: Graph, x: Node, y: Node)
    requires Edge(g, x, y)
    ensures Reaches(g, x, y)
  {
    assert Connects(g, [x, y], x, y);
  }

  lemma ReachesTrans(g: Graph, x: Node, y: Node, z: Node)
    requires Reaches(g, x, y) && Reaches(g, y, z)
    ensures Reaches(g, x, z)
  {
    var p :| Connects(g, p, x, y);
    var q :| Connects(g, q, y, z);
    var r := p + q[1..];
    forall i | 0 <= i < |r| - 1
      ensures Edge(g, r[i], r[i + 1])
    {
      if i >= |p| - 1 {
        var k := i - (|p| - 1);
        assert r[i] == q[k] && r[i + 1] == q[k + 1];
      }
    }
    assert Connects(g, r, x, z);
  }

  /** No path leaves a set that is closed under the edges of the graph. */
  lemma ClosedUnderReach(g: Graph, s: iset<Node>, x: Node, y: Node)
    requires forall a, b | a in s && Edge(g, a, b) :: b in s
    requires x in s && Reaches(g, x, y)
    ensures y in s
  {
    var p :| Connects(g, p, x, y);
    var i := 0;
    while i < |p| - 1
      invariant 0 <= i < |p| && p[i] in s
    {
      assert Edge(g, p[i], p[i + 1]);
      i := i + 1;
    }
  }
}
