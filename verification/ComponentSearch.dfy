/**
  The depth-first search for strongly connected components. A Snapshot is the abstract value of
  the search at one moment; `gray` holds the nodes whose visit has begun and not yet ended.
 */
module ComponentSearch {
  import opened ModuleGraph

  datatype Snapshot = Snapshot(
    index: nat,
    indices: map<Node, nat>,
    stack: seq<Node>,
    components: seq<seq<Node>>,
    gray: set<Node>)

  function Min(a: nat, b: nat): nat {
    if a <= b then a else b
  }

  ghost predicate Emitted(cs: seq<seq<Node>>, v: Node) {
    exists i :: 0 <= i < |cs| && v in cs[i]
  }

  ghost predicate Disjoint(cs: seq<seq<Node>>) {
    forall i, j, v {:trigger v in cs[i], v in cs[j]} |
      0 <= i < |cs| && 0 <= j < |cs| && v in cs[i] && v in cs[j] :: i == j
  }

  /** Numbering, and the split of the visited nodes into the stack and the emitted components. */
  ghost predicate Numbered(g: Graph, s: Snapshot) {
    && (forall v | v in s.indices :: v in g && s.indices[v] < s.index)
    && (forall i | 0 <= i < |s.stack| :: s.stack[i] in s.indices)
    && (forall i, j | 0 <= i < j < |s.stack| :: s.indices[s.stack[i]] < s.indices[s.stack[j]])
    && (forall v | v in s.indices :: v in s.stack || Emitted(s.components, v))
    && (forall v | v in s.stack :: !Emitted(s.components, v))
    && (forall i, v | 0 <= i < |s.components| && v in s.components[i] :: v in s.indices)
    && Disjoint(s.components)
  }

  /** The stack seen as a graph: earlier reaches later, and everything reaches an open node. */
  ghost predicate Threaded(g: Graph, s: Snapshot) {
    && (forall v | v in s.gray :: v in s.stack)
    && (forall x, y {:trigger Reaches(g, x, y)} |
          x in s.stack && y in s.stack && x in s.indices && y in s.indices && s.indices[x] <= s.indices[y] ::
        Reaches(g, x, y))
    && (forall x {:trigger Returns(g, s, x)} | x in s.stack :: Returns(g, s, x))
  }

  ghost predicate Returns(g: Graph, s: Snapshot, x: Node) {
    x in s.indices && exists y :: ReturnsVia(g, s, x, y)
  }

  ghost predicate ReturnsVia(g: Graph, s: Snapshot, x: Node, y: Node)
    requires x in s.indices
  {
    y in s.gray && y in s.indices && s.indices[y] <= s.indices[x] && Reaches(g, x, y)
  }

  /** A finished node has only visited targets. */
  ghost predicate Explored(g: Graph, s: Snapshot) {
    forall x, t | x in s.indices && x !in s.gray && Edge(g, x, t) :: t in s.indices
  }

  ghost predicate IsClass(g: Graph, c: seq<Node>) {
    && |c| > 0
    && (forall i, j | 0 <= i < j < |c| :: c[i] != c[j])
    && (forall x | x in c :: x in g)
    && (forall x, y {:trigger Mutual(g, x, y)} | x in c :: y in c <==> Mutual(g, x, y))
  }

  /** Edges leaving an emitted component stay in it or lead to one emitted earlier. */
  ghost predicate DependenciesFirst(g: Graph, cs: seq<seq<Node>>) {
    forall i, x, t | 0 <= i < |cs| && x in cs[i] && Edge(g, x, t) :: Emitted(cs[..i + 1], t)
  }

  ghost predicate AllClasses(g: Graph, cs: seq<seq<Node>>) {
    forall i | 0 <= i < |cs| :: IsClass(g, cs[i])
  }

  ghost predicate Inv(g: Graph, s: Snapshot) {
    && Numbered(g, s)
    && Threaded(g, s)
    && Explored(g, s)
    && DependenciesFirst(g, s.components)
    && AllClasses(g, s.components)
  }

  /** What a completed visit may have changed. */
  ghost predicate Grows(s0: Snapshot, s1: Snapshot) {
    && s0.index <= s1.index
    && s0.gray == s1.gray
    && s0.stack <= s1.stack
    && s0.components <= s1.components
    && (forall v | v in s0.indices :: v in s1.indices && s1.indices[v] == s0.indices[v])
    && (forall v | v in s1.indices && v !in s0.indices :: s1.indices[v] >= s0.index)
  }

  /** `low` never exceeds the index of an old stack node targeted from the new part of the stack. */
  ghost predicate Covers(g: Graph, s0: Snapshot, s: Snapshot, node: Node, low: nat, pending: set<Node>) {
    forall x, t {:trigger Edge(g, x, t)} |
      && x in s.stack && x !in s0.stack && Edge(g, x, t)
      && t in s0.stack && t in s.indices
      && !(x == node && t in pending) ::
      low <= s.indices[t]
  }

  ghost predicate Witnessed(g: Graph, s0: Snapshot, s: Snapshot, node: Node, low: nat) {
    exists y :: y in s0.stack && y in s.indices && s.indices[y] == low && Reaches(g, node, y)
  }

  /** The promise of a completed visit of `node`. */
  ghost predicate Visited(g: Graph, s0: Snapshot, s: Snapshot, node: Node, low: nat) {
    && Grows(s0, s)
    && node in s.indices && s.indices[node] == s0.index < s.index
    && low <= s0.index
    && Covers(g, s0, s, node, low, {})
    && if low == s0.index then s.stack == s0.stack else Witnessed(g, s0, s, node, low)
  }

  /** A visit of `node` may begin: every open node reaches it. */
  ghost predicate Ready(g: Graph, s: Snapshot, node: Node) {
    && Inv(g, s)
    && node in g && node !in s.indices
    && (forall y | y in s.gray :: Reaches(g, y, node))
  }

  ghost function Opened(s: Snapshot, node: Node): Snapshot {
    Snapshot(s.index + 1, s.indices[node := s.index], s.stack + [node], s.components, s.gray + {node})
  }

  /** The loop invariant of a visit: the targets outside `pending` have been dealt with. */
  ghost predicate Scanning(g: Graph, s0: Snapshot, s: Snapshot, node: Node, low: nat, pending: set<Node>) {
    && Ready(g, s0, node)
    && Inv(g, s)
    && Grows(Opened(s0, node), s)
    && low <= s0.index
    && (low == s0.index || Witnessed(g, s0, s, node, low))
    && Covers(g, s0, s, node, low, pending)
    && (forall t | Edge(g, node, t) && t !in pending :: t in s.indices)
  }

  // ------------------------------------------------------------------ opening a node

  lemma StackReachesReady(g: Graph, s: Snapshot, node: Node, x: Node)
    requires Ready(g, s, node) && x in s.stack
    ensures Reaches(g, x, node)
  {
    assert Returns(g, s, x);
    var y :| ReturnsVia(g, s, x, y);
    ReachesTrans(g, x, y, node);
  }

  lemma OpenThreaded(g: Graph, s0: Snapshot, node: Node)
    requires Ready(g, s0, node)
    ensures Threaded(g, Opened(s0, node))
  {
    var s := Opened(s0, node);
    ReachesSelf(g, node);
    forall x, y | x in s.stack && y in s.stack && s.indices[x] <= s.indices[y]
      ensures Reaches(g, x, y)
    {
      if x != node && y == node {
        StackReachesReady(g, s0, node, x);
      }
    }
    forall x | x in s.stack
      ensures Returns(g, s, x)
    {
      if x == node {
        assert ReturnsVia(g, s, x, x);
      } else {
        assert Returns(g, s0, x);
        var y :| ReturnsVia(g, s0, x, y);
        assert ReturnsVia(g, s, x, y);
      }
    }
  }

  lemma OpenScanning(g: Graph, s0: Snapshot, node: Node)
    requires Ready(g, s0, node)
    ensures Scanning(g, s0, Opened(s0, node), node, s0.index, g[node])
  {
    OpenThreaded(g, s0, node);
  }

  // ------------------------------------------------------------------ one target

  /** An unvisited target may be visited next: every open node reaches it. */
  lemma TargetReady(g: Graph, s0: Snapshot, s: Snapshot, node: Node, low: nat, pending: set<Node>, t: Node)
    requires Scanning(g, s0, s, node, low, pending)
    requires Edge(g, node, t) && t !in s.indices
    ensures Ready(g, s, t)
  {
    assert Opened(s0, node).stack[|s0.stack|] == node;
    ReachesEdge(g, node, t);
    forall y | y in s.gray
      ensures Reaches(g, y, t)
    {
      assert Reaches(g, y, node);
      ReachesTrans(g, y, node, t);
    }
  }

  lemma SameWitness(g: Graph, s0: Snapshot, s: Snapshot, s': Snapshot, node: Node, low: nat)
    requires Witnessed(g, s0, s, node, low) && Grows(s, s')
    ensures Witnessed(g, s0, s', node, low)
  {
    var y :| y in s0.stack && y in s.indices && s.indices[y] == low && Reaches(g, node, y);
    assert s'.indices[y] == low;
  }

  /** A target found on the stack lowers the link to its own index at most. */
  lemma StackTargetStep(
    g: Graph, s0: Snapshot, s: Snapshot, node: Node, low: nat, pending: set<Node>, t: Node, low': nat)
    requires Scanning(g, s0, s, node, low, pending + {t})
    requires Edge(g, node, t) && t in s.stack && low' == Min(low, s.indices[t])
    ensures Scanning(g, s0, s, node, low', pending)
  {
    ReachesEdge(g, node, t);
    if low' != s0.index && low' != low {
      StackBelow(g, s0, s, node, t);
      assert Witnessed(g, s0, s, node, low');
    }
  }

  /** Stack nodes numbered before `node` are exactly the old ones. */
  lemma StackBelow(g: Graph, s0: Snapshot, s: Snapshot, node: Node, t: Node)
    requires Ready(g, s0, node) && Grows(Opened(s0, node), s)
    requires t in s.stack && Numbered(g, s)
    ensures t in s0.stack <==> s.indices[t] < s0.index
  {
    var k := |s0.stack|;
    assert s.stack[k] == Opened(s0, node).stack[k] == node;
    var i :| 0 <= i < |s.stack| && s.stack[i] == t;
    if i < k {
      assert s.stack[i] == Opened(s0, node).stack[i] == s0.stack[i];
    }
  }

  lemma GrowsTrans(a: Snapshot, b: Snapshot, c: Snapshot)
    requires Grows(a, b) && Grows(b, c)
    ensures Grows(a, c)
  {
  }

  /** A target that is already in an emitted component, or is no module, changes nothing. */
  lemma OtherTargetStep(
    g: Graph, s0: Snapshot, s: Snapshot, node: Node, low: nat, pending: set<Node>, t: Node)
    requires Scanning(g, s0, s, node, low, pending + {t})
    requires t !in g || (t in s.indices && t !in s.stack)
    ensures Scanning(g, s0, s, node, low, pending)
  {
    forall i | 0 <= i < |s0.stack| ensures s0.stack[i] in s.stack {
      assert s.stack[i] == Opened(s0, node).stack[i] == s0.stack[i];
    }
  }

  /** After the recursive visit of a target the scan goes on with the smaller of the two links. */
  lemma VisitedTargetStep(
    g: Graph, s0: Snapshot, s: Snapshot, s': Snapshot, node: Node, low: nat, pending: set<Node>, t: Node,
    lowT: nat, low': nat)
    requires Scanning(g, s0, s, node, low, pending + {t})
    requires Edge(g, node, t) && t !in s.indices
    requires Inv(g, s') && Visited(g, s, s', t, lowT)
    requires low' == Min(low, lowT)
    ensures Scanning(g, s0, s', node, low', pending)
  {
    OldStackKept(g, s0, s, node);
    ChildLow(g, s0, s, s', node, low, pending, t, lowT);
    hide Inv, Ready, Numbered, Edge, Reaches, Covers, Grows, Witnessed, Opened;
    GrowsTrans(Opened(s0, node), s, s');
    ChildCovers(g, s0, s, s', node, low, pending, t, lowT);
    ChildTargets(g, node, pending, t, s, s');
  }

  lemma ChildLow(
    g: Graph, s0: Snapshot, s: Snapshot, s': Snapshot, node: Node, low: nat, pending: set<Node>, t: Node, lowT: nat)
    requires Scanning(g, s0, s, node, low, pending + {t})
    requires Edge(g, node, t) && t !in s.indices
    requires Inv(g, s') && Visited(g, s, s', t, lowT)
    ensures var low' := Min(low, lowT);
            low' <= s0.index && (low' == s0.index || Witnessed(g, s0, s', node, low'))
  {
    ReachesEdge(g, node, t);
    hide Inv, Ready, Edge, Reaches, Covers, Opened, Witnessed;
    if Min(low, lowT) == low && low != s0.index {
      SameWitness(g, s0, s, s', node, low);
    } else if Min(low, lowT) != s0.index {
      ChildWitness(g, s0, s, s', node, low, pending + {t}, t, lowT);
    }
  }

  lemma OldStackKept(g: Graph, s0: Snapshot, s: Snapshot, node: Node)
    requires Numbered(g, s0) && Grows(Opened(s0, node), s)
    ensures s0.stack <= s.stack && forall u | u in s0.stack :: u in s.indices
  {
    assert s0.stack <= Opened(s0, node).stack;
    forall u | u in s0.stack
      ensures u in s.indices
    {
      assert u in s0.indices && u in Opened(s0, node).indices;
    }
  }

  lemma ChildTargets(g: Graph, node: Node, pending: set<Node>, t: Node, s: Snapshot, s': Snapshot)
    requires forall u | Edge(g, node, u) && u !in pending + {t} :: u in s.indices
    requires Grows(s, s') && t in s'.indices
    ensures forall u | Edge(g, node, u) && u !in pending :: u in s'.indices
  {
  }

  lemma ChildWitness(
    g: Graph, s0: Snapshot, s: Snapshot, s': Snapshot, node: Node, low: nat, pending: set<Node>, t: Node, lowT: nat)
    requires Scanning(g, s0, s, node, low, pending)
    requires Reaches(g, node, t) && t !in s.indices
    requires Inv(g, s') && Visited(g, s, s', t, lowT)
    requires lowT < s0.index
    ensures Witnessed(g, s0, s', node, lowT)
  {
    var y :| y in s.stack && y in s'.indices && s'.indices[y] == lowT && Reaches(g, t, y);
    ReachesTrans(g, node, t, y);
    StackBelow(g, s0, s, node, y);
  }

  lemma ChildCovers(
    g: Graph, s0: Snapshot, s: Snapshot, s': Snapshot, node: Node, low: nat, pending: set<Node>, t: Node, lowT: nat)
    requires Covers(g, s0, s, node, low, pending + {t}) && Covers(g, s, s', t, lowT, {})
    requires Grows(s, s') && s0.stack <= s.stack
    requires forall u | u in s0.stack :: u in s.indices
    requires t !in s.indices
    ensures Covers(g, s0, s', node, Min(low, lowT), pending)
  {
    forall x, u |
      && x in s'.stack && x !in s0.stack && Edge(g, x, u)
      && u in s0.stack && u in s'.indices
      && !(x == node && u in pending)
      ensures Min(low, lowT) <= s'.indices[u]
    {
      assert u in s.stack && u in s.indices;
    }
  }

  // ------------------------------------------------------------------ closing a node

  ghost function Blackened(s: Snapshot, node: Node): Snapshot {
    s.(gray := s.gray - {node})
  }

  ghost function Popped(s0: Snapshot, s: Snapshot, node: Node, component: seq<Node>): Snapshot {
    Snapshot(s.index, s.indices, s0.stack, s.components + [component], s.gray - {node})
  }

  lemma WitnessReturns(g: Graph, s0: Snapshot, s: Snapshot, node: Node, low: nat) returns (z: Node)
    requires Ready(g, s0, node) && Grows(Opened(s0, node), s)
    requires Witnessed(g, s0, s, node, low)
    ensures z in s0.gray && z in s.indices && s.indices[z] <= low && Reaches(g, node, z)
  {
    var w :| w in s0.stack && w in s.indices && s.indices[w] == low && Reaches(g, node, w);
    assert Returns(g, s0, w);
    z :| ReturnsVia(g, s0, w, z);
    ReachesTrans(g, node, w, z);
    assert Opened(s0, node).indices[w] == s0.indices[w] && Opened(s0, node).indices[z] == s0.indices[z];
  }

  lemma KeepReturns(g: Graph, s0: Snapshot, s: Snapshot, node: Node, low: nat, x: Node)
    requires Scanning(g, s0, s, node, low, {})
    requires low < s0.index && x in s.stack
    ensures Returns(g, Blackened(s, node), x)
  {
    var s' := Blackened(s, node);
    assert Returns(g, s, x);
    var y :| ReturnsVia(g, s, x, y);
    if y == node {
      var z := WitnessReturns(g, s0, s, node, low);
      ReachesTrans(g, x, node, z);
      assert Opened(s0, node).indices[node] == s0.index;
      assert ReturnsVia(g, s', x, z);
    } else {
      assert ReturnsVia(g, s', x, y);
    }
  }

  lemma CloseGrows(g: Graph, s0: Snapshot, s: Snapshot, node: Node)
    requires Ready(g, s0, node) && Grows(Opened(s0, node), s)
    ensures Grows(s0, Blackened(s, node))
    ensures node in s.indices && s.indices[node] == s0.index < s.index
  {
    var o := Opened(s0, node);
    assert s0.stack <= o.stack;
    assert s0.gray == o.gray - {node};
    assert o.indices[node] == s0.index;
    forall v | v in s0.indices
      ensures v in s.indices && s.indices[v] == s0.indices[v]
    {
      assert o.indices[v] == s0.indices[v];
    }
  }

  lemma KeepInv(g: Graph, s0: Snapshot, s: Snapshot, node: Node, low: nat)
    requires Scanning(g, s0, s, node, low, {}) && low < s0.index
    ensures Inv(g, Blackened(s, node))
  {
    var s' := Blackened(s, node);
    assert Threaded(g, s') by {
      forall x | x in s'.stack
        ensures Returns(g, s', x)
      {
        KeepReturns(g, s0, s, node, low, x);
      }
    }
  }

  /** A node linked to something older stays on the stack. */
  lemma CloseKeep(g: Graph, s0: Snapshot, s: Snapshot, node: Node, low: nat)
    requires Scanning(g, s0, s, node, low, {}) && low < s0.index
    ensures Inv(g, Blackened(s, node)) && Visited(g, s0, Blackened(s, node), node, low)
  {
    KeepInv(g, s0, s, node, low);
    CloseGrows(g, s0, s, node);
    SameWitness(g, s0, s, s, node, low);
    assert Covers(g, s0, Blackened(s, node), node, low, {});
  }

  /** Nothing leaves the new part of the stack except into components already emitted. */
  lemma NewPartClosed(g: Graph, s0: Snapshot, s: Snapshot, node: Node, x: Node, t: Node)
    requires Scanning(g, s0, s, node, s0.index, {})
    requires x in s.stack && x !in s0.stack && Edge(g, x, t)
    ensures (t in s.stack && t !in s0.stack) || Emitted(s.components, t)
  {
    if t in s0.stack {
      assert false;
    }
  }

  lemma EmittedClosed(g: Graph, cs: seq<seq<Node>>, x: Node, t: Node)
    requires DependenciesFirst(g, cs) && Emitted(cs, x) && Edge(g, x, t)
    ensures Emitted(cs, t)
  {
    var i :| 0 <= i < |cs| && x in cs[i];
    var j :| 0 <= j < |cs[..i + 1]| && t in cs[..i + 1][j];
    assert t in cs[j];
  }

  lemma EmittedTraps(g: Graph, cs: seq<seq<Node>>, x: Node, y: Node)
    requires DependenciesFirst(g, cs) && Emitted(cs, x) && Reaches(g, x, y)
    ensures Emitted(cs, y)
  {
    var done := iset v | Emitted(cs, v);
    forall a, b | a in done && Edge(g, a, b)
      ensures b in done
    {
      EmittedClosed(g, cs, a, b);
    }
    ClosedUnderReach(g, done, x, y);
  }

  lemma NewPartTraps(g: Graph, s0: Snapshot, s: Snapshot, node: Node, x: Node, y: Node)
    requires Scanning(g, s0, s, node, s0.index, {})
    requires x in s.stack && x !in s0.stack && Reaches(g, x, y)
    ensures (y in s.stack && y !in s0.stack) || Emitted(s.components, y)
  {
    var near := iset v | (v in s.stack && v !in s0.stack) || Emitted(s.components, v);
    forall a, b | a in near && Edge(g, a, b)
      ensures b in near
    {
      if Emitted(s.components, a) {
        EmittedClosed(g, s.components, a, b);
      } else {
        NewPartClosed(g, s0, s, node, a, b);
      }
    }
    ClosedUnderReach(g, near, x, y);
  }

  lemma NewPartMeetsNode(g: Graph, s0: Snapshot, s: Snapshot, node: Node, x: Node)
    requires Scanning(g, s0, s, node, s0.index, {})
    requires x in s.stack && x !in s0.stack
    ensures Mutual(g, x, node)
  {
    assert Opened(s0, node).stack[|s0.stack|] == s.stack[|s0.stack|] == node;
    StackBelow(g, s0, s, node, x);
    assert Reaches(g, node, x);
    assert Returns(g, s, x);
    var y :| ReturnsVia(g, s, x, y);
    NewPartTraps(g, s0, s, node, x, y);
  }

  /** With the link still at its own index, `node` is the first of a whole component. */
  lemma NewPartIsClass(g: Graph, s0: Snapshot, s: Snapshot, node: Node, x: Node, y: Node)
    requires Scanning(g, s0, s, node, s0.index, {})
    requires x in s.stack && x !in s0.stack
    ensures (y in s.stack && y !in s0.stack) <==> Mutual(g, x, y)
  {
    NewPartMeetsNode(g, s0, s, node, x);
    if y in s.stack && y !in s0.stack {
      NewPartMeetsNode(g, s0, s, node, y);
      ReachesTrans(g, x, node, y);
      ReachesTrans(g, y, node, x);
    }
    if Mutual(g, x, y) {
      NewPartTraps(g, s0, s, node, x, y);
      if Emitted(s.components, y) {
        EmittedTraps(g, s.components, y, x);
      }
    }
  }

  lemma ScanLink(g: Graph, s0: Snapshot, s: Snapshot, node: Node, low: nat)
    requires Scanning(g, s0, s, node, low, {})
    ensures node in s.indices && low <= s0.index == s.indices[node]
  {
    CloseGrows(g, s0, s, node);
  }

  lemma ScanInv(g: Graph, s0: Snapshot, s: Snapshot, node: Node, low: nat, pending: set<Node>)
    requires Scanning(g, s0, s, node, low, pending)
    ensures Inv(g, s)
  {
  }

  lemma VisitedKeeps(g: Graph, s: Snapshot, s': Snapshot, t: Node, low: nat)
    requires Visited(g, s, s', t, low)
    ensures t in s'.indices && s.indices.Keys <= s'.indices.Keys
  {
  }

  lemma StackShape(g: Graph, s0: Snapshot, s: Snapshot, node: Node)
    requires Scanning(g, s0, s, node, s0.index, {})
    ensures s0.stack <= s.stack && |s0.stack| < |s.stack| && s.stack[|s0.stack|] == node
    ensures forall i, j | 0 <= i < j < |s.stack| :: s.stack[i] != s.stack[j]
  {
    assert s0.stack <= Opened(s0, node).stack;
    assert Opened(s0, node).stack[|s0.stack|] == s.stack[|s0.stack|];
  }

  /** `component` is the new part of the stack, last pushed first. */
  ghost predicate Unwinds(s0: Snapshot, s: Snapshot, component: seq<Node>) {
    && s0.stack <= s.stack
    && |component| == |s.stack| - |s0.stack|
    && (forall i | 0 <= i < |component| :: component[i] == s.stack[|s.stack| - 1 - i])
  }

  lemma UnwoundMembers(g: Graph, s0: Snapshot, s: Snapshot, component: seq<Node>, v: Node)
    requires Numbered(g, s) && Unwinds(s0, s, component)
    ensures v in component <==> (v in s.stack && v !in s0.stack)
  {
    if v in component {
      var i :| 0 <= i < |component| && component[i] == v;
      assert s.stack[|s.stack| - 1 - i] == v;
    }
    if v in s.stack && v !in s0.stack {
      var j :| 0 <= j < |s.stack| && s.stack[j] == v;
      assert component[|s.stack| - 1 - j] == v;
    }
  }

  lemma UnwoundIsClass(g: Graph, s0: Snapshot, s: Snapshot, node: Node, component: seq<Node>)
    requires Scanning(g, s0, s, node, s0.index, {})
    requires Unwinds(s0, s, component)
    ensures IsClass(g, component)
  {
    assert Opened(s0, node).stack[|s0.stack|] == s.stack[|s0.stack|];
    forall i, j | 0 <= i < j < |component|
      ensures component[i] != component[j]
    {
      assert s.indices[component[j]] < s.indices[component[i]];
    }
    forall x | x in component
      ensures x in g
    {
      UnwoundMembers(g, s0, s, component, x);
    }
    forall x, y | x in component
      ensures y in component <==> Mutual(g, x, y)
    {
      UnwoundMembers(g, s0, s, component, x);
      UnwoundMembers(g, s0, s, component, y);
      NewPartIsClass(g, s0, s, node, x, y);
    }
  }

  lemma PopDependencies(g: Graph, s0: Snapshot, s: Snapshot, node: Node, component: seq<Node>)
    requires Scanning(g, s0, s, node, s0.index, {})
    requires Unwinds(s0, s, component)
    ensures DependenciesFirst(g, s.components + [component])
  {
    var cs := s.components + [component];
    forall i, x, t | 0 <= i < |cs| && x in cs[i] && Edge(g, x, t)
      ensures Emitted(cs[..i + 1], t)
    {
      if i < |s.components| {
        assert cs[..i + 1] == s.components[..i + 1];
        assert Emitted(s.components[..i + 1], t);
      } else {
        UnwoundMembers(g, s0, s, component, x);
        UnwoundMembers(g, s0, s, component, t);
        NewPartClosed(g, s0, s, node, x, t);
        assert cs[..i + 1] == cs && cs[i] == component;
        if Emitted(s.components, t) {
          var j :| 0 <= j < |s.components| && t in s.components[j];
          assert t in cs[j];
        }
      }
    }
  }

  lemma PopNumbered(g: Graph, s0: Snapshot, s: Snapshot, node: Node, component: seq<Node>)
    requires Numbered(g, s0) && Numbered(g, s)
    requires Unwinds(s0, s, component)
    ensures Numbered(g, Popped(s0, s, node, component))
  {
    var s' := Popped(s0, s, node, component);
    var cs := s.components + [component];
    forall v
      ensures Emitted(cs, v) <==> Emitted(s.components, v) || v in component
    {
      if Emitted(s.components, v) {
        var j :| 0 <= j < |s.components| && v in s.components[j];
        assert v in cs[j];
      }
      if v in component {
        assert v in cs[|s.components|];
      }
    }
    forall v | v in s.stack || v in component
      ensures v in s.stack && (v in component <==> v !in s0.stack)
    {
      UnwoundMembers(g, s0, s, component, v);
    }
    forall i, v | 0 <= i < |cs| && v in cs[i]
      ensures v in s.indices
    {
    }
    assert Disjoint(cs) by {
      forall i, j, v | 0 <= i < |cs| && 0 <= j < |cs| && v in cs[i] && v in cs[j]
        ensures i == j
      {
        assert i < |s.components| ==> Emitted(s.components, v);
        assert j < |s.components| ==> Emitted(s.components, v);
      }
    }
    forall i | 0 <= i < |s0.stack|
      ensures s0.stack[i] == s.stack[i]
    {
    }
  }

  lemma PopThreaded(g: Graph, s0: Snapshot, s: Snapshot, node: Node, component: seq<Node>)
    requires Ready(g, s0, node) && Grows(Opened(s0, node), s)
    ensures Threaded(g, Popped(s0, s, node, component))
  {
    var s' := Popped(s0, s, node, component);
    CloseGrows(g, s0, s, node);
    assert s'.gray == s0.gray;
    forall x | x in s'.stack
      ensures Returns(g, s', x)
    {
      assert Returns(g, s0, x);
      var y :| ReturnsVia(g, s0, x, y);
      assert ReturnsVia(g, s', x, y);
    }
    forall x, y | x in s'.stack && y in s'.stack && s'.indices[x] <= s'.indices[y]
      ensures Reaches(g, x, y)
    {
      assert s0.indices[x] <= s0.indices[y];
    }
  }

  lemma PopInv(g: Graph, s0: Snapshot, s: Snapshot, node: Node, component: seq<Node>)
    requires Scanning(g, s0, s, node, s0.index, {})
    requires Unwinds(s0, s, component)
    ensures Inv(g, Popped(s0, s, node, component))
  {
    var s' := Popped(s0, s, node, component);
    assert Numbered(g, s') by { PopNumbered(g, s0, s, node, component); }
    assert Threaded(g, s') by { PopThreaded(g, s0, s, node, component); }
    assert DependenciesFirst(g, s'.components) by { PopDependencies(g, s0, s, node, component); }
    assert AllClasses(g, s'.components) by { UnwoundIsClass(g, s0, s, node, component); }
    assert Explored(g, s');
  }

  /** A node linked to nothing older closes its component. */
  lemma ClosePop(g: Graph, s0: Snapshot, s: Snapshot, node: Node, component: seq<Node>)
    requires Scanning(g, s0, s, node, s0.index, {})
    requires Unwinds(s0, s, component)
    ensures Inv(g, Popped(s0, s, node, component))
    ensures Visited(g, s0, Popped(s0, s, node, component), node, s0.index)
  {
    PopInv(g, s0, s, node, component);
    CloseGrows(g, s0, s, node);
  }
}
