/** Strongly connected components, as the mutable search computes them. */
module Components {
  import opened ModuleGraph
  import opened ComponentSearch

  ghost function StackSet(stack: seq<Node>): set<Node> {
    set v | v in stack
  }

  ghost predicate Keeps(before: map<Node, nat>, after: map<Node, nat>) {
    forall v | v in before :: v in after && after[v] == before[v]
  }

  lemma KeepsThrough(a: map<Node, nat>, b: map<Node, nat>, c: map<Node, nat>, node: Node)
    requires Keeps(a, b) && Keeps(b - {node}, c) && node !in a
    ensures Keeps(a, c)
  {
  }

  class Search {
    const edges: Graph
    var index: nat
    var indices: map<Node, nat>
    var lowlinks: map<Node, nat>
    var stack: seq<Node>
    var onStack: set<Node>
    var components: seq<seq<Node>>
    ghost var gray: set<Node>

    ghost function View(): Snapshot
      reads this
    {
      Snapshot(index, indices, stack, components, gray)
    }

    ghost predicate Valid()
      reads this
    {
      && Inv(edges, View())
      && onStack == StackSet(stack)
      && lowlinks.Keys == indices.Keys
    }

    constructor (edges: Graph)
      ensures this.edges == edges && Valid() && View() == Snapshot(0, map[], [], [], {})
    {
      this.edges := edges;
      index, indices, lowlinks := 0, map[], map[];
      stack, onStack, components, gray := [], {}, [], {};
    }

    /** One depth-first visit: it explores everything reachable and emits the components it completes. */
    method Visit(node: Node)
      requires Valid() && node in edges && node !in indices && Ready(edges, View(), node)
      modifies this
      ensures Valid()
      ensures node in lowlinks && Visited(edges, old(View()), View(), node, lowlinks[node])
      ensures Keeps(old(lowlinks), lowlinks)
      decreases edges.Keys - indices.Keys, 0
    {
      hide Inv, Scanning, Visited, Ready, Opened;
      ghost var s0 := View();
      Enter(node);
      assert Keeps(old(lowlinks), lowlinks);
      hide Keeps;

      var pending := edges[node];
      while pending != {}
        invariant pending <= edges[node] && lowlinks.Keys == indices.Keys && old(indices.Keys) + {node} <= indices.Keys
        invariant onStack == StackSet(stack)
        invariant node in lowlinks && Scanning(edges, s0, View(), node, lowlinks[node], pending)
        invariant Keeps(old(lowlinks), lowlinks)
        decreases |pending|
      {
        var target :| target in pending;
        assert pending == pending - {target} + {target};
        pending := pending - {target};
        ghost var links := lowlinks;
        Follow(s0, node, target, pending);
        KeepsThrough(old(lowlinks), links, lowlinks, node);
      }

      ScanLink(edges, s0, View(), node, lowlinks[node]);
      if lowlinks[node] == indices[node] {
        PopComponent(s0, node);
      } else {
        ghost var s := View();
        gray := gray - {node};
        CloseKeep(edges, s0, s, node, lowlinks[node]);
      }
    }

    /** Numbers a node and puts it on the stack. */
    method Enter(node: Node)
      requires Valid() && node in edges && node !in indices && Ready(edges, View(), node)
      modifies this
      ensures View() == Opened(old(View()), node) && lowlinks == old(lowlinks)[node := old(index)]
      ensures lowlinks.Keys == indices.Keys && onStack == StackSet(stack)
      ensures Scanning(edges, old(View()), View(), node, lowlinks[node], edges[node])
    {
      hide Inv, Scanning, Ready;
      ghost var s0 := View();
      indices := indices[node := index];
      lowlinks := lowlinks[node := index];
      index := index + 1;
      stack := stack + [node];
      onStack := onStack + {node};
      gray := gray + {node};
      OpenScanning(edges, s0, node);
    }

    /** One target of the node being visited. */
    method Follow(ghost s0: Snapshot, node: Node, target: Node, ghost pending: set<Node>)
      requires lowlinks.Keys == indices.Keys && onStack == StackSet(stack)
      requires node in edges && target in edges[node] && node in indices
      requires Scanning(edges, s0, View(), node, lowlinks[node], pending + {target})
      modifies this
      ensures lowlinks.Keys == indices.Keys && onStack == StackSet(stack)
      ensures node in indices && Scanning(edges, s0, View(), node, lowlinks[node], pending)
      ensures old(indices.Keys) <= indices.Keys
      ensures Keeps(old(lowlinks) - {node}, lowlinks)
      decreases edges.Keys - indices.Keys, 1
    {
      hide Inv, Scanning, Visited, Ready;
      ghost var s, low := View(), lowlinks[node];
      assert Inv(edges, s) by { ScanInv(edges, s0, s, node, low, pending + {target}); }
      if target in edges && target !in indices {
        TargetReady(edges, s0, s, node, low, pending + {target}, target);
        Visit(target);
        VisitedKeeps(edges, s, View(), target, lowlinks[target]);
        lowlinks := lowlinks[node := Min(lowlinks[node], lowlinks[target])];
        VisitedTargetStep(edges, s0, s, View(), node, low, pending, target, lowlinks[target], lowlinks[node]);
      } else if target in edges && target in onStack {
        lowlinks := lowlinks[node := Min(lowlinks[node], indices[target])];
        StackTargetStep(edges, s0, s, node, low, pending, target, lowlinks[node]);
      } else {
        OtherTargetStep(edges, s0, s, node, low, pending, target);
      }
    }

    /** Unwinds the stack down to `node` and emits what it removed as one component. */
    method PopComponent(ghost s0: Snapshot, node: Node)
      requires lowlinks.Keys == indices.Keys && onStack == StackSet(stack)
      requires node in lowlinks && node in indices && lowlinks[node] == indices[node] == s0.index
      requires Scanning(edges, s0, View(), node, s0.index, {})
      modifies this`stack, this`onStack, this`components, this`gray
      ensures Valid() && Visited(edges, s0, View(), node, s0.index)
    {
      hide Inv, Scanning, Visited;
      ghost var s := View();
      var component: seq<Node> := [];
      var target: Node;
      StackShape(edges, s0, s, node);
      while true
        invariant |s0.stack| < |stack| <= |s.stack| && stack == s.stack[..|stack|]
        invariant onStack == StackSet(stack)
        invariant |component| == |s.stack| - |stack|
        invariant forall i | 0 <= i < |component| :: component[i] == s.stack[|s.stack| - 1 - i]
        invariant View() == s.(stack := stack)
        decreases |stack|
      {
        target := stack[|stack| - 1];
        stack := stack[..|stack| - 1];
        onStack := onStack - {target};
        component := component + [target];
        if target == node {
          break;
        }
      }
      components := components + [component];
      gray := gray - {node};
      assert stack == s0.stack && View() == Popped(s0, s, node, component);
      ClosePop(edges, s0, s, node, component);
    }
  }

  /** Every module is listed once, in one component. */
  ghost predicate Partitions(g: Graph, cs: seq<seq<Node>>) {
    && (forall v | v in g :: Emitted(cs, v))
    && (forall i, v | 0 <= i < |cs| && v in cs[i] :: v in g)
    && Disjoint(cs)
    && (forall i, a, b | 0 <= i < |cs| && 0 <= a < b < |cs[i]| :: cs[i][a] != cs[i][b])
  }

  /** The emitted lists are exactly the classes of mutual reachability. */
  ghost predicate AreComponents(g: Graph, cs: seq<seq<Node>>) {
    && Partitions(g, cs)
    && (forall i, x, y {:trigger Mutual(g, x, y), cs[i]} | 0 <= i < |cs| && x in cs[i] ::
          y in cs[i] <==> Mutual(g, x, y))
  }

  /** The search from every module not yet reached, in whatever order the modules are taken. */
  method StronglyConnectedComponents(edges: Graph) returns (components: seq<seq<Node>>)
    ensures AreComponents(edges, components)
    ensures DependenciesFirst(edges, components)
  {
    var search := new Search(edges);
    var pending := edges.Keys;
    while pending != {}
      invariant search.edges == edges && fresh(search) && search.Valid()
      invariant search.gray == {} && search.stack == []
      invariant pending <= edges.Keys
      invariant forall v | v in edges && v !in pending :: v in search.indices
      decreases |pending|
    {
      var node :| node in pending;
      if node !in search.indices {
        search.Visit(node);
      }
      pending := pending - {node};
    }
    components := search.components;
    FinishedSearch(edges, search.View());
  }

  lemma FinishedSearch(g: Graph, s: Snapshot)
    requires Inv(g, s) && s.stack == [] && g.Keys <= s.indices.Keys
    ensures AreComponents(g, s.components)
  {
  }
}
