/** The agent-to-agent allow-list and its two gates: a registered edge, and no cycle anywhere in the list. */
module Routing {
  import opened Wrappers
  import opened CycleSearch

  datatype RoutingError = AclDenied(from: string, to: string) | CyclicAcl(node: string)

  /** `node` is the least node of the edge set from which a cycle is reachable. */
  ghost predicate IsLeastCyclic(e: Edges, node: string) {
    && node in Nodes(e) && CycleReachable(e, node)
    && forall n | n in Nodes(e) && CycleReachable(e, n) :: n == node || Precedes(node, n)
  }

  class A2aAcl {
    var edges: Edges

    constructor ()
      ensures edges == {}
    {
      edges := {};
    }

    method Allow(from: string, to: string)
      modifies this
      ensures edges == old(edges) + {(from, to)}
    {
      edges := edges + {(from, to)};
    }

    method IsAllowed(from: string, to: string) returns (b: bool)
      ensures b <==> (from, to) in edges
    {
      b := (from, to) in edges;
    }

    /** The hash set is read in whatever order it yields; the answer depends on the edges alone. */
    method FirstCycleNode() returns (r: Option<string>)
      ensures r.None? <==> !HasCycle(edges)
      ensures r.Some? ==> IsLeastCyclic(edges, r.value)
    {
      var adjacency: Graph := map[];
      var nodes: seq<string> := [];
      var rest := edges;
      while rest != {}
        invariant rest <= edges
        invariant EdgesOf(adjacency) == edges - rest
        invariant SortedKeys(nodes)
        invariant forall n :: n in nodes <==> n in Nodes(edges - rest)
        decreases rest
      {
        var e :| e in rest;
        var (from, to) := e;
        ghost var before, was := adjacency, rest;
        adjacency := adjacency[from := (if from in adjacency then adjacency[from] else []) + [to]];
        PushAddsEdge(before, from, to);
        InsertKeyStaysSorted(nodes, from);
        InsertKeyStaysSorted(InsertKey(nodes, from), to);
        nodes := InsertKey(InsertKey(nodes, from), to);
        rest := rest - {e};
        assert edges - rest == (edges - was) + {e};
        NodesOfPush(edges - was, e);
      }
      assert edges - rest == edges;
      r := CycleSearch.FirstCycleNode(nodes, adjacency);
      AcyclicIffNoneReachable(edges, Nodes(edges));
    }

    method IsAcyclic() returns (b: bool)
      ensures b <==> !HasCycle(edges)
    {
      var r := FirstCycleNode();
      b := r.None?;
    }

    method AuthorizeA2a(from: string, to: string) returns (r: Result<(), RoutingError>)
      ensures r.Ok? <==> !HasCycle(edges) && (from, to) in edges
      ensures HasCycle(edges) ==> r.Err? && r.error.CyclicAcl? && IsLeastCyclic(edges, r.error.node)
      ensures !HasCycle(edges) && (from, to) !in edges ==> r == Err(AclDenied(from, to))
    {
      var cyclic := FirstCycleNode();
      if cyclic.Some? {
        return Err(CyclicAcl(cyclic.value));
      }
      var allowed := IsAllowed(from, to);
      r := if allowed then Ok(()) else Err(AclDenied(from, to));
    }
  }

  lemma {:induction false} PushAddsEdge(g: Graph, from: string, to: string)
    ensures EdgesOf(g[from := (if from in g then g[from] else []) + [to]]) == EdgesOf(g) + {(from, to)}
  {
    var g' := g[from := (if from in g then g[from] else []) + [to]];
    forall x ensures x in EdgesOf(g') <==> x in EdgesOf(g) + {(from, to)} {
    }
  }

  lemma {:induction false} NodesOfPush(e: Edges, x: (string, string))
    ensures Nodes(e + {x}) == Nodes(e) + {x.0, x.1}
  {
    forall n ensures n in Nodes(e + {x}) <==> n in Nodes(e) + {x.0, x.1} {
      if n == x.0 || n == x.1 {
        assert x in e + {x};
      } else if n in Nodes(e) {
        var y :| y in e && (y.0 == n || y.1 == n);
        assert y in e + {x};
      }
    }
  }

  ghost predicate Accepts(e: Edges, from: string, to: string) {
    !HasCycle(e) && (from, to) in e
  }

  /** Every hop of the chain passed the gate. */
  ghost predicate AcceptedChain(e: Edges, chain: seq<string>) {
    chain != [] && forall i | 0 <= i < |chain| - 1 :: Accepts(e, chain[i], chain[i + 1])
  }

  lemma {:induction false} DistinctBound(s: seq<string>, bound: set<string>)
    requires forall i, j | 0 <= i < j < |s| :: s[i] != s[j]
    requires forall i | 0 <= i < |s| :: s[i] in bound
    ensures |s| <= |bound|
  {
    if s != [] {
      var n := |s| - 1;
      DistinctBound(s[..n], bound - {s[n]});
    }
  }

  /** Handoff chains terminate: no agent repeats, so there are fewer hops than agents on the list. */
  lemma {:induction false} HandoffChainsTerminate(e: Edges, chain: seq<string>)
    requires AcceptedChain(e, chain) && |chain| >= 2
    ensures forall i, j | 0 <= i < j < |chain| :: chain[i] != chain[j]
    ensures |chain| - 1 < |Nodes(e)|
  {
    assert Accepts(e, chain[0], chain[1]);
    assert Walk(e, chain) by {
      forall i | 0 <= i < |chain| - 1 ensures (chain[i], chain[i + 1]) in e {
        assert Accepts(e, chain[i], chain[i + 1]);
      }
    }
    forall i, j | 0 <= i < j < |chain| ensures chain[i] != chain[j] {
      if chain[i] == chain[j] {
        assert Loops(e, chain);
        ReachableCycleExists(e, chain);
      }
    }
    forall i | 0 <= i < |chain| ensures chain[i] in Nodes(e) {
      assert i < |chain| - 1 ==> (chain[i], chain[i + 1]) in e;
      assert i > 0 ==> (chain[i - 1], chain[i]) in e;
    }
    DistinctBound(chain, Nodes(e));
  }
}
