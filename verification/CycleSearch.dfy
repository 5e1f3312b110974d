/**
 The three-colour depth-first search both `A2aAcl::first_cycle_node` and the module/fragment
 validators run: nodes in ascending order, a `marks` map shared by all visits.
 */
module CycleSearch {
  import opened Wrappers

  /** Rust's `str` order: character by character, a proper prefix first. */
  predicate Precedes(a: string, b: string) {
    b != [] && (a == [] || a[0] < b[0] || (a[0] == b[0] && Precedes(a[1..], b[1..])))
  }

  lemma {:induction false} PrecedesIsTransitive(a: string, b: string, c: string)
    requires Precedes(a, b) && Precedes(b, c)
    ensures Precedes(a, c)
  {
    if a != [] && a[0] == b[0] == c[0] {
      PrecedesIsTransitive(a[1..], b[1..], c[1..]);
    }
  }

  lemma {:induction false} PrecedesIsTotal(a: string, b: string)
    ensures Precedes(a, b) || Precedes(b, a) || a == b
    ensures !(Precedes(a, b) && Precedes(b, a)) && !Precedes(a, a)
  {
    if a != [] && b != [] {
      PrecedesIsTotal(a[1..], b[1..]);
      assert a == [a[0]] + a[1..] && b == [b[0]] + b[1..];
    }
    PrecedesIsIrreflexive(a);
  }

  lemma {:induction false} PrecedesIsIrreflexive(a: string)
    ensures !Precedes(a, a)
  {
    if a != [] {
      PrecedesIsIrreflexive(a[1..]);
    }
  }

  /** The keys of an ordered set or map, in iteration order. */
  ghost predicate SortedKeys(order: seq<string>) {
    forall i, j | 0 <= i < j < |order| :: Precedes(order[i], order[j])
  }

  /** Adjacency lists; their order and repetitions do not matter, only the edge set. */
  type Graph = map<string, seq<string>>

  type Edges = set<(string, string)>

  ghost function EdgesOf(g: Graph): Edges {
    set a, b | a in g && b in g[a] :: (a, b)
  }

  /** A walk along edges; a single node is a walk. */
  ghost predicate Walk(e: Edges, p: seq<string>) {
    p != [] && forall i | 0 <= i < |p| - 1 :: (p[i], p[i + 1]) in e
  }

  /** A walk that comes back to a node it has visited. */
  ghost predicate Loops(e: Edges, p: seq<string>) {
    Walk(e, p) && exists i, j :: 0 <= i < j < |p| && p[i] == p[j]
  }

  /** Some walk from `n` comes back to a node it has visited: a directed cycle is reachable from `n`. */
  ghost predicate CycleReachable(e: Edges, n: string) {
    exists p :: Loops(e, p) && p[0] == n
  }

  /** There is a directed cycle: a walk of at least one edge that ends where it began. */
  ghost predicate HasCycle(e: Edges) {
    exists p :: Walk(e, p) && |p| >= 2 && p[0] == p[|p| - 1]
  }

  ghost function Nodes(e: Edges): set<string> {
    (set x | x in e :: x.0) + (set x | x in e :: x.1)
  }

  datatype Mark = Visiting | Done

  type Marks = map<string, Mark>

  ghost predicate IsDone(marks: Marks, n: string) { n in marks && marks[n] == Done }

  /** Done nodes lead only to done nodes, and no cycle is reachable from any of them. */
  ghost predicate DoneOk(e: Edges, marks: Marks) {
    && (forall a, b | IsDone(marks, a) && (a, b) in e :: IsDone(marks, b))
    && (forall a | IsDone(marks, a) :: !CycleReachable(e, a))
  }

  /** The nodes being visited are exactly those of the walk `grey`. */
  ghost predicate GreyOk(marks: Marks, grey: seq<string>) {
    forall n :: (n in marks && marks[n] == Visiting) <==> n in grey
  }

  // ---- walks ----

  lemma {:induction false} WalkStaysDone(e: Edges, marks: Marks, p: seq<string>, i: nat)
    requires DoneOk(e, marks) && Walk(e, p) && IsDone(marks, p[0]) && i < |p|
    ensures IsDone(marks, p[i])
  {
    if i > 0 {
      WalkStaysDone(e, marks, p, i - 1);
    }
  }

  /** A node whose successors are all done, and which is not done itself, reaches no cycle. */
  lemma {:induction false} AllSuccessorsDone(e: Edges, marks: Marks, n: string)
    requires DoneOk(e, marks) && !IsDone(marks, n)
    requires forall b | (n, b) in e :: IsDone(marks, b)
    ensures !CycleReachable(e, n)
  {
    if CycleReachable(e, n) {
      var p :| Loops(e, p) && p[0] == n;
      var i, j :| 0 <= i < j < |p| && p[i] == p[j];
      assert (p[0], p[1]) in e;
      var q := p[1..];
      assert Walk(e, q) by {
        forall k | 0 <= k < |q| - 1 ensures (q[k], q[k + 1]) in e {
          assert (p[k + 1], p[k + 2]) in e;
        }
      }
      if i == 0 {
        WalkStaysDone(e, marks, q, j - 1);
      } else {
        assert q[i - 1] == q[j - 1];
        assert Loops(e, q);
      }
    }
  }

  /** Reaching a node that is still being visited closes a loop on the walk from the root. */
  lemma {:induction false} GreyHitLoops(e: Edges, grey: seq<string>, next: string)
    requires Walk(e, grey) && next in grey && (grey[|grey| - 1], next) in e
    ensures CycleReachable(e, grey[0])
  {
    var i :| 0 <= i < |grey| && grey[i] == next;
    var p := grey + [next];
    assert p[i] == p[|grey|];
    assert Walk(e, p);
    assert Loops(e, p);
  }

  // ---- the search ----

  /**
   Visit `node`, the last of the grey walk `grey`. True means some walk from the walk's first node
   loops; false means `node` and everything it leads to is now done.
   */
  method Visit(node: string, g: Graph, marks: Marks, ghost grey: seq<string>, ghost all: set<string>) returns (found: bool, marks': Marks)
    requires node !in marks && node in all && Nodes(EdgesOf(g)) <= all
    requires Walk(EdgesOf(g), grey) && grey[|grey| - 1] == node
    requires DoneOk(EdgesOf(g), marks) && GreyOk(marks, grey[..|grey| - 1])
    ensures found ==> CycleReachable(EdgesOf(g), grey[0])
    ensures !found ==> DoneOk(EdgesOf(g), marks') && GreyOk(marks', grey[..|grey| - 1]) && IsDone(marks', node)
    ensures !found ==> forall n | n in marks :: n in marks' && marks'[n] == marks[n]
    decreases all - marks.Keys
  {
    marks' := marks[node := Visiting];
    assert GreyOk(marks', grey) by {
      assert grey == grey[..|grey| - 1] + [node];
    }
    assert DoneOk(EdgesOf(g), marks') by {
      assert forall a :: IsDone(marks', a) <==> IsDone(marks, a);
    }
    if node in g {
      var neighbours := g[node];
      for i := 0 to |neighbours|
        invariant DoneOk(EdgesOf(g), marks') && GreyOk(marks', grey)
        invariant forall n | n in marks :: n in marks' && marks'[n] == marks[n]
        invariant node in marks' && marks'[node] == Visiting
        invariant forall k | 0 <= k < i :: IsDone(marks', neighbours[k])
      {
        var next := neighbours[i];
        assert (node, next) in EdgesOf(g);
        if next in marks' {
          if marks'[next] == Visiting {
            GreyHitLoops(EdgesOf(g), grey, next);
            return true, marks';
          }
        } else {
          var deeper := grey + [next];
          assert deeper[..|deeper| - 1] == grey;
          assert next in Nodes(EdgesOf(g));
          assert marks.Keys < marks'.Keys;
          found, marks' := Visit(next, g, marks', deeper, all);
          if found {
            return true, marks';
          }
        }
      }
    }
    AllSuccessorsDone(EdgesOf(g), marks', node);
    ghost var before := marks';
    marks' := marks'[node := Done];
    assert forall a :: IsDone(marks', a) <==> a == node || IsDone(before, a);
    assert GreyOk(marks', grey[..|grey| - 1]) by {
      NotRepeatedOnWalk(marks, before, grey, node);
    }
    found := false;
  }

  /** The node just finished does not occur earlier on the grey walk. */
  lemma {:induction false} NotRepeatedOnWalk(marks: Marks, before: Marks, grey: seq<string>, node: string)
    requires grey != [] && grey[|grey| - 1] == node && node !in marks
    requires GreyOk(marks, grey[..|grey| - 1]) && GreyOk(before, grey)
    ensures forall n :: n in grey[..|grey| - 1] <==> n in grey && n != node
  {
    assert grey == grey[..|grey| - 1] + [node];
    assert node !in grey[..|grey| - 1];
  }

  /** The first node, in iteration order, from which a cycle is reachable. */
  method FirstCycleNode(order: seq<string>, g: Graph) returns (r: Option<string>)
    requires SortedKeys(order)
    ensures r.None? ==> forall n | n in order :: !CycleReachable(EdgesOf(g), n)
    ensures r.Some? ==> r.value in order && CycleReachable(EdgesOf(g), r.value)
    ensures r.Some? ==> forall n | n in order && CycleReachable(EdgesOf(g), n) :: n == r.value || Precedes(r.value, n)
  {
    var marks: Marks := map[];
    ghost var all := Nodes(EdgesOf(g)) + (set n | n in order);
    for i := 0 to |order|
      invariant DoneOk(EdgesOf(g), marks) && GreyOk(marks, [])
      invariant forall k | 0 <= k < i :: IsDone(marks, order[k])
    {
      var node := order[i];
      if node !in marks {
        var found;
        assert [node][..0] == [];
        found, marks := Visit(node, g, marks, [node], all);
        if found {
          return Some(node);
        }
      } else {
        assert marks[node] != Visiting;
      }
    }
    return None;
  }

  /** `BTreeSet::insert`: the keys stay in ascending order, once each. */
  function InsertKey(order: seq<string>, x: string): (r: seq<string>)
    ensures forall n :: n in r <==> n in order || n == x
  {
    if order == [] then [x]
    else if order[0] == x then order
    else if Precedes(x, order[0]) then [x] + order
    else [order[0]] + InsertKey(order[1..], x)
  }

  lemma {:induction false} InsertKeyStaysSorted(order: seq<string>, x: string)
    requires SortedKeys(order)
    ensures SortedKeys(InsertKey(order, x))
  {
    if order != [] {
      PrecedesIsTotal(x, order[0]);
      if order[0] == x {
      } else if Precedes(x, order[0]) {
        forall j | 0 <= j < |order| ensures Precedes(x, order[j]) {
          if j > 0 { PrecedesIsTransitive(x, order[0], order[j]); }
        }
      } else {
        InsertKeyStaysSorted(order[1..], x);
        var r := InsertKey(order[1..], x);
        forall j | 0 <= j < |r| ensures Precedes(order[0], r[j]) {
          assert r[j] in r;
          if r[j] != x {
            var k :| 0 <= k < |order[1..]| && order[1..][k] == r[j];
            assert order[k + 1] == r[j];
          }
        }
      }
    }
  }

  lemma {:induction false} CycleIsReachable(e: Edges, p: seq<string>)
    requires Walk(e, p) && |p| >= 2 && p[0] == p[|p| - 1]
    ensures (exists b :: (p[0], b) in e) && CycleReachable(e, p[0])
  {
    assert (p[0], p[1]) in e;
    assert Loops(e, p);
  }

  lemma {:induction false} ReachableCycleExists(e: Edges, p: seq<string>)
    requires Loops(e, p)
    ensures HasCycle(e)
  {
    var i, j :| 0 <= i < j < |p| && p[i] == p[j];
    var q := p[i..j + 1];
    forall k | 0 <= k < |q| - 1 ensures (q[k], q[k + 1]) in e {
      assert (p[i + k], p[i + k + 1]) in e;
    }
    assert Walk(e, q) && q[0] == q[|q| - 1];
  }

  /** Over any node set that holds every node with an edge: none reaches a cycle iff there is none. */
  lemma {:induction false} AcyclicIffNoneReachable(e: Edges, nodes: set<string>)
    requires forall x | x in e :: x.0 in nodes
    ensures (forall n | n in nodes :: !CycleReachable(e, n)) <==> !HasCycle(e)
  {
    if HasCycle(e) {
      var p :| Walk(e, p) && |p| >= 2 && p[0] == p[|p| - 1];
      CycleIsReachable(e, p);
    } else {
      forall n ensures !CycleReachable(e, n) {
        if CycleReachable(e, n) {
          var p :| Loops(e, p) && p[0] == n;
          ReachableCycleExists(e, p);
        }
      }
    }
  }
}
