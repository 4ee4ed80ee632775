/** The search for the deepest leaf of a process graph (Rehosting.find_deepest_leaf). */
module DeepestLeaf {
  import opened Digraph
  import opened Options

  predicate IsRoot<Node>(g: Graph<Node>, n: Node) {
    n in g.nodes && forall e :: e in g.edges ==> e.1 != n
  }

  predicate IsLeaf<Node>(g: Graph<Node>, n: Node) {
    n in g.nodes && Successors(g, n) == {}
  }

  /** A root is no process's child, a leaf no process's parent. */
  lemma EndsTable<Node(!new)>(g: Graph<Node>, n: Node)
    requires n in g.nodes
    ensures IsRoot(g, n) <==> forall m :: (m, n) !in g.edges
    ensures IsLeaf(g, n) <==> forall m :: (n, m) !in g.edges
  {
    assert forall m :: (n, m) in g.edges ==> m in Successors(g, n);
    forall e | e in g.edges && e.1 == n ensures (e.0, n) in g.edges {
      assert e == (e.0, n);
    }
    forall e | e in g.edges && e.0 == n ensures (n, e.1) in g.edges {
      assert e == (n, e.1);
    }
  }

  /** A walk from a root down to a leaf. */
  ghost predicate RootToLeaf<Node>(g: Graph<Node>, p: seq<Node>) {
    IsWalk(g, p) && IsRoot(g, p[0]) && IsLeaf(g, p[|p| - 1])
  }

  ghost predicate DeepestWalk<Node(!new)>(g: Graph<Node>, w: seq<Node>) {
    RootToLeaf(g, w) && forall p :: RootToLeaf(g, p) ==> |p| <= |w|
  }

  /** A walk that goes on from `path` to a leaf. */
  ghost predicate Extends<Node>(g: Graph<Node>, path: seq<Node>, p: seq<Node>) {
    path <= p && IsWalk(g, p) && IsLeaf(g, p[|p| - 1])
  }

  /** A finite acyclic graph with a node has a root. */
  lemma RootExists<Node(!new)>(g: Graph<Node>) returns (r: Node)
    requires WellFormed(g) && Acyclic(g) && g.nodes != {}
    ensures IsRoot(g, r)
  {
    r :| r in g.nodes;
    var p := [r];
    while !IsRoot(g, r)
      invariant IsWalk(g, p) && p[0] == r
      invariant forall x :: x in p ==> x in g.nodes
      decreases |g.nodes| - |p|
    {
      var e :| e in g.edges && e.1 == r;
      assert (e.0, e.1) in g.edges;
      WalkConcat(g, [e.0], p);
      r, p := e.0, [e.0] + p;
      AcyclicWalkDistinct(g, p);
      DistinctBound(p, g.nodes);
    }
  }

  /** A walk that extends `path` to a leaf ends with it or goes on to one of its children. */
  lemma ExtensionStep<Node(!new)>(g: Graph<Node>, path: seq<Node>, p: seq<Node>)
    requires path != [] && Extends(g, path, p)
    ensures if |p| == |path| then IsLeaf(g, path[|path| - 1])
            else p[|path|] in Successors(g, path[|path| - 1])
  {
    if |p| > |path| {
      var k := |path| - 1;
      assert Hop(g, p, k) && (path[k], p[k + 1]) in g.edges;
    } else {
      assert p == path;
    }
  }

  class DeepestLeafSearch<Node(==, !new)> {
    const graph: Graph<Node>
    var maxDepth: int
    var deepestLeaf: Option<Node>

    constructor (graph: Graph<Node>)
      ensures this.graph == graph && maxDepth == -1 && deepestLeaf.None?
    {
      this.graph := graph;
      maxDepth, deepestLeaf := -1, None;
    }

    /** The record is met by some explored walk, and no explored walk beats it. */
    ghost predicate Best(walk: seq<Node>)
      reads this
    {
      && RootToLeaf(graph, walk) && |walk| == maxDepth + 1
      && deepestLeaf == Some(walk[|walk| - 1])
    }

    /** Explores everything below the last node of `path`, a walk from a root. */
    method Dfs(node: Node, depth: nat, ghost path: seq<Node>)
      requires WellFormed(graph) && Acyclic(graph)
      requires IsWalk(graph, path) && IsRoot(graph, path[0]) && path[|path| - 1] == node
      requires |path| == depth + 1 && forall x :: x in path ==> x in graph.nodes
      requires maxDepth >= -1 && (maxDepth >= 0 ==> exists w :: Best(w))
      modifies this
      ensures maxDepth >= old(maxDepth) && maxDepth >= depth
      ensures exists w :: Best(w)
      ensures forall p :: Extends(graph, path, p) ==> |p| <= maxDepth + 1
      decreases |graph.nodes| - |path|
    {
      AcyclicWalkDistinct(graph, path);
      DistinctBound(path, graph.nodes);
      var children := Successors(graph, node);
      if children == {} {
        if depth >= maxDepth {
          maxDepth, deepestLeaf := depth, Some(node);
          assert Best(path);
        }
        forall p | Extends(graph, path, p) ensures |p| <= |path| {
          if |p| > |path| {
            ExtensionStep(graph, path, p);
            assert false;
          }
        }
      } else {
        ghost var done: set<Node> := {};
        var todo := children;
        while todo != {}
          invariant todo <= children && done == children - todo
          invariant maxDepth >= old(maxDepth) && maxDepth >= -1
          invariant todo == children ==> maxDepth == old(maxDepth) && deepestLeaf == old(deepestLeaf)
          invariant todo != children ==> maxDepth > depth
          invariant maxDepth >= 0 ==> exists w :: Best(w)
          invariant forall p :: Extends(graph, path, p) && |p| > |path| && p[|path|] in done ==> |p| <= maxDepth + 1
        {
          var child :| child in todo;
          assert (node, child) in graph.edges;
          WalkConcat(graph, path, [child]);
          AcyclicWalkDistinct(graph, path + [child]);
          DistinctBound(path + [child], graph.nodes);
          Dfs(child, depth + 1, path + [child]);
          forall p | Extends(graph, path, p) && |p| > |path| && p[|path|] in done + {child}
            ensures |p| <= maxDepth + 1
          {
            if p[|path|] == child {
              assert p[..|path| + 1] == path + [child];
              assert Extends(graph, path + [child], p);
            }
          }
          todo, done := todo - {child}, done + {child};
        }
        forall p | Extends(graph, path, p) ensures |p| <= maxDepth + 1 {
          ExtensionStep(graph, path, p);
        }
      }
    }

    method FindDeepestLeaf() returns (leaves: seq<Node>)
      requires WellFormed(graph) && Acyclic(graph)
      requires maxDepth == -1 && deepestLeaf.None?
      modifies this
      ensures graph.nodes == {} ==> leaves == []
      ensures graph.nodes != {} ==> |leaves| == 1 && IsLeaf(graph, leaves[0])
      ensures graph.nodes != {} ==> exists w :: DeepestWalk(graph, w) && w[|w| - 1] == leaves[0]
    {
      var roots := set n | n in graph.nodes && IsRoot(graph, n);
      var todo := roots;
      while todo != {}
        invariant todo <= roots && maxDepth >= -1
        invariant todo == roots ==> maxDepth == -1 && deepestLeaf.None?
        invariant maxDepth >= 0 <==> todo != roots
        invariant maxDepth >= 0 ==> exists w :: Best(w)
        invariant forall p :: RootToLeaf(graph, p) && p[0] in roots - todo ==> |p| <= maxDepth + 1
      {
        var root :| root in todo;
        Dfs(root, 0, [root]);
        forall p | RootToLeaf(graph, p) && p[0] == root ensures |p| <= maxDepth + 1 {
          assert Extends(graph, [root], p);
        }
        todo := todo - {root};
      }
      if graph.nodes != {} {
        var r := RootExists(graph);
        assert r in roots;
      }
      assert forall w :: graph.nodes != {} && Best(w) ==> DeepestWalk(graph, w);
      leaves := if deepestLeaf.Some? then [deepestLeaf.value] else [];
    }
  }

  // ----- a small process graph -----

  /** Process 1 starts 2 and 4, process 2 starts 3. */
  const SMALL: Graph<int> := Graph({1, 2, 3, 4}, {(1, 2), (2, 3), (1, 4)})

  method SmallGraph() returns (leaves: seq<int>)
    ensures leaves == [3]
  {
    RankedAcyclic(SMALL, (n: int) => n);
    var search := new DeepestLeafSearch<int>(SMALL);
    leaves := search.FindDeepestLeaf();
    ghost var w :| DeepestWalk(SMALL, w) && w[|w| - 1] == leaves[0];
    OnlyThree(w);
  }

  lemma OnlyThree(w: seq<int>)
    requires DeepestWalk(SMALL, w)
    ensures w[|w| - 1] == 3
  {
    var p := [1, 2, 3];
    assert Hop(SMALL, p, 0) && Hop(SMALL, p, 1);
    assert forall e :: e in SMALL.edges ==> e.1 != 1;
    assert (3, 3) !in SMALL.edges && Successors(SMALL, 3) == {};
    assert RootToLeaf(SMALL, p);
    var n := |w| - 1;
    assert Hop(SMALL, w, n - 1) && Hop(SMALL, w, n - 2);
  }
}
