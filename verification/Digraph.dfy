/** Finite directed graphs and walks: the reachability theory behind the calls that
    FIRMWELL makes into its graph library. */
module Digraph {

  datatype Graph<Node(==)> = Graph(nodes: set<Node>, edges: set<(Node, Node)>)

  /** The library adds the end points of an edge with the edge. */
  function AddEdge<Node>(g: Graph<Node>, u: Node, v: Node): Graph<Node> {
    Graph(g.nodes + {u, v}, g.edges + {(u, v)})
  }

  function Successors<Node>(g: Graph<Node>, u: Node): set<Node> {
    set e | e in g.edges && e.0 == u :: e.1
  }

  ghost predicate WellFormed<Node(!new)>(g: Graph<Node>) {
    forall u, v :: (u, v) in g.edges ==> u in g.nodes && v in g.nodes
  }

  ghost predicate Hop<Node>(g: Graph<Node>, p: seq<Node>, i: nat)
    requires i + 1 < |p|
  {
    (p[i], p[i + 1]) in g.edges
  }

  /** A walk is a non-empty node sequence that follows edges. */
  ghost predicate IsWalk<Node>(g: Graph<Node>, p: seq<Node>) {
    p != [] && forall i: nat :: i + 1 < |p| ==> Hop(g, p, i)
  }

  ghost predicate WalkBetween<Node>(g: Graph<Node>, p: seq<Node>, s: Node, t: Node) {
    IsWalk(g, p) && p[0] == s && p[|p| - 1] == t
  }

  ghost predicate Reach<Node(!new)>(g: Graph<Node>, s: Node, t: Node) {
    exists p :: WalkBetween(g, p, s, t)
  }

  ghost predicate Distinct<T>(p: seq<T>) {
    forall i, j :: 0 <= i < j < |p| ==> p[i] != p[j]
  }

  /** No walk of at least one edge returns to its start. */
  ghost predicate Acyclic<Node(!new)>(g: Graph<Node>) {
    forall p :: IsWalk(g, p) && |p| > 1 ==> p[0] != p[|p| - 1]
  }

  function Elements<T(!new)>(p: seq<T>): (r: set<T>)
    ensures forall x :: x in r <==> x in p
  {
    set x | x in p
  }

  // ----- walks compose -----

  lemma WalkConcat<Node>(g: Graph<Node>, p: seq<Node>, q: seq<Node>)
    requires IsWalk(g, p) && IsWalk(g, q) && (p[|p| - 1], q[0]) in g.edges
    ensures WalkBetween(g, p + q, p[0], q[|q| - 1])
  {
    var r := p + q;
    forall i: nat | i + 1 < |r| ensures Hop(g, r, i) {
      if i + 1 < |p| {
        assert Hop(g, p, i);
      } else if i >= |p| {
        assert Hop(g, q, i - |p|);
      }
    }
  }

  lemma SubWalk<Node>(g: Graph<Node>, p: seq<Node>, i: nat, j: nat)
    requires IsWalk(g, p) && i < j <= |p|
    ensures WalkBetween(g, p[i..j], p[i], p[j - 1])
    ensures j == |p| ==> p[i..j] == p[i..]
  {
    var r := p[i..j];
    forall k: nat | k + 1 < |r| ensures Hop(g, r, k) {
      assert Hop(g, p, i + k);
    }
  }

  lemma ReachSelf<Node(!new)>(g: Graph<Node>, s: Node)
    ensures Reach(g, s, s)
  {
    assert WalkBetween(g, [s], s, s);
  }

  lemma ReachTrans<Node(!new)>(g: Graph<Node>, a: Node, b: Node, c: Node)
    requires Reach(g, a, b) && Reach(g, b, c)
    ensures Reach(g, a, c)
  {
    var p :| WalkBetween(g, p, a, b);
    var q :| WalkBetween(g, q, b, c);
    if |q| > 1 {
      assert Hop(g, q, 0);
      SubWalk(g, q, 1, |q|);
      WalkConcat(g, p, q[1..]);
      assert WalkBetween(g, p + q[1..], a, c);
    }
  }

  lemma ReachEdge<Node(!new)>(g: Graph<Node>, a: Node, b: Node)
    requires (a, b) in g.edges
    ensures Reach(g, a, b)
  {
    WalkConcat(g, [a], [b]);
    assert WalkBetween(g, [a] + [b], a, b);
  }

  lemma ReachMonotone<Node(!new)>(g: Graph<Node>, h: Graph<Node>, a: Node, b: Node)
    requires g.edges <= h.edges && Reach(g, a, b)
    ensures Reach(h, a, b)
  {
    var p :| WalkBetween(g, p, a, b);
    forall i: nat | i + 1 < |p| ensures Hop(h, p, i) {
      assert Hop(g, p, i);
    }
    assert WalkBetween(h, p, a, b);
  }

  /** A walk that enters or leaves a node of the graph stays among its nodes. */
  lemma ReachInNodes<Node(!new)>(g: Graph<Node>, a: Node, b: Node)
    requires WellFormed(g) && Reach(g, a, b) && a != b
    ensures a in g.nodes && b in g.nodes
  {
    var p :| WalkBetween(g, p, a, b);
    assert Hop(g, p, 0) && Hop(g, p, |p| - 2);
  }

  /** A set that no edge leaves contains everything its members reach. */
  lemma {:induction false} ClosedUnderWalk<Node>(g: Graph<Node>, s: set<Node>, p: seq<Node>)
    requires IsWalk(g, p) && p[0] in s
    requires forall e :: e in g.edges && e.0 in s ==> e.1 in s
    ensures p[|p| - 1] in s
    decreases |p|
  {
    if |p| > 1 {
      assert Hop(g, p, 0) && (p[0], p[1]) in g.edges;
      SubWalk(g, p, 1, |p|);
      ClosedUnderWalk(g, s, p[1..]);
    }
  }

  /** A walk from inside a set to outside crosses its border somewhere. */
  lemma BorderCrossing<Node>(g: Graph<Node>, s: set<Node>, p: seq<Node>) returns (i: nat)
    requires IsWalk(g, p) && p[0] in s && p[|p| - 1] !in s
    ensures i + 1 < |p| && p[i] in s && p[i + 1] !in s && (p[i], p[i + 1]) in g.edges
  {
    i := 0;
    while p[i + 1] in s
      invariant i + 1 < |p| && p[i] in s
      decreases |p| - i
    {
      i := i + 1;
    }
    assert Hop(g, p, i);
  }

  // ----- simple walks -----

  /** Cutting the detour between two visits of one node leaves a shorter walk. */
  lemma {:induction false} SimplifyWalk<Node>(g: Graph<Node>, p: seq<Node>) returns (q: seq<Node>)
    requires IsWalk(g, p)
    ensures WalkBetween(g, q, p[0], p[|p| - 1])
    ensures Distinct(q) && |q| <= |p|
    decreases |p|
  {
    if Distinct(p) {
      return p;
    }
    var i, j :| 0 <= i < j < |p| && p[i] == p[j];
    SubWalk(g, p, 0, i + 1);
    var r := p[0..i + 1];
    if j + 1 < |p| {
      SubWalk(g, p, j + 1, |p|);
      assert Hop(g, p, j);
      WalkConcat(g, r, p[j + 1..]);
      r := r + p[j + 1..];
    }
    q := SimplifyWalk(g, r);
  }

  lemma {:induction false} DistinctBound<T>(p: seq<T>, s: set<T>)
    requires Distinct(p) && forall x :: x in p ==> x in s
    ensures |p| <= |s|
    decreases |p|
  {
    if p != [] {
      var x := p[|p| - 1];
      assert x in s;
      DistinctBound(p[..|p| - 1], s - {x});
    }
  }

  lemma SubsetSize<T>(small: set<T>, large: set<T>)
    requires small <= large
    ensures |small| <= |large|
  {
    assert large == small + (large - small);
  }

  lemma {:induction false} DistinctSize<T(!new)>(p: seq<T>)
    requires Distinct(p)
    ensures |Elements(p)| == |p|
    decreases |p|
  {
    if p != [] {
      var n := |p| - 1;
      DistinctSize(p[..n]);
      assert Elements(p) == Elements(p[..n]) + {p[n]};
    }
  }

  lemma AcyclicWalkDistinct<Node(!new)>(g: Graph<Node>, p: seq<Node>)
    requires Acyclic(g) && IsWalk(g, p)
    ensures Distinct(p)
  {
    forall i, j | 0 <= i < j < |p| ensures p[i] != p[j] {
      SubWalk(g, p, i, j + 1);
      assert p[i..j + 1][0] == p[i];
    }
  }

  // ----- cycles -----

  lemma AcyclicByEdges<Node(!new)>(g: Graph<Node>)
    ensures Acyclic(g) <==> forall e :: e in g.edges ==> !Reach(g, e.1, e.0)
  {
    if Acyclic(g) {
      forall e | e in g.edges ensures !Reach(g, e.1, e.0) {
        if Reach(g, e.1, e.0) {
          var p :| WalkBetween(g, p, e.1, e.0);
          WalkConcat(g, p, [e.1]);
        }
      }
    }
    if forall e :: e in g.edges ==> !Reach(g, e.1, e.0) {
      forall p | IsWalk(g, p) && |p| > 1 ensures p[0] != p[|p| - 1] {
        assert Hop(g, p, 0) && (p[0], p[1]) in g.edges;
        SubWalk(g, p, 1, |p|);
        assert WalkBetween(g, p[1..], p[1], p[|p| - 1]);
      }
    }
  }

  lemma {:induction false} RankedWalk<Node(!new)>(g: Graph<Node>, rank: Node -> int, p: seq<Node>)
    requires forall e :: e in g.edges ==> rank(e.0) < rank(e.1)
    requires IsWalk(g, p) && |p| > 1
    ensures rank(p[0]) < rank(p[|p| - 1])
    decreases |p|
  {
    assert Hop(g, p, 0) && (p[0], p[1]) in g.edges;
    if |p| > 2 {
      SubWalk(g, p, 1, |p|);
      RankedWalk(g, rank, p[1..]);
    }
  }

  /** Edges that all climb some ranking close no cycle. */
  lemma RankedAcyclic<Node(!new)>(g: Graph<Node>, rank: Node -> int)
    requires forall e :: e in g.edges ==> rank(e.0) < rank(e.1)
    ensures Acyclic(g)
  {
    forall p | IsWalk(g, p) && |p| > 1 ensures p[0] != p[|p| - 1] {
      RankedWalk(g, rank, p);
    }
  }

  lemma AcyclicMonotone<Node(!new)>(g: Graph<Node>, h: Graph<Node>)
    requires g.edges <= h.edges && Acyclic(h)
    ensures Acyclic(g)
  {
    AcyclicByEdges(g);
    AcyclicByEdges(h);
    forall e | e in g.edges ensures !Reach(g, e.1, e.0) {
      if Reach(g, e.1, e.0) {
        ReachMonotone(g, h, e.1, e.0);
      }
    }
  }

  /** A closed walk can be gone round as often as one likes. */
  lemma {:induction false} GoRound<Node>(g: Graph<Node>, p: seq<Node>, n: nat) returns (q: seq<Node>)
    requires IsWalk(g, p) && |p| > 1 && p[0] == p[|p| - 1]
    ensures WalkBetween(g, q, p[0], p[0]) && |q| > n
  {
    q := p;
    if n > 0 {
      var r := GoRound(g, p, n - 1);
      assert Hop(g, p, 0);
      SubWalk(g, p, 1, |p|);
      WalkConcat(g, r, p[1..]);
      q := r + p[1..];
    }
  }

  /** What one new edge makes reachable, and nothing else. */
  lemma ReachAddEdge<Node(!new)>(g: Graph<Node>, u: Node, v: Node, a: Node, b: Node)
    ensures Reach(AddEdge(g, u, v), a, b) <==> Reach(g, a, b) || (Reach(g, a, u) && Reach(g, v, b))
  {
    var h := AddEdge(g, u, v);
    if Reach(g, a, b) {
      ReachMonotone(g, h, a, b);
    }
    if Reach(g, a, u) && Reach(g, v, b) {
      ReachMonotone(g, h, a, u);
      ReachMonotone(g, h, v, b);
      ReachEdge(h, u, v);
      ReachTrans(h, a, u, v);
      ReachTrans(h, a, v, b);
    }
    if Reach(h, a, b) {
      var p :| WalkBetween(h, p, a, b);
      WalkUsingEdge(g, u, v, p);
    }
  }

  lemma {:induction false} WalkUsingEdge<Node(!new)>(g: Graph<Node>, u: Node, v: Node, p: seq<Node>)
    requires IsWalk(AddEdge(g, u, v), p)
    ensures Reach(g, p[0], p[|p| - 1]) || (Reach(g, p[0], u) && Reach(g, v, p[|p| - 1]))
    decreases |p|
  {
    var h := AddEdge(g, u, v);
    ReachSelf(g, p[0]);
    if |p| > 1 {
      assert Hop(h, p, 0);
      SubWalk(h, p, 1, |p|);
      WalkUsingEdge(g, u, v, p[1..]);
      if (p[0], p[1]) in g.edges {
        ReachEdge(g, p[0], p[1]);
        if Reach(g, p[1], p[|p| - 1]) {
          ReachTrans(g, p[0], p[1], p[|p| - 1]);
        } else {
          ReachTrans(g, p[0], p[1], u);
        }
      }
    }
  }

  /** Inserting (u, v) keeps a graph acyclic exactly when v does not already reach u. */
  lemma AcyclicAddEdge<Node(!new)>(g: Graph<Node>, u: Node, v: Node)
    ensures Acyclic(AddEdge(g, u, v)) <==> Acyclic(g) && !Reach(g, v, u)
  {
    var h := AddEdge(g, u, v);
    AcyclicByEdges(g);
    AcyclicByEdges(h);
    assert (u, v) in h.edges;
    if Acyclic(h) {
      forall e | e in g.edges ensures !Reach(g, e.1, e.0) {
        if Reach(g, e.1, e.0) {
          ReachMonotone(g, h, e.1, e.0);
        }
      }
      if Reach(g, v, u) {
        ReachMonotone(g, h, v, u);
      }
    }
    if Acyclic(g) && !Reach(g, v, u) {
      forall e | e in h.edges ensures !Reach(h, e.1, e.0) {
        ReachAddEdge(g, u, v, e.1, e.0);
        if Reach(g, e.1, u) && Reach(g, v, e.0) && e in g.edges {
          ReachEdge(g, e.0, e.1);
          ReachTrans(g, v, e.0, e.1);
          ReachTrans(g, v, e.1, u);
        }
      }
    }
  }

  // ----- the graph library's queries -----

  /** has_path: a forward search from s. */
  method HasPath<Node(!new)>(g: Graph<Node>, s: Node, t: Node) returns (found: bool)
    requires WellFormed(g) && s in g.nodes
    ensures found <==> Reach(g, s, t)
  {
    var seen, todo := {s}, {s};
    ReachSelf(g, s);
    while todo != {}
      invariant todo <= seen <= g.nodes && s in seen
      invariant forall x :: x in seen ==> Reach(g, s, x)
      invariant forall e :: e in g.edges && e.0 in seen - todo ==> e.1 in seen
      decreases g.nodes - (seen - todo)
    {
      var u :| u in todo;
      var added := Successors(g, u) - seen;
      forall x | x in added ensures Reach(g, s, x) && x in g.nodes {
        assert (u, x) in g.edges;
        ReachEdge(g, u, x);
        ReachTrans(g, s, u, x);
      }
      ghost var before := seen - todo;
      seen, todo := seen + added, todo - {u} + added;
      assert seen - todo == before + {u};
      forall e | e in g.edges && e.0 in seen - todo ensures e.1 in seen {
        if e.0 == u {
          assert (u, e.1) == e && e.1 in Successors(g, u);
        }
      }
    }
    found := t in seen;
    if Reach(g, s, t) {
      var p :| WalkBetween(g, p, s, t);
      ClosedUnderWalk(g, seen, p);
    }
  }

  ghost predicate SimplePath<Node>(g: Graph<Node>, p: seq<Node>, s: Node, t: Node) {
    WalkBetween(g, p, s, t) && Distinct(p)
  }

  /** all_simple_paths: every repetition-free walk from s to t. When the two coincide the
      library yields nothing at all. */
  method AllSimplePaths<Node(!new)>(g: Graph<Node>, s: Node, t: Node) returns (paths: seq<seq<Node>>)
    requires WellFormed(g) && s in g.nodes
    ensures s == t ==> paths == []
    ensures s != t ==> forall p :: p in paths <==> SimplePath(g, p, s, t)
  {
    if s == t {
      return [];
    }
    paths := ExtendPaths(g, [s], t);
    forall p ensures p in paths <==> SimplePath(g, p, s, t) {
      if SimplePath(g, p, s, t) {
        assert [s] <= p && |p| > 1;
      }
    }
  }

  /** The depth-first enumeration: all simple paths to t that properly extend `path`. */
  method ExtendPaths<Node(!new)>(g: Graph<Node>, path: seq<Node>, t: Node) returns (paths: seq<seq<Node>>)
    requires WellFormed(g) && IsWalk(g, path) && Distinct(path) && t !in path
    requires forall x :: x in path ==> x in g.nodes
    ensures forall p :: p in paths <==> path < p && SimplePath(g, p, path[0], t)
    decreases |g.nodes| - |path|
  {
    var u := path[|path| - 1];
    var children := Successors(g, u) - Elements(path);
    ghost var done: set<Node> := {};
    paths := [];
    while children != {}
      invariant children !! done && children + done == Successors(g, u) - Elements(path)
      invariant forall p :: p in paths <==>
        path < p && p[|path|] in done && SimplePath(g, p, path[0], t)
      decreases children
    {
      var v :| v in children;
      assert (u, v) in g.edges && v in g.nodes;
      var longer := path + [v];
      WalkConcat(g, path, [v]);
      DistinctBound(longer, g.nodes);
      var more;
      if v == t {
        more := [longer];
        forall p ensures p in more <==> longer <= p && SimplePath(g, p, path[0], t) {
          if longer <= p && SimplePath(g, p, path[0], t) {
            assert p[|path|] == t == p[|p| - 1];
            assert p == longer;
          }
        }
      } else {
        more := ExtendPaths(g, longer, t);
        forall p ensures p in more <==> longer <= p && SimplePath(g, p, path[0], t) {
        }
      }
      forall p ensures longer <= p <==> path < p && p[|path|] == v {
        if path < p && p[|path|] == v {
          assert p[..|longer|] == longer;
        }
      }
      children, done, paths := children - {v}, done + {v}, paths + more;
    }
    forall p | path < p && SimplePath(g, p, path[0], t) ensures p in paths {
      var k := |path|;
      assert Hop(g, p, k - 1) && p[k - 1] == u;
      assert (u, p[k]) in g.edges;
      assert p[k] in Successors(g, u);
      assert p[k] !in path;
    }
  }

  /** A shortest simple path is at most as long as any walk with the same ends. */
  lemma ShortestSimpleIsShortest<Node(!new)>(g: Graph<Node>, best: seq<Node>, s: Node, t: Node)
    requires forall p :: SimplePath(g, p, s, t) ==> |best| <= |p|
    ensures forall p :: WalkBetween(g, p, s, t) ==> |best| <= |p|
  {
    forall p | WalkBetween(g, p, s, t) ensures |best| <= |p| {
      var q := SimplifyWalk(g, p);
    }
  }
}
