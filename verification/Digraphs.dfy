/** Directed graphs as values: the node ids 0..n-1 and an adjacency list each,
    as `DependencyGraph` hands them to the algorithms, with reachability. */
module Digraphs {

  /** `NodeId::value` is a 32-bit unsigned integer; its largest value is the
      "unvisited" marker of the component search, so it is never a node. */
  const MAX_NODES: nat := 0xFFFF_FFFF

  datatype Digraph = Digraph(succ: seq<seq<nat>>) {
    ghost predicate Valid() {
      && |succ| <= MAX_NODES
      && forall v, i :: 0 <= v < |succ| && 0 <= i < |succ[v]| ==> succ[v][i] < |succ|
    }

    predicate Node(v: nat) {
      v < |succ|
    }

    predicate Edge(u: nat, v: nat) {
      u < |succ| && v in succ[u]
    }
  }

  /** A path lists the nodes it visits; a single node is a path of length 0. */
  ghost predicate IsPath(g: Digraph, p: seq<nat>) {
    && |p| > 0
    && forall i :: 0 <= i < |p| - 1 ==> g.Edge(p[i], p[i + 1])
  }

  ghost predicate Joins(g: Digraph, p: seq<nat>, u: nat, v: nat) {
    IsPath(g, p) && p[0] == u && p[|p| - 1] == v
  }

  ghost predicate Reaches(g: Digraph, u: nat, v: nat) {
    exists p :: Joins(g, p, u, v)
  }

  ghost predicate Mutual(g: Digraph, u: nat, v: nat) {
    Reaches(g, u, v) && Reaches(g, v, u)
  }

  lemma ReachesSelf(g: Digraph, u: nat)
    ensures Reaches(g, u, u)
  {
    assert Joins(g, [u], u, u);
  }

  lemma ReachesEdge(g: Digraph, u: nat, v: nat)
    requires g.Edge(u, v)
    ensures Reaches(g, u, v)
  {
    assert Joins(g, [u, v], u, v);
  }

  lemma ReachesTrans(g: Digraph, u: nat, v: nat, w: nat)
    requires Reaches(g, u, v) && Reaches(g, v, w)
    ensures Reaches(g, u, w)
  {
    var p :| Joins(g, p, u, v);
    var q :| Joins(g, q, v, w);
    var r := p + q[1..];
    forall i | 0 <= i < |r| - 1
      ensures g.Edge(r[i], r[i + 1])
    {
      if i >= |p| - 1 {
        assert r[i] == q[i - (|p| - 1)] && r[i + 1] == q[i + 1 - (|p| - 1)];
      }
    }
    assert Joins(g, r, u, w);
  }

  ghost predicate ClosedUnder(g: Digraph, s: iset<nat>) {
    forall u, v :: u in s && g.Edge(u, v) ==> v in s
  }

  /** A path cannot leave a set of nodes that is closed under edges. */
  lemma {:induction false} ReachesStaysInClosed(g: Digraph, s: iset<nat>, u: nat, v: nat)
    requires ClosedUnder(g, s) && u in s && Reaches(g, u, v)
    ensures v in s
  {
    var p :| Joins(g, p, u, v);
    PathStaysInClosed(g, s, p, |p| - 1);
  }

  lemma {:induction false} PathStaysInClosed(g: Digraph, s: iset<nat>, p: seq<nat>, i: nat)
    requires ClosedUnder(g, s) && IsPath(g, p) && p[0] in s && i < |p|
    ensures p[i] in s
  {
    if i > 0 {
      PathStaysInClosed(g, s, p, i - 1);
      assert g.Edge(p[i - 1], p[i - 1 + 1]);
    }
  }

  /** Reachability stays among the nodes. */
  lemma ReachesInRange(g: Digraph, u: nat, v: nat)
    requires g.Valid() && u < |g.succ| && Reaches(g, u, v)
    ensures v < |g.succ|
  {
    var s := iset x: nat | g.Node(x);
    ReachesStaysInClosed(g, s, u, v);
  }

  /** Every edge of one graph is an edge of the other. */
  ghost predicate SubEdges(g: Digraph, h: Digraph) {
    forall u, v :: g.Edge(u, v) ==> h.Edge(u, v)
  }

  lemma ReachesMonotone(g: Digraph, h: Digraph, u: nat, v: nat)
    requires SubEdges(g, h) && Reaches(g, u, v)
    ensures Reaches(h, u, v)
  {
    var p :| Joins(g, p, u, v);
    assert Joins(h, p, u, v);
  }
}
