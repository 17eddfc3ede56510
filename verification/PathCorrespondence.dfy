/** How reachability and components carry over, by path, from one include graph to
    another that has at least its paths and edges. */
module PathCorrespondence {
  import opened Digraphs
  import opened TarjanSpec
  import opened SccPartition
  import opened IncludeGraph
  import opened GrownCycles

  /** `larger` has every path and every edge (by path) of `smaller`. */
  ghost predicate Grows(smaller: PathGraph, larger: PathGraph) {
    && (forall p :: smaller.HasPath(p) ==> larger.HasPath(p))
    && (forall p, q :: smaller.PathEdge(p, q) ==> larger.PathEdge(p, q))
  }

  ghost predicate PathReaches(g: PathGraph, p: string, q: string) {
    exists i: nat, j: nat :: i < |g.paths| && j < |g.paths| && g.paths[i] == p && g.paths[j] == q
        && Reaches(g.graph, i, j)
  }

  ghost predicate PathMutual(g: PathGraph, p: string, q: string) {
    PathReaches(g, p, q) && PathReaches(g, q, p)
  }

  lemma PathReachesAt(g: PathGraph, i: nat, j: nat)
    requires g.Valid() && i < |g.paths| && j < |g.paths|
    ensures PathReaches(g, g.paths[i], g.paths[j]) <==> Reaches(g.graph, i, j)
  {
    hide Reaches;
  }

  lemma PathMutualAt(g: PathGraph, i: nat, j: nat)
    requires g.Valid() && i < |g.paths| && j < |g.paths|
    ensures PathMutual(g, g.paths[i], g.paths[j]) <==> Mutual(g.graph, i, j)
  {
    hide Reaches, PathReaches;
    PathReachesAt(g, i, j);
    PathReachesAt(g, j, i);
  }

  lemma PathReachesSelf(g: PathGraph, p: string)
    requires g.HasPath(p)
    ensures PathReaches(g, p, p)
  {
    var i: nat :| i < |g.paths| && g.paths[i] == p;
    ReachesSelf(g.graph, i);
  }

  lemma PathReachesEdge(g: PathGraph, p: string, q: string, r: string)
    requires g.Valid() && PathReaches(g, p, q) && g.PathEdge(q, r)
    ensures PathReaches(g, p, r)
  {
    hide Reaches;
    var i: nat, j: nat :| i < |g.paths| && j < |g.paths| && g.paths[i] == p && g.paths[j] == q
        && Reaches(g.graph, i, j);
    var k: nat, l: nat :| g.graph.Edge(k, l) && k < |g.paths| && l < |g.paths| && g.paths[k] == q && g.paths[l] == r;
    assert j == k;
    ReachesEdge(g.graph, j, l);
    ReachesTrans(g.graph, i, j, l);
  }

  /** A larger graph reaches at least as much. */
  lemma LiftReaches(small: PathGraph, large: PathGraph, p: string, q: string)
    requires small.Valid() && large.Valid() && Grows(small, large) && PathReaches(small, p, q)
    ensures PathReaches(large, p, q)
  {
    hide Grows, PathReaches;
    var i, j, path := PathOfReach(small, p, q);
    LiftPath(small, large, path, |path| - 1);
  }

  lemma PathOfReach(g: PathGraph, p: string, q: string) returns (i: nat, j: nat, path: seq<nat>)
    requires PathReaches(g, p, q)
    ensures i < |g.paths| && j < |g.paths| && g.paths[i] == p && g.paths[j] == q && Joins(g.graph, path, i, j)
  {
    i, j :| i < |g.paths| && j < |g.paths| && g.paths[i] == p && g.paths[j] == q && Reaches(g.graph, i, j);
    path :| Joins(g.graph, path, i, j);
  }

  lemma {:induction false} LiftPath(small: PathGraph, large: PathGraph, path: seq<nat>, k: nat)
    requires small.Valid() && large.Valid() && Grows(small, large)
    requires IsPath(small.graph, path) && path[0] < |small.paths| && k < |path|
    ensures path[k] < |small.paths| && PathReaches(large, small.paths[path[0]], small.paths[path[k]])
  {
    hide PathReaches;
    if k == 0 {
      assert small.HasPath(small.paths[path[0]]);
      PathReachesSelf(large, small.paths[path[0]]);
    } else {
      LiftPath(small, large, path, k - 1);
      assert small.graph.Edge(path[k - 1], path[k - 1 + 1]);
      assert small.PathEdge(small.paths[path[k - 1]], small.paths[path[k]]);
      PathReachesEdge(large, small.paths[path[0]], small.paths[path[k - 1]], small.paths[path[k]]);
    }
  }

  lemma LiftMutual(small: PathGraph, large: PathGraph, p: string, q: string)
    requires small.Valid() && large.Valid() && Grows(small, large) && PathMutual(small, p, q)
    ensures PathMutual(large, p, q)
  {
    LiftReaches(small, large, p, q);
    LiftReaches(small, large, q, p);
  }

  // ----------------------------------------------------- components as path sets

  lemma InPathSet(g: PathGraph, scc: seq<nat>, i: nat)
    requires g.Valid() && IsScc(g.graph, scc) && i < |g.paths|
    ensures g.paths[i] in PathSet(g, scc) <==> i in scc
  {
    hide Mutual;
    if g.paths[i] in PathSet(g, scc) {
      var v :| v in scc && g.PathOf(v) == g.paths[i];
      var k: nat :| k < |scc| && scc[k] == v;
      assert g.graph.Node(scc[k]);
    }
    if i in scc {
      assert g.PathOf(i) == g.paths[i];
    }
  }

  lemma PathSetMember(g: PathGraph, scc: seq<nat>, p: string) returns (v: nat)
    requires g.Valid() && IsScc(g.graph, scc) && p in PathSet(g, scc)
    ensures v in scc && v < |g.paths| && g.paths[v] == p
  {
    hide Mutual;
    v :| v in scc && g.PathOf(v) == p;
    var k: nat :| k < |scc| && scc[k] == v;
    assert g.graph.Node(scc[k]);
  }

  /** The paths of a component are one class of mutual reachability. */
  lemma PathSetIsClass(g: PathGraph, scc: seq<nat>, p: string, q: string)
    requires g.Valid() && IsScc(g.graph, scc) && p in PathSet(g, scc)
    ensures q in PathSet(g, scc) <==> PathMutual(g, p, q)
  {
    hide Mutual, PathMutual, PathSet;
    var u := PathSetMember(g, scc, p);
    if q in PathSet(g, scc) {
      var v := PathSetMember(g, scc, q);
      PathMutualAt(g, u, v);
    }
    if PathMutual(g, p, q) {
      MutualHas(g, p, q);
      var v: nat :| v < |g.paths| && g.paths[v] == q;
      PathMutualAt(g, u, v);
      InPathSet(g, scc, v);
    }
  }

  lemma MutualHas(g: PathGraph, p: string, q: string)
    requires PathMutual(g, p, q)
    ensures g.HasPath(p) && g.HasPath(q)
  {
  }

  lemma {:induction false} PathSetSizeUpTo(g: PathGraph, scc: seq<nat>, k: nat)
    requires g.Valid() && k <= |scc|
    requires forall i: nat :: i < |scc| ==> g.graph.Node(scc[i])
    requires forall i: nat, j: nat :: i < j < |scc| ==> scc[i] != scc[j]
    ensures |PathSet(g, scc[..k])| == k
  {
    if k > 0 {
      PathSetSizeUpTo(g, scc, k - 1);
      assert scc[..k] == scc[..k - 1] + [scc[k - 1]];
      var p := g.PathOf(scc[k - 1]);
      assert PathSet(g, scc[..k]) == PathSet(g, scc[..k - 1]) + {p};
      if p in PathSet(g, scc[..k - 1]) {
        var v :| v in scc[..k - 1] && g.PathOf(v) == p;
        var i: nat :| i < k - 1 && scc[i] == v;
        SamePathSameNode(g, scc[i], scc[k - 1]);
      }
    }
  }

  lemma SamePathSameNode(g: PathGraph, i: nat, j: nat)
    requires g.Valid() && g.graph.Node(i) && g.graph.Node(j) && g.PathOf(i) == g.PathOf(j)
    ensures i == j
  {
  }

  /** A component has as many paths as nodes. */
  lemma PathSetSize(g: PathGraph, scc: seq<nat>)
    requires g.Valid() && IsScc(g.graph, scc)
    ensures |PathSet(g, scc)| == |scc|
  {
    hide Mutual;
    PathSetSizeUpTo(g, scc, |scc|);
    assert scc[..|scc|] == scc;
  }

  /** A component of the smaller graph lies inside any component of the larger that it meets. */
  lemma ComponentInside(small: PathGraph, large: PathGraph, a: seq<nat>, b: seq<nat>, p: string)
    requires small.Valid() && large.Valid() && Grows(small, large)
    requires IsScc(small.graph, a) && IsScc(large.graph, b)
    requires p in PathSet(small, a) && p in PathSet(large, b)
    ensures PathSet(small, a) <= PathSet(large, b)
  {
    hide IsScc, PathSet, Grows, PathMutual;
    forall q | q in PathSet(small, a)
      ensures q in PathSet(large, b)
    {
      PathSetIsClass(small, a, p, q);
      LiftMutual(small, large, p, q);
      PathSetIsClass(large, b, p, q);
    }
  }

  /** Every path of a graph lies in one of its components. */
  lemma ComponentOf(g: PathGraph, sccs: seq<seq<nat>>, p: string) returns (k: nat)
    requires g.Valid() && IsPartition(g.graph, sccs) && g.HasPath(p)
    ensures k < |sccs| && IsScc(g.graph, sccs[k]) && p in PathSet(g, sccs[k])
  {
    hide IsScc, Disjoint;
    var i: nat :| i < |g.paths| && g.paths[i] == p;
    assert g.graph.Node(i);
    k :| k < |sccs| && i in sccs[k];
    InPathSet(g, sccs[k], i);
  }

  lemma SubsetSize<T>(a: set<T>, b: set<T>)
    requires a <= b
    ensures |a| <= |b|
    ensures |a| == |b| ==> a == b
  {
    assert b == a + (b - a);
    assert |b| == |a| + |b - a|;
  }
}
