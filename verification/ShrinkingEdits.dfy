/** An edit that only removes edges cannot raise fan-in or reachability. */
module ShrinkingEdits {
  import opened Digraphs
  import opened IncludeGraph
  import opened PathCorrespondence
  import opened GraphMetrics

  /** An injection from `s` into `t` bounds the size of `s`. */
  lemma {:induction false} InjectionSize<T(!new), U(!new)>(s: set<T>, t: set<U>, f: T -> U)
    requires forall x :: x in s ==> f(x) in t
    requires forall x, y :: x in s && y in s && f(x) == f(y) ==> x == y
    ensures |s| <= |t|
  {
    if s != {} {
      var x :| x in s;
      InjectionSize(s - {x}, t - {f(x)}, f);
    }
  }

  /** The node of `to` that has the path of node `v` of `from` (0 if there is none). */
  ghost function Across(from: PathGraph, to: PathGraph, v: nat): nat {
    if exists w: nat :: w < |to.paths| && to.paths[w] == from.PathOf(v)
    then var w: nat :| w < |to.paths| && to.paths[w] == from.PathOf(v); w
    else 0
  }

  lemma AcrossAt(from: PathGraph, to: PathGraph, v: nat)
    requires from.Valid() && to.Valid() && Grows(from, to) && v < |from.paths|
    ensures Across(from, to, v) < |to.paths| && to.paths[Across(from, to, v)] == from.paths[v]
  {
    assert from.HasPath(from.paths[v]);
    assert to.HasPath(from.paths[v]);
  }

  lemma AcrossInjective(from: PathGraph, to: PathGraph, u: nat, v: nat)
    requires from.Valid() && to.Valid() && Grows(from, to) && u < |from.paths| && v < |from.paths|
    requires Across(from, to, u) == Across(from, to, v)
    ensures u == v
  {
    hide Grows, Across;
    AcrossAt(from, to, u);
    AcrossAt(from, to, v);
  }

  lemma AcrossEdge(from: PathGraph, to: PathGraph, u: nat, v: nat)
    requires from.Valid() && to.Valid() && Grows(from, to) && from.graph.Edge(u, v)
    ensures u < |from.paths| && v < |from.paths|
    ensures to.graph.Edge(Across(from, to, u), Across(from, to, v))
  {
    hide Across;
    AcrossAt(from, to, u);
    AcrossAt(from, to, v);
    assert from.PathEdge(from.paths[u], from.paths[v]);
    assert to.PathEdge(from.paths[u], from.paths[v]);
  }

  lemma AcrossReaches(from: PathGraph, to: PathGraph, u: nat, v: nat)
    requires from.Valid() && to.Valid() && Grows(from, to) && u < |from.paths| && v < |from.paths|
    requires Reaches(from.graph, u, v)
    ensures Reaches(to.graph, Across(from, to, u), Across(from, to, v))
  {
    hide Across, Grows, Reaches, PathReaches;
    AcrossAt(from, to, u);
    AcrossAt(from, to, v);
    PathReachesAt(from, u, v);
    LiftReaches(from, to, from.paths[u], from.paths[v]);
    PathReachesAt(to, Across(from, to, u), Across(from, to, v));
  }

  /** Fan-in only grows with the graph. */
  lemma FanInMonotone(small: PathGraph, large: PathGraph, v: nat)
    requires small.Valid() && large.Valid() && Grows(small, large) && v < |small.paths|
    ensures Across(small, large, v) < |large.paths|
    ensures InDegree(small.graph, v) <= InDegree(large.graph, Across(small, large, v))
  {
    hide Across, Grows;
    AcrossAt(small, large, v);
    var s := Sources(small.graph, v, |small.graph.succ|);
    var t := Sources(large.graph, Across(small, large, v), |large.graph.succ|);
    var f := (u: nat) => Across(small, large, u);
    forall u | u in s
      ensures f(u) in t
    {
      AcrossEdge(small, large, u, v);
    }
    forall u, w | u in s && w in s && f(u) == f(w)
      ensures u == w
    {
      AcrossInjective(small, large, u, w);
    }
    InjectionSize(s, t, f);
  }

  /** So does the cumulative component dependency. */
  lemma CcdMonotone(small: PathGraph, large: PathGraph)
    requires small.Valid() && large.Valid() && Grows(small, large)
    ensures |ReachPairs(small.graph, |small.graph.succ|)| <= |ReachPairs(large.graph, |large.graph.succ|)|
  {
    hide Across, Grows, Reaches;
    var s := ReachPairs(small.graph, |small.graph.succ|);
    var t := ReachPairs(large.graph, |large.graph.succ|);
    var f := (e: (nat, nat)) => (Across(small, large, e.0), Across(small, large, e.1));
    forall e | e in s
      ensures f(e) in t
    {
      AcrossAt(small, large, e.0);
      AcrossAt(small, large, e.1);
      AcrossReaches(small, large, e.0, e.1);
    }
    forall d, e | d in s && e in s && f(d) == f(e)
      ensures d == e
    {
      AcrossInjective(small, large, d.0, e.0);
      AcrossInjective(small, large, d.1, e.1);
    }
    InjectionSize(s, t, f);
  }

  lemma NodeCountMonotone(small: PathGraph, large: PathGraph)
    requires small.Valid() && large.Valid() && Grows(small, large)
    ensures |small.paths| <= |large.paths|
  {
    hide Across, Grows;
    var s := set v: nat | v < |small.paths| && small.graph.Node(v);
    var t := set v: nat | v < |large.paths| && large.graph.Node(v);
    var f := (u: nat) => Across(small, large, u);
    forall u | u in s
      ensures f(u) in t
    {
      AcrossAt(small, large, u);
    }
    forall u, w | u in s && w in s && f(u) == f(w)
      ensures u == w
    {
      AcrossInjective(small, large, u, w);
    }
    InjectionSize(s, t, f);
    CountNodes(small.graph, |small.paths|);
    CountNodes(large.graph, |large.paths|);
  }

  lemma {:induction false} CountNodes(g: Digraph, n: nat)
    requires n <= |g.succ|
    ensures |set v: nat | v < n && g.Node(v)| == n
  {
    if n > 0 {
      CountNodes(g, n - 1);
      assert (set v: nat | v < n && g.Node(v)) == (set v: nat | v < n - 1 && g.Node(v)) + {n - 1};
    }
  }

  /** Removing edges among the same files cannot raise the normalised dependency. */
  lemma NccdCannotGrow(baseline: PathGraph, current: PathGraph, lg: nat -> real, bm: Metrics, cm: Metrics)
    requires baseline.Valid() && current.Valid() && SamePaths(baseline, current) && Grows(current, baseline)
    requires IsMetrics(baseline.graph, lg, bm) && IsMetrics(current.graph, lg, cm)
    ensures cm.nccd <= bm.nccd
  {
    hide ReachPairs, IsMaxDepth, IsMaxInDegree;
    SameCount(baseline, current);
    CcdMonotone(current, baseline);
    if bm.nodeCount > 0 {
      DivideMonotone(cm.ccd as real, bm.ccd as real, bm.nodeCount as real);
      DivideMonotone(cm.acd, bm.acd, lg(bm.nodeCount));
    }
  }

  lemma DivideMonotone(a: real, b: real, c: real)
    requires a <= b && c > 0.0
    ensures a / c <= b / c
  {
  }

  lemma SameCount(a: PathGraph, b: PathGraph)
    requires a.Valid() && b.Valid() && SamePaths(a, b)
    ensures |a.paths| == |b.paths|
  {
    var a0 := PathGraph(a.paths, Digraph(seq(|a.paths|, _ => [])), {});
    var b0 := PathGraph(b.paths, Digraph(seq(|b.paths|, _ => [])), {});
    assert a0.Valid() && b0.Valid();
    assert forall p :: (a0.HasPath(p) <==> a.HasPath(p)) && (b0.HasPath(p) <==> b.HasPath(p));
    assert forall u: nat, v: nat :: !a0.graph.Edge(u, v) && !b0.graph.Edge(u, v);
    assert Grows(a0, b0) && Grows(b0, a0);
    NodeCountMonotone(a0, b0);
    NodeCountMonotone(b0, a0);
  }
}
