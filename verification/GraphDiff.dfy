/** Comparing two include graphs by path: added and removed edges, and the cycles
    of the current graph that outgrow their counterpart in the baseline. */
module GraphDiff {
  import opened Digraphs
  import opened EdgeOrder
  import opened Sorting
  import opened IncludeGraph

  // -------------------------------------------------------------- lookup by path

  ghost predicate IndexesPaths(g: PathGraph, byPath: map<string, nat>) {
    && (forall p :: p in byPath ==> byPath[p] < |g.paths| && g.paths[byPath[p]] == p)
    && (forall i: nat :: i < |g.paths| ==> g.paths[i] in byPath)
  }

  method IndexByPath(g: PathGraph) returns (byPath: map<string, nat>)
    ensures IndexesPaths(g, byPath)
  {
    byPath := map[];
    var i := 0;
    while i < |g.paths|
      invariant i <= |g.paths|
      invariant forall p :: p in byPath ==> byPath[p] < i && g.paths[byPath[p]] == p
      invariant forall k: nat :: k < i ==> g.paths[k] in byPath
    {
      if g.paths[i] !in byPath {
        byPath := byPath[g.paths[i] := i];
      }
      i := i + 1;
    }
  }

  /** Whether the other graph, seen through its path index, has the edge `p -> q`. */
  predicate EdgeByPath(g: PathGraph, byPath: map<string, nat>, p: string, q: string) {
    p in byPath && q in byPath && g.graph.Edge(byPath[p], byPath[q])
  }

  lemma EdgeByPathMeans(g: PathGraph, byPath: map<string, nat>, p: string, q: string)
    requires g.Valid() && IndexesPaths(g, byPath)
    ensures EdgeByPath(g, byPath, p, q) <==> g.PathEdge(p, q)
  {
  }

  // ------------------------------------------------------------------ edge lists

  ghost predicate AddedEdge(baseline: PathGraph, current: PathGraph, e: EdgeRef) {
    && current.graph.Edge(e.0, e.1)
    && !baseline.PathEdge(current.PathOf(e.0), current.PathOf(e.1))
  }

  ghost predicate RemovedEdge(baseline: PathGraph, current: PathGraph, e: EdgeRef) {
    && e.0 < |current.paths| && e.1 < |current.paths|
    && baseline.PathEdge(current.paths[e.0], current.paths[e.1])
    && !current.graph.Edge(e.0, e.1)
  }

  /** The edges satisfying `want`, each once, in order. */
  ghost predicate Lists(edges: seq<EdgeRef>, want: EdgeRef -> bool) {
    && RisesBy(EdgeLess, edges)
    && forall e :: e in edges <==> want(e)
  }

  ghost predicate Distinct2(s: seq<EdgeRef>) {
    forall i: nat, j: nat :: i < j < |s| ==> s[i] != s[j]
  }

  lemma SortedLists(edges: seq<EdgeRef>, want: EdgeRef -> bool)
    requires Distinct2(edges) && forall e :: e in edges <==> want(e)
    ensures Lists(SortBy(EdgeLess, edges), want)
  {
    EdgeLessOrder();
    assert Separated(EdgeLess, edges);
    SortRises(EdgeLess, edges);
    SortMembers(EdgeLess, edges);
  }

  /** Edge `e` lies at a list position before `(i, k)` of the adjacency lists. */
  ghost predicate Before(g: Digraph, e: EdgeRef, i: nat, k: nat) {
    || (e.0 < i && g.Edge(e.0, e.1))
    || (e.0 == i && i < |g.succ| && k <= |g.succ[i]| && e.1 in g.succ[i][..k])
  }

  lemma BeforeOneMore(g: Digraph, e: EdgeRef, i: nat, k: nat)
    requires i < |g.succ| && k < |g.succ[i]|
    ensures Before(g, e, i, k + 1) <==> Before(g, e, i, k) || e == (i, g.succ[i][k])
  {
    assert g.succ[i][..k + 1] == g.succ[i][..k] + [g.succ[i][k]];
  }

  lemma BeforeNextNode(g: Digraph, e: EdgeRef, i: nat)
    requires i < |g.succ|
    ensures Before(g, e, i + 1, 0) <==> Before(g, e, i, |g.succ[i]|)
  {
    assert g.succ[i][..|g.succ[i]|] == g.succ[i];
  }

  lemma NotYet(g: PathGraph, i: nat, k: nat)
    requires g.Valid() && i < |g.graph.succ| && k < |g.graph.succ[i]|
    ensures !Before(g.graph, (i, g.graph.succ[i][k]), i, k)
  {
    assert NoRepeats(g.graph.succ[i]);
  }

  method AddedEdges(baseline: PathGraph, current: PathGraph) returns (result: seq<EdgeRef>)
    requires baseline.Valid() && current.Valid()
    ensures Lists(result, e => AddedEdge(baseline, current, e))
  {
    hide Before, RisesBy;
    var byPath := IndexByPath(baseline);
    ghost var g := current.graph;
    result := [];
    var i := 0;
    BeforeStart(g);
    while i < |current.graph.succ|
      invariant i <= |g.succ|
      invariant Distinct2(result)
      invariant forall e :: e in result <==> AddedEdge(baseline, current, e) && Before(g, e, i, 0)
    {
      var k := 0;
      while k < |current.graph.succ[i]|
        invariant k <= |g.succ[i]|
        invariant Distinct2(result)
        invariant forall e :: e in result <==> AddedEdge(baseline, current, e) && Before(g, e, i, k)
      {
        var to := current.graph.succ[i][k];
        EdgeByPathMeans(baseline, byPath, current.PathOf(i), current.PathOf(to));
        NotYet(current, i, k);
        forall e
          ensures Before(g, e, i, k + 1) <==> Before(g, e, i, k) || e == (i, to)
        {
          BeforeOneMore(g, e, i, k);
        }
        if !EdgeByPath(baseline, byPath, current.PathOf(i), current.PathOf(to)) {
          result := result + [(i, to)];
        }
        k := k + 1;
      }
      forall e
        ensures Before(g, e, i + 1, 0) <==> Before(g, e, i, |g.succ[i]|)
      {
        BeforeNextNode(g, e, i);
      }
      i := i + 1;
    }
    BeforeAll(g);
    SortedLists(result, e => AddedEdge(baseline, current, e));
    result := SortBy(EdgeLess, result);
  }

  lemma BeforeStart(g: Digraph)
    ensures forall e: EdgeRef :: !Before(g, e, 0, 0)
  {
  }

  lemma BeforeAll(g: Digraph)
    ensures forall e: EdgeRef :: Before(g, e, |g.succ|, 0) <==> g.Edge(e.0, e.1)
  {
  }

  /** A baseline edge that the current graph lost although both endpoints remain. */
  ghost predicate Lost(baseline: PathGraph, current: PathGraph, b: EdgeRef) {
    && baseline.graph.Edge(b.0, b.1)
    && current.HasPath(baseline.PathOf(b.0)) && current.HasPath(baseline.PathOf(b.1))
    && !current.PathEdge(baseline.PathOf(b.0), baseline.PathOf(b.1))
  }

  lemma LostAreEdges(baseline: PathGraph, current: PathGraph)
    ensures forall e :: Lost(baseline, current, e) ==> baseline.graph.Edge(e.0, e.1)
  {
  }

  function Translate(baseline: PathGraph, byPath: map<string, nat>, b: EdgeRef): EdgeRef {
    var p, q := baseline.PathOf(b.0), baseline.PathOf(b.1);
    (if p in byPath then byPath[p] else 0, if q in byPath then byPath[q] else 0)
  }

  method RemovedEdges(baseline: PathGraph, current: PathGraph) returns (result: seq<EdgeRef>)
    requires baseline.Valid() && current.Valid()
    ensures Lists(result, e => RemovedEdge(baseline, current, e))
  {
    hide Before, RisesBy, Lost;
    var byPath := IndexByPath(current);
    ghost var g := baseline.graph;
    ghost var lost: seq<EdgeRef> := [];
    result := [];
    var i := 0;
    BeforeStart(g);
    while i < |baseline.graph.succ|
      invariant i <= |g.succ|
      invariant Distinct2(lost) && Translated(baseline, byPath, lost, result)
      invariant forall e :: e in lost <==> Lost(baseline, current, e) && Before(g, e, i, 0)
    {
      var k := 0;
      if baseline.PathOf(i) in byPath {
        while k < |baseline.graph.succ[i]|
          invariant k <= |g.succ[i]|
          invariant Distinct2(lost) && Translated(baseline, byPath, lost, result)
          invariant forall e :: e in lost <==> Lost(baseline, current, e) && Before(g, e, i, k)
        {
          var to := baseline.graph.succ[i][k];
          LostMeans(baseline, current, byPath, (i, to));
          NotYet(baseline, i, k);
          forall e
            ensures Before(g, e, i, k + 1) <==> Before(g, e, i, k) || e == (i, to)
          {
            BeforeOneMore(g, e, i, k);
          }
          assert g.Edge(i, to);
          if baseline.PathOf(to) in byPath
             && !current.graph.Edge(byPath[baseline.PathOf(i)], byPath[baseline.PathOf(to)]) {
            result := result + [(byPath[baseline.PathOf(i)], byPath[baseline.PathOf(to)])];
            lost := lost + [(i, to)];
          }
          k := k + 1;
        }
      } else {
        SkippedNode(baseline, current, byPath, i);
      }
      forall e
        ensures Before(g, e, i + 1, 0) <==> Before(g, e, i, |g.succ[i]|)
      {
        BeforeNextNode(g, e, i);
      }
      i := i + 1;
    }
    BeforeAll(g);
    assert forall e :: Lost(baseline, current, e) ==> g.Edge(e.0, e.1) by {
      LostAreEdges(baseline, current);
    }
    TranslatedDistinct(baseline, current, byPath, lost, result);
    TranslatedMembers(baseline, current, byPath, lost, result);
    SortedLists(result, e => RemovedEdge(baseline, current, e));
    result := SortBy(EdgeLess, result);
  }

  ghost predicate Translated(baseline: PathGraph, byPath: map<string, nat>, lost: seq<EdgeRef>, result: seq<EdgeRef>) {
    |result| == |lost| && forall i: nat :: i < |lost| ==> result[i] == Translate(baseline, byPath, lost[i])
  }

  lemma LostMeans(baseline: PathGraph, current: PathGraph, byPath: map<string, nat>, b: EdgeRef)
    requires current.Valid() && IndexesPaths(current, byPath) && baseline.graph.Edge(b.0, b.1)
    ensures var p, q := baseline.PathOf(b.0), baseline.PathOf(b.1);
      Lost(baseline, current, b) <==> p in byPath && q in byPath && !current.graph.Edge(byPath[p], byPath[q])
  {
    var p, q := baseline.PathOf(b.0), baseline.PathOf(b.1);
    EdgeByPathMeans(current, byPath, p, q);
  }

  lemma SkippedNode(baseline: PathGraph, current: PathGraph, byPath: map<string, nat>, i: nat)
    requires IndexesPaths(current, byPath) && i < |baseline.graph.succ| && baseline.PathOf(i) !in byPath
    ensures forall e :: Lost(baseline, current, e) ==>
      (Before(baseline.graph, e, i, |baseline.graph.succ[i]|) <==> Before(baseline.graph, e, i, 0))
  {
    forall e | Lost(baseline, current, e)
      ensures e.0 != i
    {
      var k :| 0 <= k < |current.paths| && current.paths[k] == baseline.PathOf(e.0);
    }
  }

  lemma TranslatedDistinct(baseline: PathGraph, current: PathGraph, byPath: map<string, nat>, lost: seq<EdgeRef>,
      result: seq<EdgeRef>)
    requires baseline.Valid() && current.Valid() && IndexesPaths(current, byPath)
    requires Distinct2(lost) && Translated(baseline, byPath, lost, result)
    requires forall e :: e in lost ==> Lost(baseline, current, e)
    ensures Distinct2(result)
  {
    forall i: nat, j: nat | i < j < |result|
      ensures result[i] != result[j]
    {
      LostInIndex(baseline, current, byPath, lost[i]);
      LostInIndex(baseline, current, byPath, lost[j]);
    }
  }

  lemma LostInIndex(baseline: PathGraph, current: PathGraph, byPath: map<string, nat>, b: EdgeRef)
    requires baseline.Valid() && current.Valid() && IndexesPaths(current, byPath) && Lost(baseline, current, b)
    ensures b.0 < |baseline.paths| && b.1 < |baseline.paths|
    ensures baseline.paths[b.0] in byPath && baseline.paths[b.1] in byPath
    ensures Translate(baseline, byPath, b) == (byPath[baseline.paths[b.0]], byPath[baseline.paths[b.1]])
    ensures RemovedEdge(baseline, current, Translate(baseline, byPath, b))
  {
    LostMeans(baseline, current, byPath, b);
    assert baseline.PathEdge(baseline.paths[b.0], baseline.paths[b.1]);
  }

  lemma TranslatedMembers(baseline: PathGraph, current: PathGraph, byPath: map<string, nat>, lost: seq<EdgeRef>,
      result: seq<EdgeRef>)
    requires baseline.Valid() && current.Valid() && IndexesPaths(current, byPath)
    requires Translated(baseline, byPath, lost, result)
    requires forall e :: e in lost <==> Lost(baseline, current, e)
    ensures forall e :: e in result <==> RemovedEdge(baseline, current, e)
  {
    forall e
      ensures e in result <==> RemovedEdge(baseline, current, e)
    {
      if e in result {
        var i: nat :| i < |result| && result[i] == e;
        LostInIndex(baseline, current, byPath, lost[i]);
      }
      if RemovedEdge(baseline, current, e) {
        var i := RemovedIsLost(baseline, current, byPath, lost, e);
        assert result[i] == e;
      }
    }
  }

  lemma RemovedIsLost(baseline: PathGraph, current: PathGraph, byPath: map<string, nat>, lost: seq<EdgeRef>, e: EdgeRef)
    returns (k: nat)
    requires baseline.Valid() && current.Valid() && IndexesPaths(current, byPath)
    requires forall b :: b in lost <==> Lost(baseline, current, b)
    requires RemovedEdge(baseline, current, e)
    ensures k < |lost| && Translate(baseline, byPath, lost[k]) == e
  {
    var p, q := current.paths[e.0], current.paths[e.1];
    var i: nat, j: nat :| baseline.graph.Edge(i, j) && i < |baseline.paths| && j < |baseline.paths|
                          && baseline.paths[i] == p && baseline.paths[j] == q;
    assert byPath[p] == e.0 && byPath[q] == e.1;
    LostMeans(baseline, current, byPath, (i, j));
    assert (i, j) in lost;
    k :| k < |lost| && lost[k] == (i, j);
  }

  /** An edge added from `baseline` to `current`, by the paths of its ends. */
  ghost predicate AddedByPath(baseline: PathGraph, current: PathGraph, p: string, q: string) {
    exists e: EdgeRef :: AddedEdge(baseline, current, e) && current.PathOf(e.0) == p && current.PathOf(e.1) == q
  }

  ghost predicate RemovedByPath(baseline: PathGraph, current: PathGraph, p: string, q: string) {
    exists e: EdgeRef :: RemovedEdge(baseline, current, e) && current.PathOf(e.0) == p && current.PathOf(e.1) == q
  }

  /** By path, the edges removed from `baseline` to `current` are the edges added from
      `current` to `baseline`, short of those whose endpoint is gone. */
  lemma RemovedIsAddedBackwards(baseline: PathGraph, current: PathGraph, p: string, q: string)
    requires baseline.Valid() && current.Valid()
    ensures RemovedByPath(baseline, current, p, q)
       <==> current.HasPath(p) && current.HasPath(q) && AddedByPath(current, baseline, p, q)
  {
    hide AddedByPath, RemovedByPath;
    if RemovedByPath(baseline, current, p, q) {
      RemovedWasAdded(baseline, current, p, q);
    }
    if current.HasPath(p) && current.HasPath(q) && AddedByPath(current, baseline, p, q) {
      AddedWasRemoved(baseline, current, p, q);
    }
  }

  lemma RemovedWasAdded(baseline: PathGraph, current: PathGraph, p: string, q: string)
    requires baseline.Valid() && current.Valid() && RemovedByPath(baseline, current, p, q)
    ensures current.HasPath(p) && current.HasPath(q) && AddedByPath(current, baseline, p, q)
  {
    var e: EdgeRef :| RemovedEdge(baseline, current, e) && current.PathOf(e.0) == p && current.PathOf(e.1) == q;
    var i: nat, j: nat :| baseline.graph.Edge(i, j) && i < |baseline.paths| && j < |baseline.paths|
                          && baseline.paths[i] == p && baseline.paths[j] == q;
    assert AddedEdge(current, baseline, (i, j)) by {
      if current.PathEdge(p, q) {
        var k: nat, l: nat :| current.graph.Edge(k, l) && k < |current.paths| && l < |current.paths|
                              && current.paths[k] == p && current.paths[l] == q;
        SameNode(current, k, e.0);
        SameNode(current, l, e.1);
      }
    }
  }

  lemma SameNode(g: PathGraph, i: nat, j: nat)
    requires g.Valid() && i < |g.paths| && j < |g.paths| && g.paths[i] == g.paths[j]
    ensures i == j
  {
  }

  lemma AddedWasRemoved(baseline: PathGraph, current: PathGraph, p: string, q: string)
    requires baseline.Valid() && current.Valid()
    requires current.HasPath(p) && current.HasPath(q) && AddedByPath(current, baseline, p, q)
    ensures RemovedByPath(baseline, current, p, q)
  {
    var e: EdgeRef :| AddedEdge(current, baseline, e) && baseline.PathOf(e.0) == p && baseline.PathOf(e.1) == q;
    var i: nat :| i < |current.paths| && current.paths[i] == p;
    var j: nat :| j < |current.paths| && current.paths[j] == q;
    assert baseline.PathEdge(p, q);
    assert !current.graph.Edge(i, j);
    assert RemovedEdge(baseline, current, (i, j));
  }
}
