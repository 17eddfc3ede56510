/** The graph baseline as a document: sorted paths, edges between their positions. */
module GraphBaseline {
  import opened EdgeOrder
  import opened Sorting
  import opened StringOrder
  import opened IncludeGraph

  datatype Document = Document(nodes: seq<string>, edges: seq<EdgeRef>)

  // ------------------------------------------------------------------ the document

  ghost predicate SamePathEdges(g: PathGraph, h: PathGraph) {
    forall p, q :: g.PathEdge(p, q) <==> h.PathEdge(p, q)
  }

  ghost predicate IsNodeList(g: PathGraph, nodes: seq<string>) {
    RisesBy(StringLess, nodes) && forall p :: p in nodes <==> g.HasPath(p)
  }

  ghost predicate Connects(g: PathGraph, nodes: seq<string>, e: EdgeRef) {
    e.0 < |nodes| && e.1 < |nodes| && g.PathEdge(nodes[e.0], nodes[e.1])
  }

  ghost predicate IsEdgeList(g: PathGraph, nodes: seq<string>, edges: seq<EdgeRef>) {
    RisesBy(EdgeLess, edges) && forall e :: e in edges <==> Connects(g, nodes, e)
  }

  /** The one document of a graph: paths and edges in strictly rising order. */
  ghost predicate IsDocument(g: PathGraph, doc: Document) {
    IsNodeList(g, doc.nodes) && IsEdgeList(g, doc.nodes, doc.edges)
  }

  // ----------------------------------------------------------------------- saving

  method SortedNodePaths(g: PathGraph) returns (out: seq<string>)
    requires g.Valid()
    ensures IsNodeList(g, out) && |out| == g.Count()
  {
    out := [];
    var i := 0;
    while i < g.Count()
      invariant 0 <= i <= g.Count() && out == g.paths[..i]
    {
      out := out + [g.PathOf(i)];
      i := i + 1;
    }
    PathsRise(g);
    out := SortBy(StringLess, out);
  }

  lemma PathsRise(g: PathGraph)
    requires g.Valid()
    ensures g.paths[..g.Count()] == g.paths
    ensures IsNodeList(g, SortBy(StringLess, g.paths)) && |SortBy(StringLess, g.paths)| == g.Count()
  {
    hide StringLess;
    StringLessOrder();
    SortMembers(StringLess, g.paths);
    forall i: nat, j: nat | i < j < |g.paths|
      ensures StringLess(g.paths[i], g.paths[j]) || StringLess(g.paths[j], g.paths[i])
    {
      Trichotomy(g.paths[i], g.paths[j]);
    }
    SortRises(StringLess, g.paths);
  }

  /** `remap` sends every node to the position of its path. */
  ghost predicate IsRemap(g: PathGraph, sorted: seq<string>, remap: seq<nat>) {
    && |remap| == g.Count()
    && forall v: nat :: v < |remap| ==> remap[v] < |sorted| && sorted[remap[v]] == g.paths[v]
  }

  lemma RisesDistinct(s: seq<string>, i: nat, j: nat)
    requires RisesBy(StringLess, s) && i < |s| && j < |s| && s[i] == s[j]
    ensures i == j
  {
    hide StringLess;
    Irreflexive(s[i]);
  }

  /** The renumbering is a permutation: one position for every node, one node for every
      position. */
  lemma RemapIsPermutation(g: PathGraph, sorted: seq<string>, remap: seq<nat>)
    requires g.Valid() && IsNodeList(g, sorted) && IsRemap(g, sorted, remap)
    ensures forall u: nat, v: nat :: u < v < |remap| ==> remap[u] != remap[v]
    ensures forall i: nat :: i < |sorted| ==> i in remap
  {
    hide StringLess;
    forall i: nat | i < |sorted|
      ensures i in remap
    {
      assert sorted[i] in sorted && g.HasPath(sorted[i]);
      var v: nat :| v < |g.paths| && g.paths[v] == sorted[i];
      RisesDistinct(sorted, remap[v], i);
    }
  }

  method Remap(g: PathGraph, sorted: seq<string>) returns (remap: array<nat>)
    requires g.Valid() && IsNodeList(g, sorted)
    ensures fresh(remap) && IsRemap(g, sorted, remap[..])
  {
    hide StringLess;
    remap := new nat[g.Count()](i => 0);
    var newIdx := 0;
    while newIdx < |sorted|
      invariant 0 <= newIdx <= |sorted|
      invariant forall v: nat :: v < remap.Length && g.paths[v] in sorted[..newIdx] ==>
        remap[v] < |sorted| && sorted[remap[v]] == g.paths[v]
    {
      var p := sorted[newIdx];
      var oldIdx := 0;
      while oldIdx < g.Count()
        invariant 0 <= oldIdx <= g.Count()
        invariant p !in g.paths[..oldIdx]
        invariant forall v: nat :: v < remap.Length && g.paths[v] in sorted[..newIdx] ==>
          remap[v] < |sorted| && sorted[remap[v]] == g.paths[v]
      {
        if g.PathOf(oldIdx) == p {
          remap[oldIdx] := newIdx;
          break;
        }
        oldIdx := oldIdx + 1;
      }
      Placed(g, sorted, newIdx, oldIdx);
      newIdx := newIdx + 1;
    }
    assert sorted[..newIdx] == sorted;
  }

  lemma Placed(g: PathGraph, sorted: seq<string>, newIdx: nat, oldIdx: nat)
    requires g.Valid() && IsNodeList(g, sorted) && newIdx < |sorted| && oldIdx <= g.Count()
    requires if oldIdx < g.Count() then g.paths[oldIdx] == sorted[newIdx] else sorted[newIdx] !in g.paths[..oldIdx]
    ensures oldIdx < g.Count() && g.paths[oldIdx] == sorted[newIdx]
    ensures forall v: nat :: v < g.Count() && g.paths[v] in sorted[..newIdx + 1] ==>
      v == oldIdx || g.paths[v] in sorted[..newIdx]
  {
    hide StringLess;
    assert sorted[newIdx] in sorted;
    assert g.HasPath(sorted[newIdx]);
    assert g.paths[..g.Count()] == g.paths;
    assert sorted[..newIdx + 1] == sorted[..newIdx] + [sorted[newIdx]];
  }

  /** The edges of the first `n` nodes, renumbered. */
  function EdgesBelow(g: PathGraph, remap: seq<nat>, n: nat): seq<EdgeRef>
    requires |g.graph.succ| == |remap| && n <= |remap|
  {
    if n == 0 then [] else EdgesBelow(g, remap, n - 1) + EdgesOf(g.graph.succ[n - 1], remap, n - 1)
  }

  function At(remap: seq<nat>, v: nat): nat {
    if v < |remap| then remap[v] else 0
  }

  function EdgesOf(succ: seq<nat>, remap: seq<nat>, from: nat): (r: seq<EdgeRef>)
    ensures |r| == |succ| && forall k: nat :: k < |succ| ==> r[k] == (At(remap, from), At(remap, succ[k]))
  {
    if succ == [] then []
    else
      var k := |succ| - 1;
      EdgesOf(succ[..k], remap, from) + [(At(remap, from), At(remap, succ[k]))]
  }

  method EdgesFrom(g: PathGraph, remap: array<nat>, oldFrom: nat) returns (edges: seq<EdgeRef>)
    requires g.Valid() && remap.Length == g.Count() && oldFrom < g.Count()
    ensures edges == EdgesOf(g.graph.succ[oldFrom], remap[..], oldFrom)
  {
    var succ := g.graph.succ[oldFrom];
    edges := [];
    var k := 0;
    while k < |succ|
      invariant 0 <= k <= |succ| && edges == EdgesOf(succ[..k], remap[..], oldFrom)
    {
      assert succ[..k + 1][..k] == succ[..k];
      edges := edges + [(remap[oldFrom], remap[succ[k]])];
      k := k + 1;
    }
    assert succ[..k] == succ;
  }

  method RemappedSortedEdges(g: PathGraph, sorted: seq<string>) returns (edges: seq<EdgeRef>)
    requires g.Valid() && IsNodeList(g, sorted)
    ensures IsEdgeList(g, sorted, edges)
  {
    hide StringLess, EdgesOf, EdgeLess, IsEdgeList;
    var remap := Remap(g, sorted);
    ghost var numbers := remap[..];
    EdgesComplete(g, sorted, numbers);
    edges := [];
    var oldFrom := 0;
    while oldFrom < g.Count()
      invariant 0 <= oldFrom <= g.Count() && numbers == remap[..]
      invariant edges == EdgesBelow(g, numbers, oldFrom)
    {
      var more := EdgesFrom(g, remap, oldFrom);
      edges := edges + more;
      oldFrom := oldFrom + 1;
    }
    assert oldFrom == |numbers|;
    edges := SortBy(EdgeLess, edges);
  }

  /** The edge `e` renumbers an edge that leaves one of the first `n` nodes. */
  ghost predicate Renumbers(g: PathGraph, remap: seq<nat>, n: nat, e: EdgeRef) {
    exists u: nat, v: nat :: u < n && g.graph.Edge(u, v) && e == (At(remap, u), At(remap, v))
  }

  lemma {:induction false} EdgesBelowAre(g: PathGraph, remap: seq<nat>, n: nat)
    requires g.Valid() && |g.graph.succ| == |remap| && n <= |remap|
    requires forall u: nat, v: nat :: u < v < |remap| ==> remap[u] != remap[v]
    ensures forall e :: e in EdgesBelow(g, remap, n) <==> Renumbers(g, remap, n, e)
    ensures Separated(EdgeLess, EdgesBelow(g, remap, n))
  {
    if n > 0 {
      EdgesBelowAre(g, remap, n - 1);
      var below := EdgesBelow(g, remap, n - 1);
      var more := EdgesOf(g.graph.succ[n - 1], remap, n - 1);
      var all := EdgesBelow(g, remap, n);
      forall e
        ensures e in all <==> Renumbers(g, remap, n, e)
      {
        EdgeOfLast(g, remap, n, e);
      }
      LastSeparated(g, remap, n - 1);
    }
  }

  lemma EdgeOfLast(g: PathGraph, remap: seq<nat>, n: nat, e: EdgeRef)
    requires g.Valid() && |g.graph.succ| == |remap| && 0 < n <= |remap|
    ensures e in EdgesOf(g.graph.succ[n - 1], remap, n - 1)
       <==> exists v: nat :: g.graph.Edge(n - 1, v) && e == (At(remap, n - 1), At(remap, v))
  {
    var succ := g.graph.succ[n - 1];
    var r := EdgesOf(succ, remap, n - 1);
    if v: nat :| g.graph.Edge(n - 1, v) && e == (At(remap, n - 1), At(remap, v)) {
      var k: nat :| k < |succ| && succ[k] == v;
      assert r[k] == e;
    }
    if e in r {
      var k: nat :| k < |r| && r[k] == e;
      assert g.graph.Edge(n - 1, succ[k]);
    }
  }

  lemma LastSeparated(g: PathGraph, remap: seq<nat>, m: nat)
    requires g.Valid() && |g.graph.succ| == |remap| && m < |remap|
    requires forall u: nat, v: nat :: u < v < |remap| ==> remap[u] != remap[v]
    requires forall e :: e in EdgesBelow(g, remap, m) <==> Renumbers(g, remap, m, e)
    requires Separated(EdgeLess, EdgesBelow(g, remap, m))
    ensures Separated(EdgeLess, EdgesBelow(g, remap, m + 1))
  {
    var below := EdgesBelow(g, remap, m);
    var succ := g.graph.succ[m];
    var more := EdgesOf(succ, remap, m);
    var all := EdgesBelow(g, remap, m + 1);
    assert all == below + more;
    forall i: nat, j: nat | i < j < |all|
      ensures EdgeLess(all[i], all[j]) || EdgeLess(all[j], all[i])
    {
      if j >= |below| {
        var w := succ[j - |below|];
        assert g.graph.Edge(m, w) && all[j] == (At(remap, m), At(remap, w));
        if i >= |below| {
          var x := succ[i - |below|];
          assert g.graph.Edge(m, x) && x != w;
        } else {
          assert all[i] in below;
        }
      }
    }
  }

  lemma EdgesComplete(g: PathGraph, sorted: seq<string>, remap: seq<nat>)
    requires g.Valid() && IsNodeList(g, sorted) && IsRemap(g, sorted, remap)
    ensures |remap| == g.Count() && IsEdgeList(g, sorted, SortBy(EdgeLess, EdgesBelow(g, remap, |remap|)))
  {
    hide StringLess;
    RemapIsPermutation(g, sorted, remap);
    EdgesBelowAre(g, remap, |remap|);
    var edges := EdgesBelow(g, remap, |remap|);
    EdgeLessOrder();
    SortRises(EdgeLess, edges);
    SortMembers(EdgeLess, edges);
    forall e
      ensures e in edges <==> Connects(g, sorted, e)
    {
      RenumberedEdge(g, sorted, remap, e);
    }
  }

  lemma RenumberedEdge(g: PathGraph, sorted: seq<string>, remap: seq<nat>, e: EdgeRef)
    requires g.Valid() && IsNodeList(g, sorted) && IsRemap(g, sorted, remap)
    ensures Connects(g, sorted, e)
       <==> Renumbers(g, remap, |remap|, e)
  {
    hide StringLess;
    if Connects(g, sorted, e) {
      var u: nat, v: nat :| g.graph.Edge(u, v) && u < |g.paths| && v < |g.paths|
        && g.paths[u] == sorted[e.0] && g.paths[v] == sorted[e.1];
      RisesDistinct(sorted, remap[u], e.0);
      RisesDistinct(sorted, remap[v], e.1);
      assert e == (At(remap, u), At(remap, v));
    }
    if u: nat, v: nat :| u < |remap| && g.graph.Edge(u, v) && e == (At(remap, u), At(remap, v)) {
      assert sorted[e.0] == g.paths[u] && sorted[e.1] == g.paths[v];
    }
  }

  method SaveBaseline(g: PathGraph) returns (doc: Document)
    requires g.Valid()
    ensures IsDocument(g, doc)
  {
    var nodes := SortedNodePaths(g);
    var edges := RemappedSortedEdges(g, nodes);
    doc := Document(nodes, edges);
  }

  // ------------------------------------------------------------ the document decides

  /** Two graphs have the same document exactly when they have the same paths and the same
      edges between paths: node numbers and list order leave no trace. */
  lemma SameDocumentIff(g: PathGraph, h: PathGraph, d: Document, e: Document)
    requires IsDocument(g, d) && IsDocument(h, e) && g.Valid() && h.Valid()
    ensures d == e <==> SamePaths(g, h) && SamePathEdges(g, h)
  {
    hide StringLess, EdgeLess;
    if d == e {
      DocumentTellsEdges(g, h, d);
    }
    if SamePaths(g, h) && SamePathEdges(g, h) {
      StringLessOrder();
      RisesUnique(StringLess, d.nodes, e.nodes);
      EdgeLessOrder();
      assert forall x :: Connects(g, d.nodes, x) <==> Connects(h, d.nodes, x);
      RisesUnique(EdgeLess, d.edges, e.edges);
    }
  }

  lemma DocumentTellsEdges(g: PathGraph, h: PathGraph, d: Document)
    requires IsDocument(g, d) && IsDocument(h, d) && g.Valid() && h.Valid()
    ensures SamePaths(g, h) && SamePathEdges(g, h)
  {
    hide StringLess, EdgeLess;
    forall p, q
      ensures g.PathEdge(p, q) <==> h.PathEdge(p, q)
    {
      EdgeInDocument(g, d, p, q);
      EdgeInDocument(h, d, p, q);
    }
    assert forall p :: g.HasPath(p) <==> p in d.nodes;
  }

  lemma EdgeInDocument(g: PathGraph, d: Document, p: string, q: string)
    requires IsDocument(g, d) && g.Valid()
    ensures g.PathEdge(p, q) <==> exists e :: e in d.edges && e.0 < |d.nodes| && e.1 < |d.nodes|
                                              && d.nodes[e.0] == p && d.nodes[e.1] == q
  {
    hide StringLess, EdgeLess;
    if g.PathEdge(p, q) {
      assert p in d.nodes && q in d.nodes;
      var i: nat :| i < |d.nodes| && d.nodes[i] == p;
      var j: nat :| j < |d.nodes| && d.nodes[j] == q;
      assert Connects(g, d.nodes, (i, j));
    }
  }
}
