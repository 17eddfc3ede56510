/** Loading a graph baseline, and what a graph keeps when it is saved and loaded. */
module GraphReload {
  import opened Digraphs
  import opened EdgeOrder
  import opened Sorting
  import opened StringOrder
  import opened IncludeGraph
  import opened Wrappers
  import opened GraphBaseline

  /** The mapping at the top of the file: a field is missing or decoded. */
  datatype Fields = Fields(version: Option<string>, nodes: Option<seq<string>>, edges: Option<seq<EdgeRef>>)

  datatype Problem = MissingField | UnknownVersion | MalformedSchema

  const FORMAT_VERSION: string := "1"

  predicate EdgesInRange(edges: seq<EdgeRef>, n: nat) {
    forall k: nat :: k < |edges| ==> edges[k].0 < n && edges[k].1 < n
  }

  /** The first problem of the document, in the order of the checks. */
  function ProblemOf(f: Fields): Option<Problem> {
    if f.version.None? then Some(MissingField)
    else if f.version.value != FORMAT_VERSION then Some(UnknownVersion)
    else if f.nodes.None? || f.edges.None? then Some(MissingField)
    else if !EdgesInRange(f.edges.value, |f.nodes.value|) then Some(MalformedSchema)
    else None
  }

  function Fielded(doc: Document): Fields {
    Fields(Some(FORMAT_VERSION), Some(doc.nodes), Some(doc.edges))
  }

  /** The graph has the normalised paths of the document, and its edges between them. */
  ghost predicate IsAssembled(doc: Document, h: PathGraph) {
    && (forall p :: h.HasPath(p) <==> NamesPath(doc.nodes, |doc.nodes|, p))
    && (forall p, q :: h.PathEdge(p, q) <==> NamesEdge(doc, p, q))
  }

  ghost predicate NamesPath(nodes: seq<string>, n: nat, p: string)
    requires n <= |nodes|
  {
    exists i: nat :: i < n && Normalized(nodes[i]) == p
  }

  ghost predicate NamesEdge(doc: Document, p: string, q: string) {
    exists k: nat :: k < |doc.edges| && doc.edges[k].0 < |doc.nodes| && doc.edges[k].1 < |doc.nodes|
      && Normalized(doc.nodes[doc.edges[k].0]) == p && Normalized(doc.nodes[doc.edges[k].1]) == q
  }

  /** The ids that the paths of the document received. */
  ghost predicate IdsOf(nodes: seq<string>, n: nat, ids: seq<nat>, paths: seq<string>)
    requires n <= |nodes|
  {
    && |ids| == n && |paths| <= n
    && (forall k: nat :: k < n ==> ids[k] < |paths| && paths[ids[k]] == Normalized(nodes[k]))
    && (forall p :: p in paths ==> NamesPath(nodes, n, p))
  }

  method AddNodes(g: DependencyGraph, nodes: seq<string>) returns (ids: seq<nat>)
    requires g.Valid() && g.paths == [] && |nodes| <= MAX_NODES
    modifies g`paths, g`pathToId
    ensures g.Valid() && IdsOf(nodes, |nodes|, ids, g.paths)
  {
    hide Normalized;
    ids := [];
    var i := 0;
    while i < |nodes|
      invariant 0 <= i <= |nodes| && g.Valid() && IdsOf(nodes, i, ids, g.paths)
    {
      ghost var before, idsBefore := g.paths, ids;
      var id := g.AddNode(nodes[i]);
      ids := ids + [id];
      IdsNext(nodes, i, idsBefore, before, id, g.paths);
      i := i + 1;
    }
  }

  lemma IdsNext(nodes: seq<string>, i: nat, ids: seq<nat>, paths: seq<string>, id: nat, paths': seq<string>)
    requires i < |nodes| && IdsOf(nodes, i, ids, paths)
    requires paths' == if Normalized(nodes[i]) in paths then paths else paths + [Normalized(nodes[i])]
    requires id < |paths'| && paths'[id] == Normalized(nodes[i])
    ensures IdsOf(nodes, i + 1, ids + [id], paths')
  {
    hide Normalized;
    forall p | p in paths'
      ensures NamesPath(nodes, i + 1, p)
    {
      assert p in paths || p == Normalized(nodes[i]);
      assert p in paths ==> NamesPath(nodes, i, p);
    }
  }

  /** One of the first `n` edges runs between these ids. */
  ghost predicate Joined(ids: seq<nat>, edges: seq<EdgeRef>, n: nat, u: nat, v: nat)
    requires EdgesInRange(edges, |ids|) && n <= |edges|
  {
    exists k: nat :: k < n && ids[edges[k].0] == u && ids[edges[k].1] == v
  }

  method AddEdges(g: DependencyGraph, ids: seq<nat>, edges: seq<EdgeRef>)
    requires g.Valid() && g.log == [] && EdgesInRange(edges, |ids|)
    requires forall k: nat :: k < |ids| ==> ids[k] < |g.paths|
    modifies g`forward, g`reverse, g`conditionalEdges, g`log
    ensures g.Valid()
    ensures forall u: nat, v: nat :: EverAdded(g.log, u, v) <==> Joined(ids, edges, |edges|, u, v)
    ensures forall k: nat :: k < |g.log| ==> !g.log[k].conditional
  {
    hide EverAdded, Joined, DependencyGraph.Valid;
    NothingJoined(ids, edges);
    var i := 0;
    while i < |edges|
      invariant 0 <= i <= |edges| && g.Valid()
      invariant forall u: nat, v: nat :: EverAdded(g.log, u, v) <==> Joined(ids, edges, i, u, v)
      invariant forall k: nat :: k < |g.log| ==> !g.log[k].conditional
    {
      ghost var before := g.log;
      var from, to := ids[edges[i].0], ids[edges[i].1];
      g.AddEdge(from, to, false);
      JoinedOneMore(before, ids, edges, i);
      i := i + 1;
    }
  }

  lemma NothingJoined(ids: seq<nat>, edges: seq<EdgeRef>)
    requires EdgesInRange(edges, |ids|)
    ensures forall u: nat, v: nat :: EverAdded([], u, v) <==> Joined(ids, edges, 0, u, v)
  {
  }

  lemma JoinedOneMore(log: seq<Added>, ids: seq<nat>, edges: seq<EdgeRef>, i: nat)
    requires EdgesInRange(edges, |ids|) && i < |edges|
    requires forall u: nat, v: nat :: EverAdded(log, u, v) <==> Joined(ids, edges, i, u, v)
    ensures var more := log + [Added(ids[edges[i].0], ids[edges[i].1], false)];
      forall u: nat, v: nat :: EverAdded(more, u, v) <==> Joined(ids, edges, i + 1, u, v)
  {
    hide EverAdded, EverUnconditional;
    var a := Added(ids[edges[i].0], ids[edges[i].1], false);
    forall u: nat, v: nat
      ensures EverAdded(log + [a], u, v) <==> Joined(ids, edges, i + 1, u, v)
    {
      LogOneMore(log, a, u, v);
    }
  }

  /** Conditional marks are not in the document: every loaded edge is unconditional. */
  method AssembleGraph(doc: Document) returns (g: DependencyGraph)
    requires |doc.nodes| <= MAX_NODES && EdgesInRange(doc.edges, |doc.nodes|)
    ensures fresh(g) && g.Valid() && IsAssembled(doc, g.View())
    ensures forall u: nat, v: nat :: u < |g.paths| && v < |g.paths| ==> !g.IsConditionalEdge(u, v)
  {
    hide Normalized;
    g := new DependencyGraph();
    var ids := AddNodes(g, doc.nodes);
    AddEdges(g, ids, doc.edges);
    forall u: nat, v: nat | u < |g.paths| && v < |g.paths|
      ensures !g.IsConditionalEdge(u, v)
    {
      if EverAdded(g.log, u, v) {
        assert EverUnconditional(g.log, u, v);
      }
    }
    ViewAssembled(doc, ids, g.View(), g.log);
  }

  lemma ViewAssembled(doc: Document, ids: seq<nat>, h: PathGraph, log: seq<Added>)
    requires EdgesInRange(doc.edges, |doc.nodes|) && IdsOf(doc.nodes, |doc.nodes|, ids, h.paths)
    requires h.Valid()
    requires forall u: nat, v: nat :: h.graph.Edge(u, v) <==> EverAdded(log, u, v)
    requires forall u: nat, v: nat :: EverAdded(log, u, v) <==> Joined(ids, doc.edges, |doc.edges|, u, v)
    ensures IsAssembled(doc, h)
  {
    hide Normalized, EverAdded;
    forall p
      ensures h.HasPath(p) <==> NamesPath(doc.nodes, |doc.nodes|, p)
    {
      if i: nat :| i < |doc.nodes| && Normalized(doc.nodes[i]) == p {
        assert h.paths[ids[i]] == p;
      }
    }
    forall p, q
      ensures h.PathEdge(p, q) <==> NamesEdge(doc, p, q)
    {
      EdgeAssembled(doc, ids, h, log, p, q);
    }
  }

  lemma EdgeAssembled(doc: Document, ids: seq<nat>, h: PathGraph, log: seq<Added>, p: string, q: string)
    requires EdgesInRange(doc.edges, |doc.nodes|) && IdsOf(doc.nodes, |doc.nodes|, ids, h.paths)
    requires h.Valid()
    requires forall u: nat, v: nat :: h.graph.Edge(u, v) <==> EverAdded(log, u, v)
    requires forall u: nat, v: nat :: EverAdded(log, u, v) <==> Joined(ids, doc.edges, |doc.edges|, u, v)
    ensures h.PathEdge(p, q) <==> NamesEdge(doc, p, q)
  {
    hide Normalized, EverAdded;
    if h.PathEdge(p, q) {
      var u: nat, v: nat :| h.graph.Edge(u, v) && u < |h.paths| && v < |h.paths| && h.paths[u] == p && h.paths[v] == q;
      assert Joined(ids, doc.edges, |doc.edges|, u, v);
      var k: nat :| k < |doc.edges| && ids[doc.edges[k].0] == u && ids[doc.edges[k].1] == v;
      assert doc.edges[k].0 < |doc.nodes|;
    }
    if NamesEdge(doc, p, q) {
      var k: nat :| k < |doc.edges| && doc.edges[k].0 < |doc.nodes| && doc.edges[k].1 < |doc.nodes|
        && Normalized(doc.nodes[doc.edges[k].0]) == p && Normalized(doc.nodes[doc.edges[k].1]) == q;
      var u, v := ids[doc.edges[k].0], ids[doc.edges[k].1];
      assert Joined(ids, doc.edges, |doc.edges|, u, v);
      assert h.graph.Edge(u, v);
    }
  }

  method LoadEdges(edges: seq<EdgeRef>, n: nat) returns (ok: bool)
    ensures ok == EdgesInRange(edges, n)
  {
    var k := 0;
    while k < |edges|
      invariant 0 <= k <= |edges| && EdgesInRange(edges[..k], n)
    {
      if edges[k].0 >= n || edges[k].1 >= n {
        return false;
      }
      assert edges[..k + 1] == edges[..k] + [edges[k]];
      k := k + 1;
    }
    assert edges[..k] == edges;
    return true;
  }

  /** An empty graph and the problem, or the graph of the document. */
  method LoadBaseline(f: Fields) returns (problem: Option<Problem>, g: DependencyGraph)
    requires f.nodes.Some? ==> |f.nodes.value| <= MAX_NODES
    ensures problem == ProblemOf(f) && fresh(g) && g.Valid()
    ensures problem == None ==> IsAssembled(Document(f.nodes.value, f.edges.value), g.View())
    ensures problem != None ==> g.paths == [] && g.log == []
  {
    if f.version.None? {
      g := new DependencyGraph();
      return Some(MissingField), g;
    }
    if f.version.value != FORMAT_VERSION {
      g := new DependencyGraph();
      return Some(UnknownVersion), g;
    }
    if f.nodes.None? || f.edges.None? {
      g := new DependencyGraph();
      return Some(MissingField), g;
    }
    var ok := LoadEdges(f.edges.value, |f.nodes.value|);
    if !ok {
      g := new DependencyGraph();
      return Some(MalformedSchema), g;
    }
    g := AssembleGraph(Document(f.nodes.value, f.edges.value));
    problem := None;
  }

  // ---------------------------------------------------------------- the round trip

  ghost predicate NormalPaths(g: PathGraph) {
    forall p :: g.HasPath(p) ==> IsNormal(p)
  }

  /** Exactly the files of version 1 load whose edges join listed nodes; the version is judged
      before the lists, and the lists before their contents. */
  lemma LoadsIff(f: Fields)
    ensures ProblemOf(f) == None <==>
      && f.version == Some("1") && f.nodes.Some? && f.edges.Some?
      && forall e :: e in f.edges.value ==> e.0 < |f.nodes.value| && e.1 < |f.nodes.value|
    ensures ProblemOf(f) == Some(UnknownVersion) <==> f.version.Some? && f.version.value != "1"
    ensures ProblemOf(f) == Some(MissingField)
       <==> f.version.None? || (f.version == Some("1") && (f.nodes.None? || f.edges.None?))
  {
    if f.nodes.Some? && f.edges.Some? {
      assert EdgesInRange(f.edges.value, |f.nodes.value|)
        <==> forall e :: e in f.edges.value ==> e.0 < |f.nodes.value| && e.1 < |f.nodes.value|;
    }
  }

  /** A saved document always loads. */
  lemma SavedLoads(g: PathGraph, doc: Document)
    requires g.Valid() && IsDocument(g, doc)
    ensures ProblemOf(Fielded(doc)) == None
  {
    hide StringLess, EdgeLess;
    forall k: nat | k < |doc.edges|
      ensures doc.edges[k].0 < |doc.nodes| && doc.edges[k].1 < |doc.nodes|
    {
      assert doc.edges[k] in doc.edges;
      assert Connects(g, doc.nodes, doc.edges[k]);
    }
  }

  /** What loads from the document of a graph has the graph's paths and path edges. */
  lemma ReloadKeepsGraph(g: PathGraph, doc: Document, h: PathGraph)
    requires g.Valid() && NormalPaths(g) && IsDocument(g, doc) && h.Valid() && IsAssembled(doc, h)
    ensures SamePaths(g, h) && SamePathEdges(g, h)
  {
    hide StringLess, EdgeLess, Normalized;
    NodesStayNormal(g, doc);
    forall p
      ensures g.HasPath(p) <==> h.HasPath(p)
    {
      assert g.HasPath(p) <==> p in doc.nodes;
    }
    forall p, q
      ensures g.PathEdge(p, q) <==> h.PathEdge(p, q)
    {
      EdgeInDocument(g, doc, p, q);
      EdgeNamed(doc, p, q);
    }
  }

  lemma NodesStayNormal(g: PathGraph, doc: Document)
    requires g.Valid() && NormalPaths(g) && IsDocument(g, doc)
    ensures forall i: nat :: i < |doc.nodes| ==> Normalized(doc.nodes[i]) == doc.nodes[i]
  {
    hide StringLess, EdgeLess, Normalized;
    forall i: nat | i < |doc.nodes|
      ensures Normalized(doc.nodes[i]) == doc.nodes[i]
    {
      assert doc.nodes[i] in doc.nodes;
      assert g.HasPath(doc.nodes[i]);
      NormalForms(doc.nodes[i]);
    }
  }

  lemma EdgeNamed(doc: Document, p: string, q: string)
    requires forall i: nat :: i < |doc.nodes| ==> Normalized(doc.nodes[i]) == doc.nodes[i]
    ensures NamesEdge(doc, p, q)
       <==> exists e :: e in doc.edges && e.0 < |doc.nodes| && e.1 < |doc.nodes|
                        && doc.nodes[e.0] == p && doc.nodes[e.1] == q
  {
    hide Normalized;
    if e :| e in doc.edges && e.0 < |doc.nodes| && e.1 < |doc.nodes| && doc.nodes[e.0] == p && doc.nodes[e.1] == q {
      var k: nat :| k < |doc.edges| && doc.edges[k] == e;
    }
  }

  /** Saving what was loaded from a saved graph gives the same document again. */
  lemma SaveLoadSave(g: PathGraph, doc: Document, h: PathGraph, again: Document)
    requires g.Valid() && NormalPaths(g) && IsDocument(g, doc)
    requires h.Valid() && IsAssembled(doc, h) && IsDocument(h, again)
    ensures again == doc
  {
    hide IsDocument, IsAssembled, SamePaths, SamePathEdges;
    ReloadKeepsGraph(g, doc, h);
    SameDocumentIff(g, h, doc, again);
  }

  /** The whole cycle on a live graph. */
  method SaveAndReload(g: DependencyGraph) returns (doc: Document, problem: Option<Problem>, h: DependencyGraph)
    requires g.Valid()
    ensures fresh(h) && h.Valid() && problem == None
    ensures IsDocument(g.View(), doc)
    ensures SamePaths(g.View(), h.View()) && SamePathEdges(g.View(), h.View())
  {
    hide IsAssembled, IsDocument, SamePaths, SamePathEdges, ProblemOf;
    doc := SaveBaseline(g.View());
    NodesFit(g.View(), doc);
    SavedLoads(g.View(), doc);
    problem, h := LoadBaseline(Fielded(doc));
    ReloadKeepsGraph(g.View(), doc, h.View());
  }

  lemma NodesFit(g: PathGraph, doc: Document)
    requires g.Valid() && IsDocument(g, doc)
    ensures |doc.nodes| <= MAX_NODES
  {
    hide StringLess, EdgeLess;
    StringLessOrder();
    PathsRise(g);
    RisesUnique(StringLess, doc.nodes, SortBy(StringLess, g.paths));
  }
}
