/** The include graph that the scanner fills: normalised paths as nodes, mirrored
    forward and reverse adjacency lists, and a mark on the conditional edges. */
module IncludeGraph {
  import opened Digraphs

  // -------------------------------------------------------------- path spelling

  function Slashes(p: string): (r: string)
    ensures |r| == |p|
    ensures forall i: nat :: i < |p| ==> r[i] == if p[i] == '\\' then '/' else p[i]
  {
    if p == "" then "" else [if p[0] == '\\' then '/' else p[0]] + Slashes(p[1..])
  }

  predicate DotSlash(s: string) {
    |s| >= 2 && s[0] == '.' && s[1] == '/'
  }

  function StripDots(s: string): string {
    if DotSlash(s) then StripDots(s[2..]) else s
  }

  function Normalized(p: string): string {
    StripDots(Slashes(p))
  }

  /** A path in normal form has no backslash and no leading "./". */
  predicate IsNormal(p: string) {
    !DotSlash(p) && forall i: nat :: i < |p| ==> p[i] != '\\'
  }

  lemma {:induction false} StripKeepsSlashes(s: string)
    requires forall i: nat :: i < |s| ==> s[i] != '\\'
    ensures IsNormal(StripDots(s))
  {
    if DotSlash(s) {
      assert forall i: nat :: i < |s[2..]| ==> s[2..][i] == s[i + 2];
      StripKeepsSlashes(s[2..]);
    }
  }

  /** Normalising gives a normal form, and leaves exactly the normal forms alone. */
  lemma NormalForms(p: string)
    ensures IsNormal(Normalized(p))
    ensures Normalized(p) == p <==> IsNormal(p)
    ensures Normalized(Normalized(p)) == Normalized(p)
  {
    StripKeepsSlashes(Slashes(p));
    NormalFixed(Normalized(p));
    if IsNormal(p) {
      NormalFixed(p);
    }
  }

  lemma NormalFixed(p: string)
    requires IsNormal(p)
    ensures Normalized(p) == p
  {
    assert Slashes(p) == p;
  }

  method NormalizePath(path: string) returns (r: string)
    ensures r == Normalized(path) && IsNormal(r)
  {
    var s := "";
    var k := 0;
    while k < |path|
      invariant k <= |path| && s == Slashes(path)[..k]
    {
      s := s + [if path[k] == '\\' then '/' else path[k]];
      k := k + 1;
    }
    var i := 0;
    while i + 1 < |s| && s[i] == '.' && s[i + 1] == '/'
      invariant i <= |s| && s == Slashes(path)
      invariant StripDots(s[i..]) == StripDots(s)
      decreases |s| - i
    {
      assert s[i..][2..] == s[i + 2..];
      i := i + 2;
    }
    r := s[i..];
    NormalForms(path);
  }

  // ------------------------------------------------------------------ edge keys

  const TWO32: nat := 0x1_0000_0000

  function EdgeKey(from: nat, to: nat): nat {
    from * TWO32 + to
  }

  /** The 64-bit key of an edge determines the edge. */
  lemma EdgeKeyInjective(a: nat, b: nat, c: nat, d: nat)
    requires a < 0x1_0000_0000 && b < 0x1_0000_0000 && c < 0x1_0000_0000 && d < 0x1_0000_0000
    requires EdgeKey(a, b) == EdgeKey(c, d)
    ensures a == c && b == d
  {
    assert (a - c) * TWO32 == d - b;
    if a > c {
      AtLeastOnce(a - c);
    } else if a < c {
      AtLeastOnce(c - a);
    }
  }

  lemma AtLeastOnce(x: int)
    requires x > 0
    ensures x * TWO32 >= TWO32
  {
  }

  // ------------------------------------------------------------- values and views

  /** The value of an include graph: paths, adjacency, conditional edges. */
  datatype PathGraph = PathGraph(paths: seq<string>, graph: Digraph, conditional: set<(nat, nat)>) {
    ghost predicate Valid() {
      && graph.Valid()
      && |paths| == |graph.succ|
      && DistinctPaths(paths)
      && (forall v: nat :: graph.Node(v) ==> NoRepeats(graph.succ[v]))
    }

    function Count(): nat {
      |paths|
    }

    /** The path of a node (empty outside the graph, which callers exclude). */
    function PathOf(v: nat): string {
      if v < |paths| then paths[v] else ""
    }

    ghost predicate HasPath(p: string) {
      p in paths
    }

    /** There is an edge between the nodes with these two paths. */
    ghost predicate PathEdge(p: string, q: string) {
      exists i: nat, j: nat :: graph.Edge(i, j) && i < |paths| && j < |paths| && paths[i] == p && paths[j] == q
    }
  }

  /** Two graphs over the same files. */
  ghost predicate SamePaths(a: PathGraph, b: PathGraph) {
    forall p :: a.HasPath(p) <==> b.HasPath(p)
  }

  ghost predicate DistinctPaths(paths: seq<string>) {
    forall i: nat, j: nat :: i < j < |paths| ==> paths[i] != paths[j]
  }

  ghost predicate NoRepeats(s: seq<nat>) {
    forall i: nat, j: nat :: i < j < |s| ==> s[i] != s[j]
  }

  /** One call of AddEdge. */
  datatype Added = Added(from: nat, to: nat, conditional: bool)

  ghost predicate EverAdded(log: seq<Added>, from: nat, to: nat) {
    exists i: nat :: i < |log| && log[i].from == from && log[i].to == to
  }

  ghost predicate EverUnconditional(log: seq<Added>, from: nat, to: nat) {
    exists i: nat :: i < |log| && log[i].from == from && log[i].to == to && !log[i].conditional
  }

  lemma LogOneMore(log: seq<Added>, a: Added, from: nat, to: nat)
    ensures EverAdded(log + [a], from, to) <==> EverAdded(log, from, to) || (a.from == from && a.to == to)
    ensures EverUnconditional(log + [a], from, to)
       <==> EverUnconditional(log, from, to) || (a.from == from && a.to == to && !a.conditional)
  {
    var l := log + [a];
    if EverAdded(log, from, to) {
      var i: nat :| i < |log| && log[i].from == from && log[i].to == to;
      assert l[i] == log[i];
    }
    if EverUnconditional(log, from, to) {
      var i: nat :| i < |log| && log[i].from == from && log[i].to == to && !log[i].conditional;
      assert l[i] == log[i];
    }
    assert l[|log|] == a;
  }

  class DependencyGraph {
    var paths: seq<string>
    var pathToId: map<string, nat>
    var forward: map<nat, seq<nat>>
    var reverse: map<nat, seq<nat>>
    var conditionalEdges: set<nat>
    ghost var log: seq<Added>  // every AddEdge call so far

    ghost predicate Valid()
      reads this
    {
      && |paths| <= MAX_NODES
      && DistinctPaths(paths)
      && (forall i: nat :: i < |paths| ==> IsNormal(paths[i]) && paths[i] in pathToId && pathToId[paths[i]] == i)
      && (forall p :: p in pathToId ==> pathToId[p] < |paths| && paths[pathToId[p]] == p)
      && ListsOk(forward, |paths|) && ListsOk(reverse, |paths|)
      && Mirrors(forward, reverse, log)
      && KeysOk(conditionalEdges, log, |paths|)
    }

    constructor ()
      ensures Valid() && paths == [] && log == []
    {
      paths, pathToId, forward, reverse, conditionalEdges := [], map[], map[], map[], {};
      log := [];
    }

    function Successors(v: nat): seq<nat>
      reads this
    {
      Neighbors(forward, v)
    }

    function HasEdge(from: nat, to: nat): bool
      reads this
    {
      to in Neighbors(forward, from)
    }

    function IsConditionalEdge(from: nat, to: nat): bool
      reads this
    {
      EdgeKey(from, to) in conditionalEdges
    }

    /** The node of a path, new if the normalised path is new. */
    method AddNode(path: string) returns (id: nat)
      requires Valid() && |paths| < MAX_NODES
      modifies this`paths, this`pathToId
      ensures Valid()
      ensures id < |paths| && paths[id] == Normalized(path)
      ensures paths == if Normalized(path) in old(paths) then old(paths) else old(paths) + [Normalized(path)]
    {
      var normalized := NormalizePath(path);
      if normalized in pathToId {
        return pathToId[normalized];
      }
      id := |paths|;
      paths := paths + [normalized];
      pathToId := pathToId[normalized := id];
    }

    method AddEdge(from: nat, to: nat, conditional: bool)
      requires Valid() && from < |paths| && to < |paths|
      modifies this`forward, this`reverse, this`conditionalEdges, this`log
      ensures Valid()
      ensures log == old(log) + [Added(from, to, conditional)]
      ensures forall v: nat :: v != from ==> Successors(v) == old(Successors(v))
      ensures Successors(from)
           == (if to in old(Successors(from)) then old(Successors(from)) else old(Successors(from)) + [to])
      ensures forall u: nat, v: nat :: u < |paths| && v < |paths| && (u, v) != (from, to) ==>
        IsConditionalEdge(u, v) == old(IsConditionalEdge(u, v))
      ensures IsConditionalEdge(from, to)
           == (conditional && (old(HasEdge(from, to)) ==> old(IsConditionalEdge(from, to))))
    {
      hide ListsOk, KeysOk, EverAdded, EverUnconditional;
      ghost var log0, keys0, fwd0, rev0 := log, conditionalEdges, forward, reverse;
      ghost var a := Added(from, to, conditional);
      log := log + [a];
      var fwd := Neighbors(forward, from);
      if to in fwd {
        if !conditional {
          conditionalEdges := conditionalEdges - {EdgeKey(from, to)};
        }
      } else {
        forward := Extended(forward, from, to);
        reverse := Extended(reverse, to, from);
        if conditional {
          conditionalEdges := conditionalEdges + {EdgeKey(from, to)};
        }
      }
      ListsStep(fwd0, rev0, log0, a, |paths|);
      KeysStep(keys0, conditionalEdges, log0, a, |paths|);
    }

    /** The value the algorithms work on. */
    function View(): (g: PathGraph)
      reads this
      requires Valid()
      ensures g.Valid()
      ensures g.paths == paths
      ensures forall u: nat, v: nat :: g.graph.Edge(u, v) <==> HasEdge(u, v)
      ensures forall u: nat, v: nat ::
        (u, v) in g.conditional <==> u < |paths| && v < |paths| && IsConditionalEdge(u, v)
    {
      var g := PathGraph(
        paths,
        Digraph(seq(|paths|, v requires 0 <= v < |paths| reads this => Neighbors(forward, v))),
        set u: nat, v: nat | u < |paths| && v < |paths| && EdgeKey(u, v) in conditionalEdges :: (u, v));
      g
    }
  }

  function Neighbors(lists: map<nat, seq<nat>>, v: nat): seq<nat> {
    if v in lists then lists[v] else []
  }

  /** Lists hang on nodes, name nodes, and name none twice. */
  ghost predicate ListsOk(lists: map<nat, seq<nat>>, n: nat) {
    forall v: nat :: v in lists ==> v < n && NoRepeats(lists[v]) && forall i: nat :: i < |lists[v]| ==> lists[v][i] < n
  }

  /** An edge is marked conditional iff it was added and every time as conditional. */
  ghost predicate KeysOk(keys: set<nat>, log: seq<Added>, n: nat) {
    && (forall u: nat, v: nat :: EverAdded(log, u, v) ==> u < n && v < n)
    && (forall u: nat, v: nat :: u < TWO32 && v < TWO32 ==>
          (EdgeKey(u, v) in keys <==> EverAdded(log, u, v) && !EverUnconditional(log, u, v)))
  }

  /** Both families of lists say which edges were added. */
  ghost predicate Mirrors(forward: map<nat, seq<nat>>, reverse: map<nat, seq<nat>>, log: seq<Added>) {
    && (forall u: nat, v: nat :: v in Neighbors(forward, u) <==> EverAdded(log, u, v))
    && (forall u: nat, v: nat :: u in Neighbors(reverse, v) <==> EverAdded(log, u, v))
  }

  function Extended(lists: map<nat, seq<nat>>, v: nat, x: nat): map<nat, seq<nat>> {
    lists[v := Neighbors(lists, v) + [x]]
  }

  lemma ExtendedOk(lists: map<nat, seq<nat>>, v: nat, x: nat, n: nat)
    requires ListsOk(lists, n) && v < n && x < n && x !in Neighbors(lists, v)
    ensures ListsOk(Extended(lists, v, x), n)
    ensures forall u: nat :: u != v ==> Neighbors(Extended(lists, v, x), u) == Neighbors(lists, u)
    ensures Neighbors(Extended(lists, v, x), v) == Neighbors(lists, v) + [x]
  {
  }

  lemma ListsStep(forward: map<nat, seq<nat>>, reverse: map<nat, seq<nat>>, log: seq<Added>, a: Added, n: nat)
    requires ListsOk(forward, n) && ListsOk(reverse, n) && Mirrors(forward, reverse, log)
    requires a.from < n && a.to < n
    ensures a.to in Neighbors(forward, a.from) ==> Mirrors(forward, reverse, log + [a])
    ensures a.to !in Neighbors(forward, a.from) ==>
      && ListsOk(Extended(forward, a.from, a.to), n) && ListsOk(Extended(reverse, a.to, a.from), n)
      && Mirrors(Extended(forward, a.from, a.to), Extended(reverse, a.to, a.from), log + [a])
      && (forall u: nat :: u != a.from ==> Neighbors(Extended(forward, a.from, a.to), u) == Neighbors(forward, u))
      && Neighbors(Extended(forward, a.from, a.to), a.from) == Neighbors(forward, a.from) + [a.to]
  {
    hide EverAdded, EverUnconditional, ListsOk;
    forall u: nat, v: nat
      ensures EverAdded(log + [a], u, v) <==> EverAdded(log, u, v) || (u == a.from && v == a.to)
    {
      LogOneMore(log, a, u, v);
    }
    if a.to !in Neighbors(forward, a.from) {
      assert EverAdded(log, a.from, a.to) <==> a.to in Neighbors(forward, a.from);
      assert EverAdded(log, a.from, a.to) <==> a.from in Neighbors(reverse, a.to);
      ExtendedOk(forward, a.from, a.to, n);
      ExtendedOk(reverse, a.to, a.from, n);
    }
  }

  lemma KeysStep(keys: set<nat>, keys': set<nat>, log: seq<Added>, a: Added, n: nat)
    requires KeysOk(keys, log, n) && n <= MAX_NODES && a.from < n && a.to < n
    requires keys' == (
      if EverAdded(log, a.from, a.to) then if a.conditional then keys else keys - {EdgeKey(a.from, a.to)}
      else if a.conditional then keys + {EdgeKey(a.from, a.to)} else keys)
    ensures KeysOk(keys', log + [a], n)
    ensures forall u: nat, v: nat :: u < n && v < n && (u, v) != (a.from, a.to) ==>
      (EdgeKey(u, v) in keys' <==> EdgeKey(u, v) in keys)
    ensures EdgeKey(a.from, a.to) in keys'
       <==> a.conditional && (EverAdded(log, a.from, a.to) ==> EdgeKey(a.from, a.to) in keys)
  {
    forall u: nat, v: nat
      ensures EverAdded(log + [a], u, v) ==> u < n && v < n
      ensures u < TWO32 && v < TWO32 ==>
        (EdgeKey(u, v) in keys' <==> EverAdded(log + [a], u, v) && !EverUnconditional(log + [a], u, v))
      ensures u < TWO32 && v < TWO32 && (u, v) != (a.from, a.to) ==> (EdgeKey(u, v) in keys' <==> EdgeKey(u, v) in keys)
    {
      LogOneMore(log, a, u, v);
      if u < TWO32 && v < TWO32 && EdgeKey(u, v) == EdgeKey(a.from, a.to) {
        EdgeKeyInjective(u, v, a.from, a.to);
      }
      if EverUnconditional(log, u, v) {
        assert EverAdded(log, u, v);
      }
    }
  }
}
