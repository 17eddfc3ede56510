/** When an edit that only removes edges can lengthen the longest chain: exactly when the
    baseline has a path through distinct files that is longer than its longest chain. */
module ChainLengths {
  import opened Digraphs
  import opened IncludeGraph
  import opened IncludeDepths
  import opened PathCorrespondence
  import opened GraphMetrics
  import opened ShrinkingEdits

  /** A path through distinct files. */
  ghost predicate SimplePath(g: Digraph, p: seq<nat>) {
    && IsPath(g, p)
    && (forall i: nat :: i < |p| ==> g.Node(p[i]))
    && NoRepeats(p)
  }

  /** The metric: steps of the longest descending chain, 0 without files. */
  ghost predicate LongestChain(g: Digraph, d: nat) {
    if g.succ == [] then d == 0 else IsMaxDepth(g, d)
  }

  // ------------------------------------------------------------------------ chains

  lemma DeepEnough(g: Digraph, chain: seq<nat>, b: nat)
    requires g.Valid() && Descending(g, chain) && IsMaxDepth(g, b)
    ensures |chain| <= b + 1
  {
    hide Reaches;
    var u := chain[0];
    assert g.Node(u);
    assert DescendingFrom(g, chain, u);
    var d := DepthExists(g, u);
  }

  /** Every node has an include depth. */
  lemma DepthExists(g: Digraph, v: nat) returns (d: nat)
    requires g.Valid() && g.Node(v)
    ensures IsIncludeDepth(g, v, d)
  {
    d := Deepest(g, v, |g.succ|);
  }

  /** Search downwards for the longest chain length that occurs. */
  lemma {:induction false} Deepest(g: Digraph, v: nat, bound: nat) returns (d: nat)
    requires g.Valid() && g.Node(v)
    requires forall c :: DescendingFrom(g, c, v) ==> |c| <= bound + 1 || |c| > |g.succ|
    ensures IsIncludeDepth(g, v, d)
  {
    hide Descending;
    forall c | DescendingFrom(g, c, v)
      ensures |c| <= |g.succ|
    {
      ChainIsShort(g, c);
    }
    if exists c :: DescendingFrom(g, c, v) && |c| == bound + 1 {
      d := bound;
    } else {
      SingleChain(g, v);
      d := Deepest(g, v, bound - 1);
    }
  }

  lemma SingleChain(g: Digraph, v: nat)
    requires g.Node(v)
    ensures DescendingFrom(g, [v], v)
  {
  }

  lemma {:induction false} ChainReaches(g: Digraph, c: seq<nat>, i: nat, j: nat)
    requires Descending(g, c) && i < j < |c|
    ensures Reaches(g, c[i], c[j]) && !Reaches(g, c[j], c[i])
  {
    hide Reaches;
    assert Below(g, c[j - 1], c[j]);
    if i + 1 < j {
      ChainReaches(g, c, i, j - 1);
      ReachesTrans(g, c[i], c[j - 1], c[j]);
      if Reaches(g, c[j], c[i]) {
        ReachesTrans(g, c[j], c[i], c[j - 1]);
      }
    }
  }

  /** A descending chain never repeats a node. */
  lemma ChainIsShort(g: Digraph, c: seq<nat>)
    requires Descending(g, c)
    ensures |c| <= |g.succ|
  {
    hide Reaches, Below;
    forall i: nat, j: nat | i < j < |c|
      ensures c[i] != c[j]
    {
      ChainReaches(g, c, i, j);
      ReachesSelf(g, c[i]);
    }
    var s := Indices(|c|);
    var t := set v: nat | v < |g.succ| && g.Node(v);
    CountNodes(g, |g.succ|);
    assert forall i: nat :: i < |c| ==> g.Node(c[i]);
    InjectionSize(s, t, (i: nat) => if i < |c| then c[i] else 0);
  }

  function Indices(n: nat): (s: set<nat>)
    ensures |s| == n && forall i: nat :: i in s <==> i < n
  {
    if n == 0 then {} else Indices(n - 1) + {n - 1}
  }

  lemma {:induction false} DeepestBelow(g: Digraph, n: nat) returns (v: nat, d: nat)
    requires g.Valid() && 0 < n <= |g.succ|
    ensures v < n && IsIncludeDepth(g, v, d)
    ensures forall u: nat, e: nat :: u < n && IsIncludeDepth(g, u, e) ==> e <= d
  {
    hide IsIncludeDepth;
    var last: nat := n - 1;
    var e := DepthExists(g, last);
    v, d := last, e;
    if n > 1 {
      var w, f := DeepestBelow(g, n - 1);
      if f > e {
        v, d := w, f;
      }
    }
    forall k: nat | IsIncludeDepth(g, last, k)
      ensures k == e
    {
      IncludeDepthUnique(g, last, k, e);
    }
  }

  lemma LongestChainExists(g: Digraph) returns (d: nat)
    requires g.Valid()
    ensures LongestChain(g, d)
  {
    hide IsIncludeDepth;
    d := 0;
    if g.succ != [] {
      var v;
      v, d := DeepestBelow(g, |g.succ|);
      assert g.Node(v);
    }
  }

  lemma ChainIsWithin(g: Digraph, chain: seq<nat>, d: nat)
    requires g.Valid() && Descending(g, chain) && LongestChain(g, d)
    ensures |chain| <= d + 1
  {
    hide IsMaxDepth, Below;
    assert g.Node(chain[0]);
    DeepEnough(g, chain, d);
  }

  // ------------------------------------------------- from a chain to a simple path

  /** The path comes through the component of every link of the chain. */
  ghost predicate Meets(g: Digraph, c: seq<nat>, p: seq<nat>) {
    forall i: nat :: i < |c| ==> MeetsAt(g, c[i], p)
  }

  ghost predicate MeetsAt(g: Digraph, v: nat, p: seq<nat>) {
    exists t: nat :: t < |p| && Mutual(g, v, p[t])
  }

  lemma JoinPaths(g: Digraph, p: seq<nat>, q: seq<nat>)
    requires IsPath(g, p) && IsPath(g, q) && p[|p| - 1] == q[0]
    ensures IsPath(g, p + q[1..]) && (p + q[1..])[|p + q[1..]| - 1] == q[|q| - 1]
  {
    var r := p + q[1..];
    forall i | 0 <= i < |r| - 1
      ensures g.Edge(r[i], r[i + 1])
    {
      if i >= |p| - 1 {
        assert r[i] == q[i - (|p| - 1)] && r[i + 1] == q[i + 1 - (|p| - 1)];
      }
    }
  }

  lemma MeetsMore(g: Digraph, v: nat, p: seq<nat>, q: seq<nat>)
    requires MeetsAt(g, v, p)
    ensures MeetsAt(g, v, p + q)
  {
    var t: nat :| t < |p| && Mutual(g, v, p[t]);
    assert (p + q)[t] == p[t];
  }

  lemma EndMeets(g: Digraph, p: seq<nat>)
    requires |p| > 0
    ensures MeetsAt(g, p[|p| - 1], p)
  {
    ReachesSelf(g, p[|p| - 1]);
  }

  /** A walk along the whole chain. */
  lemma {:induction false} WalkAlong(g: Digraph, c: seq<nat>, n: nat) returns (p: seq<nat>)
    requires Descending(g, c) && 0 < n <= |c|
    ensures IsPath(g, p) && p[|p| - 1] == c[n - 1] && Meets(g, c[..n], p)
  {
    hide MeetsAt, Mutual;
    if n == 1 {
      p := [c[0]];
      EndMeets(g, p);
    } else {
      var w := WalkAlong(g, c, n - 1);
      assert Below(g, c[n - 2], c[n - 1]);
      var q :| Joins(g, q, c[n - 2], c[n - 1]);
      JoinPaths(g, w, q);
      p := w + q[1..];
      EndMeets(g, p);
      forall i: nat | i < n
        ensures MeetsAt(g, c[..n][i], p)
      {
        if i < n - 1 {
          assert c[..n][i] == c[..n - 1][i];
          MeetsMore(g, c[i], w, q[1..]);
        }
      }
    }
  }

  lemma SubPath(g: Digraph, p: seq<nat>, a: nat, b: nat)
    requires IsPath(g, p) && a < b <= |p|
    ensures Joins(g, p[a..b], p[a], p[b - 1])
  {
    var q := p[a..b];
    forall i | 0 <= i < |q| - 1
      ensures g.Edge(q[i], q[i + 1])
    {
      assert q[i] == p[a + i] && q[i + 1] == p[a + i + 1];
    }
  }

  /** What a loop of the path passes is mutual with where the loop closes. */
  lemma LoopIsMutual(g: Digraph, p: seq<nat>, a: nat, b: nat, t: nat)
    requires IsPath(g, p) && a <= t <= b < |p| && p[a] == p[b]
    ensures Mutual(g, p[t], p[a])
  {
    SubPath(g, p, a, t + 1);
    SubPath(g, p, t, b + 1);
  }

  lemma MutualTrans(g: Digraph, u: nat, v: nat, w: nat)
    requires Mutual(g, u, v) && Mutual(g, v, w)
    ensures Mutual(g, u, w)
  {
    hide Reaches;
    ReachesTrans(g, u, v, w);
    ReachesTrans(g, w, v, u);
  }

  /** Without its loop the path still meets whatever it met. */
  lemma CutLoopMeets(g: Digraph, p: seq<nat>, a: nat, b: nat, v: nat)
    requires IsPath(g, p) && a < b < |p| && p[a] == p[b] && MeetsAt(g, v, p)
    ensures MeetsAt(g, v, p[..a] + p[b..])
  {
    hide Mutual;
    var q := p[..a] + p[b..];
    var t: nat :| t < |p| && Mutual(g, v, p[t]);
    if t < a {
      assert q[t] == p[t];
    } else if t < b {
      LoopIsMutual(g, p, a, b, t);
      MutualTrans(g, v, p[t], p[a]);
      assert q[a] == p[b];
    } else {
      assert q[a + (t - b)] == p[t];
    }
  }

  lemma CutLoopIsPath(g: Digraph, p: seq<nat>, a: nat, b: nat)
    requires IsPath(g, p) && a < b < |p| && p[a] == p[b]
    ensures IsPath(g, p[..a] + p[b..])
  {
    var q := p[..a] + p[b..];
    forall i | 0 <= i < |q| - 1
      ensures g.Edge(q[i], q[i + 1])
    {
      if i + 1 < a {
        assert q[i] == p[i] && q[i + 1] == p[i + 1];
      } else if i + 1 == a {
        assert q[i] == p[i] && q[i + 1] == p[b];
        assert g.Edge(p[i], p[i + 1]);
      } else {
        assert q[i] == p[i - a + b] && q[i + 1] == p[i + 1 - a + b];
      }
    }
  }

  /** Loops can be cut out until none is left. */
  lemma {:induction false} EraseLoops(g: Digraph, c: seq<nat>, p: seq<nat>) returns (q: seq<nat>)
    requires IsPath(g, p) && Meets(g, c, p)
    ensures IsPath(g, q) && NoRepeats(q) && Meets(g, c, q)
    decreases |p|
  {
    hide IsPath, MeetsAt;
    if NoRepeats(p) {
      q := p;
    } else {
      var a: nat, b: nat :| a < b < |p| && p[a] == p[b];
      CutLoopIsPath(g, p, a, b);
      forall i: nat | i < |c|
        ensures MeetsAt(g, c[i], p[..a] + p[b..])
      {
        CutLoopMeets(g, p, a, b, c[i]);
      }
      q := EraseLoops(g, c, p[..a] + p[b..]);
    }
  }

  /** Where the path meets a link of the chain. */
  ghost function MeetingPlace(g: Digraph, c: seq<nat>, p: seq<nat>, i: nat): nat
    requires Meets(g, c, p)
  {
    if i < |c| then
      assert MeetsAt(g, c[i], p);
      var t: nat :| t < |p| && Mutual(g, c[i], p[t]); t
    else 0
  }

  lemma MeetingPlaceIs(g: Digraph, c: seq<nat>, p: seq<nat>, i: nat)
    requires Meets(g, c, p) && i < |c|
    ensures MeetingPlace(g, c, p, i) < |p| && Mutual(g, c[i], p[MeetingPlace(g, c, p, i)])
  {
  }

  lemma MeetingPlacesDiffer(g: Digraph, c: seq<nat>, p: seq<nat>, i: nat, j: nat)
    requires Descending(g, c) && Meets(g, c, p) && i < j < |c|
    ensures MeetingPlace(g, c, p, i) != MeetingPlace(g, c, p, j)
  {
    hide MeetingPlace, Reaches, Descending;
    MeetingPlaceIs(g, c, p, i);
    MeetingPlaceIs(g, c, p, j);
    ChainReaches(g, c, i, j);
    if MeetingPlace(g, c, p, i) == MeetingPlace(g, c, p, j) {
      var x := p[MeetingPlace(g, c, p, i)];
      ReachesTrans(g, c[j], x, c[i]);
    }
  }

  /** A path that meets a chain is at least as long. */
  lemma MeetingIsLong(g: Digraph, c: seq<nat>, p: seq<nat>)
    requires Descending(g, c) && Meets(g, c, p)
    ensures |c| <= |p|
  {
    hide MeetingPlace, Descending, Meets;
    var f := (i: nat) => if i < |c| then MeetingPlace(g, c, p, i) else 0;
    forall i | i in Indices(|c|)
      ensures f(i) in Indices(|p|)
    {
      MeetingPlaceIs(g, c, p, i);
    }
    forall i, j | i in Indices(|c|) && j in Indices(|c|) && f(i) == f(j)
      ensures i == j
    {
      if i < j {
        MeetingPlacesDiffer(g, c, p, i, j);
      } else if j < i {
        MeetingPlacesDiffer(g, c, p, j, i);
      }
    }
    InjectionSize(Indices(|c|), Indices(|p|), f);
  }

  lemma {:induction false} PathNodes(g: Digraph, p: seq<nat>)
    requires g.Valid() && IsPath(g, p) && |p| > 1
    ensures forall i: nat :: i < |p| ==> g.Node(p[i])
  {
    forall i: nat | i < |p|
      ensures g.Node(p[i])
    {
      if i + 1 < |p| {
        assert g.Edge(p[i], p[i + 1]);
      } else {
        var h := i - 1;
        assert g.Edge(p[h], p[h + 1]);
      }
    }
  }

  /** For every descending chain there is a simple path at least as long. */
  lemma ChainGivesSimplePath(g: Digraph, c: seq<nat>) returns (p: seq<nat>)
    requires g.Valid() && Descending(g, c)
    ensures SimplePath(g, p) && |p| >= |c|
  {
    hide Meets, Reaches, IsPath;
    if |c| == 1 {
      p := [c[0]];
      OneIsPath(g, c[0]);
    } else {
      var w := WalkAlong(g, c, |c|);
      assert c[..|c|] == c;
      p := EraseLoops(g, c, w);
      MeetingIsLong(g, c, p);
      PathNodes(g, p);
    }
  }

  lemma OneIsPath(g: Digraph, v: nat)
    ensures IsPath(g, [v])
  {
  }

  lemma SimplePathAcross(small: PathGraph, large: PathGraph, p: seq<nat>) returns (q: seq<nat>)
    requires small.Valid() && large.Valid() && Grows(small, large) && SimplePath(small.graph, p)
    ensures SimplePath(large.graph, q) && |q| == |p|
  {
    hide Across, Grows;
    q := seq(|p|, i requires 0 <= i < |p| => Across(small, large, p[i]));
    forall i: nat | i < |q|
      ensures large.graph.Node(q[i])
    {
      AcrossAt(small, large, p[i]);
    }
    forall i | 0 <= i < |q| - 1
      ensures large.graph.Edge(q[i], q[i + 1])
    {
      assert small.graph.Edge(p[i], p[i + 1]);
      AcrossEdge(small, large, p[i], p[i + 1]);
    }
    forall i: nat, j: nat | i < j < |q|
      ensures q[i] != q[j]
    {
      if q[i] == q[j] {
        AcrossInjective(small, large, p[i], p[j]);
      }
    }
  }

  ghost predicate SimplePathsWithin(g: Digraph, d: nat) {
    forall p :: SimplePath(g, p) ==> |p| <= d + 1
  }

  /** If no simple path of the baseline is longer than its longest chain, removing edges or
      files cannot lengthen the chain. */
  lemma ChainCannotGrow(baseline: PathGraph, current: PathGraph, b: nat, c: nat)
    requires baseline.Valid() && current.Valid() && Grows(current, baseline)
    requires SimplePathsWithin(baseline.graph, b) && LongestChain(current.graph, c)
    ensures c <= b
  {
    hide Grows, SimplePath, Descending;
    if current.graph.succ != [] {
      var v: nat :| current.graph.Node(v) && IsIncludeDepth(current.graph, v, c);
      var chain :| DescendingFrom(current.graph, chain, v) && |chain| == c + 1;
      var p := ChainGivesSimplePath(current.graph, chain);
      var q := SimplePathAcross(current, baseline, p);
    }
  }

  // ------------------------------------------------- from a simple path to a chain

  /** The node after `v` on the path. */
  function NextOn(p: seq<nat>, v: nat): seq<nat> {
    if |p| < 2 then [] else if p[0] == v then [p[1]] else NextOn(p[1..], v)
  }

  lemma {:induction false} NextOnIs(p: seq<nat>, v: nat)
    requires NoRepeats(p)
    ensures |NextOn(p, v)| <= 1
    ensures forall w: nat ::
      w in NextOn(p, v) <==> exists i: nat, j: nat :: i < j < |p| && j == i + 1 && p[i] == v && p[j] == w
  {
    if |p| >= 2 {
      var rest := p[1..];
      assert forall i: nat :: i < |rest| ==> rest[i] == p[i + 1];
      NextOnIs(rest, v);
      forall w: nat
        ensures w in NextOn(p, v) <==> exists i: nat, j: nat :: i < j < |p| && j == i + 1 && p[i] == v && p[j] == w
      {
        if w in NextOn(p, v) {
          if p[0] == v {
            assert p[1] == w;
          } else {
            var i: nat, j: nat :| i < j < |rest| && j == i + 1 && rest[i] == v && rest[j] == w;
            assert p[i + 1] == v && p[j + 1] == w;
          }
        }
        if i: nat, j: nat :| i < j < |p| && j == i + 1 && p[i] == v && p[j] == w {
          if i > 0 {
            assert rest[i - 1] == v && rest[j - 1] == w;
          }
        }
      }
    }
  }

  /** All files, and of the edges only those of the path. */
  function OnlyPath(g: PathGraph, p: seq<nat>): PathGraph {
    PathGraph(g.paths, Digraph(seq(|g.paths|, v requires 0 <= v < |g.paths| => NextOn(p, v))), {})
  }

  lemma OnlyPathEdge(g: PathGraph, p: seq<nat>, u: nat, v: nat)
    requires g.Valid() && SimplePath(g.graph, p)
    ensures OnlyPath(g, p).graph.Edge(u, v)
        <==> exists i: nat, j: nat :: i < j < |p| && j == i + 1 && p[i] == u && p[j] == v
  {
    hide NextOn, IsPath;
    NextOnIs(p, u);
  }

  lemma OnlyPathIsEdit(g: PathGraph, p: seq<nat>)
    requires g.Valid() && SimplePath(g.graph, p)
    ensures var h := OnlyPath(g, p);
      h.Valid() && SamePaths(g, h) && Grows(h, g)
  {
    hide NextOn;
    var h := OnlyPath(g, p);
    forall u: nat | u < |h.graph.succ|
      ensures |h.graph.succ[u]| <= 1
      ensures forall v: nat :: v in h.graph.succ[u] ==> g.graph.Edge(u, v) && v < |g.paths|
    {
      NextOnIs(p, u);
      forall v: nat | v in h.graph.succ[u]
        ensures g.graph.Edge(u, v) && v < |g.paths|
      {
        OnlyPathEdge(g, p, u, v);
        var i: nat, j: nat :| i < j < |p| && j == i + 1 && p[i] == u && p[j] == v;
        assert g.graph.Edge(p[i], p[i + 1]);
      }
    }
    forall v, i | 0 <= v < |h.graph.succ| && 0 <= i < |h.graph.succ[v]|
      ensures h.graph.succ[v][i] < |h.graph.succ|
    {
      assert h.graph.succ[v][i] in h.graph.succ[v];
    }
    assert h.Valid();
    assert forall q :: g.HasPath(q) <==> h.HasPath(q);
    assert forall u: nat, v: nat :: h.graph.Edge(u, v) ==> g.graph.Edge(u, v);
  }

  /** Once past a node, the kept path never comes back to it. */
  lemma OnlyPathDescends(g: PathGraph, p: seq<nat>)
    requires g.Valid() && SimplePath(g.graph, p)
    ensures Descending(OnlyPath(g, p).graph, p)
  {
    hide NextOn, OnlyPath, Reaches;
    var h := OnlyPath(g, p).graph;
    OnlyPathSize(g, p);
    assert forall i: nat :: i < |p| ==> h.Node(p[i]) && g.graph.Node(p[i]);
    forall i: nat | 0 < i < |p|
      ensures Below(h, p[i - 1], p[i])
    {
      var prev := i - 1;
      OnlyPathEdge(g, p, p[prev], p[i]);
      ReachesEdge(h, p[prev], p[i]);
      var later := iset j: nat | i <= j < |p| :: p[j];
      forall u, v | u in later && h.Edge(u, v)
        ensures v in later
      {
        OnlyPathEdge(g, p, u, v);
      }
      NoReturn(h, later, p[i], p[prev]);
    }
  }

  lemma OnlyPathSize(g: PathGraph, p: seq<nat>)
    ensures |OnlyPath(g, p).graph.succ| == |g.paths|
  {
  }

  lemma NoReturn(g: Digraph, s: iset<nat>, u: nat, v: nat)
    requires ClosedUnder(g, s) && u in s && v !in s
    ensures !Reaches(g, u, v)
  {
    hide Reaches;
    if Reaches(g, u, v) {
      ReachesStaysInClosed(g, s, u, v);
    }
  }

  /** Keeping only the edges of a simple path makes it a chain. */
  lemma KeepingOnePath(g: PathGraph, p: seq<nat>, c: nat)
    requires g.Valid() && SimplePath(g.graph, p) && LongestChain(OnlyPath(g, p).graph, c)
    ensures |p| <= c + 1
  {
    hide OnlyPath, SimplePath, Grows, LongestChain;
    OnlyPathIsEdit(g, p);
    OnlyPathDescends(g, p);
    ChainIsWithin(OnlyPath(g, p).graph, p, c);
  }

  // ------------------------------------------------------------- exact condition

  /** An edit that only removes, and the longest chain after it. */
  ghost predicate Removes(baseline: PathGraph, current: PathGraph, c: nat) {
    current.Valid() && Grows(current, baseline) && LongestChain(current.graph, c)
  }

  ghost predicate RemovesEdges(baseline: PathGraph, current: PathGraph, c: nat) {
    Removes(baseline, current, c) && SamePaths(baseline, current)
  }

  /** No removing edit lengthens the longest chain exactly if no simple path of the baseline
      is longer than it, whether or not the edit may remove files, too. */
  lemma RemovalsKeepChainIff(baseline: PathGraph, b: nat)
    requires baseline.Valid() && LongestChain(baseline.graph, b)
    ensures (forall current, c: nat :: Removes(baseline, current, c) ==> c <= b)
        <==> SimplePathsWithin(baseline.graph, b)
    ensures (forall current, c: nat :: RemovesEdges(baseline, current, c) ==> c <= b)
        <==> SimplePathsWithin(baseline.graph, b)
  {
    hide LongestChain, Grows, SimplePath, OnlyPath, SamePaths;
    if SimplePathsWithin(baseline.graph, b) {
      forall current, c: nat | Removes(baseline, current, c)
        ensures c <= b
      {
        ChainCannotGrow(baseline, current, b, c);
      }
    } else {
      var p :| SimplePath(baseline.graph, p) && |p| > b + 1;
      var current := OnlyPath(baseline, p);
      OnlyPathIsEdit(baseline, p);
      var c := LongestChainExists(current.graph);
      KeepingOnePath(baseline, p, c);
      assert RemovesEdges(baseline, current, c);
    }
  }

  ghost predicate CycleFree(g: Digraph) {
    forall u: nat, v: nat :: g.Node(u) && g.Node(v) && Mutual(g, u, v) ==> u == v
  }

  /** A baseline without cycles meets the condition. */
  lemma CycleFreeIsWithin(g: Digraph, d: nat)
    requires g.Valid() && CycleFree(g) && LongestChain(g, d)
    ensures SimplePathsWithin(g, d)
  {
    hide LongestChain, Reaches;
    forall p | SimplePath(g, p)
      ensures |p| <= d + 1
    {
      forall i: nat | 0 < i < |p|
        ensures Below(g, p[i - 1], p[i])
      {
        var prev := i - 1;
        assert g.Edge(p[prev], p[prev + 1]);
        ReachesEdge(g, p[prev], p[i]);
        assert p[prev] != p[i];
        assert g.Node(p[prev]) && g.Node(p[i]);
      }
      assert Descending(g, p);
      ChainIsWithin(g, p, d);
    }
  }

  // ------------------------------------------------------------------------- rings

  /** Every file includes the next, and the last one the first. */
  function Ring(n: nat): Digraph {
    Digraph(seq(n, v requires 0 <= v < n => if v == n - 1 then [0] else [v + 1]))
  }

  function Upto(n: nat): (p: seq<nat>)
    ensures |p| == n && forall i: nat :: i < n ==> p[i] == i
  {
    seq(n, i requires 0 <= i < n => i)
  }

  lemma {:induction false} RingReaches(n: nat, u: nat, v: nat)
    requires u <= v < n
    ensures Reaches(Ring(n), u, v)
    decreases v - u
  {
    hide Reaches;
    if u == v {
      ReachesSelf(Ring(n), u);
    } else {
      RingReaches(n, u, v - 1);
      ReachesEdge(Ring(n), v - 1, v);
      ReachesTrans(Ring(n), u, v - 1, v);
    }
  }

  lemma RingIsMutual(n: nat, u: nat, v: nat)
    requires u < n && v < n
    ensures Reaches(Ring(n), u, v)
  {
    hide Reaches;
    var g := Ring(n);
    RingReaches(n, u, n - 1);
    ReachesEdge(g, n - 1, 0);
    RingReaches(n, 0, v);
    ReachesTrans(g, u, n - 1, 0);
    ReachesTrans(g, u, 0, v);
  }

  /** A ring has no chain of even one step. */
  lemma RingDepth(n: nat)
    requires 0 < n <= MAX_NODES
    ensures LongestChain(Ring(n), 0)
  {
    hide Reaches;
    var g := Ring(n);
    var d := LongestChainExists(g);
    var v: nat :| g.Node(v) && IsIncludeDepth(g, v, d);
    var c :| DescendingFrom(g, c, v) && |c| == d + 1;
    if d > 0 {
      assert g.Node(c[0]) && g.Node(c[1]) && Below(g, c[1 - 1], c[1]);
      RingIsMutual(n, c[1], c[0]);
    }
  }

  /** Cutting one edge of a ring of `n` files turns it from depth 0 into a chain of depth n - 1. */
  lemma CuttingARingLengthensChains(paths: seq<string>, d: nat)
    requires DistinctPaths(paths) && 0 < |paths| <= MAX_NODES
    ensures var n := |paths|;
            var b := PathGraph(paths, Ring(n), {});
            var c := OnlyPath(b, Upto(n));
      && b.Valid() && c.Valid() && SamePaths(b, c) && Grows(c, b)
      && LongestChain(b.graph, 0) && (LongestChain(c.graph, d) <==> d == n - 1)
  {
    hide LongestChain, OnlyPath, Grows, SamePaths;
    var n := |paths|;
    var b := PathGraph(paths, Ring(n), {});
    var p := Upto(n);
    RingDepth(n);
    assert SimplePath(b.graph, p);
    OnlyPathIsEdit(b, p);
    OnlyPathSize(b, p);
    var c := OnlyPath(b, p);
    var e := LongestChainExists(c.graph);
    KeepingOnePath(b, p, e);
    LongestIsShort(c.graph, e);
    LongestUnique(c.graph, d, e);
  }

  lemma LongestIsShort(g: Digraph, d: nat)
    requires g.Valid() && g.succ != [] && LongestChain(g, d)
    ensures d < |g.succ|
  {
    hide Descending;
    var v: nat :| g.Node(v) && IsIncludeDepth(g, v, d);
    var c :| DescendingFrom(g, c, v) && |c| == d + 1;
    ChainIsShort(g, c);
  }

  lemma LongestIsOne(g: Digraph, d: nat, e: nat)
    requires LongestChain(g, d) && LongestChain(g, e)
    ensures d == e
  {
    LongestUnique(g, d, e);
  }

  lemma LongestUnique(g: Digraph, d: nat, e: nat)
    requires LongestChain(g, e)
    ensures LongestChain(g, d) <==> d == e
  {
    hide IsIncludeDepth;
  }
}
