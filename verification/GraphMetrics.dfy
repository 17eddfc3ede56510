/** Reachable sets, fan-in and the size metrics of an include graph. */
module GraphMetrics {
  import opened Digraphs
  import opened IncludeGraph
  import opened IncludeDepths

  // ----------------------------------------------------------- breadth-first search

  ghost predicate ReachableSet(g: Digraph, start: nat, visited: set<nat>) {
    forall v: nat :: v in visited <==> Reaches(g, start, v)
  }

  ghost predicate Scanning(g: Digraph, start: nat, visited: set<nat>, queue: seq<nat>) {
    && start in visited
    && (forall v: nat :: v in visited ==> g.Node(v) && Reaches(g, start, v))
    && (forall v: nat :: v in queue ==> v in visited)
    && (forall v: nat, w: nat :: v in visited && v !in queue && g.Edge(v, w) ==> w in visited)
  }

  ghost function NodesOf(g: Digraph): set<nat> {
    set v: nat | v < |g.succ| && g.Node(v)
  }

  method ReachableFrom(g: Digraph, start: nat) returns (visited: set<nat>)
    requires g.Valid() && g.Node(start)
    ensures ReachableSet(g, start, visited)
    ensures visited <= NodesOf(g)
  {
    hide Reaches;
    visited := {start};
    var queue := [start];
    ReachesSelf(g, start);
    while queue != []
      invariant Scanning(g, start, visited, queue)
      decreases NodesOf(g) - visited, |queue|
    {
      var v := queue[0];
      ghost var before, was := visited, queue;
      assert v in queue && queue == [v] + queue[1..];
      queue := queue[1..];
      var k := 0;
      while k < |g.succ[v]|
        invariant k <= |g.succ[v]|
        invariant start in visited && before <= visited
        invariant forall x: nat :: x in visited ==> g.Node(x) && Reaches(g, start, x)
        invariant forall x: nat :: x in queue ==> x in visited
        invariant forall x: nat :: x in visited && x !in queue ==> x in before && (x == v || x !in was)
        invariant forall i: nat :: i < k ==> g.succ[v][i] in visited
        invariant visited == before ==> queue == was[1..]
      {
        var n := g.succ[v][k];
        if n !in visited {
          assert g.Edge(v, n);
          ReachesEdge(g, v, n);
          ReachesTrans(g, start, v, n);
          visited := visited + {n};
          queue := queue + [n];
        }
        k := k + 1;
      }
      assert Scanning(g, start, visited, queue);
      assert NodesOf(g) - visited <= NodesOf(g) - before;
      if visited != before {
        var n :| n in visited && n !in before;
        assert n in NodesOf(g) - before;
      }
    }
    ReachesSelf(g, start);
    forall v: nat | Reaches(g, start, v)
      ensures v in visited
    {
      var closed := iset x: nat | x in visited;
      ReachesStaysInClosed(g, closed, start, v);
    }
  }

  // ------------------------------------------------------------------------ fan-in

  ghost function Sources(g: Digraph, v: nat, n: nat): set<nat> {
    set u: nat | u < n && g.Edge(u, v)
  }

  /** How many nodes have an edge to `v`. */
  ghost function InDegree(g: Digraph, v: nat): nat {
    |Sources(g, v, |g.succ|)|
  }

  ghost function Partial(g: Digraph, v: nat, i: nat, k: nat): nat
    requires i < |g.succ| && k <= |g.succ[i]|
  {
    |Sources(g, v, i)| + if v in g.succ[i][..k] then 1 else 0
  }

  lemma PartialOneMore(g: Digraph, v: nat, i: nat, k: nat)
    requires i < |g.succ| && k < |g.succ[i]| && NoRepeats(g.succ[i])
    ensures Partial(g, v, i, k + 1) == Partial(g, v, i, k) + if v == g.succ[i][k] then 1 else 0
  {
    assert g.succ[i][..k + 1] == g.succ[i][..k] + [g.succ[i][k]];
  }

  lemma SourcesNext(g: Digraph, v: nat, i: nat)
    requires i < |g.succ|
    ensures |Sources(g, v, i + 1)| == |Sources(g, v, i)| + if v in g.succ[i] then 1 else 0
  {
    if v in g.succ[i] {
      assert Sources(g, v, i + 1) == Sources(g, v, i) + {i};
    } else {
      assert Sources(g, v, i + 1) == Sources(g, v, i);
    }
  }

  lemma PartialNextNode(g: Digraph, v: nat, i: nat)
    requires i < |g.succ|
    ensures |Sources(g, v, i + 1)| == Partial(g, v, i, |g.succ[i]|)
  {
    assert g.succ[i][..|g.succ[i]|] == g.succ[i];
    SourcesNext(g, v, i);
    hide Sources;
    assert Partial(g, v, i, |g.succ[i]|) == |Sources(g, v, i)| + if v in g.succ[i] then 1 else 0;
  }

  method ComputeFanIn(g: Digraph) returns (result: seq<nat>)
    requires g.Valid() && forall v: nat :: g.Node(v) ==> NoRepeats(g.succ[v])
    ensures |result| == |g.succ|
    ensures forall v: nat :: v < |g.succ| ==> result[v] == InDegree(g, v)
  {
    hide Partial, Sources;
    var fanIn := new nat[|g.succ|](_ => 0);
    NoSources(g);
    var i := 0;
    while i < |g.succ|
      invariant i <= |g.succ|
      invariant forall v: nat :: v < |g.succ| ==> fanIn[v] == |Sources(g, v, i)|
    {
      assert g.Node(i);
      var k := 0;
      PartialStart(g, i);
      while k < |g.succ[i]|
        invariant k <= |g.succ[i]|
        invariant forall v: nat :: v < |g.succ| ==> fanIn[v] == Partial(g, v, i, k)
      {
        forall v: nat
          ensures Partial(g, v, i, k + 1) == Partial(g, v, i, k) + if v == g.succ[i][k] then 1 else 0
        {
          PartialOneMore(g, v, i, k);
        }
        fanIn[g.succ[i][k]] := fanIn[g.succ[i][k]] + 1;
        k := k + 1;
      }
      forall v: nat
        ensures |Sources(g, v, i + 1)| == Partial(g, v, i, |g.succ[i]|)
      {
        PartialNextNode(g, v, i);
      }
      i := i + 1;
    }
    result := fanIn[..];
  }

  lemma NoSources(g: Digraph)
    ensures forall v: nat :: |Sources(g, v, 0)| == 0
  {
    assert forall v: nat :: Sources(g, v, 0) == {};
  }

  lemma PartialStart(g: Digraph, i: nat)
    requires i < |g.succ|
    ensures forall v: nat :: Partial(g, v, i, 0) == |Sources(g, v, i)|
  {
  }

  // ---------------------------------------------------------------------- metrics

  datatype Metrics = Metrics(nodeCount: nat, maxChainLength: nat, maxFanIn: nat, ccd: nat, acd: real, nccd: real)

  /** The pairs counted by the cumulative component dependency, for sources below `n`. */
  ghost function ReachPairs(g: Digraph, n: nat): set<(nat, nat)> {
    set u: nat, v: nat | u < n && v < |g.succ| && Reaches(g, u, v) :: (u, v)
  }

  ghost predicate IsMaximum(s: seq<nat>, m: nat) {
    m in s && forall i: nat :: i < |s| ==> s[i] <= m
  }

  method Maximum(s: seq<nat>) returns (m: nat)
    requires s != []
    ensures IsMaximum(s, m)
  {
    m := s[0];
    var i := 1;
    while i < |s|
      invariant i <= |s| && m in s
      invariant forall k: nat :: k < i ==> s[k] <= m
    {
      if m < s[i] {
        m := s[i];
      }
      i := i + 1;
    }
  }

  /** The metrics of a graph; `lg(n)` stands for the logarithm term of an `n`-node graph. */
  ghost predicate IsMetrics(g: Digraph, lg: nat -> real, m: Metrics) {
    && m.nodeCount == |g.succ|
    && (m.nodeCount == 0 ==> m == Metrics(0, 0, 0, 0, 0.0, 0.0))
    && (m.nodeCount > 0 ==>
          && IsMaxDepth(g, m.maxChainLength)
          && IsMaxInDegree(g, m.maxFanIn)
          && m.ccd == |ReachPairs(g, |g.succ|)|
          && m.acd == m.ccd as real / m.nodeCount as real
          && lg(m.nodeCount) > 0.0
          && m.nccd == m.acd / lg(m.nodeCount))
  }

  ghost predicate IsMaxDepth(g: Digraph, d: nat) {
    && (exists v: nat :: g.Node(v) && IsIncludeDepth(g, v, d))
    && (forall v: nat, e: nat :: g.Node(v) && IsIncludeDepth(g, v, e) ==> e <= d)
  }

  ghost predicate IsMaxInDegree(g: Digraph, d: nat) {
    && (exists v: nat :: g.Node(v) && InDegree(g, v) == d)
    && (forall v: nat :: g.Node(v) ==> InDegree(g, v) <= d)
  }

  ghost function Row(i: nat, s: set<nat>): set<(nat, nat)> {
    set v | v in s :: (i, v)
  }

  lemma {:induction false} RowSize(i: nat, s: set<nat>)
    ensures |Row(i, s)| == |s|
  {
    if s == {} {
      assert Row(i, s) == {};
    } else {
      var x :| x in s;
      RowSize(i, s - {x});
      assert Row(i, s) == Row(i, s - {x}) + {(i, x)};
      assert (i, x) !in Row(i, s - {x});
    }
  }

  lemma PairsOneMore(g: Digraph, i: nat, visited: set<nat>)
    requires g.Valid() && i < |g.succ| && ReachableSet(g, i, visited)
    ensures |ReachPairs(g, i + 1)| == |ReachPairs(g, i)| + |visited|
  {
    hide Reaches;
    var row := Row(i, visited);
    RowSize(i, visited);
    forall v: nat | v in visited
      ensures v < |g.succ|
    {
      ReachesInRange(g, i, v);
    }
    assert ReachPairs(g, i + 1) == ReachPairs(g, i) + row;
    assert ReachPairs(g, i) !! row;
  }

  method CumulativeDependency(g: Digraph) returns (ccd: nat)
    requires g.Valid()
    ensures ccd == |ReachPairs(g, |g.succ|)|
  {
    hide Reaches, ReachPairs;
    ccd := 0;
    NoPairs(g);
    var i := 0;
    while i < |g.succ|
      invariant i <= |g.succ| && ccd == |ReachPairs(g, i)|
    {
      var visited := ReachableFrom(g, i);
      PairsOneMore(g, i, visited);
      ccd := ccd + |visited|;
      i := i + 1;
    }
  }

  lemma NoPairs(g: Digraph)
    ensures |ReachPairs(g, 0)| == 0
  {
    assert ReachPairs(g, 0) == {};
  }

  method ComputeGraphMetrics(g: Digraph, lg: nat -> real) returns (m: Metrics)
    requires g.Valid() && forall v: nat :: g.Node(v) ==> NoRepeats(g.succ[v])
    requires forall n :: n > 0 ==> lg(n) > 0.0
    ensures IsMetrics(g, lg, m)
  {
    var n := |g.succ|;
    if n == 0 {
      return Metrics(0, 0, 0, 0, 0.0, 0.0);
    }
    hide InDegree, IsIncludeDepth, ReachPairs;
    var depths := ComputeIncludeDepths(g);
    var maxChainLength := Maximum(depths);
    MaxDepthMeans(g, depths, maxChainLength);
    var fanIn := ComputeFanIn(g);
    var maxFanIn := Maximum(fanIn);
    MaxFanInMeans(g, fanIn, maxFanIn);
    var ccd := CumulativeDependency(g);
    var acd := ccd as real / n as real;
    m := Metrics(n, maxChainLength, maxFanIn, ccd, acd, acd / lg(n));
  }

  lemma MaxDepthMeans(g: Digraph, depths: seq<nat>, m: nat)
    requires |depths| == |g.succ| && IsMaximum(depths, m)
    requires forall v: nat :: v < |g.succ| ==> IsIncludeDepth(g, v, depths[v])
    ensures IsMaxDepth(g, m)
  {
    hide IsIncludeDepth;
    var v: nat :| v < |depths| && depths[v] == m;
    assert g.Node(v) && IsIncludeDepth(g, v, m);
    forall u: nat, e: nat | g.Node(u) && IsIncludeDepth(g, u, e)
      ensures e <= m
    {
      IncludeDepthUnique(g, u, e, depths[u]);
    }
  }

  lemma MaxFanInMeans(g: Digraph, fanIn: seq<nat>, m: nat)
    requires |fanIn| == |g.succ| && IsMaximum(fanIn, m)
    requires forall v: nat :: v < |g.succ| ==> fanIn[v] == InDegree(g, v)
    ensures IsMaxInDegree(g, m)
  {
    hide InDegree;
    var v: nat :| v < |fanIn| && fanIn[v] == m;
    assert g.Node(v) && InDegree(g, v) == m;
  }
}
