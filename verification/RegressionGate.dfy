/** When the gate of a regression report fails and when the report has a finding at all, told
    by the two graphs. */
module RegressionGate {
  import opened Digraphs
  import opened Sorting
  import opened IncludeDepths
  import opened TarjanSpec
  import opened SccPartition
  import opened EdgeOrder
  import opened IncludeGraph
  import opened GraphDiff
  import opened GrownCycles
  import opened GrownTheorems
  import opened GraphMetrics
  import opened AreaEdges
  import opened RegressionReport

  // ---------------------------------------------------------------- outgrown cycles

  /** A component of two or more files, in rising order. */
  ghost predicate Cycle(g: PathGraph, c: seq<nat>) {
    IsScc(g.graph, c) && StrictlyIncreasing(c) && |c| >= 2
  }

  /** How many paths the two components have in common. */
  ghost function Common(baseline: PathGraph, b: seq<nat>, current: PathGraph, c: seq<nat>): nat {
    |PathSet(current, c) * PathSet(baseline, b)|
  }

  /** Of all cycles of the baseline `b` has the most paths in common with `c`, and at least
      one; of several, it has the least file. */
  ghost predicate Closest(baseline: PathGraph, current: PathGraph, c: seq<nat>, b: seq<nat>) {
    && Cycle(baseline, b) && Common(baseline, b, current, c) > 0
    && forall d :: Cycle(baseline, d) ==> NoCloser(baseline, current, c, b, d)
  }

  ghost predicate NoCloser(baseline: PathGraph, current: PathGraph, c: seq<nat>, b: seq<nat>, d: seq<nat>)
    requires |b| > 0 && |d| > 0
  {
    || Common(baseline, d, current, c) < Common(baseline, b, current, c)
    || (Common(baseline, d, current, c) == Common(baseline, b, current, c) && b[0] <= d[0])
  }

  /** A cycle of the current graph that is larger than the closest one of the baseline. */
  ghost predicate Outgrown(baseline: PathGraph, current: PathGraph, c: seq<nat>) {
    Cycle(current, c) && forall b :: Closest(baseline, current, c, b) ==> |b| < |c|
  }

  lemma CycleAt(g: PathGraph, sccs: seq<seq<nat>>, c: seq<nat>) returns (i: nat)
    requires IsSccList(g.graph, sccs) && Cycle(g, c)
    ensures i < |sccs| && sccs[i] == c
  {
    hide Mutual, Disjoint, StrictlyIncreasing;
    assert c[0] in c && g.graph.Node(c[0]);
    i :| i < |sccs| && c[0] in sccs[i];
    assert SameEdges(g.graph, g.graph);
    SameClass(g.graph, g.graph, c, sccs[i], c[0]);
  }

  /** The cycle at place `k` of a component list and its set of paths. */
  lemma ListedCycle(g: PathGraph, sccs: seq<seq<nat>>, sets: seq<set<string>>, k: nat)
    requires g.Valid() && IsSccList(g.graph, sccs) && IsCycleSets(g, sccs, sets) && k < |sccs|
    ensures sets[k] != {} ==> Cycle(g, sccs[k])
    ensures Cycle(g, sccs[k]) ==> sets[k] == PathSet(g, sccs[k])
  {
    hide PathSet, IsScc, StrictlyIncreasing;
  }

  lemma MatchIsClosest(baseline: PathGraph, current: PathGraph, bSccs: seq<seq<nat>>, bSets: seq<set<string>>,
      c: seq<nat>, m: nat, b: seq<nat>)
    requires Matching(baseline, current, bSccs, bSets, c, m) && IsSccList(baseline.graph, bSccs)
    ensures Closest(baseline, current, c, b) <==> m < |bSccs| && bSccs[m] == b
  {
    hide PathSet, IsSccList, IsPartition, Cycle, IsScc;
    assert |bSets| == |bSccs|;
    if m < |bSccs| && bSccs[m] == b {
      ListedCycle(baseline, bSccs, bSets, m);
      forall d | Cycle(baseline, d)
        ensures |b| > 0 && |d| > 0 && NoCloser(baseline, current, c, b, d)
      {
        var k := CycleAt(baseline, bSccs, d);
        ListedCycle(baseline, bSccs, bSets, k);
        FrontsRise(baseline, bSccs, m, k);
      }
    }
    if Closest(baseline, current, c, b) {
      var k := CycleAt(baseline, bSccs, b);
      ListedCycle(baseline, bSccs, bSets, k);
      ListedCycle(baseline, bSccs, bSets, m);
      FrontsRise(baseline, bSccs, k, m);
      FrontsRise(baseline, bSccs, m, k);
    }
  }

  lemma FrontsRise(g: PathGraph, sccs: seq<seq<nat>>, x: nat, y: nat)
    requires IsSccList(g.graph, sccs) && x < |sccs| && y < |sccs|
    ensures |sccs[x]| > 0 && |sccs[y]| > 0 && (sccs[x][0] <= sccs[y][0] <==> x <= y)
  {
    hide IsPartition, StrictlyIncreasing;
  }

  /** The report holds exactly the cycles that outgrew the closest one of the baseline. */
  lemma GrownIff(baseline: PathGraph, current: PathGraph, result: seq<GrownScc>, c: seq<nat>)
    requires baseline.Valid() && current.Valid() && IsGrownReport(baseline, current, result)
    ensures (exists e: GrownScc :: e in result && e.members == c) <==> Outgrown(baseline, current, c)
  {
    hide IsGrownReport, IsPartition, StrictlyIncreasing, IsScc, PathSet, Matching, Closest;
    var bSccs0, cSccs := CurrentComponents(baseline, current, result);
    if e: GrownScc :| e in result && e.members == c {
      EntryIsCycle(baseline, current, bSccs0, cSccs, result, e);
    }
    if Cycle(current, c) {
      var i := CycleAt(current, cSccs, c);
      var bSccs, bSets, m := ReportEntry(baseline, current, result, cSccs, i);
      forall b
        ensures Closest(baseline, current, c, b) <==> m < |bSccs| && bSccs[m] == b
      {
        MatchIsClosest(baseline, current, bSccs, bSets, c, m, b);
      }
      if e: GrownScc :| e in result && e.members == c {
        var k: nat :| k < |result| && result[k] == e;
      }
    }
  }

  lemma EntryIsCycle(baseline: PathGraph, current: PathGraph, bSccs: seq<seq<nat>>, cSccs: seq<seq<nat>>,
      result: seq<GrownScc>, e: GrownScc)
    requires IsSccList(current.graph, cSccs) && ReportsGrown(baseline, current, bSccs, cSccs, result) && e in result
    ensures Cycle(current, e.members)
  {
    hide IsScc, StrictlyIncreasing, Disjoint;
    var k: nat :| k < |result| && result[k] == e;
    var i: nat :| i < |cSccs| && cSccs[i] == e.members;
    assert IsScc(current.graph, cSccs[i]);
  }

  // ------------------------------------------------------------------------ the gate

  /** The run fails exactly if a cycle has outgrown the baseline, or a file is included by
      more files than allowed that was not so before. */
  lemma GatesIff(baseline: PathGraph, current: PathGraph, lg: nat -> real, threshold: nat, r: Report)
    requires baseline.Valid() && current.Valid() && IsReport(baseline, current, lg, threshold, r)
    ensures r.Gates() <==>
      || (exists c: seq<nat> :: Outgrown(baseline, current, c))
      || (exists p :: IsGodHeader(current, threshold, p) && !IsGodHeader(baseline, threshold, p))
  {
    hide ReportsEdges, ReportsMetrics, IsNewAreaReport, IsGrownReport, Outgrown;
    CyclesIff(baseline, current, r);
    GodsIff(baseline, current, threshold, r.newGodHeaders);
  }

  lemma CyclesIff(baseline: PathGraph, current: PathGraph, r: Report)
    requires baseline.Valid() && current.Valid() && ReportsCycles(baseline, current, r)
    ensures r.grownCycles != [] <==> exists c: seq<nat> :: Outgrown(baseline, current, c)
  {
    hide IsGrownReport, Outgrown;
    var gs: seq<GrownScc> :| IsGrownReport(baseline, current, gs) && r.grownCycles == PathCycles(current, gs);
    forall c: seq<nat>
      ensures (exists e: GrownScc :: e in gs && e.members == c) <==> Outgrown(baseline, current, c)
    {
      GrownIff(baseline, current, gs, c);
    }
    if gs != [] {
      assert gs[0] in gs;
      assert Outgrown(baseline, current, gs[0].members);
    }
    if c: seq<nat> :| Outgrown(baseline, current, c) {
      assert exists e: GrownScc :: e in gs && e.members == c;
    }
  }

  lemma GodsIff(baseline: PathGraph, current: PathGraph, threshold: nat, gods: seq<string>)
    requires IsNewGodHeaders(baseline, current, threshold, gods)
    ensures gods != [] <==> exists p :: IsGodHeader(current, threshold, p) && !IsGodHeader(baseline, threshold, p)
  {
    hide IsGodHeader;
    if gods != [] {
      assert gods[0] in gods;
      assert IsGodHeader(current, threshold, gods[0]) && !IsGodHeader(baseline, threshold, gods[0]);
    }
    if p :| IsGodHeader(current, threshold, p) && !IsGodHeader(baseline, threshold, p) {
      assert p in gods;
    }
  }

  /** Behind a rename only those grown cycles stay that hold a path the rename did not bring. */
  lemma KeptIff(cycles: seq<GrownCycle>, renamed: set<string>, c: GrownCycle)
    ensures c in Filter(x => !AllRenamed(renamed, x), cycles)
       <==> c in cycles && (c.members == [] || exists p :: p in c.members && p !in renamed)
  {
    if c.members != [] && forall p :: p in c.members ==> p in renamed {
      assert AllRenamed(renamed, c);
    }
  }

  // ---------------------------------------------------------------------- any finding

  /** The report has a finding exactly if an include is new, the gate fails, the longest chain
      is longer or the normalised dependency higher; removed includes are none, and areas never
      depend on each other anew without a new include. */
  lemma HasRegressionIff(baseline: PathGraph, current: PathGraph, lg: nat -> real, threshold: nat, r: Report,
      bm: Metrics, cm: Metrics)
    requires baseline.Valid() && current.Valid() && IsReport(baseline, current, lg, threshold, r)
    requires IsMetrics(baseline.graph, lg, bm) && IsMetrics(current.graph, lg, cm)
    ensures r.HasRegression() <==>
      || (exists p, q :: current.PathEdge(p, q) && !baseline.PathEdge(p, q))
      || r.Gates() || cm.maxChainLength > bm.maxChainLength || cm.nccd > bm.nccd
  {
    hide ReportsCycles, IsNewGodHeaders, IsNewAreaReport, IsMetrics, Lists, PathGraph.PathEdge, PathGraph.Valid;
    var es :| Lists(es, e => AddedEdge(baseline, current, e)) && r.addedEdges == PathPairs(current, es);
    AddedIff(baseline, current, es);
    if r.newCrossAreaDependencies != [] {
      NoAreasWithoutEdges(baseline, current, r.newCrossAreaDependencies);
    }
    var b, c := MetricsBehind(baseline, current, lg, r);
    MetricsOnce(baseline.graph, lg, bm, b);
    MetricsOnce(current.graph, lg, cm, c);
  }

  lemma NoAreasWithoutEdges(baseline: PathGraph, current: PathGraph, areas: seq<AreaStats>)
    requires baseline.Valid() && current.Valid() && IsNewAreaReport(baseline, current, areas) && areas != []
    ensures exists p, q :: current.PathEdge(p, q) && !baseline.PathEdge(p, q)
  {
    hide IsNewAreaReport, PathGraph.PathEdge, PathGraph.Valid;
    if forall p, q :: current.PathEdge(p, q) ==> baseline.PathEdge(p, q) {
      NoNewAreas(baseline, current, areas);
    }
  }

  lemma AddedIff(baseline: PathGraph, current: PathGraph, es: seq<EdgeRef>)
    requires baseline.Valid() && current.Valid() && Lists(es, e => AddedEdge(baseline, current, e))
    ensures es != [] <==> exists p, q :: current.PathEdge(p, q) && !baseline.PathEdge(p, q)
  {
    if es != [] {
      var e := es[0];
      assert e in es;
      EdgeByName(current, e.0, e.1);
    }
    if p, q :| current.PathEdge(p, q) && !baseline.PathEdge(p, q) {
      var i: nat, j: nat :| i < |current.paths| && j < |current.paths| && current.paths[i] == p
                            && current.paths[j] == q && current.graph.Edge(i, j);
      assert AddedEdge(baseline, current, (i, j));
      assert (i, j) in es;
    }
  }

  lemma MetricsOnce(g: Digraph, lg: nat -> real, a: Metrics, b: Metrics)
    requires IsMetrics(g, lg, a) && IsMetrics(g, lg, b)
    ensures a.maxChainLength == b.maxChainLength && a.nccd == b.nccd
  {
    hide ReachPairs, IsIncludeDepth, InDegree;
  }
}
