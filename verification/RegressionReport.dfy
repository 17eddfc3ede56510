/** The regression report that compares a baseline include graph with the current
    one, its gate, and which edits the gate lets through. */
module RegressionReport {
  import opened Digraphs
  import opened EdgeOrder
  import opened Sorting
  import opened SccPartition
  import opened TarjanSpec
  import opened IncludeGraph
  import opened GraphDiff
  import opened GrownCycles
  import opened GrownTheorems
  import opened PathCorrespondence
  import opened GraphMetrics
  import opened ShrinkingEdits
  import opened ChainLengths
  import opened AreaEdges
  import opened Wrappers

  datatype PathPair = PathPair(from: string, to: string)

  datatype GrownCycle = GrownCycle(members: seq<string>, baselineSize: nat, currentSize: nat)

  datatype MetricDelta = MetricDelta(baseline: nat, current: nat)

  datatype Report = Report(
    addedEdges: seq<PathPair>,
    removedEdges: seq<PathPair>,
    grownCycles: seq<GrownCycle>,
    newCrossAreaDependencies: seq<AreaStats>,
    chainLengthGrown: Option<MetricDelta>,
    newGodHeaders: seq<string>,
    nccdDelta: Option<real>)
  {
    predicate HasRegression() {
      || addedEdges != [] || grownCycles != [] || newCrossAreaDependencies != []
      || chainLengthGrown.Some? || newGodHeaders != [] || (nccdDelta.Some? && nccdDelta.value > 0.0)
    }

    /** Only grown cycles and new god headers fail the run. */
    predicate Gates() {
      grownCycles != [] || newGodHeaders != []
    }
  }

  // --------------------------------------------------------------------- headers

  ghost predicate IsGodHeader(g: PathGraph, threshold: nat, p: string) {
    exists v: nat :: v < |g.paths| && g.paths[v] == p && InDegree(g.graph, v) > threshold
  }

  /** The god headers of `current` that are none of `baseline`, in node order. */
  ghost predicate IsNewGodHeaders(baseline: PathGraph, current: PathGraph, threshold: nat, result: seq<string>) {
    && (forall p :: p in result <==> IsGodHeader(current, threshold, p) && !IsGodHeader(baseline, threshold, p))
    && (forall i: nat, j: nat :: i < j < |result| ==> ComesBefore(current, result[i], result[j]))
  }

  ghost predicate ComesBefore(g: PathGraph, p: string, q: string) {
    exists u: nat, v: nat :: u < v < |g.paths| && g.paths[u] == p && g.paths[v] == q
  }

  ghost predicate GodBelow(g: PathGraph, threshold: nat, p: string, n: nat) {
    exists v: nat :: v < n && v < |g.paths| && g.paths[v] == p && InDegree(g.graph, v) > threshold
  }

  method DetectNewGodHeaders(baseline: PathGraph, current: PathGraph, threshold: nat) returns (result: seq<string>)
    requires baseline.Valid() && current.Valid()
    ensures IsNewGodHeaders(baseline, current, threshold, result)
  {
    hide InDegree;
    var bFanIn := ComputeFanIn(baseline.graph);
    var cFanIn := ComputeFanIn(current.graph);
    var gods: set<string> := {};
    var i := 0;
    while i < |baseline.paths|
      invariant i <= |baseline.paths|
      invariant forall p :: p in gods <==> GodBelow(baseline, threshold, p, i)
    {
      if bFanIn[i] > threshold {
        gods := gods + {baseline.paths[i]};
      }
      i := i + 1;
    }
    result := [];
    i := 0;
    while i < |current.paths|
      invariant i <= |current.paths|
      invariant forall p :: p in result <==> GodBelow(current, threshold, p, i) && !IsGodHeader(baseline, threshold, p)
      invariant forall j: nat, k: nat :: j < k < |result| ==> ComesBefore(current, result[j], result[k])
    {
      if cFanIn[i] > threshold && current.paths[i] !in gods {
        forall j: nat | j < |result|
          ensures ComesBefore(current, result[j], current.paths[i])
        {
          assert result[j] in result;
        }
        result := result + [current.paths[i]];
      }
      i := i + 1;
    }
  }

  // ---------------------------------------------------------------------- report

  function PathPairs(g: PathGraph, es: seq<EdgeRef>): (r: seq<PathPair>)
    ensures |r| == |es| && forall i: nat :: i < |es| ==> r[i] == PathPair(g.PathOf(es[i].0), g.PathOf(es[i].1))
  {
    seq(|es|, i requires 0 <= i < |es| => PathPair(g.PathOf(es[i].0), g.PathOf(es[i].1)))
  }

  function MemberPaths(g: PathGraph, members: seq<nat>): (r: seq<string>)
    ensures |r| == |members| && forall i: nat :: i < |members| ==> r[i] == g.PathOf(members[i])
  {
    seq(|members|, i requires 0 <= i < |members| => g.PathOf(members[i]))
  }

  function PathCycles(g: PathGraph, gs: seq<GrownScc>): (r: seq<GrownCycle>)
    ensures |r| == |gs|
    ensures forall i: nat :: i < |gs| ==>
      r[i] == GrownCycle(MemberPaths(g, gs[i].members), gs[i].baselineSize, gs[i].currentSize)
  {
    seq(|gs|, i requires 0 <= i < |gs| =>
      GrownCycle(MemberPaths(g, gs[i].members), gs[i].baselineSize, gs[i].currentSize))
  }

  ghost predicate ReportsEdges(baseline: PathGraph, current: PathGraph, r: Report) {
    && (exists es :: Lists(es, e => AddedEdge(baseline, current, e)) && r.addedEdges == PathPairs(current, es))
    && (exists es :: Lists(es, e => RemovedEdge(baseline, current, e)) && r.removedEdges == PathPairs(current, es))
  }

  ghost predicate ReportsCycles(baseline: PathGraph, current: PathGraph, r: Report) {
    exists gs :: IsGrownReport(baseline, current, gs) && r.grownCycles == PathCycles(current, gs)
  }

  ghost predicate ReportsMetrics(baseline: PathGraph, current: PathGraph, lg: nat -> real, r: Report) {
    exists bm: Metrics, cm: Metrics ::
      && IsMetrics(baseline.graph, lg, bm) && IsMetrics(current.graph, lg, cm)
      && r.chainLengthGrown == (if cm.maxChainLength > bm.maxChainLength
                                then Some(MetricDelta(bm.maxChainLength, cm.maxChainLength)) else None)
      && r.nccdDelta == (if cm.nccd > bm.nccd then Some(cm.nccd - bm.nccd) else None)
  }

  /** What a report says about its two graphs. */
  ghost predicate IsReport(baseline: PathGraph, current: PathGraph, lg: nat -> real, threshold: nat, r: Report) {
    && ReportsEdges(baseline, current, r)
    && ReportsCycles(baseline, current, r)
    && IsNewAreaReport(baseline, current, r.newCrossAreaDependencies)
    && IsNewGodHeaders(baseline, current, threshold, r.newGodHeaders)
    && ReportsMetrics(baseline, current, lg, r)
  }

  method BuildRegressionReport(baseline: PathGraph, current: PathGraph, lg: nat -> real, threshold: nat)
    returns (r: Report)
    requires baseline.Valid() && current.Valid() && forall n :: n > 0 ==> lg(n) > 0.0
    ensures IsReport(baseline, current, lg, threshold, r)
  {
    hide IsNewAreaReport, IsNewGodHeaders, IsGrownReport, Lists, IsMetrics;
    var added := AddedEdges(baseline, current);
    var removed := RemovedEdges(baseline, current);
    var grown := GrownSccs(baseline, current);
    var areas := DetectNewCrossAreaDependencies(baseline, current);
    var bm := ComputeGraphMetrics(baseline.graph, lg);
    var cm := ComputeGraphMetrics(current.graph, lg);
    var gods := DetectNewGodHeaders(baseline, current, threshold);
    var chain := None;
    if cm.maxChainLength > bm.maxChainLength {
      chain := Some(MetricDelta(bm.maxChainLength, cm.maxChainLength));
    }
    var nccd := None;
    if cm.nccd > bm.nccd {
      nccd := Some(cm.nccd - bm.nccd);
    }
    r := Report(PathPairs(current, added), PathPairs(current, removed), PathCycles(current, grown), areas, chain,
        gods, nccd);
    assert ReportsEdges(baseline, current, r);
    assert ReportsCycles(baseline, current, r);
  }

  // -------------------------------------------------------------------- theorems

  /** God headers stay god headers while the graph grows. */
  lemma GodHeaderMonotone(small: PathGraph, large: PathGraph, threshold: nat, p: string)
    requires small.Valid() && large.Valid() && Grows(small, large) && IsGodHeader(small, threshold, p)
    ensures IsGodHeader(large, threshold, p)
  {
    hide Grows, InDegree, Across;
    var v: nat :| v < |small.paths| && small.paths[v] == p && InDegree(small.graph, v) > threshold;
    FanInMonotone(small, large, v);
    AcrossAt(small, large, v);
  }

  lemma NothingAdded(baseline: PathGraph, current: PathGraph, es: seq<EdgeRef>)
    requires baseline.Valid() && current.Valid() && Grows(current, baseline)
    requires Lists(es, e => AddedEdge(baseline, current, e))
    ensures es == []
  {
    if es != [] {
      var e := es[0];
      assert e in es;
      assert AddedEdge(baseline, current, e);
      EdgeByName(current, e.0, e.1);
    }
  }

  lemma EdgeByName(g: PathGraph, i: nat, j: nat)
    requires g.Valid() && g.graph.Edge(i, j)
    ensures g.PathEdge(g.PathOf(i), g.PathOf(j))
  {
  }

  lemma NoNewGods(baseline: PathGraph, current: PathGraph, threshold: nat, gods: seq<string>)
    requires baseline.Valid() && current.Valid() && Grows(current, baseline)
    requires IsNewGodHeaders(baseline, current, threshold, gods)
    ensures gods == []
  {
    hide Grows, IsGodHeader;
    if gods != [] {
      var p := gods[0];
      assert p in gods;
      GodHeaderMonotone(current, baseline, threshold, p);
    }
  }

  /** The metrics behind the two figures of a report. */
  lemma MetricsBehind(baseline: PathGraph, current: PathGraph, lg: nat -> real, r: Report)
    returns (bm: Metrics, cm: Metrics)
    requires baseline.Valid() && current.Valid() && ReportsMetrics(baseline, current, lg, r)
    ensures IsMetrics(baseline.graph, lg, bm) && IsMetrics(current.graph, lg, cm)
    ensures LongestChain(baseline.graph, bm.maxChainLength) && LongestChain(current.graph, cm.maxChainLength)
    ensures r.chainLengthGrown == if cm.maxChainLength > bm.maxChainLength
                                  then Some(MetricDelta(bm.maxChainLength, cm.maxChainLength)) else None
    ensures r.nccdDelta == if cm.nccd > bm.nccd then Some(cm.nccd - bm.nccd) else None
  {
    hide IsMaxDepth, IsMaxInDegree, ReachPairs;
    bm, cm :|
      && IsMetrics(baseline.graph, lg, bm) && IsMetrics(current.graph, lg, cm)
      && r.chainLengthGrown == (if cm.maxChainLength > bm.maxChainLength
                                then Some(MetricDelta(bm.maxChainLength, cm.maxChainLength)) else None)
      && r.nccdDelta == (if cm.nccd > bm.nccd then Some(cm.nccd - bm.nccd) else None);
  }

  /** An edit that only removes, be it includes or files, never fails the gate; at most a
      longer chain and a higher nccd are reported, and over the same files only the chain. */
  lemma RemovingNeverGates(baseline: PathGraph, current: PathGraph, lg: nat -> real, threshold: nat, r: Report)
    requires baseline.Valid() && current.Valid() && IsReport(baseline, current, lg, threshold, r)
    requires Grows(current, baseline)
    ensures !r.Gates()
    ensures r.addedEdges == [] && r.newCrossAreaDependencies == []
    ensures r.HasRegression() <==> r.chainLengthGrown.Some? || r.nccdDelta.Some?
    ensures SamePaths(baseline, current) ==> r.nccdDelta == None
  {
    hide Grows, SamePaths, Lists, IsGrownReport, IsNewAreaReport, IsNewGodHeaders, ReportsMetrics, LongestChain;
    var es :| Lists(es, e => AddedEdge(baseline, current, e)) && r.addedEdges == PathPairs(current, es);
    NothingAdded(baseline, current, es);
    var gs :| IsGrownReport(baseline, current, gs) && r.grownCycles == PathCycles(current, gs);
    ShrinkingNeverGrows(baseline, current, gs);
    GrowsEdges(current, baseline);
    NoNewAreas(baseline, current, r.newCrossAreaDependencies);
    NoNewGods(baseline, current, threshold, r.newGodHeaders);
    var bm, cm := MetricsBehind(baseline, current, lg, r);
    if SamePaths(baseline, current) {
      NccdCannotGrow(baseline, current, lg, bm, cm);
    }
  }

  lemma GrowsEdges(small: PathGraph, large: PathGraph)
    requires Grows(small, large)
    ensures forall p, q :: small.PathEdge(p, q) ==> large.PathEdge(p, q)
  {
  }

  /** If no simple path of the baseline is longer than its longest chain, not even a longer
      chain can appear. */
  lemma RemovingIsClean(baseline: PathGraph, current: PathGraph, lg: nat -> real, threshold: nat, r: Report, b: nat)
    requires baseline.Valid() && current.Valid() && IsReport(baseline, current, lg, threshold, r)
    requires Grows(current, baseline)
    requires LongestChain(baseline.graph, b) && SimplePathsWithin(baseline.graph, b)
    ensures r.chainLengthGrown == None
    ensures SamePaths(baseline, current) ==> !r.HasRegression()
  {
    hide Grows, SamePaths, ReportsEdges, ReportsCycles, ReportsMetrics, IsNewAreaReport, IsNewGodHeaders, IsMetrics;
    hide PathGraph.Valid, LongestChain, SimplePathsWithin;
    RemovingNeverGates(baseline, current, lg, threshold, r);
    var bm, cm := MetricsBehind(baseline, current, lg, r);
    LongestIsOne(baseline.graph, b, bm.maxChainLength);
    ChainCannotGrow(baseline, current, b, cm.maxChainLength);
  }

  /** And if some simple path is longer, the edit that keeps only its edges is reported. */
  lemma KeepingALongPathIsReported(baseline: PathGraph, p: seq<nat>, b: nat, lg: nat -> real, threshold: nat, r: Report)
    requires baseline.Valid() && LongestChain(baseline.graph, b)
    requires SimplePath(baseline.graph, p) && |p| > b + 1
    requires IsReport(baseline, OnlyPath(baseline, p), lg, threshold, r)
    ensures SamePaths(baseline, OnlyPath(baseline, p)) && Grows(OnlyPath(baseline, p), baseline)
    ensures r.chainLengthGrown.Some? && r.HasRegression() && !r.Gates()
  {
    hide Grows, SamePaths, ReportsEdges, ReportsCycles, ReportsMetrics, IsNewAreaReport, IsNewGodHeaders, IsMetrics;
    hide LongestChain, SimplePath, OnlyPath;
    OnlyPathIsEdit(baseline, p);
    var current := OnlyPath(baseline, p);
    RemovingNeverGates(baseline, current, lg, threshold, r);
    var bm, cm := MetricsBehind(baseline, current, lg, r);
    LongestIsOne(baseline.graph, b, bm.maxChainLength);
    KeepingOnePath(baseline, p, cm.maxChainLength);
  }

  /** A baseline without cycles meets the condition. */
  lemma RemovingFromAcyclicIsClean(baseline: PathGraph, current: PathGraph, lg: nat -> real, threshold: nat, r: Report)
    requires baseline.Valid() && current.Valid() && IsReport(baseline, current, lg, threshold, r)
    requires SamePaths(baseline, current) && Grows(current, baseline) && CycleFree(baseline.graph)
    ensures !r.HasRegression()
  {
    hide Grows, SamePaths, CycleFree, IsReport, LongestChain, SimplePathsWithin;
    var b := LongestChainExists(baseline.graph);
    CycleFreeIsWithin(baseline.graph, b);
    RemovingIsClean(baseline, current, lg, threshold, r, b);
  }

  /** Cutting one include of a ring of files is reported as a chain grown from 0. */
  lemma CuttingARingIsReported(paths: seq<string>, lg: nat -> real, threshold: nat, r: Report)
    requires DistinctPaths(paths) && 1 < |paths| <= MAX_NODES
    requires var b := PathGraph(paths, Ring(|paths|), {});
      IsReport(b, OnlyPath(b, Upto(|paths|)), lg, threshold, r)
    ensures r.chainLengthGrown == Some(MetricDelta(0, |paths| - 1))
  {
    hide ReportsEdges, ReportsCycles, ReportsMetrics, IsNewAreaReport, IsNewGodHeaders, IsMetrics;
    hide LongestChain, OnlyPath, Ring, Upto, SamePaths, Grows;
    var n := |paths|;
    var b := PathGraph(paths, Ring(n), {});
    CuttingARingLengthensChains(paths, 0);
    var bm, cm := MetricsBehind(b, OnlyPath(b, Upto(n)), lg, r);
    CuttingARingLengthensChains(paths, cm.maxChainLength);
    LongestIsOne(b.graph, 0, bm.maxChainLength);
  }

  /** When edges and files are only added, the gate's cycle finding fires exactly if some
      cycle of the current graph was not already a cycle of the baseline. */
  lemma AddingGatesOnNewCycles(baseline: PathGraph, current: PathGraph, lg: nat -> real, threshold: nat, r: Report)
    requires baseline.Valid() && current.Valid() && IsReport(baseline, current, lg, threshold, r)
    requires Grows(baseline, current)
    ensures r.grownCycles != [] <==> exists s :: IsCycleOf(current, s) && !IsCycleOf(baseline, s)
  {
    hide Grows, IsGrownReport, IsNewAreaReport, IsNewGodHeaders, ReportsEdges, ReportsMetrics, IsCycleOf;
    var gs :| IsGrownReport(baseline, current, gs) && r.grownCycles == PathCycles(current, gs);
    if gs != [] {
      var s := ReportedCycleIsNew(baseline, current, gs);
    }
    if exists s :: IsCycleOf(current, s) && !IsCycleOf(baseline, s) {
      var s :| IsCycleOf(current, s) && !IsCycleOf(baseline, s);
      NewCycleIsReported(baseline, current, gs, s);
    }
  }

  lemma CurrentComponents(baseline: PathGraph, current: PathGraph, gs: seq<GrownScc>)
    returns (bSccs: seq<seq<nat>>, cSccs: seq<seq<nat>>)
    requires IsGrownReport(baseline, current, gs)
    ensures IsSccList(baseline.graph, bSccs) && IsSccList(current.graph, cSccs)
    ensures ReportsGrown(baseline, current, bSccs, cSccs, gs)
  {
    bSccs, cSccs :| IsSccList(baseline.graph, bSccs) && IsSccList(current.graph, cSccs)
                    && ReportsGrown(baseline, current, bSccs, cSccs, gs);
  }

  lemma ReportedCycleIsNew(baseline: PathGraph, current: PathGraph, gs: seq<GrownScc>) returns (s: set<string>)
    requires baseline.Valid() && current.Valid() && IsGrownReport(baseline, current, gs)
    requires Grows(baseline, current) && gs != []
    ensures IsCycleOf(current, s) && !IsCycleOf(baseline, s)
  {
    hide Grows, IsGrownReport, IsSccList, IsScc, PathSet, LargestMeeting;
    var bSccs, cSccs := CurrentComponents(baseline, current, gs);
    assert IsGrown(baseline, current, bSccs, gs[0]) && gs[0].members in cSccs;
    var i: nat :| i < |cSccs| && cSccs[i] == gs[0].members;
    AdditiveReport(baseline, current, gs, cSccs, i);
    assert Reported(gs, cSccs[i], gs[0].baselineSize);
    s := PathSet(current, cSccs[i]);
    SccAt(current.graph, cSccs, i);
  }

  lemma SccAt(g: Digraph, sccs: seq<seq<nat>>, i: nat)
    requires IsSccList(g, sccs) && i < |sccs|
    ensures IsScc(g, sccs[i])
  {
  }

  lemma NewCycleIsReported(baseline: PathGraph, current: PathGraph, gs: seq<GrownScc>, s: set<string>)
    requires baseline.Valid() && current.Valid() && IsGrownReport(baseline, current, gs)
    requires Grows(baseline, current) && IsCycleOf(current, s) && !IsCycleOf(baseline, s)
    ensures gs != []
  {
    hide Grows, IsGrownReport, IsScc, PathSet, LargestMeeting, IsPartition, IsCycleOf, ReportsGrown;
    var bSccs, cSccs := CurrentComponents(baseline, current, gs);
    var i := CycleListed(current, cSccs, CycleSetsOf(current, cSccs), s);
    CycleHasTwo(current, s);
    AdditiveReport(baseline, current, gs, cSccs, i);
    var size: nat :| Reported(gs, cSccs[i], size);
  }

  lemma CycleHasTwo(g: PathGraph, s: set<string>)
    requires g.Valid() && IsCycleOf(g, s)
    ensures |s| >= 2
  {
    hide IsScc, PathSet;
    var scc :| IsScc(g.graph, scc) && |scc| >= 2 && PathSet(g, scc) == s;
    PathSetSize(g, scc);
  }

  // --------------------------------------------------------------------- renames

  predicate AllRenamed(renamed: set<string>, c: GrownCycle) {
    c.members != [] && forall i: nat :: i < |c.members| ==> c.members[i] in renamed
  }

  /** Drops the grown cycles whose members are all freshly renamed paths. */
  method DropRenameArtifactCycles(r: Report, renamed: set<string>) returns (r': Report, dropped: nat)
    ensures r' == r.(grownCycles := Filter(c => !AllRenamed(renamed, c), r.grownCycles))
    ensures dropped == |r.grownCycles| - |r'.grownCycles|
  {
    if renamed == {} {
      NothingRenamed(r.grownCycles);
      return r, 0;
    }
    var kept: seq<GrownCycle> := [];
    var i := 0;
    while i < |r.grownCycles|
      invariant i <= |r.grownCycles| && |kept| <= i
      invariant kept == Filter(c => !AllRenamed(renamed, c), r.grownCycles[..i])
    {
      assert r.grownCycles[..i + 1] == r.grownCycles[..i] + [r.grownCycles[i]];
      FilterConcat(c => !AllRenamed(renamed, c), r.grownCycles[..i], [r.grownCycles[i]]);
      if !AllRenamed(renamed, r.grownCycles[i]) {
        kept := kept + [r.grownCycles[i]];
      }
      i := i + 1;
    }
    assert r.grownCycles[..i] == r.grownCycles;
    return r.(grownCycles := kept), |r.grownCycles| - |kept|;
  }

  lemma NoneRenamed(c: GrownCycle)
    ensures !AllRenamed({}, c)
  {
    if c.members != [] {
      var first := c.members[0];
      assert first !in {};
    }
  }

  lemma {:induction false} NothingRenamed(cs: seq<GrownCycle>)
    ensures Filter(c => !AllRenamed({}, c), cs) == cs
  {
    if cs != [] {
      NothingRenamed(cs[1..]);
      NoneRenamed(cs[0]);
    }
  }
}
