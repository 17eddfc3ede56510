/** When an edit that also removes files raises the normalised dependency. */
module FileRemovals {
  import opened Digraphs
  import opened IncludeGraph
  import opened PathCorrespondence
  import opened GraphMetrics
  import opened ChainLengths
  import opened RegressionReport

  /** The cumulative component dependency. */
  ghost function Ccd(g: PathGraph): nat {
    |ReachPairs(g.graph, |g.graph.succ|)|
  }

  // -------------------------------------------------------------- exact condition

  lemma CrossDivide(a: real, x: real, d: real, y: real)
    requires x > 0.0 && y > 0.0
    ensures a / x < d / y <==> a * y < d * x
  {
    var u, v, xy := a / x, d / y, x * y;
    assert a == u * x && d == v * y;
    assert a * y == u * xy && d * x == v * xy;
    Scaling(u, v, xy);
  }

  lemma Scaling(u: real, v: real, s: real)
    requires s > 0.0
    ensures u < v <==> u * s < v * s
  {
    if u < v {
      assert (v - u) * s > 0.0;
    } else {
      assert (u - v) * s >= 0.0;
    }
  }

  lemma DivideTwice(a: real, x: real, y: real)
    requires x > 0.0 && y > 0.0
    ensures x * y > 0.0 && a / x / y == a / (x * y)
  {
    var q := a / x / y;
    assert a / x == q * y;
    assert a == q * y * x;
    assert a == q * (x * y);
  }

  /** What nccd divides the cumulative dependency by: n log n. */
  function Scale(lg: nat -> real, n: nat): real {
    n as real * lg(n)
  }

  lemma NccdIs(g: PathGraph, lg: nat -> real, m: Metrics)
    requires g.Valid() && |g.paths| > 0 && IsMetrics(g.graph, lg, m)
    ensures m.ccd == Ccd(g) && Scale(lg, |g.paths|) > 0.0
    ensures m.nccd == m.ccd as real / Scale(lg, |g.paths|)
  {
    hide ReachPairs, IsMaxDepth, IsMaxInDegree;
    DivideTwice(m.ccd as real, |g.paths| as real, lg(|g.paths|));
  }

  /** The nccd delta is reported exactly if ccd falls by a smaller factor than n log n. */
  lemma NccdGrowsIff(baseline: PathGraph, current: PathGraph, lg: nat -> real, r: Report)
    requires baseline.Valid() && current.Valid() && ReportsMetrics(baseline, current, lg, r)
    requires |baseline.paths| > 0 && |current.paths| > 0
    ensures var m, n := |baseline.paths|, |current.paths|;
      r.nccdDelta.Some? <==>
        Ccd(baseline) as real * Scale(lg, n) < Ccd(current) as real * Scale(lg, m)
  {
    hide ReachPairs, IsMaxDepth, IsMaxInDegree, LongestChain;
    var bm, cm := MetricsBehind(baseline, current, lg, r);
    var m, n := |baseline.paths|, |current.paths|;
    hide IsMetrics;
    NccdIs(baseline, lg, bm);
    NccdIs(current, lg, cm);
    CrossDivide(bm.ccd as real, Scale(lg, m), cm.ccd as real, Scale(lg, n));
  }

  // --------------------------------------------------------- a file beside a ring

  function Below(n: nat): (s: set<nat>)
    ensures |s| == n && forall v: nat :: v in s <==> v < n
  {
    if n == 0 then {} else Below(n - 1) + {n - 1}
  }

  /** A ring of `n` files, and one file that includes nothing. */
  function RingAndOne(n: nat): Digraph {
    Digraph(Ring(n).succ + [[]])
  }

  lemma StaysBelow(g: Digraph, n: nat, u: nat)
    requires g == Ring(n) || g == RingAndOne(n)
    requires u < n
    ensures ReachableSet(g, u, Below(n))
  {
    hide Reaches;
    var below := iset v: nat | v in Below(n);
    assert ClosedUnder(g, below);
    assert SubEdges(Ring(n), g);
    forall v: nat
      ensures v < n <==> Reaches(g, u, v)
    {
      if v < n {
        RingIsMutual(n, u, v);
        ReachesMonotone(Ring(n), g, u, v);
      } else if Reaches(g, u, v) {
        ReachesStaysInClosed(g, below, u, v);
      }
    }
  }

  lemma AloneReaches(n: nat)
    ensures ReachableSet(RingAndOne(n), n, {n})
  {
    hide Reaches;
    var g := RingAndOne(n);
    var alone := iset{n};
    assert ClosedUnder(g, alone);
    ReachesSelf(g, n);
    forall v: nat
      ensures v == n <==> Reaches(g, n, v)
    {
      if Reaches(g, n, v) {
        ReachesStaysInClosed(g, alone, n, v);
      }
    }
  }

  function Times(i: int, n: int): int {
    i * n
  }

  lemma OneMore(i: int, n: int)
    ensures Times(i, n) == Times(i - 1, n) + n && Times(0, n) == 0
  {
  }

  lemma {:induction false} RingPairs(g: Digraph, n: nat, i: nat)
    requires (g == Ring(n) || g == RingAndOne(n)) && g.Valid() && i <= n
    ensures |ReachPairs(g, i)| == Times(i, n)
    decreases i
  {
    hide ReachPairs, Reaches, Ring, RingAndOne, Times;
    OneMore(i, n);
    if i == 0 {
      NoPairs(g);
    } else {
      RingPairs(g, n, i - 1);
      StaysBelow(g, n, i - 1);
      RingSizes(n);
      PairsOneMore(g, i - 1, Below(n));
    }
  }

  lemma RingSizes(n: nat)
    ensures |Ring(n).succ| == n && |RingAndOne(n).succ| == n + 1
  {
  }

  lemma RingCcd(paths: seq<string>, n: nat)
    requires DistinctPaths(paths) && 0 < n && |paths| == n + 1 <= MAX_NODES
    ensures var b, c := PathGraph(paths, RingAndOne(n), {}), PathGraph(paths[..n], Ring(n), {});
      b.Valid() && c.Valid() && Grows(c, b) && Ccd(b) == n * n + 1 && Ccd(c) == n * n
  {
    hide ReachPairs, Reaches;
    var b, c := PathGraph(paths, RingAndOne(n), {}), PathGraph(paths[..n], Ring(n), {});
    assert b.Valid() && c.Valid();
    SmallerRing(paths, n);
    RingPairs(c.graph, n, n);
    RingPairs(b.graph, n, n);
    AloneReaches(n);
    PairsOneMore(b.graph, n, {n});
  }

  lemma SmallerRing(paths: seq<string>, n: nat)
    requires 0 < n && |paths| == n + 1
    ensures Grows(PathGraph(paths[..n], Ring(n), {}), PathGraph(paths, RingAndOne(n), {}))
  {
    var b, c := PathGraph(paths, RingAndOne(n), {}), PathGraph(paths[..n], Ring(n), {});
    assert forall i: nat :: i < n ==> c.paths[i] == b.paths[i];
    assert forall u: nat, v: nat :: c.graph.Edge(u, v) ==> b.graph.Edge(u, v) && u < n && v < n;
    forall p, q | c.PathEdge(p, q)
      ensures b.PathEdge(p, q)
    {
      var i: nat, j: nat :| c.graph.Edge(i, j) && i < |c.paths| && j < |c.paths| && c.paths[i] == p && c.paths[j] == q;
      assert b.graph.Edge(i, j) && b.paths[i] == p && b.paths[j] == q;
    }
  }

  /** (n n + 1) / (n lg n) < n n / ((n + 1) lg (n + 1)), without the division. */
  lemma RingArithmetic(n: int, small: real, large: real)
    requires n >= 2 && 0.0 < small <= large
    ensures (n * n + 1) as real * (n as real * small) < (n * n) as real * ((n + 1) as real * large)
  {
    var a, b := (n * n + 1) * n, n * n * (n + 1);
    assert b - a == n * (n - 1);
    assert n * (n - 1) > 0;
    assert (n * n + 1) as real * (n as real * small) == a as real * small;
    assert (n * n) as real * ((n + 1) as real * large) == b as real * large;
    assert a as real * small < b as real * small;
    assert b as real * small <= b as real * large;
  }

  lemma RingScales(n: nat, lg: nat -> real, before: nat, after: nat)
    requires 2 <= n && 0.0 < lg(n) <= lg(n + 1) && before == n * n + 1 && after == n * n
    ensures before as real * Scale(lg, n) < after as real * Scale(lg, n + 1)
  {
    RingArithmetic(n, lg(n), lg(n + 1));
  }

  /** Removing a file without any includes, beside a ring of two or more files, raises nccd:
      the average dependency rises. The edit is reported, and does not fail the gate. */
  lemma RemovingALoneFileIsReported(paths: seq<string>, n: nat, lg: nat -> real, threshold: nat, r: Report)
    requires DistinctPaths(paths) && 2 <= n && |paths| == n + 1 <= MAX_NODES
    requires 0.0 < lg(n) <= lg(n + 1)
    requires var b, c := PathGraph(paths, RingAndOne(n), {}), PathGraph(paths[..n], Ring(n), {});
      IsReport(b, c, lg, threshold, r)
    ensures r.nccdDelta.Some? && r.HasRegression() && !r.Gates()
  {
    hide ReportsEdges, ReportsCycles, ReportsMetrics, Grows, Ring, RingAndOne, Ccd, Scale, DistinctPaths;
    var b, c := PathGraph(paths, RingAndOne(n), {}), PathGraph(paths[..n], Ring(n), {});
    RingCcd(paths, n);
    RingScales(n, lg, Ccd(b), Ccd(c));
    NccdGrowsIff(b, c, lg, r);
    RemovingNeverGates(b, c, lg, threshold, r);
  }
}
