/** Which cycles of the current graph count as new or grown against the baseline,
    matching components of the two graphs by the paths they share. */
module GrownCycles {
  import opened SccPartition
  import opened IncludeGraph
  import Tarjan

  datatype GrownScc = GrownScc(members: seq<nat>, baselineSize: nat, currentSize: nat)

  // --------------------------------------------------------------- path matching

  ghost function PathSet(g: PathGraph, scc: seq<nat>): set<string> {
    set v | v in scc :: g.PathOf(v)
  }

  /** The paths of a component of two or more nodes; single nodes never match. */
  ghost function CyclePaths(g: PathGraph, scc: seq<nat>): set<string> {
    if |scc| >= 2 then PathSet(g, scc) else {}
  }

  function Overlap(a: set<string>, b: set<string>): nat {
    |a * b|
  }

  /** Index of the first set with the largest overlap so far (`|sets|` if all are 0). */
  function BestIndex(cur: set<string>, sets: seq<set<string>>, k: nat): nat
    requires k <= |sets|
  {
    if k == 0 then |sets|
    else if Overlap(cur, sets[k - 1]) > BestOverlap(cur, sets, k - 1) then k - 1
    else BestIndex(cur, sets, k - 1)
  }

  function BestOverlap(cur: set<string>, sets: seq<set<string>>, k: nat): nat
    requires k <= |sets|
  {
    if k == 0 then 0
    else if Overlap(cur, sets[k - 1]) > BestOverlap(cur, sets, k - 1) then Overlap(cur, sets[k - 1])
    else BestOverlap(cur, sets, k - 1)
  }

  /** `m` is the first set of largest, non-zero overlap with `cur`, or there is none. */
  ghost predicate IsBestMatch(cur: set<string>, sets: seq<set<string>>, m: nat) {
    if m == |sets| then forall i: nat :: i < |sets| ==> Overlap(cur, sets[i]) == 0
    else
      && m < |sets| && Overlap(cur, sets[m]) > 0
      && (forall i: nat :: i < |sets| ==> Overlap(cur, sets[i]) <= Overlap(cur, sets[m]))
      && (forall i: nat :: i < m ==> Overlap(cur, sets[i]) < Overlap(cur, sets[m]))
  }

  lemma {:induction false} BestUpTo(cur: set<string>, sets: seq<set<string>>, k: nat)
    requires k <= |sets|
    ensures var m, o := BestIndex(cur, sets, k), BestOverlap(cur, sets, k);
      && (forall i: nat :: i < k ==> Overlap(cur, sets[i]) <= o)
      && (if o == 0 then m == |sets| else m < k && Overlap(cur, sets[m]) == o)
      && (forall i: nat :: i < k && i < m ==> Overlap(cur, sets[i]) < o || o == 0)
  {
    hide Overlap;
    if k > 0 {
      BestUpTo(cur, sets, k - 1);
    }
  }

  lemma BestIsMatch(cur: set<string>, sets: seq<set<string>>)
    ensures IsBestMatch(cur, sets, BestIndex(cur, sets, |sets|))
  {
    BestUpTo(cur, sets, |sets|);
  }

  lemma BestMatchUnique(cur: set<string>, sets: seq<set<string>>, m: nat, n: nat)
    requires IsBestMatch(cur, sets, m) && IsBestMatch(cur, sets, n)
    ensures m == n
  {
    hide Overlap;
  }

  lemma BestInRange(cur: set<string>, sets: seq<set<string>>, m: nat)
    requires IsBestMatch(cur, sets, m)
    ensures m <= |sets|
  {
  }

  method BestBaselineMatch(currentPaths: set<string>, baselineSets: seq<set<string>>) returns (m: nat)
    ensures IsBestMatch(currentPaths, baselineSets, m)
  {
    hide Overlap;
    var bestIndex, bestOverlap := |baselineSets|, 0;
    var i := 0;
    while i < |baselineSets|
      invariant i <= |baselineSets|
      invariant bestIndex == BestIndex(currentPaths, baselineSets, i)
      invariant bestOverlap == BestOverlap(currentPaths, baselineSets, i)
    {
      var overlap := CountShared(currentPaths, baselineSets[i]);
      if overlap > bestOverlap {
        bestOverlap, bestIndex := overlap, i;
      }
      i := i + 1;
    }
    BestUpTo(currentPaths, baselineSets, |baselineSets|);
    BestIsMatch(currentPaths, baselineSets);
    m := if bestOverlap == 0 then |baselineSets| else bestIndex;
  }

  method CountShared(a: set<string>, b: set<string>) returns (n: nat)
    ensures n == Overlap(a, b)
  {
    n := 0;
    var rest := a;
    while rest != {}
      invariant rest <= a && n == |(a - rest) * b|
      decreases rest
    {
      var p :| p in rest;
      if p in b {
        assert (a - (rest - {p})) * b == (a - rest) * b + {p};
        n := n + 1;
      } else {
        assert (a - (rest - {p})) * b == (a - rest) * b;
      }
      rest := rest - {p};
    }
    assert (a - rest) * b == a * b;
  }

  method NontrivialPathSets(g: PathGraph, sccs: seq<seq<nat>>) returns (sets: seq<set<string>>)
    ensures IsCycleSets(g, sccs, sets)
  {
    sets := [];
    var i := 0;
    while i < |sccs|
      invariant i <= |sccs| && |sets| == i
      invariant forall k: nat :: k < i ==> sets[k] == CyclePaths(g, sccs[k])
    {
      var paths := {};
      if |sccs[i]| >= 2 {
        var k := 0;
        while k < |sccs[i]|
          invariant k <= |sccs[i]| && paths == PathSet(g, sccs[i][..k])
        {
          assert sccs[i][..k + 1] == sccs[i][..k] + [sccs[i][k]];
          paths := paths + {g.PathOf(sccs[i][k])};
          k := k + 1;
        }
        assert sccs[i][..k] == sccs[i];
      }
      sets := sets + [paths];
      i := i + 1;
    }
  }

  ghost predicate IsCycleSets(g: PathGraph, sccs: seq<seq<nat>>, sets: seq<set<string>>) {
    |sets| == |sccs| && forall k: nat :: k < |sccs| ==> sets[k] == CyclePaths(g, sccs[k])
  }

  // -------------------------------------------------------------------- the report

  /** The size of component `m`, 0 if there is none. */
  function SizeAt(sccs: seq<seq<nat>>, m: nat): nat {
    if m < |sccs| then |sccs[m]| else 0
  }

  /** The size of the baseline component that component `scc` of `current` matches. */
  ghost predicate MatchedSize(current: PathGraph, scc: seq<nat>, bSccs: seq<seq<nat>>, bSets: seq<set<string>>,
      size: nat) {
    && |bSets| == |bSccs|
    && exists m: nat :: IsBestMatch(CyclePaths(current, scc), bSets, m)
         && size == SizeAt(bSccs, m)
  }

  ghost predicate IsGrown(baseline: PathGraph, current: PathGraph, bSccs: seq<seq<nat>>, e: GrownScc) {
    && |e.members| >= 2 && e.currentSize == |e.members| && e.baselineSize < e.currentSize
    && exists bSets :: IsCycleSets(baseline, bSccs, bSets)
        && MatchedSize(current, e.members, bSccs, bSets, e.baselineSize)
  }

  /** The report lists exactly the grown components of `current`, in component order. */
  ghost predicate IsGrownReport(baseline: PathGraph, current: PathGraph, result: seq<GrownScc>) {
    exists bSccs, cSccs ::
      && IsSccList(baseline.graph, bSccs) && IsSccList(current.graph, cSccs)
      && ReportsGrown(baseline, current, bSccs, cSccs, result)
  }

  ghost predicate ReportsGrown(baseline: PathGraph, current: PathGraph, bSccs: seq<seq<nat>>, cSccs: seq<seq<nat>>,
      result: seq<GrownScc>) {
    && (forall k: nat :: k < |result| ==> IsGrown(baseline, current, bSccs, result[k]) && result[k].members in cSccs)
    && (forall i: nat, e: GrownScc ::
          i < |cSccs| && e.members == cSccs[i] && IsGrown(baseline, current, bSccs, e) ==> e in result)
    && (forall k: nat, l: nat :: k < l < |result| ==> FrontLess(result[k].members, result[l].members))
  }

  method GrownSccs(baseline: PathGraph, current: PathGraph) returns (result: seq<GrownScc>)
    requires baseline.Valid() && current.Valid()
    ensures IsGrownReport(baseline, current, result)
  {
    hide IsPartition, IsBestMatch;
    var bSccs := Tarjan.ComputeScc(baseline.graph);
    var cSccs := Tarjan.ComputeScc(current.graph);
    var bSets := NontrivialPathSets(baseline, bSccs);
    var cSets := NontrivialPathSets(current, cSccs);
    result := [];
    var i := 0;
    while i < |cSccs|
      invariant i <= |cSccs|
      invariant forall k: nat :: k < |result| ==>
          IsGrown(baseline, current, bSccs, result[k]) && result[k].members in cSccs[..i]
      invariant forall j: nat, e: GrownScc ::
        j < i && e.members == cSccs[j] && IsGrown(baseline, current, bSccs, e) ==> e in result
      invariant forall k: nat, l: nat :: k < l < |result| ==> FrontLess(result[k].members, result[l].members)
    {
      assert cSccs[..i + 1] == cSccs[..i] + [cSccs[i]];
      if |cSccs[i]| >= 2 {
        var m := BestBaselineMatch(cSets[i], bSets);
        BestInRange(cSets[i], bSets, m);
        var baselineSize := if m == |bSets| then 0 else |bSccs[m]|;
        var e := GrownScc(cSccs[i], baselineSize, |cSccs[i]|);
        GrownMeans(baseline, current, bSccs, bSets, e, m);
        if baselineSize < |cSccs[i]| {
          FrontsBelow(cSccs, result, i);
          result := result + [e];
        }
      }
      i := i + 1;
    }
    assert cSccs[..i] == cSccs;
  }

  lemma FrontsBelow(cSccs: seq<seq<nat>>, result: seq<GrownScc>, i: nat)
    requires Canonical(cSccs) && i < |cSccs|
    requires forall k: nat :: k < |result| ==> result[k].members in cSccs[..i]
    ensures forall k: nat :: k < |result| ==> FrontLess(result[k].members, cSccs[i])
  {
    forall k: nat | k < |result|
      ensures FrontLess(result[k].members, cSccs[i])
    {
      var j: nat :| j < i && cSccs[..i][j] == result[k].members;
      assert cSccs[j][0] < cSccs[i][0];
    }
  }

  /** The matched size of a component is unique, so is its report entry. */
  lemma GrownMeans(baseline: PathGraph, current: PathGraph, bSccs: seq<seq<nat>>, bSets: seq<set<string>>,
      e: GrownScc, m: nat)
    requires IsCycleSets(baseline, bSccs, bSets) && |e.members| >= 2 && e.currentSize == |e.members|
    requires IsBestMatch(CyclePaths(current, e.members), bSets, m)
    requires e.baselineSize == SizeAt(bSccs, m)
    ensures IsGrown(baseline, current, bSccs, e) <==> e.baselineSize < e.currentSize
    ensures forall f: GrownScc :: f.members == e.members && IsGrown(baseline, current, bSccs, f) ==> f == e
  {
    hide IsBestMatch;
    assert MatchedSize(current, e.members, bSccs, bSets, e.baselineSize);
    forall f: GrownScc | f.members == e.members && IsGrown(baseline, current, bSccs, f)
      ensures f == e
    {
      var sets :| IsCycleSets(baseline, bSccs, sets) && MatchedSize(current, f.members, bSccs, sets, f.baselineSize);
      assert sets == bSets;
      var n: nat :| IsBestMatch(CyclePaths(current, f.members), bSets, n) && f.baselineSize == SizeAt(bSccs, n);
      BestMatchUnique(CyclePaths(current, e.members), bSets, m, n);
    }
  }
}
