/** What the grown-cycle report says about edits that only add or only remove. */
module GrownTheorems {
  import opened Digraphs
  import opened TarjanSpec
  import opened SccPartition
  import opened IncludeGraph
  import opened GrownCycles
  import opened PathCorrespondence

  /** `s` is the path set of a cycle (a component of two or more nodes) of `g`. */
  ghost predicate IsCycleOf(g: PathGraph, s: set<string>) {
    exists scc :: IsScc(g.graph, scc) && |scc| >= 2 && PathSet(g, scc) == s
  }

  /** `size` is the size of the largest cycle of `g` that meets `s`, 0 if none does. */
  ghost predicate LargestMeeting(g: PathGraph, s: set<string>, size: nat) {
    && (size == 0 || exists t :: IsCycleOf(g, t) && t * s != {} && |t| == size)
    && (forall t :: IsCycleOf(g, t) && t * s != {} ==> |t| <= size)
  }

  /** The comparison of one current component against all baseline components. */
  ghost predicate Matching(baseline: PathGraph, current: PathGraph, bSccs: seq<seq<nat>>, bSets: seq<set<string>>,
      scc: seq<nat>, m: nat) {
    && baseline.Valid() && current.Valid()
    && IsPartition(baseline.graph, bSccs) && IsCycleSets(baseline, bSccs, bSets)
    && IsScc(current.graph, scc) && |scc| >= 2
    && IsBestMatch(PathSet(current, scc), bSets, m)
  }

  lemma NonEmptyMeet(a: set<string>, b: set<string>)
    ensures Overlap(a, b) > 0 <==> a * b != {}
  {
  }

  /** A baseline cycle appears in the list of cycle path sets. */
  lemma CycleListed(g: PathGraph, sccs: seq<seq<nat>>, sets: seq<set<string>>, s: set<string>) returns (k: nat)
    requires g.Valid() && IsPartition(g.graph, sccs) && IsCycleSets(g, sccs, sets) && IsCycleOf(g, s)
    ensures k < |sets| && sets[k] == s && |sccs[k]| == |s|
  {
    hide Mutual, PathSet;
    var scc :| IsScc(g.graph, scc) && |scc| >= 2 && PathSet(g, scc) == s;
    PathSetSize(g, scc);
    assert exists p :: p in s;
    var p :| p in s;
    var v := PathSetMember(g, scc, p);
    k := ComponentOf(g, sccs, p);
    SameClassSameSet(g, scc, sccs[k], p);
    PathSetSize(g, sccs[k]);
  }

  lemma SameClassSameSet(g: PathGraph, a: seq<nat>, b: seq<nat>, p: string)
    requires g.Valid() && IsScc(g.graph, a) && IsScc(g.graph, b) && p in PathSet(g, a) && p in PathSet(g, b)
    ensures PathSet(g, a) == PathSet(g, b)
  {
    hide PathSet, IsScc, PathMutual;
    forall q
      ensures q in PathSet(g, a) <==> q in PathSet(g, b)
    {
      PathSetIsClass(g, a, p, q);
      PathSetIsClass(g, b, p, q);
    }
  }

  /** A listed non-empty path set is a baseline cycle. */
  lemma ListedIsCycle(g: PathGraph, sccs: seq<seq<nat>>, sets: seq<set<string>>, k: nat)
    requires g.Valid() && IsPartition(g.graph, sccs) && IsCycleSets(g, sccs, sets) && k < |sets| && sets[k] != {}
    ensures IsCycleOf(g, sets[k]) && |sccs[k]| == |sets[k]| && IsScc(g.graph, sccs[k]) && sets[k] == PathSet(g, sccs[k])
  {
    hide Mutual, PathSet;
    assert IsScc(g.graph, sccs[k]);
    PathSetSize(g, sccs[k]);
  }

  /** When nothing was taken away, a baseline cycle lies inside every current
      component that it meets. */
  lemma CycleInside(baseline: PathGraph, current: PathGraph, s: set<string>, scc: seq<nat>)
    requires baseline.Valid() && current.Valid() && Grows(baseline, current)
    requires IsCycleOf(baseline, s) && IsScc(current.graph, scc) && s * PathSet(current, scc) != {}
    ensures s <= PathSet(current, scc)
  {
    hide PathSet, IsScc, Grows;
    var b :| IsScc(baseline.graph, b) && |b| >= 2 && PathSet(baseline, b) == s;
    var p :| p in s * PathSet(current, scc);
    ComponentInside(baseline, current, b, scc, p);
  }

  lemma AdditiveMatch(baseline: PathGraph, current: PathGraph, bSccs: seq<seq<nat>>, bSets: seq<set<string>>,
      scc: seq<nat>, m: nat)
    requires Matching(baseline, current, bSccs, bSets, scc, m) && Grows(baseline, current)
    ensures LargestMeeting(baseline, PathSet(current, scc), SizeAt(bSccs, m))
    ensures SizeAt(bSccs, m) < |scc| <==> !IsCycleOf(baseline, PathSet(current, scc))
  {
    hide Mutual, PathSet, IsScc, Grows, IsPartition, IsCycleOf;
    var s := PathSet(current, scc);
    var size := SizeAt(bSccs, m);
    PathSetSize(current, scc);
    forall t | IsCycleOf(baseline, t) && t * s != {}
      ensures |t| <= size
    {
      var k := CycleListed(baseline, bSccs, bSets, t);
      OverlapInside(baseline, current, t, scc);
      BestAtLeast(s, bSets, m, k);
      ListedOverlap(baseline, current, bSccs, bSets, scc, m);
    }
    if m < |bSets| {
      ListedOverlap(baseline, current, bSccs, bSets, scc, m);
      SubsetSize(bSets[m], s);
    }
    assert s * s == s && s != {};
  }

  lemma BestAtLeast(s: set<string>, sets: seq<set<string>>, m: nat, k: nat)
    requires IsBestMatch(s, sets, m) && k < |sets| && Overlap(s, sets[k]) > 0
    ensures m < |sets| && Overlap(s, sets[k]) <= Overlap(s, sets[m])
  {
  }

  lemma OverlapInside(baseline: PathGraph, current: PathGraph, t: set<string>, scc: seq<nat>)
    requires baseline.Valid() && current.Valid() && Grows(baseline, current)
    requires IsCycleOf(baseline, t) && IsScc(current.graph, scc) && t * PathSet(current, scc) != {}
    ensures Overlap(PathSet(current, scc), t) == |t| > 0
  {
    hide PathSet, IsScc, Grows, IsCycleOf;
    CycleInside(baseline, current, t, scc);
    assert PathSet(current, scc) * t == t;
  }

  /** The matched baseline cycle lies inside the current component. */
  lemma ListedOverlap(baseline: PathGraph, current: PathGraph, bSccs: seq<seq<nat>>, bSets: seq<set<string>>,
      scc: seq<nat>, m: nat)
    requires Matching(baseline, current, bSccs, bSets, scc, m) && Grows(baseline, current) && m < |bSets|
    ensures var s := PathSet(current, scc);
      && IsCycleOf(baseline, bSets[m]) && bSets[m] <= s && bSets[m] * s != {}
      && Overlap(s, bSets[m]) == |bSets[m]| == SizeAt(bSccs, m)
  {
    hide Mutual, PathSet, IsScc, Grows, IsPartition, IsCycleOf;
    var s := PathSet(current, scc);
    assert Overlap(s, bSets[m]) > 0;
    NonEmptyMeet(s, bSets[m]);
    assert bSets[m] * s == s * bSets[m];
    ListedIsCycle(baseline, bSccs, bSets, m);
    CycleInside(baseline, current, bSets[m], scc);
    OverlapInside(baseline, current, bSets[m], scc);
  }

  /** From a report to one matched component, for any canonical component list. */
  lemma ReportEntry(baseline: PathGraph, current: PathGraph, result: seq<GrownScc>, cSccs: seq<seq<nat>>, i: nat)
    returns (bSccs: seq<seq<nat>>, bSets: seq<set<string>>, m: nat)
    requires baseline.Valid() && current.Valid() && IsGrownReport(baseline, current, result)
    requires IsSccList(current.graph, cSccs) && i < |cSccs| && |cSccs[i]| >= 2
    ensures Matching(baseline, current, bSccs, bSets, cSccs[i], m) && IsSccList(baseline.graph, bSccs)
    ensures var e := GrownScc(cSccs[i], SizeAt(bSccs, m), |cSccs[i]|);
      && (SizeAt(bSccs, m) < |cSccs[i]| ==> e in result)
      && (forall k: nat :: k < |result| && result[k].members == cSccs[i] ==>
          result[k] == e && SizeAt(bSccs, m) < |cSccs[i]|)
  {
    hide IsPartition, IsBestMatch, Canonical, IsGrown, PathSet, IsScc;
    var cs :| exists b ::
      IsSccList(baseline.graph, b) && IsSccList(current.graph, cs) && ReportsGrown(baseline, current, b, cs, result);
    bSccs :| IsSccList(baseline.graph, bSccs) && IsSccList(current.graph, cs)
        && ReportsGrown(baseline, current, bSccs, cs, result);
    SccListUnique(current.graph, current.graph, cs, cSccs);
    bSets := CycleSetsOf(baseline, bSccs);
    var s := CyclePaths(current, cSccs[i]);
    m := BestIndex(s, bSets, |bSets|);
    BestIsMatch(s, bSets);
    BestInRange(s, bSets, m);
    var e := GrownScc(cSccs[i], SizeAt(bSccs, m), |cSccs[i]|);
    GrownMeans(baseline, current, bSccs, bSets, e, m);
    assert IsScc(current.graph, cSccs[i]) by {
      IsSccAt(current.graph, cSccs, i);
    }
    forall k: nat | k < |result| && result[k].members == cSccs[i]
      ensures result[k] == e && SizeAt(bSccs, m) < |cSccs[i]|
    {
      assert IsGrown(baseline, current, bSccs, result[k]);
    }
  }

  lemma IsSccAt(g: Digraph, sccs: seq<seq<nat>>, i: nat)
    requires IsPartition(g, sccs) && i < |sccs|
    ensures IsScc(g, sccs[i])
  {
  }

  ghost function CycleSetsOf(g: PathGraph, sccs: seq<seq<nat>>): (sets: seq<set<string>>)
    ensures IsCycleSets(g, sccs, sets)
  {
    seq(|sccs|, k requires 0 <= k < |sccs| => CyclePaths(g, sccs[k]))
  }

  ghost predicate Reported(result: seq<GrownScc>, scc: seq<nat>, size: nat) {
    GrownScc(scc, size, |scc|) in result
  }

  /** When the current graph only adds to the baseline, a cycle is reported exactly if
      its path set is not already a cycle of the baseline, and the size reported for the
      baseline is that of the largest baseline cycle it has swallowed. */
  lemma AdditiveReport(baseline: PathGraph, current: PathGraph, result: seq<GrownScc>, cSccs: seq<seq<nat>>, i: nat)
    requires baseline.Valid() && current.Valid() && IsGrownReport(baseline, current, result)
    requires Grows(baseline, current)
    requires IsSccList(current.graph, cSccs) && i < |cSccs| && |cSccs[i]| >= 2
    ensures (exists size: nat :: Reported(result, cSccs[i], size)) <==> !IsCycleOf(baseline, PathSet(current, cSccs[i]))
    ensures forall size: nat :: Reported(result, cSccs[i], size) ==>
        LargestMeeting(baseline, PathSet(current, cSccs[i]), size)
  {
    hide Grows, IsGrownReport, IsSccList, IsCycleOf, PathSet, LargestMeeting, Matching;
    var bSccs, bSets, m := ReportEntry(baseline, current, result, cSccs, i);
    AdditiveMatch(baseline, current, bSccs, bSets, cSccs[i], m);
    var e := GrownScc(cSccs[i], SizeAt(bSccs, m), |cSccs[i]|);
    if e in result {
      assert Reported(result, cSccs[i], SizeAt(bSccs, m));
    }
    forall size: nat | Reported(result, cSccs[i], size)
      ensures size == SizeAt(bSccs, m) && size < |cSccs[i]|
    {
      var k: nat :| k < |result| && result[k] == GrownScc(cSccs[i], size, |cSccs[i]|);
    }
  }

  /** Removing edges among the same paths never reports a grown cycle. */
  lemma ShrinkingNeverGrows(baseline: PathGraph, current: PathGraph, result: seq<GrownScc>)
    requires baseline.Valid() && current.Valid() && IsGrownReport(baseline, current, result)
    requires Grows(current, baseline)
    ensures result == []
  {
    hide Grows, PathSet, IsPartition, Canonical, IsGrown;
    if result != [] {
      var bSccs0, cSccs :| IsSccList(baseline.graph, bSccs0) && IsSccList(current.graph, cSccs)
                           && ReportsGrown(baseline, current, bSccs0, cSccs, result);
      assert IsGrown(baseline, current, bSccs0, result[0]) && result[0].members in cSccs;
      var i: nat :| i < |cSccs| && cSccs[i] == result[0].members;
      GrownIsCycle(baseline, current, bSccs0, result[0]);
      ShrinkingEntry(baseline, current, result, cSccs, i);
    }
  }

  lemma GrownIsCycle(baseline: PathGraph, current: PathGraph, bSccs: seq<seq<nat>>, e: GrownScc)
    requires IsGrown(baseline, current, bSccs, e)
    ensures |e.members| >= 2
  {
  }

  lemma ShrinkingEntry(baseline: PathGraph, current: PathGraph, result: seq<GrownScc>, cSccs: seq<seq<nat>>, i: nat)
    requires baseline.Valid() && current.Valid() && IsGrownReport(baseline, current, result)
    requires Grows(current, baseline)
    requires IsSccList(current.graph, cSccs) && i < |cSccs| && |cSccs[i]| >= 2
    ensures forall k: nat :: k < |result| ==> result[k].members != cSccs[i]
  {
    hide Grows, IsGrownReport, IsSccList, PathSet, Matching;
    var bSccs, bSets, m := ReportEntry(baseline, current, result, cSccs, i);
    ShrinkingMatch(baseline, current, bSccs, bSets, cSccs[i], m);
  }

  /** The baseline cycle around a current one is matched, and is no smaller. */
  lemma ShrinkingMatch(baseline: PathGraph, current: PathGraph, bSccs: seq<seq<nat>>, bSets: seq<set<string>>,
      scc: seq<nat>, m: nat)
    requires Matching(baseline, current, bSccs, bSets, scc, m) && Grows(current, baseline)
    ensures SizeAt(bSccs, m) >= |scc|
  {
    hide Mutual, PathSet, IsScc, Grows, IsPartition, IsBestMatch;
    var s := PathSet(current, scc);
    PathSetSize(current, scc);
    assert exists p :: p in s;
    var p :| p in s;
    var v := PathSetMember(current, scc, p);
    assert baseline.HasPath(p) by {
      GrowsHas(current, baseline, p);
    }
    var k := ComponentOf(baseline, bSccs, p);
    ComponentInside(current, baseline, scc, bSccs[k], p);
    PathSetSize(baseline, bSccs[k]);
    SubsetSize(s, PathSet(baseline, bSccs[k]));
    assert bSets[k] == PathSet(baseline, bSccs[k]);
    assert s * bSets[k] == s;
    BestAtLeast(s, bSets, m, k);
    SubsetSize(s * bSets[m], bSets[m]);
    assert bSets[m] != {};
    ListedIsCycle(baseline, bSccs, bSets, m);
  }

  lemma GrowsHas(small: PathGraph, large: PathGraph, p: string)
    requires Grows(small, large) && small.HasPath(p)
    ensures large.HasPath(p)
  {
  }
}
