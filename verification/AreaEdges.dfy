/** Dependencies between top-level areas of the source tree. */
module AreaEdges {
  import opened Sorting
  import opened StringOrder
  import opened IncludeGraph

  // --------------------------------------------------------------- classification

  /** Position of the first '/' at or after `from`, |p| if there is none. */
  function FindSlash(p: string, from: nat): (k: nat)
    requires from <= |p|
    ensures from <= k <= |p|
    ensures k < |p| ==> p[k] == '/'
    ensures forall i: nat :: from <= i < k ==> p[i] != '/'
    decreases |p| - from
  {
    if from == |p| || p[from] == '/' then from else FindSlash(p, from + 1)
  }

  /** The first directory of a path, or its first two in a single-rooted tree. */
  function Classify(useSecondLevel: bool, path: string): string {
    var first := FindSlash(path, 0);
    if first == |path| then "<root>"
    else if !useSecondLevel then path[..first]
    else
      var second := FindSlash(path, first + 1);
      if second == |path| then path[..first] else path[..second]
  }

  /** `d` is the first directory of the path. */
  predicate StartsIn(p: string, d: string) {
    var slash := FindSlash(p, 0);
    slash < |p| && d == p[..slash]
  }

  ghost predicate TopDir(g: PathGraph, d: string) {
    exists i: nat :: i < |g.paths| && StartsIn(g.paths[i], d)
  }

  ghost predicate TopDirBefore(g: PathGraph, d: string, n: nat) {
    exists i: nat :: i < n && i < |g.paths| && StartsIn(g.paths[i], d)
  }

  method CollectTopDirs(g: PathGraph, dirs0: set<string>) returns (dirs: set<string>)
    ensures forall d :: d in dirs <==> d in dirs0 || TopDir(g, d)
  {
    dirs := dirs0;
    var i := 0;
    while i < |g.paths|
      invariant i <= |g.paths|
      invariant forall d :: d in dirs <==> d in dirs0 || TopDirBefore(g, d, i)
    {
      var slash := FindSlash(g.paths[i], 0);
      if slash < |g.paths[i]| {
        dirs := dirs + {g.paths[i][..slash]};
      }
      i := i + 1;
    }
  }

  /** Exactly one top-level directory occurs in the two graphs together. */
  ghost predicate SingleRooted(baseline: PathGraph, current: PathGraph) {
    exists d :: OnlyTopDir(baseline, current, d)
  }

  ghost predicate OnlyTopDir(baseline: PathGraph, current: PathGraph, d: string) {
    forall e :: e == d <==> TopDir(baseline, e) || TopDir(current, e)
  }

  lemma SingletonSize(s: set<string>)
    ensures |s| == 1 <==> exists d :: s == {d}
  {
    if |s| == 1 {
      var d :| d in s;
      assert |s - {d}| == 0;
      assert s == {d};
    }
  }

  method BuildAreaClassifier(baseline: PathGraph, current: PathGraph) returns (useSecondLevel: bool)
    ensures useSecondLevel <==> SingleRooted(baseline, current)
  {
    var dirs := CollectTopDirs(baseline, {});
    dirs := CollectTopDirs(current, dirs);
    useSecondLevel := |dirs| == 1;
    SingletonSize(dirs);
    forall d
      ensures dirs == {d} <==> OnlyTopDir(baseline, current, d)
    {
    }
  }

  // ------------------------------------------------------------------ area edges

  datatype AreaStats = AreaStats(fromArea: string, toArea: string, edgeCount: nat, sampleFrom: string, sampleTo: string)

  function AreaKey(fromArea: string, toArea: string): string {
    fromArea + "\n" + toArea
  }

  datatype AreaEdge = AreaEdge(fromPath: string, toPath: string)

  predicate Crosses(second: bool, e: AreaEdge) {
    Classify(second, e.fromPath) != Classify(second, e.toPath)
  }

  function KeyOf(second: bool, e: AreaEdge): string {
    AreaKey(Classify(second, e.fromPath), Classify(second, e.toPath))
  }

  /** A cross-area edge counted under `key`. */
  predicate Hits(second: bool, e: AreaEdge, key: string) {
    Crosses(second, e) && KeyOf(second, e) == key
  }

  function Count(second: bool, es: seq<AreaEdge>, key: string): nat {
    if es == [] then 0
    else Count(second, es[..|es| - 1], key)
         + if Hits(second, es[|es| - 1], key) then 1 else 0
  }

  /** The first cross-area edge with this key, if any. */
  ghost predicate FirstWith(second: bool, es: seq<AreaEdge>, key: string, e: AreaEdge) {
    exists i: nat :: i < |es| && es[i] == e && Hits(second, e, key)
      && forall k: nat :: k < i ==> !Hits(second, es[k], key)
  }

  /** What the collected map says about a list of include edges. */
  ghost predicate Tallies(second: bool, es: seq<AreaEdge>, m: map<string, AreaStats>) {
    && (forall key :: key in m <==> Count(second, es, key) > 0)
    && (forall key :: key in m ==>
          && m[key].edgeCount == Count(second, es, key)
          && var e := AreaEdge(m[key].sampleFrom, m[key].sampleTo);
             FirstWith(second, es, key, e)
             && m[key].fromArea == Classify(second, e.fromPath) && m[key].toArea == Classify(second, e.toPath))
  }

  lemma CountOneMore(second: bool, es: seq<AreaEdge>, e: AreaEdge, key: string)
    ensures Count(second, es + [e], key) == Count(second, es, key) + if Hits(second, e, key) then 1 else 0
  {
    assert (es + [e])[..|es|] == es;
  }

  lemma {:induction false} CountPositive(second: bool, es: seq<AreaEdge>, key: string)
    ensures Count(second, es, key) > 0 <==> exists i: nat :: i < |es| && Hits(second, es[i], key)
  {
    hide Hits;
    if es != [] {
      var t := es[..|es| - 1];
      CountPositive(second, t, key);
      if exists i: nat :: i < |t| && Hits(second, t[i], key) {
        var i: nat :| i < |t| && Hits(second, t[i], key);
        assert es[i] == t[i];
      }
    }
  }

  lemma FirstKept(second: bool, es: seq<AreaEdge>, x: AreaEdge, key: string, e: AreaEdge)
    requires FirstWith(second, es, key, e)
    ensures FirstWith(second, es + [x], key, e)
  {
    var i: nat :| i < |es| && es[i] == e && Hits(second, e, key)
      && forall k: nat :: k < i ==> !Hits(second, es[k], key);
    var t := es + [x];
    assert t[i] == e && forall k: nat :: k < i ==> t[k] == es[k];
  }

  lemma FirstNew(second: bool, es: seq<AreaEdge>, x: AreaEdge)
    requires Crosses(second, x) && Count(second, es, KeyOf(second, x)) == 0
    ensures FirstWith(second, es + [x], KeyOf(second, x), x)
  {
    var key := KeyOf(second, x);
    CountPositive(second, es, key);
    var t := es + [x];
    assert t[|es|] == x;
    forall k: nat | k < |es|
      ensures !Hits(second, t[k], key)
    {
      assert t[k] == es[k];
    }
  }

  /** Recording one more edge. */
  function Record(second: bool, m: map<string, AreaStats>, e: AreaEdge): map<string, AreaStats> {
    if !Crosses(second, e) then m
    else
      var key := KeyOf(second, e);
      var stats := if key in m then m[key]
                   else AreaStats(Classify(second, e.fromPath), Classify(second, e.toPath), 0, e.fromPath, e.toPath);
      m[key := stats.(edgeCount := stats.edgeCount + 1)]
  }

  lemma RecordTallies(second: bool, es: seq<AreaEdge>, m: map<string, AreaStats>, e: AreaEdge)
    requires Tallies(second, es, m)
    ensures Tallies(second, es + [e], Record(second, m, e))
  {
    hide Crosses, KeyOf, FirstWith, Classify;
    var r := Record(second, m, e);
    var t := es + [e];
    forall key
      ensures key in r <==> Count(second, t, key) > 0
      ensures key in r ==> r[key].edgeCount == Count(second, t, key)
    {
      CountOneMore(second, es, e, key);
    }
    forall key | key in r
      ensures FirstWith(second, t, key, AreaEdge(r[key].sampleFrom, r[key].sampleTo))
    {
      if key in m {
        FirstKept(second, es, e, key, AreaEdge(m[key].sampleFrom, m[key].sampleTo));
      } else {
        FirstNew(second, es, e);
      }
    }
  }

  /** The include edges before list position `(i, k)`, as path pairs. */
  ghost function EdgePrefix(g: PathGraph, i: nat, k: nat): seq<AreaEdge>
    requires i <= |g.graph.succ| && (if i < |g.graph.succ| then k <= |g.graph.succ[i]| else k == 0)
    decreases i, k
  {
    if k > 0 then EdgePrefix(g, i, k - 1) + [AreaEdge(g.PathOf(i), g.PathOf(g.graph.succ[i][k - 1]))]
    else if i > 0 then EdgePrefix(g, i - 1, |g.graph.succ[i - 1]|)
    else []
  }

  ghost function AllEdges(g: PathGraph): seq<AreaEdge> {
    EdgePrefix(g, |g.graph.succ|, 0)
  }

  method CollectCrossAreaEdges(g: PathGraph, second: bool) returns (result: map<string, AreaStats>)
    requires g.Valid()
    ensures Tallies(second, AllEdges(g), result)
  {
    hide Tallies;
    result := map[];
    NothingTallied(second);
    var i := 0;
    while i < |g.graph.succ|
      invariant i <= |g.graph.succ|
      invariant Tallies(second, EdgePrefix(g, i, 0), result)
    {
      var k := 0;
      while k < |g.graph.succ[i]|
        invariant k <= |g.graph.succ[i]|
        invariant Tallies(second, EdgePrefix(g, i, k), result)
      {
        var e := AreaEdge(g.PathOf(i), g.PathOf(g.graph.succ[i][k]));
        RecordTallies(second, EdgePrefix(g, i, k), result, e);
        if Classify(second, e.fromPath) != Classify(second, e.toPath) {
          result := Record(second, result, e);
        }
        k := k + 1;
      }
      i := i + 1;
    }
  }

  lemma NothingTallied(second: bool)
    ensures Tallies(second, [], map[])
  {
  }

  /** The listed edges are the edges of the graph. */
  lemma {:induction false} PrefixEdges(g: PathGraph, i: nat, k: nat, e: AreaEdge)
    requires g.Valid()
    requires i <= |g.graph.succ| && (if i < |g.graph.succ| then k <= |g.graph.succ[i]| else k == 0)
    requires e in EdgePrefix(g, i, k)
    ensures g.PathEdge(e.fromPath, e.toPath)
    decreases i, k
  {
    if k > 0 {
      if e in EdgePrefix(g, i, k - 1) {
        PrefixEdges(g, i, k - 1, e);
      } else {
        assert g.graph.Edge(i, g.graph.succ[i][k - 1]);
      }
    } else if i > 0 {
      PrefixEdges(g, i - 1, |g.graph.succ[i - 1]|, e);
    }
  }

  lemma {:induction false} EdgeInPrefix(g: PathGraph, i: nat, k: nat, u: nat, j: nat)
    requires g.Valid()
    requires i <= |g.graph.succ| && (if i < |g.graph.succ| then k <= |g.graph.succ[i]| else k == 0)
    requires u < |g.graph.succ| && j < |g.graph.succ[u]| && (u < i || (u == i && j < k))
    ensures AreaEdge(g.PathOf(u), g.PathOf(g.graph.succ[u][j])) in EdgePrefix(g, i, k)
    decreases i, k
  {
    if k > 0 {
      if (u, j) != (i, k - 1) {
        EdgeInPrefix(g, i, k - 1, u, j);
      }
    } else {
      EdgeInPrefix(g, i - 1, |g.graph.succ[i - 1]|, u, j);
    }
  }

  lemma AllEdgesMeans(g: PathGraph, p: string, q: string)
    requires g.Valid()
    ensures AreaEdge(p, q) in AllEdges(g) <==> g.PathEdge(p, q)
  {
    if AreaEdge(p, q) in AllEdges(g) {
      PrefixEdges(g, |g.graph.succ|, 0, AreaEdge(p, q));
    }
    if g.PathEdge(p, q) {
      var i: nat, v: nat :| g.graph.Edge(i, v) && i < |g.paths| && v < |g.paths| && g.paths[i] == p && g.paths[v] == q;
      var j: nat :| j < |g.graph.succ[i]| && g.graph.succ[i][j] == v;
      EdgeInPrefix(g, |g.graph.succ|, 0, i, j);
    }
  }

  // ------------------------------------------------------------ new dependencies

  predicate AreaLess(a: AreaStats, b: AreaStats) {
    StringLess(a.fromArea, b.fromArea) || (a.fromArea == b.fromArea && StringLess(a.toArea, b.toArea))
  }

  lemma AreaLessOrder()
    ensures StrictWeak(AreaLess)
  {
    StringLessOrder();
    hide StringLess;
    forall a: AreaStats, b: AreaStats, c: AreaStats | AreaLess(a, c)
      ensures AreaLess(a, b) || AreaLess(b, c)
    {
      Trichotomy(a.fromArea, b.fromArea);
      Trichotomy(b.fromArea, c.fromArea);
    }
  }

  /** `result` holds the statistics of the area pairs that only `current` has, in strictly
      rising order, so each pair once. */
  ghost predicate NewAreas(bMap: map<string, AreaStats>, cMap: map<string, AreaStats>, result: seq<AreaStats>) {
    && RisesBy(AreaLess, result)
    && (forall s :: s in result <==> exists key :: key in cMap && key !in bMap && cMap[key] == s)
  }

  ghost predicate IsNewAreaReport(baseline: PathGraph, current: PathGraph, result: seq<AreaStats>) {
    exists bMap, cMap ::
      && Tallies(SingleRooted(baseline, current), AllEdges(baseline), bMap)
      && Tallies(SingleRooted(baseline, current), AllEdges(current), cMap)
      && NewAreas(bMap, cMap, result)
  }

  function StatsKey(s: AreaStats): string {
    AreaKey(s.fromArea, s.toArea)
  }

  lemma TalliedKeys(second: bool, es: seq<AreaEdge>, m: map<string, AreaStats>)
    requires Tallies(second, es, m)
    ensures forall key :: key in m ==> StatsKey(m[key]) == key
  {
    hide Classify, Count;
  }

  lemma KeysSeparate(s: seq<AreaStats>)
    requires forall i: nat, j: nat :: i < j < |s| ==> StatsKey(s[i]) != StatsKey(s[j])
    ensures Separated(AreaLess, s)
  {
    hide StringLess;
    forall i: nat, j: nat | i < j < |s|
      ensures AreaLess(s[i], s[j]) || AreaLess(s[j], s[i])
    {
      Trichotomy(s[i].fromArea, s[j].fromArea);
      Trichotomy(s[i].toArea, s[j].toArea);
    }
  }

  method DetectNewCrossAreaDependencies(baseline: PathGraph, current: PathGraph) returns (result: seq<AreaStats>)
    requires baseline.Valid() && current.Valid()
    ensures IsNewAreaReport(baseline, current, result)
  {
    hide Tallies, AreaLess, StatsKey;
    var second := BuildAreaClassifier(baseline, current);
    var bMap := CollectCrossAreaEdges(baseline, second);
    var cMap := CollectCrossAreaEdges(current, second);
    TalliedKeys(second, AllEdges(current), cMap);
    var found: seq<AreaStats> := [];
    var rest := cMap.Keys;
    while rest != {}
      invariant rest <= cMap.Keys
      invariant forall s :: s in found <==> exists key :: key in cMap && key !in rest && key !in bMap && cMap[key] == s
      invariant forall i: nat :: i < |found| ==> StatsKey(found[i]) !in rest
      invariant forall i: nat, j: nat :: i < j < |found| ==> StatsKey(found[i]) != StatsKey(found[j])
      decreases rest
    {
      var key :| key in rest;
      rest := rest - {key};
      if key !in bMap {
        found := found + [cMap[key]];
      }
    }
    AreaLessOrder();
    KeysSeparate(found);
    SortRises(AreaLess, found);
    SortMembers(AreaLess, found);
    result := SortBy(AreaLess, found);
  }

  /** If every current edge was in the baseline, no area dependency is new. */
  lemma NoNewAreas(baseline: PathGraph, current: PathGraph, result: seq<AreaStats>)
    requires baseline.Valid() && current.Valid() && IsNewAreaReport(baseline, current, result)
    requires forall p, q :: current.PathEdge(p, q) ==> baseline.PathEdge(p, q)
    ensures result == []
  {
    hide Hits, FirstWith, AreaLess, SingleRooted;
    var second := SingleRooted(baseline, current);
    var bMap, cMap :| Tallies(second, AllEdges(baseline), bMap) && Tallies(second, AllEdges(current), cMap)
                      && NewAreas(bMap, cMap, result);
    forall key | key in cMap
      ensures key in bMap
    {
      AreaStays(baseline, current, second, key);
    }
    if result != [] {
      SomeIsIn(result);
    }
  }

  /** An area dependency of the current graph was one of the baseline. */
  lemma AreaStays(baseline: PathGraph, current: PathGraph, second: bool, key: string)
    requires baseline.Valid() && current.Valid()
    requires forall p, q :: current.PathEdge(p, q) ==> baseline.PathEdge(p, q)
    requires Count(second, AllEdges(current), key) > 0
    ensures Count(second, AllEdges(baseline), key) > 0
  {
    hide Hits, PathGraph.PathEdge, PathGraph.Valid, AllEdges, Count;
    var es, ds := AllEdges(current), AllEdges(baseline);
    CountPositive(second, es, key);
    var i: nat :| i < |es| && Hits(second, es[i], key);
    var e := es[i];
    AllEdgesMeans(current, e.fromPath, e.toPath);
    AllEdgesMeans(baseline, e.fromPath, e.toPath);
    assert e in ds;
    var j: nat :| j < |ds| && ds[j] == e;
    CountPositive(second, ds, key);
  }

  lemma SomeIsIn(s: seq<AreaStats>)
    requires s != []
    ensures s[0] in s
  {
  }
}
