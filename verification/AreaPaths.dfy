/** What the areas of the report are, told by the shape of the paths. */
module AreaPaths {
  import opened StringOrder
  import opened IncludeGraph
  import opened AreaEdges

  predicate Plain(name: string) {
    '/' !in name
  }

  /** The first slash is the one behind a name without slashes. */
  lemma {:induction false} SlashAfter(p: string, k: nat, n: nat)
    requires k <= n <= |p| && (forall i: nat :: k <= i < n ==> p[i] != '/') && (n < |p| ==> p[n] == '/')
    ensures FindSlash(p, k) == n
    decreases n - k
  {
    if k < n {
      SlashAfter(p, k + 1, n);
    }
  }

  /** `d/rest` */
  function Under(d: string, rest: string): string {
    d + "/" + rest
  }

  lemma UnderAt(d: string, rest: string)
    ensures var p := Under(d, rest);
      && |p| == |d| + 1 + |rest| && p[..|d|] == d && p[|d|] == '/' && p[|d| + 1..] == rest
      && (forall i: nat :: i < |d| ==> p[i] == d[i])
      && (forall i: nat :: |d| < i < |p| ==> p[i] == rest[i - |d| - 1])
  {
  }

  /** A file of the root directory lies in the area of its own name. */
  lemma AreaOfRoot(second: bool, name: string)
    requires Plain(name)
    ensures Classify(second, name) == "<root>"
  {
    SlashAfter(name, 0, |name|);
  }

  /** A file right below a top directory belongs to that. */
  lemma AreaOfTop(second: bool, d: string, name: string)
    requires Plain(d) && Plain(name)
    ensures Classify(second, Under(d, name)) == d
  {
    var p := Under(d, name);
    UnderAt(d, name);
    SlashAfter(p, 0, |d|);
    SlashAfter(p, |d| + 1, |p|);
  }

  /** Further down it belongs to the top directory, or in a tree with a single one to the
      directory below that. */
  lemma AreaOfDeep(d: string, e: string, rest: string)
    requires Plain(d) && Plain(e)
    ensures Classify(false, Under(d, Under(e, rest))) == d
    ensures Classify(true, Under(d, Under(e, rest))) == Under(d, e)
  {
    var p := Under(d, Under(e, rest));
    UnderAt(d, Under(e, rest));
    UnderAt(e, rest);
    SlashAfter(p, 0, |d|);
    SlashAfter(p, |d| + 1, |d| + 1 + |e|);
    assert p[..|d| + 1 + |e|] == d + "/" + e;
  }

  /** A top directory is what stands before the first slash. */
  lemma StartsInIff(p: string, d: string)
    ensures StartsIn(p, d) <==> Plain(d) && exists rest :: p == Under(d, rest)
  {
    hide FindSlash;
    if StartsIn(p, d) {
      assert p == Under(d, p[|d| + 1..]);
    }
    if Plain(d) && exists rest :: p == Under(d, rest) {
      var rest :| p == Under(d, rest);
      UnderAt(d, rest);
      SlashAfter(p, 0, |d|);
    }
  }

  // ----------------------------------------------------------- new dependencies

  /** Some include of `g` leads from the area `x` to the area `y`. */
  ghost predicate Depends(g: PathGraph, second: bool, x: string, y: string) {
    exists p, q :: g.PathEdge(p, q) && Classify(second, p) == x && Classify(second, q) == y
  }

  /** No area name has the character that joins two of them to a key. */
  ghost predicate NoLineBreaks(g: PathGraph) {
    forall i: nat :: i < |g.paths| ==> '\n' !in g.paths[i]
  }

  lemma AreaHasNoBreak(second: bool, p: string)
    requires '\n' !in p
    ensures '\n' !in Classify(second, p)
  {
    hide FindSlash;
  }

  lemma NoEarlierBreak(k: string, x: string)
    requires |x| <= |k| && k[..|x|] == x && '\n' !in x
    ensures forall i: nat :: i < |x| ==> k[i] != '\n'
  {
    forall i: nat | i < |x|
      ensures k[i] != '\n'
    {
      assert x[i] == k[i];
    }
  }

  lemma KeySplits(x: string, y: string, v: string, w: string)
    requires '\n' !in x && '\n' !in v && AreaKey(x, y) == AreaKey(v, w)
    ensures x == v && y == w
  {
    var k := AreaKey(x, y);
    assert k[|x|] == '\n' && k[|v|] == '\n';
    assert k[..|x|] == x && k[..|v|] == v && k[|x| + 1..] == y && k[|v| + 1..] == w;
    NoEarlierBreak(k, x);
    NoEarlierBreak(k, v);
  }

  /** Two area pairs with one key, when directory names hold line breaks: the dependency on
      one hides that on the other. */
  lemma LineBreaksMerge()
    ensures AreaKey("a\nb", "c") == AreaKey("a", "b\nc")
  {
  }

  lemma EdgePathsUnbroken(g: PathGraph, p: string, q: string)
    requires g.Valid() && NoLineBreaks(g) && g.PathEdge(p, q)
    ensures '\n' !in p && '\n' !in q
  {
  }

  lemma {:induction false} HitIsDependency(g: PathGraph, second: bool, x: string, y: string)
    requires g.Valid() && NoLineBreaks(g) && '\n' !in x && x != y
    ensures Count(second, AllEdges(g), AreaKey(x, y)) > 0 <==> Depends(g, second, x, y)
  {
    hide AllEdges, Count, Classify, NoLineBreaks, PathGraph.Valid, PathGraph.PathEdge, AreaKey;
    var es, key := AllEdges(g), AreaKey(x, y);
    CountPositive(second, es, key);
    if i: nat :| i < |es| && Hits(second, es[i], key) {
      var e := es[i];
      AllEdgesMeans(g, e.fromPath, e.toPath);
      EdgePathsUnbroken(g, e.fromPath, e.toPath);
      AreaHasNoBreak(second, e.fromPath);
      KeySplits(Classify(second, e.fromPath), Classify(second, e.toPath), x, y);
    }
    if p, q :| g.PathEdge(p, q) && Classify(second, p) == x && Classify(second, q) == y {
      AllEdgesMeans(g, p, q);
      var i: nat :| i < |es| && es[i] == AreaEdge(p, q);
      assert Hits(second, es[i], key);
    }
  }

  /** The report lists exactly the pairs of different areas that the current graph joins and
      the baseline does not. */
  lemma NewDependencyIff(baseline: PathGraph, current: PathGraph, result: seq<AreaStats>, x: string, y: string)
    requires baseline.Valid() && current.Valid() && IsNewAreaReport(baseline, current, result)
    requires NoLineBreaks(baseline) && NoLineBreaks(current) && '\n' !in x
    ensures var second := SingleRooted(baseline, current);
      (exists i: nat :: i < |result| && result[i].fromArea == x && result[i].toArea == y)
        <==> x != y && Depends(current, second, x, y) && !Depends(baseline, second, x, y)
  {
    hide Depends, Classify, NoLineBreaks, SingleRooted, AllEdges, Count, PathGraph.Valid, AreaLess, AreaKey;
    var second, key := SingleRooted(baseline, current), AreaKey(x, y);
    var bMap, cMap :| Tallies(second, AllEdges(baseline), bMap) && Tallies(second, AllEdges(current), cMap)
                      && NewAreas(bMap, cMap, result);
    TalliedKeys(second, AllEdges(current), cMap);
    if x != y {
      HitIsDependency(baseline, second, x, y);
      HitIsDependency(current, second, x, y);
      if key in cMap {
        TallyNames(current, second, cMap, key, x, y);
      }
    }
    if x != y && key in cMap && key !in bMap {
      assert cMap[key] in result;
      var i: nat :| i < |result| && result[i] == cMap[key];
    }
    if i: nat :| i < |result| && result[i].fromArea == x && result[i].toArea == y {
      assert result[i] in result;
      var k :| k in cMap && k !in bMap && cMap[k] == result[i];
      assert StatsKey(cMap[k]) == k == key;
      TalliesCross(second, AllEdges(current), cMap, k);
    }
  }

  lemma TallyNames(g: PathGraph, second: bool, m: map<string, AreaStats>, key: string, x: string, y: string)
    requires g.Valid() && NoLineBreaks(g) && Tallies(second, AllEdges(g), m) && key in m && key == AreaKey(x, y)
    requires '\n' !in x
    ensures m[key].fromArea == x && m[key].toArea == y
  {
    hide Classify, AllEdges, Count, PathGraph.Valid, PathGraph.PathEdge, AreaKey, NoLineBreaks;
    var e := AreaEdge(m[key].sampleFrom, m[key].sampleTo);
    assert e in AllEdges(g);
    AllEdgesMeans(g, e.fromPath, e.toPath);
    EdgePathsUnbroken(g, e.fromPath, e.toPath);
    AreaHasNoBreak(second, e.fromPath);
    KeySplits(Classify(second, e.fromPath), Classify(second, e.toPath), x, y);
  }

  lemma TalliesCross(second: bool, es: seq<AreaEdge>, m: map<string, AreaStats>, key: string)
    requires Tallies(second, es, m) && key in m
    ensures m[key].fromArea != m[key].toArea
  {
    hide Classify, Count;
  }

  /** The report goes by the area that depends, then by the area it depends on. */
  lemma ReportInOrder(baseline: PathGraph, current: PathGraph, result: seq<AreaStats>, i: nat, j: nat)
    requires IsNewAreaReport(baseline, current, result) && i < j < |result|
    ensures StringLess(result[i].fromArea, result[j].fromArea)
         || (result[i].fromArea == result[j].fromArea && StringLess(result[i].toArea, result[j].toArea))
  {
    hide StringLess, Tallies;
    assert AreaLess(result[i], result[j]);
  }

  /** An include between two second-level directories of a single-rooted tree is reported if
      the baseline had none between them. */
  lemma NewIncludeReported(baseline: PathGraph, current: PathGraph, result: seq<AreaStats>,
      d: string, e: string, e': string, r: string, r': string)
    requires baseline.Valid() && current.Valid() && IsNewAreaReport(baseline, current, result)
    requires NoLineBreaks(baseline) && NoLineBreaks(current) && SingleRooted(baseline, current)
    requires Plain(d) && Plain(e) && Plain(e') && e != e'
    requires current.PathEdge(Under(d, Under(e, r)), Under(d, Under(e', r')))
    requires forall p, q :: baseline.PathEdge(p, q) ==> !(Under(d, e) <= p && Under(d, e') <= q)
    ensures exists i: nat :: i < |result| && result[i].fromArea == Under(d, e) && result[i].toArea == Under(d, e')
  {
    hide Classify, NoLineBreaks, SingleRooted, PathGraph.Valid, PathGraph.PathEdge, IsNewAreaReport, Under;
    var x, y, p, q := Under(d, e), Under(d, e'), Under(d, Under(e, r)), Under(d, Under(e', r'));
    AreaOfDeep(d, e, r);
    AreaOfDeep(d, e', r');
    EdgePathsUnbroken(current, p, q);
    AreaHasNoBreak(true, p);
    UnderSplits(d, e, e');
    assert Depends(current, true, x, y);
    forall v, w | baseline.PathEdge(v, w)
      ensures !(Classify(true, v) == x && Classify(true, w) == y)
    {
      if Classify(true, v) == x && Classify(true, w) == y {
        AreaIsPrefix(v, d, e);
        AreaIsPrefix(w, d, e');
      }
    }
    NewDependencyIff(baseline, current, result, x, y);
  }

  lemma UnderSplits(d: string, e: string, e': string)
    requires e != e'
    ensures Under(d, e) != Under(d, e')
  {
    UnderAt(d, e);
    UnderAt(d, e');
  }

  /** An area of the second level is a prefix of its paths. */
  lemma AreaIsPrefix(p: string, d: string, e: string)
    requires Classify(true, p) == Under(d, e)
    ensures Under(d, e) <= p
  {
    hide FindSlash;
    UnderAt(d, e);
    assert '/' in Under(d, e) && '/' !in "<root>";
  }
}
