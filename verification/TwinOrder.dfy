/** Where crosswise twins come from: only from a synthetic run that is numbered out of line
    order, as the suffix run of a body is before the bodies nested in it. */
module TwinOrder {
  import opened Tokens
  import opened BraceMatching
  import opened StatementRuns
  import opened FragmentWalk
  import opened FragmentTheorems
  import opened Fragments
  import opened Sorting
  import opened PairFilters
  import opened Containment

  // ------------------------------------------------------------- order of fragments

  /** The fragments of one file have neighbouring numbers. */
  ghost predicate FileByFile(frags: seq<Fragment>) {
    forall i: nat, j: nat, k: nat :: i < j < k < |frags| && frags[i].file == frags[k].file ==>
      frags[j].file == frags[i].file
  }

  /** Within a file, whole bodies are numbered by first line; synthetic runs need not be. */
  ghost predicate BodiesInOrder(frags: seq<Fragment>) {
    forall i: nat, j: nat ::
      i < j < |frags| && frags[i].file == frags[j].file && !frags[i].boundary && !frags[j].boundary ==>
      frags[i].startLine <= frags[j].startLine
  }

  ghost predicate Numbered(frags: seq<Fragment>) {
    FileByFile(frags) && BodiesInOrder(frags)
  }

  ghost predicate LinesRise(t: seq<Token>) {
    forall i: nat, j: nat :: i < j < |t| ==> t[i].line <= t[j].line
  }

  /** The fragments of `file` cut from its tokens along these spans. */
  ghost predicate CutAlong(frags: seq<Fragment>, file: string, t: seq<Token>, spans: seq<Span>) {
    && |frags| == |spans|
    && forall i: nat :: i < |frags| ==>
         && frags[i].file == file && frags[i].boundary == spans[i].boundary
         && spans[i].lo < |t| && frags[i].startLine == t[spans[i].lo].line
  }

  /** Elements that pass a filter keep the order of what the filter returns. */
  lemma {:induction false} FilterOrder(keep: Span -> bool, s: seq<Span>, i: nat, j: nat)
    requires RisesBy(StartsBefore, Filter(keep, s)) && i < j < |s| && keep(s[i]) && keep(s[j])
    ensures s[i].lo < s[j].lo
  {
    var f, rest := Filter(keep, s), Filter(keep, s[1..]);
    if i == 0 {
      assert s[1..][j - 1] == s[j] && s[j] in rest;
      var k: nat :| k < |rest| && rest[k] == s[j];
      assert f == [s[0]] + rest;
      assert StartsBefore(f[0], f[k + 1]);
    } else {
      RestRises(keep, s);
      FilterOrder(keep, s[1..], i - 1, j - 1);
    }
  }

  lemma FilterStep(keep: Span -> bool, s: seq<Span>)
    requires s != []
    ensures Filter(keep, s) == (if keep(s[0]) then [s[0]] else []) + Filter(keep, s[1..])
  {
  }

  lemma RestRises(keep: Span -> bool, s: seq<Span>)
    requires s != [] && RisesBy(StartsBefore, Filter(keep, s))
    ensures RisesBy(StartsBefore, Filter(keep, s[1..]))
  {
    hide Filter, StartsBefore;
    var f, rest := Filter(keep, s), Filter(keep, s[1..]);
    FilterStep(keep, s);
    var n := |f| - |rest|;
    assert f[n..] == rest;
    TailRises(f, n);
  }

  lemma TailRises(s: seq<Span>, n: nat)
    requires n <= |s| && RisesBy(StartsBefore, s)
    ensures RisesBy(StartsBefore, s[n..])
  {
    hide StartsBefore;
    var t := s[n..];
    forall i: nat, j: nat | i < j < |t|
      ensures StartsBefore(t[i], t[j])
    {
      var k, l := n + i, n + j;
      assert t[i] == s[k] && t[j] == s[l];
    }
  }

  /** The fragmenter numbers the fragments of a file so. */
  lemma FragmenterNumbers(frags: seq<Fragment>, file: string, t: seq<Token>, match_: seq<int>, lim: Limits)
    requires IsBraceMatch(t, match_) && Forwards(t, match_) && LinesRise(t)
    requires CutAlong(frags, file, t, Walk(t, match_, lim, 0, |t|, false))
    ensures Numbered(frags)
  {
    hide IsBraceMatch, Walk, Emitted, EnclosedBody;
    var spans := Walk(t, match_, lim, 0, |t|, false);
    BodiesOnceInOrder(t, match_, lim);
    forall i: nat, j: nat | i < j < |frags| && !frags[i].boundary && !frags[j].boundary
      ensures frags[i].startLine <= frags[j].startLine
    {
      FilterOrder(IsBody, spans, i, j);
    }
  }

  // ------------------------------------------------------------------------- twins

  /** Both fragments of the pair are in one file. */
  predicate OneFile(scan: Scan, p: Pair) {
    FragA(scan, p).file == FragB(scan, p).file
  }

  predicate AgainstLines(scan: Scan, p: Pair) {
    FragA(scan, p).startLine > FragB(scan, p).startLine
  }

  /** One side is a synthetic run, the other a whole body. */
  predicate RunAndBody(scan: Scan, p: Pair) {
    FragA(scan, p).boundary != FragB(scan, p).boundary
  }

  lemma TwinsShareAFile(scan: Scan, p: Pair, q: Pair)
    requires FileByFile(scan.frags) && InRange(scan, p) && InRange(scan, q)
    requires p.a < p.b && q.a < q.b && CrosswiseTwins(scan, p, q)
    ensures OneFile(scan, p) && OneFile(scan, q)
  {
    var frags := scan.frags;
    if p.a < q.a {
      assert frags[p.a].file == frags[q.b].file;
    } else if q.a < p.a {
      assert frags[q.a].file == frags[p.b].file;
    }
  }

  /** Of two crosswise twins one goes with the lines of its file and the other against them;
      and the one against them joins a synthetic run to a body numbered after it. */
  lemma TwinsNeedARun(scan: Scan, p: Pair, q: Pair)
    requires Numbered(scan.frags) && InRange(scan, p) && InRange(scan, q)
    requires p.a < p.b && q.a < q.b && CrosswiseTwins(scan, p, q)
    requires ValidRanges(scan, p) && DistinctSites(scan, p) && RealPair(scan, p) && RealPair(scan, q)
    ensures OneFile(scan, p) && OneFile(scan, q)
    ensures AgainstLines(scan, p) != AgainstLines(scan, q)
    ensures AgainstLines(scan, p) ==> RunAndBody(scan, p)
    ensures AgainstLines(scan, q) ==> RunAndBody(scan, q)
  {
    TwinsShareAFile(scan, p, q);
    AgainstNeedsRun(scan, p);
    AgainstNeedsRun(scan, q);
  }

  lemma AgainstNeedsRun(scan: Scan, p: Pair)
    requires Numbered(scan.frags) && InRange(scan, p) && p.a < p.b && OneFile(scan, p) && RealPair(scan, p)
    ensures AgainstLines(scan, p) ==> RunAndBody(scan, p)
  {
  }

  /** So pairs of whole bodies are never twins of each other. */
  lemma BodyPairsHaveNoTwins(scan: Scan, p: Pair, q: Pair)
    requires Numbered(scan.frags) && InRange(scan, p) && InRange(scan, q) && p.a < p.b && q.a < q.b
    requires ValidRanges(scan, p) && DistinctSites(scan, p)
    requires !FragA(scan, p).boundary && !FragB(scan, p).boundary
    requires !FragA(scan, q).boundary && !FragB(scan, q).boundary
    ensures !CrosswiseTwins(scan, p, q)
  {
    hide Numbered, DistinctSites, ValidRanges, CrosswiseTwins;
    if CrosswiseTwins(scan, p, q) {
      TwinsNeedARun(scan, p, q);
    }
  }

  /** The candidates as the scanner makes them: apart, lower number first. */
  ghost predicate ScannerPairs(scan: Scan, cands: seq<Pair>) {
    forall p :: p in cands ==> InRange(scan, p) && p.a < p.b && ValidRanges(scan, p) && DistinctSites(scan, p)
  }

  /** With synthetic runs switched off, the containment pass never loses a clone. */
  lemma WithoutRunsNoCloneLost(scan: Scan, cands: seq<Pair>, p: Pair)
    requires Numbered(scan.frags) && ScannerPairs(scan, cands) && p in cands
    requires forall i: nat :: i < |scan.frags| ==> !scan.frags[i].boundary
    ensures exists q :: q in Uncontained(scan, cands) && PairContainedIn(scan, p, q)
  {
    hide Numbered, DistinctSites, ValidRanges, CrosswiseTwins, PairContainedIn, Uncontained;
    forall q | q in cands
      ensures !HasTwin(scan, cands, q)
    {
      forall r | r in cands
        ensures !CrosswiseTwins(scan, q, r)
      {
        BodyPairsHaveNoTwins(scan, q, r);
      }
    }
    NoRealCloneLost(scan, cands, p);
  }

  /** No filter on single pairs drops or changes the pair. */
  ghost predicate PassesFilters(scan: Scan, p: Pair) {
    && InRange(scan, p) && p.a < p.b && OneFile(scan, p) && RealPair(scan, p)
    && ValidRanges(scan, p) && DistinctSites(scan, p) && BalancedSpans(scan, p) && JointFloor(scan, p)
    && HandWritten(scan, p) && NotDataTable(scan, p) && NotBoilerplate(scan, p) && !FileLocalIdiom(scan, p)
  }

  /** The pairs come to the containment pass as they are, in this order. */
  lemma FiltersKeepBoth(scan: Scan, p: Pair, q: Pair)
    requires PassesFilters(scan, p) && PassesFilters(scan, q)
    requires CanonKey(p) != CanonKey(q) && !Ranks(scan, q, p)
    ensures AfterP1Guards(scan, [p, q]) == [p, q]
  {
    hide ValidRanges, DistinctSites, BalancedSpans, JointFloor, HandWritten, NotDataTable, NotBoilerplate,
      FileLocalIdiom;
    hide Ranks, CanonKey, WholeFilePair, RealPair, Filter, SortBy, Canonical, Mapped, FileKey;
    var s := [p, q];
    RankedPair(scan, p, q);
    CanonicalPair(p, q);
    FilterAll((x: Pair) => ValidRanges(scan, x), s);
    FilterAll((x: Pair) => DistinctSites(scan, x), s);
    FilterAll((x: Pair) => BalancedSpans(scan, x), s);
    FilterAll((x: Pair) => JointFloor(scan, x), s);
    FilterAll((x: Pair) => !InWholeFileClone(scan, s, x), s);
    FilterAll((x: Pair) => HandWritten(scan, x), s);
    FilterAll((x: Pair) => NotDataTable(scan, x), s);
    FilterAll((x: Pair) => NotBoilerplate(scan, x), s);
    assert Mapped((x: Pair) => DownWeighted(scan, x), s) == s;
  }

  lemma RankedPair(scan: Scan, p: Pair, q: Pair)
    requires !Ranks(scan, q, p)
    ensures Ranked(scan, [p, q]) == [p, q]
  {
    hide Ranks;
    var lt := (x: Pair, y: Pair) => Ranks(scan, x, y);
    assert [p, q][1..] == [q] && [q][1..] == [];
    assert SortBy(lt, [q]) == [q];
  }

  lemma CanonicalPair(p: Pair, q: Pair)
    requires CanonKey(p) != CanonKey(q)
    ensures Canonical([p, q], {}) == [p, q]
  {
    hide CanonKey;
    assert [p, q][1..] == [q] && [q][1..] == [];
    assert Canonical([q], {CanonKey(p)}) == [q];
    assert {} + {CanonKey(p)} == {CanonKey(p)};
  }

  /** Twins that pass the filters leave nothing behind. */
  lemma TwinsLeaveNothing(scan: Scan, p: Pair, q: Pair)
    requires PassesFilters(scan, p) && PassesFilters(scan, q) && CrosswiseTwins(scan, p, q)
    requires CanonKey(p) != CanonKey(q) && !Ranks(scan, q, p)
    ensures Survivors(scan, [p, q]) == []
  {
    hide AfterP1Guards, Uncontained, CrosswiseTwins, Ranks, CanonKey, ValidRanges, DistinctSites, BalancedSpans;
    hide JointFloor, HandWritten, NotDataTable, NotBoilerplate, FileLocalIdiom, RealPair, OneFile;
    FiltersKeepBoth(scan, p, q);
    TwinsDropEachOther(scan, p, q);
  }

  /** Lines of a body, of its suffix run, and of the two bodies nested in it. */
  function NestedFragments(): seq<Fragment> {
    var body := Fragment("f.cpp", 1, 40, 240, 20, map[], [], 0.8, false, false);
    [ body,
      body.(startLine := 30, tokenCount := 60, statementCount := 5, nested := true, boundary := true),
      body.(startLine := 10, endLine := 20, tokenCount := 60, statementCount := 5, nested := true),
      body.(startLine := 30, tokenCount := 58, statementCount := 5, nested := true) ]
  }

  lemma NestedAreNumbered()
    ensures Numbered(NestedFragments())
  {
    hide BodiesInOrder, FileByFile;
    NestedLines(NestedFragments());
    InOneFile(NestedFragments(), "f.cpp");
    LinesInOrder(NestedFragments());
  }

  lemma NestedLines(frags: seq<Fragment>)
    requires frags == NestedFragments()
    ensures |frags| == 4 && (forall i: nat :: i < |frags| ==> frags[i].file == "f.cpp")
    ensures !frags[0].boundary && frags[1].boundary && !frags[2].boundary && !frags[3].boundary
    ensures frags[0].startLine == 1 && frags[2].startLine == 10 && frags[3].startLine == 30
  {
  }

  lemma InOneFile(frags: seq<Fragment>, file: string)
    requires forall i: nat :: i < |frags| ==> frags[i].file == file
    ensures FileByFile(frags)
  {
  }

  lemma LinesInOrder(frags: seq<Fragment>)
    requires |frags| == 4 && frags[1].boundary
    requires frags[0].startLine <= frags[2].startLine <= frags[3].startLine
    ensures BodiesInOrder(frags)
  {
  }

  const OPTIONS: Options := Options(false, false, 0.6, true, 0.75, 0.5, 2, 6, 0, 0.6, true, true, true, true)

  lemma NothingFrequent(frags: seq<Fragment>, f: Fragment)
    requires f.bag.Keys == {}
    ensures FrequentTokens(frags, f, f.bag.Keys) == 0
  {
  }

  /** A perfect match between two of the fragments on different lines passes. */
  lemma NestedPairPasses(scan: Scan, p: Pair)
    requires scan.frags == NestedFragments() && scan.opts == OPTIONS && !scan.generated("f.cpp")
    requires 0 < p.a < p.b < 4 && (p.a == 2 || p.b == 2) && p.weighted == 1.0 && p.line == 1.0
    ensures PassesFilters(scan, p)
  {
    NothingFrequent(scan.frags, FragA(scan, p));
  }

  lemma NestedAreTwins(scan: Scan, p: Pair, q: Pair)
    requires scan.frags == NestedFragments() && p.a == 2 && p.b == 3 && q.a == 1 && q.b == 2
    ensures CrosswiseTwins(scan, p, q) && CanonKey(p) != CanonKey(q)
  {
  }

  /** With runs there are twins that pass every filter on single pairs and reach the
      containment pass together: the suffix run of a body, on the lines of the second nested
      body, against the first nested body, and the two nested bodies against each other. They
      drop each other, and the scan reports nothing of the clone. */
  lemma TwinsExist()
    ensures exists scan: Scan, p: Pair, q: Pair ::
      && scan.frags == NestedFragments() && Numbered(scan.frags) && CrosswiseTwins(scan, p, q)
      && PassesFilters(scan, p) && PassesFilters(scan, q)
      && AfterP1Guards(scan, [p, q]) == [p, q] && Survivors(scan, [p, q]) == []
  {
    hide PassesFilters, CrosswiseTwins, Numbered, NestedFragments, Survivors, AfterP1Guards, CanonKey;
    var scan := Scan(NestedFragments(), OPTIONS, s => false, (x, y) => "EXACT");
    var p := Pair(2, 3, 1.0, 1.0, 1.0, 0.0, 8, 8, "");
    var q := p.(a := 1, b := 2);
    NestedAreNumbered();
    NestedPairPasses(scan, p);
    NestedPairPasses(scan, q);
    NestedAreTwins(scan, p, q);
    FiltersKeepBoth(scan, p, q);
    TwinsLeaveNothing(scan, p, q);
  }
}
