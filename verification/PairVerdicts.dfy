/** What the pipeline reports, told by the fields of the fragments and pairs: the order of the
    ranking, the verdict on a pair alone, and the verdict on two pairs over the same files. */
module PairVerdicts {
  import opened Fragments
  import opened Sorting
  import opened PairFilters
  import opened StringOrder

  // ---------------------------------------------------------------------- ranking

  lemma RanksIsOrder(scan: Scan)
    ensures StrictWeak((p: Pair, q: Pair) => Ranks(scan, p, q))
  {
  }

  /** Best first, by the measure that the options select. */
  lemma RankedDescends(scan: Scan, cands: seq<Pair>, i: nat, j: nat)
    requires i < j < |cands|
    ensures var r := Ranked(scan, cands);
      && multiset(r) == multiset(cands) && |r| == |cands|
      && (scan.opts.precise ==> r[i].lcs >= r[j].lcs)
      && (!scan.opts.precise && scan.opts.metricPlain ==> r[i].plain >= r[j].plain)
      && (!scan.opts.precise && !scan.opts.metricPlain ==> r[i].weighted >= r[j].weighted)
  {
    var lt := (p: Pair, q: Pair) => Ranks(scan, p, q);
    RanksIsOrder(scan);
    SortOrdered(lt, cands);
    SortElements(lt, cands);
    SortMembers(lt, cands);
    var r := SortBy(lt, cands);
    assert !lt(r[j], r[i]);
  }

  lemma {:induction false} SortLevel<T(!new)>(lt: (T, T) -> bool, s: seq<T>)
    requires forall i: nat, j: nat :: i < j < |s| ==> !lt(s[j], s[i])
    ensures SortBy(lt, s) == s
    decreases |s|
  {
    if s != [] {
      SortLevel(lt, s[1..]);
      assert s == [s[0]] + s[1..];
    }
  }

  lemma LevelStays(scan: Scan, s: seq<Pair>, score: real)
    requires forall p :: p in s ==> ScoreOf(scan, p) == score
    ensures SortBy((p: Pair, q: Pair) => Ranks(scan, p, q), s) == s
  {
    hide ScoreOf;
    SortLevel((p: Pair, q: Pair) => Ranks(scan, p, q), s);
  }

  /** Pairs of equal measure stay in key order. */
  lemma RankedIsStable(scan: Scan, cands: seq<Pair>, score: real)
    ensures Filter(p => ScoreOf(scan, p) == score, Ranked(scan, cands))
         == Filter(p => ScoreOf(scan, p) == score, cands)
  {
    hide ScoreOf, SortBy;
    var keep := (p: Pair) => ScoreOf(scan, p) == score;
    RanksIsOrder(scan);
    SortFilter((p: Pair, q: Pair) => Ranks(scan, p, q), keep, cands);
    LevelStays(scan, Filter(keep, cands), score);
  }

  /** Candidates are the measured pairs that touch the focus and reach the threshold. */
  lemma ScoredIff(scan: Scan, focus: set<string>, measured: seq<Pair>, p: Pair)
    requires InRange(scan, p)
    ensures var score := if scan.opts.precise then p.lcs else if scan.opts.metricPlain then p.plain else p.weighted;
      (p in Scored(scan, focus, measured)) == (p in measured && score >= scan.opts.simThreshold
        && (focus == {} || scan.frags[p.a].file in focus || scan.frags[p.b].file in focus))
  {
  }

  /** Of two pairs over the same two fragments, in either order, only the first counts. */
  lemma CanonicalIsUnordered(p: Pair, q: Pair)
    ensures Canonical([p, q], {}) == if {p.a, p.b} == {q.a, q.b} then [p] else [p, q]
  {
    assert [p, q][1..] == [q] && [q][1..] == [];
    assert Canonical([q], {} + {CanonKey(p)}) == if CanonKey(q) == CanonKey(p) then [] else [q];
    if {p.a, p.b} == {q.a, q.b} {
      assert p.a in {q.a, q.b} && p.b in {q.a, q.b} && q.a in {p.a, p.b} && q.b in {p.a, p.b};
    }
  }

  // --------------------------------------------------------------- one pair alone

  /** Both line ranges are real. */
  predicate RealRanges(a: Fragment, b: Fragment) {
    0 < a.startLine <= a.endLine && 0 < b.startLine <= b.endLine
  }

  /** In one file at least one line lies between the two. */
  predicate Separate(a: Fragment, b: Fragment) {
    a.file == b.file ==> a.endLine + 1 < b.startLine || b.endLine + 1 < a.startLine
  }

  /** Neither has more than twice the lines of the other. */
  predicate AlikeInSize(a: Fragment, b: Fragment) {
    var la, lb := a.endLine + 1 - a.startLine, b.endLine + 1 - b.startLine;
    la <= 2 * lb && lb <= 2 * la
  }

  /** Enough similar tokens, lines and statements; or a long enough run of equal lines, by rare
      tokens, in a fragment that is no table. */
  predicate JointlyStrong(o: Options, a: Fragment, b: Fragment, p: Pair) {
    || (p.weighted >= o.jointWeightedThreshold && p.line >= o.jointLineThreshold
        && a.statementCount >= o.jointMinClassicStatements && b.statementCount >= o.jointMinClassicStatements)
    || (p.weighted >= o.jointRunWeightedThreshold && 0 < o.jointMinSharedLines <= p.sharedLines
        && p.sharedRare >= o.jointMinSharedRare && (a.diversity >= 0.30 || b.diversity >= 0.30))
  }

  /** Two tables of literals are no clone, nor are two small fragments that are not nearly equal. */
  predicate MoreThanNoise(scan: Scan, a: Fragment, b: Fragment, p: Pair) {
    && (scan.opts.enableDataTableDrop && scan.cloneType(a, b) in {"LITERAL", "MIXED"} ==>
          a.diversity >= 0.30 || b.diversity >= 0.30)
    && (a.tokenCount >= 20 || b.tokenCount >= 20 || p.weighted >= 0.90)
  }

  /** All that is asked of a pair by itself. */
  predicate Admitted(scan: Scan, p: Pair)
    requires InRange(scan, p)
  {
    var a, b, o := scan.frags[p.a], scan.frags[p.b], scan.opts;
    && RealRanges(a, b) && Separate(a, b) && AlikeInSize(a, b)
    && (o.enableJointFloor ==> JointlyStrong(o, a, b, p))
    && (o.enablePathGuards ==> !scan.generated(a.file) && !scan.generated(b.file))
    && (o.enableP1Guards ==> MoreThanNoise(scan, a, b, p))
  }

  predicate PassesSite(scan: Scan, p: Pair) {
    && ValidRanges(scan, p) && DistinctSites(scan, p) && BalancedSpans(scan, p)
    && (scan.opts.enableJointFloor ==> JointFloor(scan, p))
  }

  predicate PassesGuards(scan: Scan, p: Pair) {
    && (scan.opts.enablePathGuards ==> HandWritten(scan, p))
    && (scan.opts.enableP1Guards ==> NotDataTable(scan, p) && NotBoilerplate(scan, p))
  }

  lemma AdmittedIsPasses(scan: Scan, p: Pair)
    requires InRange(scan, p)
    ensures Admitted(scan, p) <==> PassesSite(scan, p) && PassesGuards(scan, p)
  {
  }

  lemma FilterOne<T(!new)>(keep: T -> bool, x: T)
    ensures Filter(keep, [x]) == if keep(x) then [x] else []
    ensures Filter(keep, []) == []
  {
    assert [x][1..] == [];
  }

  lemma SiteFiltersOne(scan: Scan, p: Pair)
    ensures AfterSiteFilters(scan, [p]) == if PassesSite(scan, p) then [p] else []
  {
    hide Ranks, ValidRanges, DistinctSites, BalancedSpans, JointFloor, Filter, Canonical, SortBy;
    OneIsRanked(scan, p);
    FilterOne((x: Pair) => ValidRanges(scan, x), p);
    FilterOne((x: Pair) => DistinctSites(scan, x), p);
    FilterOne((x: Pair) => BalancedSpans(scan, x), p);
    FilterOne((x: Pair) => JointFloor(scan, x), p);
  }

  lemma OneIsRanked(scan: Scan, p: Pair)
    ensures Ranked(scan, [p]) == [p] && Canonical([p], {}) == [p]
  {
    SortLevel((x: Pair, y: Pair) => Ranks(scan, x, y), [p]);
    CanonicalOne([p], {});
  }

  lemma CanonicalOne(s: seq<Pair>, seen: set<(nat, nat)>)
    requires |s| == 1 && seen == {}
    ensures Canonical(s, seen) == s
  {
    assert s[1..] == [] && s == [s[0]] + [];
  }

  /** A pair alone is no evidence that two files are copies of each other. */
  lemma NoWholeFileOne(scan: Scan, p: Pair)
    ensures WithoutWholeFiles(scan, [p]) == [p] && WithoutWholeFiles(scan, []) == []
  {
    hide CountFrags;
    var key := FileKey(scan, p);
    FilterOne((q: Pair) => WholeBodies(scan, q) && FileKey(scan, q) == key, p);
    assert CountMatched(scan, [p], key) <= 1;
    FilterOne((x: Pair) => !InWholeFileClone(scan, [p], x), p);
  }

  /** The pair as it leaves the guards. */
  ghost function Weighed(scan: Scan, p: Pair): Pair {
    if scan.opts.enableP1Guards then DownWeighted(scan, p) else p
  }

  lemma MapOne(f: Pair -> Pair, p: Pair)
    ensures Mapped(f, [p]) == [f(p)] && Mapped(f, []) == []
  {
  }

  lemma GuardsOne(scan: Scan, p: Pair)
    ensures AfterP1Guards(scan, [p]) == if PassesSite(scan, p) && PassesGuards(scan, p) then [Weighed(scan, p)] else []
  {
    hide AfterSiteFilters, PassesSite, HandWritten, NotDataTable, NotBoilerplate, DownWeighted, Filter, Mapped,
      WithoutWholeFiles;
    SiteFiltersOne(scan, p);
    NoWholeFileOne(scan, p);
    FilterOne((x: Pair) => HandWritten(scan, x), p);
    FilterOne((x: Pair) => NotDataTable(scan, x), p);
    FilterOne((x: Pair) => NotBoilerplate(scan, x), p);
    MapOne((x: Pair) => DownWeighted(scan, x), p);
  }

  lemma NothingDropsOne(scan: Scan, p: Pair)
    ensures Disjointed(scan, Uncontained(scan, [p]), []) == [p]
    ensures Disjointed(scan, Uncontained(scan, []), []) == []
  {
    hide SpanContains, SpanOverlaps, BoundaryPair;
    FilterOne((x: Pair) => !Dropped(scan, [p], x), p);
    assert !ShouldDrop(scan, p, p);
    assert [p][1..] == [] && [] + [p] == [p];
  }

  /** A pair alone is reported exactly if it is admitted, with the clone type of its fragments
      and, but for a file-local idiom, its weight. */
  lemma PairAlone(scan: Scan, p: Pair)
    requires InRange(scan, p)
    ensures var q := Weighed(scan, p);
      Survivors(scan, [p])
        == if Admitted(scan, p) then [q.(kind := scan.cloneType(scan.frags[p.a], scan.frags[p.b]))] else []
  {
    hide AfterP1Guards, Uncontained, Disjointed, Admitted, PassesSite, PassesGuards, FileLocalIdiom, Mapped;
    GuardsOne(scan, p);
    AdmittedIsPasses(scan, p);
    NothingDropsOne(scan, Weighed(scan, p));
    MapOne((x: Pair) => Classified(scan, x), Weighed(scan, p));
  }

  // ----------------------------------------------------- two pairs over two files

  /** Two pairs that come to the containment pass together: alone each would be reported. */
  lemma GuardsTwo(scan: Scan, p: Pair, q: Pair)
    requires PassesSite(scan, p) && PassesGuards(scan, p) && PassesSite(scan, q) && PassesGuards(scan, q)
    requires CanonKey(p) != CanonKey(q) && !Ranks(scan, q, p) && !scan.opts.enableWholeFileGuard
    ensures AfterP1Guards(scan, [p, q]) == [Weighed(scan, p), Weighed(scan, q)]
  {
    hide Ranks, CanonKey, ValidRanges, DistinctSites, BalancedSpans, JointFloor, HandWritten, NotDataTable,
      NotBoilerplate;
    hide DownWeighted, Filter, Mapped, SortBy, Canonical;
    var s := [p, q];
    TwoAreRanked(scan, p, q);
    FilterAll((x: Pair) => ValidRanges(scan, x), s);
    FilterAll((x: Pair) => DistinctSites(scan, x), s);
    FilterAll((x: Pair) => BalancedSpans(scan, x), s);
    if scan.opts.enableJointFloor {
      FilterAll((x: Pair) => JointFloor(scan, x), s);
    }
    if scan.opts.enablePathGuards {
      FilterAll((x: Pair) => HandWritten(scan, x), s);
    }
    if scan.opts.enableP1Guards {
      FilterAll((x: Pair) => NotDataTable(scan, x), s);
      FilterAll((x: Pair) => NotBoilerplate(scan, x), s);
      MapTwo((x: Pair) => DownWeighted(scan, x), p, q);
    }
  }

  lemma MapTwo(f: Pair -> Pair, p: Pair, q: Pair)
    ensures Mapped(f, [p, q]) == [f(p), f(q)]
  {
    var r := Mapped(f, [p, q]);
    assert r == [r[0], r[1]];
  }

  lemma TwoAreRanked(scan: Scan, p: Pair, q: Pair)
    requires CanonKey(p) != CanonKey(q) && !Ranks(scan, q, p)
    ensures Ranked(scan, [p, q]) == [p, q] && Canonical([p, q], {}) == [p, q]
  {
    hide CanonKey, Ranks;
    SortLevel((x: Pair, y: Pair) => Ranks(scan, x, y), [p, q]);
    assert [p, q][1..] == [q] && [q][1..] == [];
    assert Canonical([q], {} + {CanonKey(p)}) == [q];
  }

  /** The lines of `x` lie within those of `y`. */
  predicate Within(x: Fragment, y: Fragment) {
    y.startLine <= x.startLine && x.endLine <= y.endLine
  }

  predicate Meet(x: Fragment, y: Fragment) {
    x.startLine <= y.endLine && y.startLine <= x.endLine
  }

  /** Whether the pair (a, b) falls to (c, d), fragments of the same two files: a pair of
      synthetic runs to any other pair that meets it on both sides; else a pair to another of
      its own sort that has its lines and more. */
  predicate Falls(a: Fragment, b: Fragment, c: Fragment, d: Fragment) {
    var run, other := a.boundary && b.boundary, c.boundary && d.boundary;
    && !(Within(a, c) && Within(c, a) && Within(b, d) && Within(d, b))
    && if run && !other then Meet(a, c) && Meet(b, d)
       else run == other && Within(a, c) && Within(b, d)
  }

  lemma FallsIsShouldDrop(scan: Scan, p: Pair, q: Pair)
    requires InRange(scan, p) && InRange(scan, q)
    requires scan.frags[p.a].file == scan.frags[q.a].file != scan.frags[p.b].file == scan.frags[q.b].file
    ensures ShouldDrop(scan, p, q) <==> Falls(scan.frags[p.a], scan.frags[p.b], scan.frags[q.a], scan.frags[q.b])
    ensures PairOverlaps(scan, p, q) <==>
      Meet(scan.frags[p.a], scan.frags[q.a]) && Meet(scan.frags[p.b], scan.frags[q.b])
    ensures !ShouldDrop(scan, p, p)
  {
  }

  lemma UncontainedTwo(scan: Scan, p: Pair, q: Pair)
    requires !ShouldDrop(scan, p, p) && !ShouldDrop(scan, q, q)
    ensures Uncontained(scan, [p, q])
         == (if ShouldDrop(scan, p, q) then [] else [p]) + (if ShouldDrop(scan, q, p) then [] else [q])
  {
    hide ShouldDrop, Filter;
    var s := [p, q];
    assert s[0] == p && s[1] == q;
    assert Dropped(scan, s, p) == ShouldDrop(scan, p, q);
    assert Dropped(scan, s, q) == ShouldDrop(scan, q, p);
    FilterTwo((x: Pair) => !Dropped(scan, s, x), p, q);
  }

  lemma PassesOfTwo(scan: Scan, p: Pair, q: Pair)
    requires !ShouldDrop(scan, p, p) && !ShouldDrop(scan, q, q) && PairOverlaps(scan, p, q) == PairOverlaps(scan, q, p)
    ensures Disjointed(scan, Uncontained(scan, [p, q]), [])
         == if ShouldDrop(scan, p, q) then (if ShouldDrop(scan, q, p) then [] else [q])
            else if ShouldDrop(scan, q, p) || PairOverlaps(scan, p, q) then [p]
            else [p, q]
  {
    hide ShouldDrop, PairOverlaps, Uncontained, Disjointed;
    UncontainedTwo(scan, p, q);
    assert [] + [q] == [q] && [p] + [q] == [p, q] && [p] + [] == [p] && [] + [p] == [p];
    DisjointedOne(scan, p, []);
    DisjointedOne(scan, q, []);
    DisjointedTwo(scan, p, q);
  }

  lemma DisjointedOne(scan: Scan, p: Pair, kept: seq<Pair>)
    ensures Disjointed(scan, [], kept) == kept
    ensures Disjointed(scan, [p], kept) == if OverlapsAny(scan, kept, p) then kept else kept + [p]
  {
    hide PairOverlaps, OverlapsAny;
    assert [p][0] == p && [p][1..] == [];
  }

  lemma DisjointedTwo(scan: Scan, p: Pair, q: Pair)
    ensures Disjointed(scan, [p, q], []) == if PairOverlaps(scan, q, p) then [p] else [p, q]
  {
    hide PairOverlaps, Disjointed;
    DisjointedFirst(scan, p, [q]);
    DisjointedOne(scan, q, [p]);
    assert [p][0] == p && [p] + [q] == [p, q];
    assert OverlapsAny(scan, [p], q) == PairOverlaps(scan, q, p);
  }

  lemma DisjointedFirst(scan: Scan, p: Pair, rest: seq<Pair>)
    ensures Disjointed(scan, [p] + rest, []) == Disjointed(scan, rest, [p])
  {
    hide PairOverlaps;
    assert ([p] + rest)[0] == p && ([p] + rest)[1..] == rest && [] + [p] == [p];
  }

  lemma FilterTwo<T(!new)>(keep: T -> bool, x: T, y: T)
    ensures Filter(keep, [x, y]) == (if keep(x) then [x] else []) + (if keep(y) then [y] else [])
  {
    FilterConcat(keep, [x], [y]);
    FilterOne(keep, x);
    FilterOne(keep, y);
    assert [x, y] == [x] + [y];
  }

  /** As it is reported. */
  ghost function Final(scan: Scan, p: Pair): Pair
    requires InRange(scan, p)
  {
    Weighed(scan, p).(kind := scan.cloneType(scan.frags[p.a], scan.frags[p.b]))
  }

  lemma MapFinal(scan: Scan, p: Pair, q: Pair)
    requires InRange(scan, p) && InRange(scan, q)
    ensures var f := (x: Pair) => Classified(scan, x);
      && Mapped(f, [Weighed(scan, p), Weighed(scan, q)]) == [Final(scan, p), Final(scan, q)]
      && Mapped(f, [Weighed(scan, p)]) == [Final(scan, p)] && Mapped(f, [Weighed(scan, q)]) == [Final(scan, q)]
  {
    hide FileLocalIdiom, Mapped;
    var f := (x: Pair) => Classified(scan, x);
    MapTwo(f, Weighed(scan, p), Weighed(scan, q));
    MapOne(f, Weighed(scan, p));
    MapOne(f, Weighed(scan, q));
  }

  lemma MeetIsSymmetric(x: Fragment, y: Fragment)
    ensures Meet(x, y) == Meet(y, x)
  {
  }

  lemma FallsOneWay(a: Fragment, b: Fragment, c: Fragment, d: Fragment)
    ensures !(Falls(a, b, c, d) && Falls(c, d, a, b))
  {
  }

  /** Two admitted pairs over the same two files: the one that falls to the other is dropped;
      of two that meet on both sides and neither of which falls, the better is reported; else
      both are, the better first. */
  lemma TwoPairs(scan: Scan, p: Pair, q: Pair)
    requires InRange(scan, p) && InRange(scan, q) && Admitted(scan, p) && Admitted(scan, q)
    requires {p.a, p.b} != {q.a, q.b} && !scan.opts.enableWholeFileGuard
    requires scan.frags[p.a].file == scan.frags[q.a].file != scan.frags[p.b].file == scan.frags[q.b].file
    requires if scan.opts.precise then p.lcs >= q.lcs
             else if scan.opts.metricPlain then p.plain >= q.plain else p.weighted >= q.weighted
    ensures var a, b, c, d := scan.frags[p.a], scan.frags[p.b], scan.frags[q.a], scan.frags[q.b];
      Survivors(scan, [p, q])
        == if Falls(a, b, c, d) then [Final(scan, q)]
           else if Falls(c, d, a, b) || (Meet(a, c) && Meet(b, d)) then [Final(scan, p)]
           else [Final(scan, p), Final(scan, q)]
  {
    var a, b, c, d := scan.frags[p.a], scan.frags[p.b], scan.frags[q.a], scan.frags[q.b];
    var x, y := Weighed(scan, p), Weighed(scan, q);
    hide Admitted, PassesSite, PassesGuards, FileLocalIdiom, Falls, Meet, ShouldDrop, PairOverlaps, Final, Mapped;
    hide Uncontained, Disjointed, AfterP1Guards, Classified;
    assert CanonKey(p) != CanonKey(q) && !Ranks(scan, q, p);
    AdmittedIsPasses(scan, p);
    AdmittedIsPasses(scan, q);
    GuardsTwo(scan, p, q);
    FallsIsShouldDrop(scan, x, y);
    FallsIsShouldDrop(scan, y, x);
    MeetIsSymmetric(a, c);
    MeetIsSymmetric(b, d);
    FallsOneWay(a, b, c, d);
    PassesOfTwo(scan, x, y);
    MapFinal(scan, p, q);
  }

  /** The order in which candidates come does not matter to pairs of different measure. */
  lemma BetterComesFirst(scan: Scan, p: Pair, q: Pair)
    requires if scan.opts.precise then p.lcs > q.lcs
             else if scan.opts.metricPlain then p.plain > q.plain else p.weighted > q.weighted
    ensures Ranked(scan, [q, p]) == [p, q] && Survivors(scan, [q, p]) == Survivors(scan, [p, q])
  {
    hide AfterSiteFilters, AfterP1Guards;
    var lt := (x: Pair, y: Pair) => Ranks(scan, x, y);
    assert [q, p][1..] == [p] && [p][1..] == [];
    assert SortBy(lt, [p]) == [p];
    SortLevel(lt, [p, q]);
    assert Ranked(scan, [q, p]) == [p, q] == Ranked(scan, [p, q]);
    SameRankedSame(scan, [q, p], [p, q]);
  }

  lemma SameRankedSame(scan: Scan, s: seq<Pair>, t: seq<Pair>)
    requires Ranked(scan, s) == Ranked(scan, t)
    ensures Survivors(scan, s) == Survivors(scan, t)
  {
    hide Ranked;
  }

  // ----------------------------------------------------------- file-local idioms

  lemma FrequentOne(frags: seq<Fragment>, f: Fragment, t: string)
    ensures FrequentTokens(frags, f, {t}) == FrequentCount(frags, f, t)
  {
    var u :|
      u in {t} && FrequentTokens(frags, f, {t}) == FrequentCount(frags, f, u) + FrequentTokens(frags, f, {t} - {u});
    assert {t} - {u} == {};
  }

  lemma FreqOfTwo(frags: seq<Fragment>, file: string, t: string)
    requires |frags| == 2 && (forall i: nat :: i < 2 ==> frags[i].file == file && t in frags[i].bag)
    ensures FileFreq(frags, file, t) == frags[0].bag[t] + frags[1].bag[t]
  {
    assert frags[..1][..0] == [];
    assert FileFreq(frags[..1], file, t) == frags[0].bag[t];
  }

  /** A file of two fragments that repeat one token: the pair loses a fifth of its weight exactly
      if the token occurs more than ten times in the file and makes up more than half of the
      first fragment. */
  lemma IdiomOfTwo(scan: Scan, p: Pair, t: string, n: nat, m: nat)
    requires |scan.frags| == 2 && p.a == 0 && p.b == 1 && scan.frags[0].file == scan.frags[1].file
    requires scan.frags[0].bag == map[t := n] && scan.frags[1].bag == map[t := m]
    ensures Weighed(scan, p)
         == if scan.opts.enableP1Guards && n + m > 10 && 2 * n > scan.frags[0].tokenCount
            then p.(weighted := 0.80 * p.weighted) else p
  {
    hide FrequentTokens, FileFreq;
    var f := scan.frags[0];
    assert f.bag.Keys == {t};
    FrequentOne(scan.frags, f, t);
    FreqOfTwo(scan.frags, f.file, t);
  }

  /** Pairs over two files, or of tokens that are rare in their file, keep their weight. */
  lemma OtherwiseFullWeight(scan: Scan, p: Pair)
    requires InRange(scan, p) && scan.frags[p.a].file != scan.frags[p.b].file
    ensures Weighed(scan, p) == p
  {
    hide FrequentTokens;
  }

  // ------------------------------------------------------------- whole-file clones

  /** The whole bodies of a file. */
  ghost function BodiesIn(frags: seq<Fragment>, file: string): set<nat> {
    set i: nat | i < |frags| && frags[i].file == file && !frags[i].nested
  }

  lemma BodiesInNext(frags: seq<Fragment>, file: string, n: nat)
    requires |frags| == n + 1
    ensures |BodiesIn(frags, file)|
         == |BodiesIn(frags[..n], file)| + if frags[n].file == file && !frags[n].nested then 1 else 0
  {
    var less, all := BodiesIn(frags[..n], file), BodiesIn(frags, file);
    var here := frags[n].file == file && !frags[n].nested;
    forall i: nat
      ensures i in all <==> i in less || (i == n && here)
    {
      assert i < n ==> frags[..n][i] == frags[i];
    }
    GrowsByOne(less, all, n, here);
  }

  lemma {:induction false} BodiesOfFile(frags: seq<Fragment>, file: string)
    ensures CountFrags(frags, file) == |BodiesIn(frags, file)|
  {
    if frags == [] {
      assert BodiesIn(frags, file) == {};
    } else {
      hide BodiesIn;
      BodiesOfFile(frags[..|frags| - 1], file);
      BodiesInNext(frags, file, |frags| - 1);
    }
  }

  /** A pair of whole bodies over the files `f` and `g`, either way round. */
  predicate Joins(scan: Scan, q: Pair, f: string, g: string) {
    && !FragA(scan, q).nested && !FragB(scan, q).nested && f != g
    && {FragA(scan, q).file, FragB(scan, q).file} == {f, g}
  }

  lemma JoinsIsKey(scan: Scan, p: Pair, q: Pair)
    requires FragA(scan, p).file != FragB(scan, p).file
    ensures Joins(scan, q, FragA(scan, p).file, FragB(scan, p).file)
       <==> WholeBodies(scan, q) && FileKey(scan, q) == FileKey(scan, p)
  {
    hide StringLess;
    var f, g, h, k := FragA(scan, p).file, FragB(scan, p).file, FragA(scan, q).file, FragB(scan, q).file;
    Trichotomy(f, g);
    OneWay(f, g);
    SameTwo(f, g, h, k);
  }

  lemma OneWay(a: string, b: string)
    ensures !(StringLess(a, b) && StringLess(b, a))
  {
    hide StringLess;
    if StringLess(a, b) && StringLess(b, a) {
      Transitive(a, b, a);
      Irreflexive(a);
    }
  }

  lemma SameTwo<T>(f: T, g: T, h: T, k: T)
    requires f != g
    ensures {h, k} == {f, g} <==> (h == f && k == g) || (h == g && k == f)
  {
    if {h, k} == {f, g} {
      assert f in {h, k} && g in {h, k} && h in {f, g};
    }
  }

  /** A pair over two files is dropped exactly if each has at least two whole bodies, and at
      least four fifths as many pairs of whole bodies join the two as either has bodies. */
  lemma WholeFilesIff(scan: Scan, s: seq<Pair>, p: Pair)
    requires InRange(scan, p)
    ensures var f, g := scan.frags[p.a].file, scan.frags[p.b].file;
            var x, y := |BodiesIn(scan.frags, f)|, |BodiesIn(scan.frags, g)|;
            var n := |Filter(q => Joins(scan, q, f, g), s)|;
      (p in WithoutWholeFiles(scan, s))
        == (p in s && !(f != g && x >= 2 && y >= 2 && 5 * n >= 4 * x && 5 * n >= 4 * y))
  {
    hide CountFrags, BodiesIn, Joins, WholeBodies, FileKey;
    var f, g := scan.frags[p.a].file, scan.frags[p.b].file;
    BodiesOfFile(scan.frags, f);
    BodiesOfFile(scan.frags, g);
    if f != g {
      forall q
        ensures Joins(scan, q, f, g) == (WholeBodies(scan, q) && FileKey(scan, q) == FileKey(scan, p))
      {
        JoinsIsKey(scan, p, q);
      }
      FilterSame(q => Joins(scan, q, f, g), q => WholeBodies(scan, q) && FileKey(scan, q) == FileKey(scan, p), s);
      KeyNamesBoth(scan, p);
    }
  }

  lemma KeyNamesBoth(scan: Scan, p: Pair)
    ensures FileKey(scan, p) in {(FragA(scan, p).file, FragB(scan, p).file), (FragB(scan, p).file, FragA(scan, p).file)}
  {
  }
}
