/** The candidate-pair pipeline of the duplication scanner: scoring, stable ranking and
    the ordered filters. */
module PairFilters {
  import opened Fragments
  import opened Sorting
  import opened StringOrder

  /** A candidate pair of fragment numbers with its similarity measures. */
  datatype Pair = Pair(
    a: nat,
    b: nat,
    weighted: real,
    plain: real,
    line: real,
    lcs: real,
    sharedLines: nat,
    sharedRare: nat,
    kind: string)

  datatype Options = Options(
    metricPlain: bool,
    precise: bool,
    simThreshold: real,
    enableJointFloor: bool,
    jointWeightedThreshold: real,
    jointLineThreshold: real,
    jointMinClassicStatements: nat,
    jointMinSharedLines: nat,
    jointMinSharedRare: nat,
    jointRunWeightedThreshold: real,
    enableP1Guards: bool,
    enablePathGuards: bool,
    enableWholeFileGuard: bool,
    enableDataTableDrop: bool)

  /** The fragments and options of a scan, and the parts decided elsewhere: which paths
      are generated files, and the clone type of two fragments. */
  datatype Scan = Scan(
    frags: seq<Fragment>,
    opts: Options,
    generated: string -> bool,
    cloneType: (Fragment, Fragment) -> string)

  predicate InRange(scan: Scan, p: Pair) {
    p.a < |scan.frags| && p.b < |scan.frags|
  }

  /** A missing fragment stands for one that callers never ask about. */
  const NO_FRAGMENT: Fragment := Fragment("", 0, 0, 0, 0, map[], [], 1.0, false, false)

  function FragA(scan: Scan, p: Pair): Fragment {
    if p.a < |scan.frags| then scan.frags[p.a] else NO_FRAGMENT
  }

  function FragB(scan: Scan, p: Pair): Fragment {
    if p.b < |scan.frags| then scan.frags[p.b] else NO_FRAGMENT
  }

  // ---------------------------------------------------------------------- scoring

  predicate PairInFocus(scan: Scan, focus: set<string>, p: Pair) {
    focus == {} || FragA(scan, p).file in focus || FragB(scan, p).file in focus
  }

  function ScoreOf(scan: Scan, p: Pair): real {
    if scan.opts.precise then p.lcs else if scan.opts.metricPlain then p.plain else p.weighted
  }

  predicate Ranks(scan: Scan, p: Pair, q: Pair) {
    ScoreOf(scan, p) > ScoreOf(scan, q)
  }

  /** Candidates arrive in key order with their measures; those out of focus are skipped,
      those below the similarity gate dropped. */
  function Scored(scan: Scan, focus: set<string>, measured: seq<Pair>): seq<Pair> {
    Filter(p => ScoreOf(scan, p) >= scan.opts.simThreshold, Filter(p => PairInFocus(scan, focus, p), measured))
  }

  // ------------------------------------------------------------- canonical pairs

  function CanonKey(p: Pair): (nat, nat) {
    if p.a < p.b then (p.a, p.b) else (p.b, p.a)
  }

  /** The first pair of each unordered key not in `seen`. */
  function Canonical(s: seq<Pair>, seen: set<(nat, nat)>): seq<Pair> {
    if s == [] then []
    else if CanonKey(s[0]) in seen then Canonical(s[1..], seen)
    else [s[0]] + Canonical(s[1..], seen + {CanonKey(s[0])})
  }

  // ---------------------------------------------------------------- pair filters

  predicate ValidRanges(scan: Scan, p: Pair) {
    var fa, fb := FragA(scan, p), FragB(scan, p);
    fa.startLine > 0 && fa.endLine >= fa.startLine && fb.startLine > 0 && fb.endLine >= fb.startLine
  }

  predicate DistinctSites(scan: Scan, p: Pair) {
    var fa, fb := FragA(scan, p), FragB(scan, p);
    || fa.file != fb.file
    || (!(fa.startLine <= fb.endLine && fb.startLine <= fa.endLine)
        && !(fa.endLine + 1 == fb.startLine || fb.endLine + 1 == fa.startLine))
  }

  function LineSpan(f: Fragment): int {
    f.endLine - f.startLine + 1
  }

  predicate BalancedSpans(scan: Scan, p: Pair) {
    var la, lb := LineSpan(FragA(scan, p)), LineSpan(FragB(scan, p));
    if la <= lb then lb <= la * 2 else la <= lb * 2
  }

  predicate JointFloor(scan: Scan, p: Pair) {
    var fa, fb, o := FragA(scan, p), FragB(scan, p), scan.opts;
    var minStmts := if fa.statementCount <= fb.statementCount then fa.statementCount else fb.statementCount;
    var maxDiv := if fa.diversity <= fb.diversity then fb.diversity else fa.diversity;
    || (p.weighted >= o.jointWeightedThreshold && p.line >= o.jointLineThreshold
        && minStmts >= o.jointMinClassicStatements)
    || (p.weighted >= o.jointRunWeightedThreshold && o.jointMinSharedLines > 0 && p.sharedLines >= o.jointMinSharedLines
        && maxDiv >= 0.30 && p.sharedRare >= o.jointMinSharedRare)
  }

  predicate HandWritten(scan: Scan, p: Pair) {
    !scan.generated(FragA(scan, p).file) && !scan.generated(FragB(scan, p).file)
  }

  predicate NotDataTable(scan: Scan, p: Pair) {
    var fa, fb := FragA(scan, p), FragB(scan, p);
    scan.opts.enableDataTableDrop && fa.diversity < 0.30 && fb.diversity < 0.30 ==>
      scan.cloneType(fa, fb) != "LITERAL" && scan.cloneType(fa, fb) != "MIXED"
  }

  predicate NotBoilerplate(scan: Scan, p: Pair) {
    FragA(scan, p).tokenCount < 20 && FragB(scan, p).tokenCount < 20 ==> p.weighted >= 0.90
  }

  // --------------------------------------------------------- whole-file clones

  /** The two files of a pair, in name order. */
  function FileKey(scan: Scan, p: Pair): (string, string) {
    var fa, fb := FragA(scan, p).file, FragB(scan, p).file;
    if StringLess(fa, fb) then (fa, fb) else (fb, fa)
  }

  predicate WholeBodies(scan: Scan, p: Pair) {
    var fa, fb := FragA(scan, p), FragB(scan, p);
    !fa.nested && !fb.nested && fa.file != fb.file
  }

  /** Matched pairs of whole bodies between the two files of `key`. */
  function CountMatched(scan: Scan, cands: seq<Pair>, key: (string, string)): nat {
    |Filter(q => WholeBodies(scan, q) && FileKey(scan, q) == key, cands)|
  }

  /** Fragments of `file` that are whole bodies. */
  function CountFrags(frags: seq<Fragment>, file: string): nat {
    if frags == [] then 0
    else
      var n := |frags| - 1;
      CountFrags(frags[..n], file) + (if !frags[n].nested && frags[n].file == file then 1 else 0)
  }

  predicate IsWholeFileClone(matched: int, fragsX: int, fragsY: int) {
    var lo, hi := if fragsX <= fragsY then fragsX else fragsY, if fragsX <= fragsY then fragsY else fragsX;
    lo >= 2 && matched * 5 >= hi * 4
  }

  /** At least four fifths of the bodies of both files match the other file. */
  predicate WholeFilePair(scan: Scan, cands: seq<Pair>, key: (string, string)) {
    && CountMatched(scan, cands, key) > 0
    && IsWholeFileClone(CountMatched(scan, cands, key), CountFrags(scan.frags, key.0), CountFrags(scan.frags, key.1))
  }

  predicate InWholeFileClone(scan: Scan, cands: seq<Pair>, p: Pair) {
    FragA(scan, p).file != FragB(scan, p).file && WholeFilePair(scan, cands, FileKey(scan, p))
  }

  function WithoutWholeFiles(scan: Scan, cands: seq<Pair>): seq<Pair> {
    Filter(p => !InWholeFileClone(scan, cands, p), cands)
  }

  // ------------------------------------------------------ file-local down-weight

  function FileFreq(frags: seq<Fragment>, file: string, token: string): nat {
    if frags == [] then 0
    else
      var n := |frags| - 1;
      FileFreq(frags[..n], file, token)
        + (if frags[n].file == file && token in frags[n].bag then frags[n].bag[token] else 0)
  }

  function FrequentCount(frags: seq<Fragment>, f: Fragment, token: string): nat {
    if token in f.bag && FileFreq(frags, f.file, token) > 10 then f.bag[token] else 0
  }

  /** Occurrences in `f` of those `tokens` that its file holds more than ten times. */
  ghost function FrequentTokens(frags: seq<Fragment>, f: Fragment, tokens: set<string>): nat {
    if tokens == {} then 0
    else
      var t :| t in tokens;
      FrequentCount(frags, f, t) + FrequentTokens(frags, f, tokens - {t})
  }

  ghost predicate FileLocalIdiom(scan: Scan, p: Pair) {
    var fa := FragA(scan, p);
    fa.file == FragB(scan, p).file && FrequentTokens(scan.frags, fa, fa.bag.Keys) > fa.tokenCount / 2
  }

  ghost function DownWeighted(scan: Scan, p: Pair): Pair {
    if FileLocalIdiom(scan, p) then p.(weighted := p.weighted * 0.80) else p
  }

  // ------------------------------------------------------ containment and overlap

  predicate SpanContains(outer: Fragment, inner: Fragment) {
    outer.file == inner.file && outer.startLine <= inner.startLine && inner.endLine <= outer.endLine
  }

  predicate SpanOverlaps(x: Fragment, y: Fragment) {
    x.file == y.file && x.startLine <= y.endLine && y.startLine <= x.endLine
  }

  predicate SameSpan(x: Fragment, y: Fragment) {
    x.startLine == y.startLine && x.endLine == y.endLine
  }

  predicate SameSpanPair(scan: Scan, p: Pair, q: Pair) {
    SameSpan(FragA(scan, q), FragA(scan, p)) && SameSpan(FragB(scan, q), FragB(scan, p))
  }

  predicate PairContainedIn(scan: Scan, inner: Pair, outer: Pair) {
    || (SpanContains(FragA(scan, outer), FragA(scan, inner)) && SpanContains(FragB(scan, outer), FragB(scan, inner)))
    || (SpanContains(FragB(scan, outer), FragA(scan, inner)) && SpanContains(FragA(scan, outer), FragB(scan, inner)))
  }

  predicate PairOverlaps(scan: Scan, x: Pair, y: Pair) {
    || (SpanOverlaps(FragA(scan, x), FragA(scan, y)) && SpanOverlaps(FragB(scan, x), FragB(scan, y)))
    || (SpanOverlaps(FragB(scan, x), FragA(scan, y)) && SpanOverlaps(FragA(scan, x), FragB(scan, y)))
  }

  predicate BoundaryPair(scan: Scan, p: Pair) {
    FragA(scan, p).boundary && FragB(scan, p).boundary
  }

  /** Whether the presence of `q` drops `p`. */
  predicate ShouldDrop(scan: Scan, p: Pair, q: Pair) {
    if SameSpanPair(scan, p, q) then false
    else if BoundaryPair(scan, p) && !BoundaryPair(scan, q) then PairOverlaps(scan, p, q)
    else if !BoundaryPair(scan, p) && BoundaryPair(scan, q) then false
    else PairContainedIn(scan, p, q)
  }

  predicate Dropped(scan: Scan, cands: seq<Pair>, p: Pair) {
    exists k: nat :: k < |cands| && ShouldDrop(scan, p, cands[k])
  }

  function Uncontained(scan: Scan, cands: seq<Pair>): seq<Pair> {
    Filter(p => !Dropped(scan, cands, p), cands)
  }

  predicate OverlapsAny(scan: Scan, kept: seq<Pair>, p: Pair) {
    exists k: nat :: k < |kept| && PairOverlaps(scan, p, kept[k])
  }

  /** Each pair is kept unless it overlaps one kept before it. */
  function Disjointed(scan: Scan, cands: seq<Pair>, kept: seq<Pair>): seq<Pair>
    decreases |cands|
  {
    if cands == [] then kept
    else if OverlapsAny(scan, kept, cands[0]) then Disjointed(scan, cands[1..], kept)
    else Disjointed(scan, cands[1..], kept + [cands[0]])
  }

  // ------------------------------------------------------------------ the pipeline

  function Mapped(f: Pair -> Pair, s: seq<Pair>): (r: seq<Pair>)
    ensures |r| == |s| && forall i: nat :: i < |s| ==> r[i] == f(s[i])
  {
    if s == [] then [] else [f(s[0])] + Mapped(f, s[1..])
  }

  /** Filter only when the option is on. */
  function FilterWhen(on: bool, keep: Pair -> bool, s: seq<Pair>): seq<Pair> {
    if on then Filter(keep, s) else s
  }

  ghost function Ranked(scan: Scan, cands: seq<Pair>): seq<Pair> {
    SortBy((p: Pair, q: Pair) => Ranks(scan, p, q), cands)
  }

  ghost function AfterSiteFilters(scan: Scan, cands: seq<Pair>): seq<Pair> {
    FilterWhen(scan.opts.enableJointFloor, p => JointFloor(scan, p),
      Filter(p => BalancedSpans(scan, p),
        Filter(p => DistinctSites(scan, p),
          Filter(p => ValidRanges(scan, p), Canonical(Ranked(scan, cands), {})))))
  }

  ghost function AfterFileGuards(scan: Scan, cands: seq<Pair>): seq<Pair> {
    var s := AfterSiteFilters(scan, cands);
    FilterWhen(scan.opts.enablePathGuards, p => HandWritten(scan, p),
      if scan.opts.enableWholeFileGuard then WithoutWholeFiles(scan, s) else s)
  }

  ghost function AfterP1Guards(scan: Scan, cands: seq<Pair>): seq<Pair> {
    var s := AfterFileGuards(scan, cands);
    if scan.opts.enableP1Guards then
      Mapped(p => DownWeighted(scan, p), Filter(p => NotBoilerplate(scan, p), Filter(p => NotDataTable(scan, p), s)))
    else s
  }

  function Classified(scan: Scan, p: Pair): Pair {
    p.(kind := scan.cloneType(FragA(scan, p), FragB(scan, p)))
  }

  /** All filters in their order, then the clone type of each survivor. */
  ghost function Survivors(scan: Scan, cands: seq<Pair>): seq<Pair> {
    Mapped(p => Classified(scan, p), Disjointed(scan, Uncontained(scan, AfterP1Guards(scan, cands)), []))
  }
}
