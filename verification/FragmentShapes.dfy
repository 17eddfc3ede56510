/** Which spans of a file become fragments, told by the tokens around them. */
module FragmentShapes {
  import opened Tokens
  import opened BraceMatching
  import opened FunctionSpans
  import opened StatementRuns
  import opened FragmentWalk
  import opened FragmentTheorems
  import opened Sorting

  const TRAILERS: set<Sym> :=
    {Other("const"), Other("noexcept"), Other("override"), Other("final"), Other("volatile"), Other("mutable"),
     Other("&"), AndAnd}

  /** Only member-function qualifiers stand between the last `)` and the brace. */
  ghost predicate BehindParameters(t: seq<Token>, i: nat)
    requires i <= |t|
  {
    exists k: nat :: k < i && t[k].sym == RParen && forall m: nat :: k < m < i ==> t[m].sym in TRAILERS
  }

  /** The brace follows the header of a control statement. */
  ghost predicate BehindControl(t: seq<Token>, i: nat)
    requires i <= |t|
  {
    exists o: nat :: 0 < o < i && HeaderAt(t, o, i) && t[o - 1].sym in {If, For, While, Switch, Catch}
  }

  /** The parenthesis at `o` has its partner right before `i`. */
  ghost predicate HeaderAt(t: seq<Token>, o: nat, i: nat) {
    i > 0 && Matches(t, LParen, RParen, o, i - 1)
  }

  lemma CallableIff(t: seq<Token>, i: nat)
    requires i <= |t|
    ensures Callable(t, i) <==> BehindParameters(t, i)
  {
    assert forall sym :: IsQualifier(sym) <==> sym in TRAILERS;
  }

  // ---------------------------------------------------------------- control bodies

  /** What is open before `m` is closed behind it. */
  lemma {:induction false} DebtIsNet(t: seq<Token>, o: nat, m: nat, i: nat)
    requires o <= m <= i <= |t|
    ensures Net(t, LParen, RParen, o, i) == Net(t, LParen, RParen, o, m) - ParenDebt(t, m, i)
    decreases i - m
  {
    if m < i {
      DebtIsNet(t, o, m + 1, i);
      assert Net(t, LParen, RParen, o, m + 1)
          == Net(t, LParen, RParen, o, m)
             + (if t[m].sym == LParen then 1 else if t[m].sym == RParen then -1 else 0);
    }
  }

  lemma HeaderIff(t: seq<Token>, o: nat, i: nat)
    requires o < i <= |t|
    ensures OpensHeader(t, o, i) <==> HeaderAt(t, o, i)
  {
    hide Net, ParenDebt;
    forall m: nat | o <= m <= i
      ensures Net(t, LParen, RParen, o, i) == Net(t, LParen, RParen, o, m) - ParenDebt(t, m, i)
    {
      DebtIsNet(t, o, m, i);
    }
    assert ParenDebt(t, i, i) == 0 && Net(t, LParen, RParen, o, o) == 0 by { NothingBetween(t, o, i); }
    LastDebt(t, i);
  }

  lemma NothingBetween(t: seq<Token>, o: nat, i: nat)
    requires o <= i <= |t|
    ensures ParenDebt(t, i, i) == 0 && Net(t, LParen, RParen, o, o) == 0
  {
  }

  lemma LastDebt(t: seq<Token>, i: nat)
    requires 0 < i <= |t|
    ensures ParenDebt(t, i - 1, i) == if t[i - 1].sym == RParen then 1 else if t[i - 1].sym == LParen then -1 else 0
  {
  }

  lemma ControlIff(t: seq<Token>, i: nat)
    requires i <= |t|
    ensures ControlBody(t, i) <==> BehindControl(t, i)
  {
    hide OpensHeader, HeaderAt;
    forall o: nat | o < i
      ensures OpensHeader(t, o, i) <==> HeaderAt(t, o, i)
    {
      HeaderIff(t, o, i);
    }
    assert forall sym :: IsControlKeyword(sym) <==> sym in {If, For, While, Switch, Catch};
  }

  // -------------------------------------------------------------------- whole bodies

  /** A callable body of a size within the limits, from brace `i` to brace `j`. */
  ghost predicate WholeBody(t: seq<Token>, lim: Limits, i: nat, j: nat) {
    Closes(t, i, j) && BehindParameters(t, i) && lim.minTokens <= j - i - 1 <= lim.maxTokens
  }

  lemma EmittedIff(t: seq<Token>, match_: seq<int>, lim: Limits, i: nat, j: nat)
    requires IsBraceMatch(t, match_) && Forwards(t, match_) && i < |t|
    ensures Emitted(t, match_, lim, i) && match_[i] == j <==> WholeBody(t, lim, i, j)
  {
    hide Level, NeverUnder, Callable, BehindParameters;
    CallableIff(t, i);
    if Closes(t, i, j) {
      PartnerIsIt(t, match_, i, j);
    }
    if t[i].sym == LBrace {
      OpenPointsForward(t, match_, i);
    }
  }

  lemma PartnerIsIt(t: seq<Token>, match_: seq<int>, i: nat, j: nat)
    requires IsBraceMatch(t, match_) && Closes(t, i, j)
    ensures match_[i] == j
  {
    hide Level, NeverUnder;
  }

  /** Exactly the callable bodies within the limits become fragments of their own; one is
      nested exactly if another lies around it. */
  lemma BodiesIff(t: seq<Token>, match_: seq<int>, lim: Limits, r: Span)
    requires IsBraceMatch(t, match_) && Forwards(t, match_) && !r.boundary
    ensures r in Walk(t, match_, lim, 0, |t|, false)
       <==> 0 < r.lo && WholeBody(t, lim, r.lo - 1, r.hi)
            && (r.nested <==> exists k: nat, l: nat :: k < r.lo - 1 && r.hi < l && WholeBody(t, lim, k, l))
  {
    hide IsBraceMatch, Emitted, WholeBody, Walk, Filter;
    BodiesOnceInOrder(t, match_, lim);
    assert r in Filter(IsBody, Walk(t, match_, lim, 0, |t|, false)) <==> r in Walk(t, match_, lim, 0, |t|, false);
    if 0 < r.lo <= |t| {
      EmittedIff(t, match_, lim, r.lo - 1, r.hi);
      forall k: nat, l: nat | k < |t|
        ensures Emitted(t, match_, lim, k) && match_[k] == l <==> WholeBody(t, lim, k, l)
      {
        EmittedIff(t, match_, lim, k, l);
      }
      if Emitted(t, match_, lim, r.lo - 1) && match_[r.lo - 1] == r.hi {
        EnclosedIff(t, match_, lim, r.lo - 1, r.hi);
      }
    } else if 0 < r.lo {
      OutsideNoBody(t, lim, r.lo - 1, r.hi);
    }
  }

  lemma OutsideNoBody(t: seq<Token>, lim: Limits, i: nat, j: nat)
    requires i >= |t|
    ensures !WholeBody(t, lim, i, j)
  {
  }

  lemma EnclosedIff(t: seq<Token>, match_: seq<int>, lim: Limits, i: nat, j: nat)
    requires |match_| == |t| && i < |t| && match_[i] == j
    requires forall k: nat, l: nat :: k < |t| ==>
      (Emitted(t, match_, lim, k) && match_[k] == l <==> WholeBody(t, lim, k, l))
    ensures EnclosedBody(t, match_, lim, i) <==> exists k: nat, l: nat :: k < i && j < l && WholeBody(t, lim, k, l)
  {
    hide Emitted, WholeBody;
    if EnclosedBody(t, match_, lim, i) {
      var k: nat :| k < i && Emitted(t, match_, lim, k) && match_[i] < match_[k];
      var l: nat := match_[k];
      assert WholeBody(t, lim, k, l);
    }
    if k: nat, l: nat :| k < i && j < l && WholeBody(t, lim, k, l) {
      assert Emitted(t, match_, lim, k) && match_[k] == l;
    }
  }

  // ------------------------------------------------------------------ synthetic runs

  /** A synthetic run that the block opened at `i` contributes. */
  ghost predicate RunAt(t: seq<Token>, match_: seq<int>, lim: Limits, i: nat, r: Span)
    requires Forwards(t, match_)
  {
    && i < |t| && t[i].sym == LBrace && i < match_[i] < |t| && r.boundary
    && r in Block(t, match_, lim, i, match_[i], false)
  }

  lemma BlockRunsSame(t: seq<Token>, match_: seq<int>, lim: Limits, i: nat, j: nat, inside: bool, r: Span)
    requires Forwards(t, match_) && i < j < |t| && r.boundary
    ensures r in Block(t, match_, lim, i, j, inside) <==> r in Block(t, match_, lim, i, j, false)
  {
    hide Callable, ControlBody, RunsOf, BoundaryRuns;
  }

  /** A block within the range opens and closes there. */
  ghost predicate BlockIn(t: seq<Token>, match_: seq<int>, from: nat, to: nat, i: nat)
    requires |match_| == |t|
  {
    from <= i < to && i < |t| && t[i].sym == LBrace && i < match_[i] < to
  }

  /** The blocks of a range: the first, those in it, those behind it. */
  lemma BlocksSplit(t: seq<Token>, match_: seq<int>, from: nat, to: nat, i: nat)
    requires IsBraceMatch(t, match_) && Forwards(t, match_) && from < to <= |t| && OpensBlock(t, match_, from, to)
    ensures from < match_[from] < to
    ensures BlockIn(t, match_, from, to, i)
       <==> i == from || BlockIn(t, match_, from + 1, match_[from], i) || BlockIn(t, match_, match_[from] + 1, to, i)
  {
    hide Level, NeverUnder, IsBraceMatch;
    OpenPointsForward(t, match_, from);
    var j: nat := match_[from];
    if BlockIn(t, match_, from, to, i) {
      OpenPointsForward(t, match_, i);
      if from < i < j {
        PairsNest(t, from, j, i, match_[i]);
      }
    }
  }

  lemma {:induction false} WalkRuns(t: seq<Token>, match_: seq<int>, lim: Limits, from: nat, to: nat, inside: bool,
      r: Span)
    requires IsBraceMatch(t, match_) && Forwards(t, match_) && to <= |t| && r.boundary
    ensures r in Walk(t, match_, lim, from, to, inside)
       <==> exists i: nat :: BlockIn(t, match_, from, to, i) && RunAt(t, match_, lim, i, r)
    decreases |t| - from
  {
    hide IsBraceMatch, Block, Emitted, RunAt;
    if from < to {
      if OpensBlock(t, match_, from, to) {
        BlocksSplit(t, match_, from, to, from);
        var j: nat := match_[from];
        WalkStep(t, match_, lim, from, to, inside);
        WalkRuns(t, match_, lim, from + 1, j, inside || Emitted(t, match_, lim, from), r);
        WalkRuns(t, match_, lim, j + 1, to, inside, r);
        BlockRunsSame(t, match_, lim, from, j, inside, r);
        RunHere(t, match_, lim, from, r);
        SplitExists(t, match_, lim, from, to, r);
      } else {
        WalkRuns(t, match_, lim, from + 1, to, inside, r);
        assert forall i: nat :: BlockIn(t, match_, from, to, i) <==> BlockIn(t, match_, from + 1, to, i);
      }
    }
  }

  lemma RunHere(t: seq<Token>, match_: seq<int>, lim: Limits, i: nat, r: Span)
    requires Forwards(t, match_) && i < |t| && t[i].sym == LBrace && i < match_[i] < |t| && r.boundary
    ensures RunAt(t, match_, lim, i, r) <==> r in Block(t, match_, lim, i, match_[i], false)
  {
    hide Block;
  }

  lemma SplitExists(t: seq<Token>, match_: seq<int>, lim: Limits, from: nat, to: nat, r: Span)
    requires IsBraceMatch(t, match_) && Forwards(t, match_) && from < to <= |t| && OpensBlock(t, match_, from, to)
    ensures from < match_[from] < to
    ensures (exists i: nat :: BlockIn(t, match_, from, to, i) && RunAt(t, match_, lim, i, r))
       <==> || RunAt(t, match_, lim, from, r)
            || (exists i: nat :: BlockIn(t, match_, from + 1, match_[from], i) && RunAt(t, match_, lim, i, r))
            || (exists i: nat :: BlockIn(t, match_, match_[from] + 1, to, i) && RunAt(t, match_, lim, i, r))
  {
    hide IsBraceMatch, RunAt, BlockIn;
    forall i: nat
      ensures BlockIn(t, match_, from, to, i)
         <==> i == from || BlockIn(t, match_, from + 1, match_[from], i) || BlockIn(t, match_, match_[from] + 1, to, i)
    {
      BlocksSplit(t, match_, from, to, i);
    }
    BlocksSplit(t, match_, from, to, from);
  }

  /** A prefix or suffix of [lo, hi) of one of the three sizes, with the least size left over. */
  predicate IsEdgeRun(lim: Limits, lo: nat, hi: nat, r: Span) {
    var size := r.hi - r.lo;
    && lim.boundaryRuns && r.nested && (size == lim.minTokens || size == 2 * lim.minTokens || size == 4 * lim.minTokens)
    && lo + size + lim.minTokens <= hi && (r.lo == lo || r.hi == hi)
  }

  lemma EdgeRunsIff(lim: Limits, lo: nat, hi: nat, r: Span)
    requires r.boundary
    ensures r in BoundaryRuns(lim, lo, hi) <==> IsEdgeRun(lim, lo, hi, r)
  {
  }

  /** The start `p` is far enough behind `s` to end a run of `tier` tokens. */
  predicate FarEnough(s: nat, tier: nat, p: nat) {
    s < p && s + tier <= p
  }

  /** Where a run of `tier` tokens from `s` ends: at the next start that far on, or at the end
      of the body. */
  predicate EndsAt(starts: seq<nat>, s: nat, tier: nat, hi: nat, e: nat) {
    if e == hi then forall p :: p in starts ==> !FarEnough(s, tier, p)
    else e in starts && FarEnough(s, tier, e) && forall p :: p in starts && FarEnough(s, tier, p) ==> e <= p
  }

  ghost predicate RisesBelow(starts: seq<nat>, hi: nat) {
    && (forall x: nat :: x < |starts| ==> starts[x] < hi)
    && (forall x: nat, y: nat :: x < y < |starts| ==> starts[x] < starts[y])
  }

  lemma {:induction false} SnapEnds(starts: seq<nat>, si: nat, s: nat, tier: nat, hi: nat)
    requires RisesBelow(starts, hi) && si <= |starts|
    requires forall x: nat :: x < |starts| ==> if x < si then !FarEnough(s, tier, starts[x]) else s < starts[x]
    ensures EndsAt(starts, s, tier, hi, SnapFrom(starts, si, s, tier, hi))
    decreases |starts| - si
  {
    if si < |starts| && starts[si] - s < tier {
      SnapEnds(starts, si + 1, s, tier, hi);
    }
  }

  lemma EndsOnce(starts: seq<nat>, s: nat, tier: nat, hi: nat, e: nat, e': nat)
    requires RisesBelow(starts, hi) && EndsAt(starts, s, tier, hi, e) && EndsAt(starts, s, tier, hi, e')
    ensures e == e'
  {
  }

  /** A run from the start `s` for this tier. */
  predicate TierRun(starts: seq<nat>, s: nat, tier: nat, min: nat, hi: nat, r: Span) {
    r.lo == s && r.nested && r.boundary && r.hi >= s + min && EndsAt(starts, s, tier, hi, r.hi)
  }

  lemma SnapIsTierRun(starts: seq<nat>, si: nat, tier: nat, min: nat, hi: nat, r: Span)
    requires RisesBelow(starts, hi) && si < |starts|
    ensures var s := starts[si];
      var e := SnapFrom(starts, si + 1, s, tier, hi);
      TierRun(starts, s, tier, min, hi, r) <==> r == Span(s, e, true, true) && e - s >= min
  {
    hide EndsAt;
    var s := starts[si];
    SnapEnds(starts, si + 1, s, tier, hi);
    if TierRun(starts, s, tier, min, hi, r) {
      EndsOnce(starts, s, tier, hi, r.hi, SnapFrom(starts, si + 1, s, tier, hi));
    }
  }

  /** One of the tiers from `k` on gives the run. */
  ghost predicate SomeTier(starts: seq<nat>, s: nat, tiers: seq<nat>, min: nat, hi: nat, r: Span) {
    exists tier :: tier in tiers && TierRun(starts, s, tier, min, hi, r)
  }

  lemma SomeTierStep(starts: seq<nat>, s: nat, tiers: seq<nat>, min: nat, hi: nat, r: Span)
    requires tiers != []
    ensures SomeTier(starts, s, tiers, min, hi, r)
       <==> TierRun(starts, s, tiers[0], min, hi, r) || SomeTier(starts, s, tiers[1..], min, hi, r)
    ensures SomeTier(starts, s, tiers, min, hi, r) ==> r == Span(s, r.hi, true, true)
  {
    hide EndsAt;
    assert tiers == [tiers[0]] + tiers[1..];
  }

  /** Leaving out an end that comes twice loses no run. */
  lemma {:induction false} TierRunsIff(starts: seq<nat>, si: nat, tiers: seq<nat>, min: nat, hi: nat, prevEnd: nat,
      r: Span)
    requires RisesBelow(starts, hi) && si < |starts|
    ensures r in TierRuns(starts, si, tiers, min, hi, prevEnd) ==> SomeTier(starts, starts[si], tiers, min, hi, r)
    ensures SomeTier(starts, starts[si], tiers, min, hi, r) && r.hi != prevEnd
        ==> r in TierRuns(starts, si, tiers, min, hi, prevEnd)
    decreases |tiers|
  {
    if tiers != [] {
      hide TierRun, RisesBelow, SomeTier, SnapFrom;
      SnapIsTierRun(starts, si, tiers[0], min, hi, r);
      SomeTierStep(starts, starts[si], tiers, min, hi, r);
      var e := SnapFrom(starts, si + 1, starts[si], tiers[0], hi);
      TierRunsIff(starts, si, tiers[1..], min, hi, e, r);
      TierRunsIff(starts, si, tiers[1..], min, hi, prevEnd, r);
    }
  }

  lemma {:induction false} RunsFromIff(starts: seq<nat>, si: nat, min: nat, hi: nat, r: Span)
    requires RisesBelow(starts, hi) && forall x: nat :: x < |starts| ==> starts[x] > 0
    ensures r in RunsFrom(starts, si, min, hi)
       <==> SomeStart(starts, si, [min, min * 2, min * 4], min, hi, r)
    decreases |starts| - si
  {
    hide RisesBelow, SomeTier, SomeStart, TierRuns, SnapFrom, TierRun, EndsAt;
    var tiers := [min, min * 2, min * 4];
    SomeStartStep(starts, si, tiers, min, hi, r);
    if si < |starts| {
      TierRunsIff(starts, si, tiers, min, hi, 0, r);
      RunsFromIff(starts, si + 1, min, hi, r);
      EndsBehind(starts, starts[si], tiers, min, hi, r);
      assert RunsFrom(starts, si, min, hi)
          == TierRuns(starts, si, tiers, min, hi, 0) + RunsFrom(starts, si + 1, min, hi);
    }
  }

  /** One of the starts from `si` on gives the run. */
  ghost predicate SomeStart(starts: seq<nat>, si: nat, tiers: seq<nat>, min: nat, hi: nat, r: Span) {
    exists x: nat :: si <= x < |starts| && SomeTier(starts, starts[x], tiers, min, hi, r)
  }

  lemma SomeStartStep(starts: seq<nat>, si: nat, tiers: seq<nat>, min: nat, hi: nat, r: Span)
    ensures SomeStart(starts, si, tiers, min, hi, r)
       <==> si < |starts| && (SomeTier(starts, starts[si], tiers, min, hi, r)
                             || SomeStart(starts, si + 1, tiers, min, hi, r))
  {
    hide SomeTier;
  }

  lemma EndsBehind(starts: seq<nat>, s: nat, tiers: seq<nat>, min: nat, hi: nat, r: Span)
    requires s > 0
    ensures SomeTier(starts, s, tiers, min, hi, r) ==> r.hi > 0
  {
    hide EndsAt;
  }

  // ---------------------------------------------------------------- statement starts

  /** Opening minus closing parentheses in [m, q), those inside blocks left out. */
  ghost function TopNet(t: seq<Token>, lo: nat, hi: nat, m: nat, q: nat): int
    requires q <= |t|
    decreases q
  {
    if m >= q then 0
    else
      TopNet(t, lo, hi, m, q - 1)
      + (if !BetweenBlocks(t, lo, hi, q - 1) then 0
         else if t[q - 1].sym == LParen then 1
         else if t[q - 1].sym == RParen then -1
         else 0)
  }

  /** No parenthesis of the body is open at `q`. */
  ghost predicate OutsideParens(t: seq<Token>, lo: nat, hi: nat, q: nat)
    requires q <= |t|
  {
    forall m: nat :: lo <= m <= q ==> TopNet(t, lo, hi, m, q) <= 0
  }

  /** A block of the body closes at `q`. */
  ghost predicate BlockEnds(t: seq<Token>, lo: nat, hi: nat, q: nat) {
    exists k: nat :: lo <= k && Closes(t, k, q) && BetweenBlocks(t, lo, hi, k)
  }

  /** Behind `q` a statement of the body begins: `q` closes a block of the body, or it is a
      `;` outside blocks and parentheses. */
  ghost predicate Ends(t: seq<Token>, lo: nat, hi: nat, q: nat)
    requires q < |t|
  {
    || BlockEnds(t, lo, hi, q)
    || (t[q].sym == Semicolon && BetweenBlocks(t, lo, hi, q) && OutsideParens(t, lo, hi, q))
  }

  ghost predicate StartsLater(t: seq<Token>, lo: nat, hi: nat, p: nat)
    requires hi <= |t|
  {
    lo < p < hi && t[p].sym != Semicolon && Ends(t, lo, hi, p - 1)
  }

  /** Statements of the body [lo, hi) start at its first token and behind every end of a
      statement, unless a `;` follows. */
  ghost predicate StartsStatement(t: seq<Token>, lo: nat, hi: nat, p: nat)
    requires hi <= |t|
  {
    p == lo || StartsLater(t, lo, hi, p)
  }

  /** `paren` parentheses are open at `i`. */
  ghost predicate Open(t: seq<Token>, lo: nat, hi: nat, i: nat, paren: nat)
    requires i <= |t|
  {
    && (forall m: nat :: lo <= m <= i ==> TopNet(t, lo, hi, m, i) <= paren)
    && (exists m: nat :: lo <= m <= i && TopNet(t, lo, hi, m, i) == paren)
  }

  lemma OpenStep(t: seq<Token>, lo: nat, hi: nat, i: nat, paren: nat)
    requires lo <= i < |t| && BetweenBlocks(t, lo, hi, i) && Open(t, lo, hi, i, paren)
    ensures Open(t, lo, hi, i + 1, ParenAfter(t[i].sym, paren))
  {
    hide BetweenBlocks;
    var n := i + 1;
    var w := if t[i].sym == LParen then 1 else if t[i].sym == RParen then -1 else 0;
    forall m: nat | lo <= m <= i
      ensures TopNet(t, lo, hi, m, i + 1) == TopNet(t, lo, hi, m, i) + w
    {
    }
    assert TopNet(t, lo, hi, i + 1, i + 1) == 0;
    var m: nat :| lo <= m <= i && TopNet(t, lo, hi, m, i) == paren;
    var after := ParenAfter(t[i].sym, paren);
    assert after == if paren + w >= 0 then paren + w else 0;
    assert TopNet(t, lo, hi, if paren + w >= 0 then m else i + 1, i + 1) == after;
    forall m: nat | lo <= m <= n
      ensures TopNet(t, lo, hi, m, n) <= after
    {
      assert m <= i ==> TopNet(t, lo, hi, m, i) <= paren;
    }
  }

  /** A skipped block opens and closes no parenthesis of the body. */
  lemma {:induction false} NothingInside(t: seq<Token>, lo: nat, hi: nat, m: nat, i: nat, n: nat)
    requires m <= i <= n <= |t|
    requires forall x: nat :: i <= x < n ==> !BetweenBlocks(t, lo, hi, x) || t[x].sym == LBrace
    ensures TopNet(t, lo, hi, m, n) == TopNet(t, lo, hi, m, i)
    decreases n
  {
    hide BetweenBlocks;
    if i < n {
      NothingInside(t, lo, hi, m, i, n - 1);
    }
  }

  lemma OpenSkip(t: seq<Token>, lo: nat, hi: nat, i: nat, n: nat, paren: nat)
    requires lo <= i < n <= |t| && Open(t, lo, hi, i, paren)
    requires forall x: nat :: i <= x < n ==> !BetweenBlocks(t, lo, hi, x) || t[x].sym == LBrace
    ensures Open(t, lo, hi, n, paren)
  {
    hide BetweenBlocks, TopNet;
    forall m: nat | lo <= m <= n
      ensures TopNet(t, lo, hi, m, n) == if m <= i then TopNet(t, lo, hi, m, i) else TopNet(t, lo, hi, m, m)
    {
      NothingInside(t, lo, hi, m, if m <= i then i else m, n);
    }
    forall m: nat | lo <= m <= n
      ensures TopNet(t, lo, hi, m, m) == 0
    {
      NetOfNone(t, lo, hi, m);
    }
    var m: nat :| lo <= m <= i && TopNet(t, lo, hi, m, i) == paren;
    assert TopNet(t, lo, hi, m, n) == paren;
  }

  lemma NetOfNone(t: seq<Token>, lo: nat, hi: nat, m: nat)
    requires m <= |t|
    ensures TopNet(t, lo, hi, m, m) == 0
  {
  }

  /** Inside a skipped block nothing of the body ends. */
  lemma EndsInSkipped(t: seq<Token>, lo: nat, hi: nat, i: nat, j: nat, q: nat)
    requires lo <= i && Closes(t, i, j) && j < hi <= |t| && BetweenBlocks(t, lo, hi, i) && i <= q <= j
    ensures Ends(t, lo, hi, q) <==> q == j
    ensures !BetweenBlocks(t, lo, hi, q) || t[q].sym == LBrace
  {
    hide Level, NeverUnder, OutsideParens;
    if k: nat :| lo <= k && Closes(t, k, q) && BetweenBlocks(t, lo, hi, k) {
      PartnerUnique(t, i, j, k, q);
    }
  }

  /** Elsewhere only a `;` outside parentheses ends a statement. */
  lemma EndsHere(t: seq<Token>, lo: nat, hi: nat, i: nat, paren: nat)
    requires lo <= i < hi <= |t| && BetweenBlocks(t, lo, hi, i) && Open(t, lo, hi, i, paren)
    ensures Ends(t, lo, hi, i) <==> t[i].sym == Semicolon && paren == 0
  {
    hide Level, NeverUnder, TopNet;
  }

  lemma SkippedStarts(t: seq<Token>, lo: nat, hi: nat, i: nat, n: nat, p: nat)
    requires lo <= i < n <= hi <= |t| && i < p <= n
    requires forall q: nat :: i <= q < n ==> (Ends(t, lo, hi, q) <==> q == n - 1)
    ensures StartsLater(t, lo, hi, p) <==> p in StartAt(t, n, hi)
  {
    hide Ends;
    assert i <= p - 1 < n;
  }

  lemma {:induction false} StartsIff(t: seq<Token>, match_: seq<int>, lo: nat, i: nat, hi: nat, paren: nat, p: nat)
    requires IsBraceMatch(t, match_) && Forwards(t, match_) && lo <= i <= hi <= |t|
    requires (i < hi ==> BetweenBlocks(t, lo, hi, i)) && Open(t, lo, hi, i, paren)
    ensures p in StartsFrom(t, match_, i, hi, paren) <==> i < p && StartsLater(t, lo, hi, p)
    decreases hi - i
  {
    hide IsBraceMatch, BetweenBlocks, Open, Ends;
    if i < hi {
      RestStaysBetween(t, match_, lo, i, hi);
      var n := NextScan(t, match_, i, hi);
      if OpensBlock(t, match_, i, hi) {
        OpenPointsForward(t, match_, i);
        forall q: nat | i <= q < n
          ensures (Ends(t, lo, hi, q) <==> q == n - 1) && (!BetweenBlocks(t, lo, hi, q) || t[q].sym == LBrace)
        {
          EndsInSkipped(t, lo, hi, i, n - 1, q);
        }
        OpenSkip(t, lo, hi, i, n, paren);
        StartsIff(t, match_, lo, n, hi, paren, p);
        if i < p <= n {
          SkippedStarts(t, lo, hi, i, n, p);
        }
      } else {
        OpenStep(t, lo, hi, i, paren);
        EndsHere(t, lo, hi, i, paren);
        StartsIff(t, match_, lo, n, hi, ParenAfter(t[i].sym, paren), p);
      }
    }
  }

  // ------------------------------------------------------------------- statement runs

  /** A run of whole statements of the body [lo, hi), of at least `tier` tokens if they are there. */
  ghost predicate StatementRun(t: seq<Token>, lo: nat, hi: nat, tier: nat, r: Span)
    requires hi <= |t|
  {
    && StartsStatement(t, lo, hi, r.lo)
    && (if r.hi == hi then forall p :: FarEnough(r.lo, tier, p) ==> !StartsStatement(t, lo, hi, p)
        else
          StartsStatement(t, lo, hi, r.hi) && FarEnough(r.lo, tier, r.hi)
          && forall p :: FarEnough(r.lo, tier, p) && StartsStatement(t, lo, hi, p) ==> r.hi <= p)
  }

  /** The same for one of the three tiers. */
  ghost predicate StatementRunIn(t: seq<Token>, lim: Limits, lo: nat, hi: nat, r: Span)
    requires hi <= |t|
  {
    && lim.statementRuns && r.nested && lo + lim.minTokens <= hi && r.lo + lim.minTokens <= r.hi
    && (|| StatementRun(t, lo, hi, lim.minTokens, r) || StatementRun(t, lo, hi, 2 * lim.minTokens, r)
        || StatementRun(t, lo, hi, 4 * lim.minTokens, r))
  }

  lemma TierIsStatementRun(t: seq<Token>, lo: nat, hi: nat, starts: seq<nat>, tier: nat, min: nat, r: Span)
    requires hi <= |t| && forall p: nat :: p in starts <==> StartsStatement(t, lo, hi, p)
    ensures r.lo in starts && TierRun(starts, r.lo, tier, min, hi, r)
       <==> r.nested && r.boundary && r.lo + min <= r.hi && StatementRun(t, lo, hi, tier, r)
  {
    hide StartsStatement;
  }

  lemma StatementRunsIff(t: seq<Token>, match_: seq<int>, lim: Limits, lo: nat, hi: nat, r: Span)
    requires IsBraceMatch(t, match_) && Forwards(t, match_) && 0 < lo < hi <= |t| && r.boundary
    ensures r in RunsOf(t, match_, lim, lo, hi) <==> StatementRunIn(t, lim, lo, hi, r)
  {
    hide IsBraceMatch, StartsFrom, RunsFrom, StatementRun, StartsLater, SomeTier, SomeStart;
    var starts := [lo] + StartsFrom(t, match_, lo, hi, 0);
    StartsRise(t, match_, lo, hi, 0);
    AtFirst(t, lo, hi);
    forall p: nat
      ensures p in starts <==> StartsStatement(t, lo, hi, p)
    {
      StartsIff(t, match_, lo, lo, hi, 0, p);
      LaterIsBehind(t, lo, hi, p);
    }
    RunsFromIff(starts, 0, lim.minTokens, hi, r);
    StartOfRun(starts, lim.minTokens, hi, r);
    TierIsStatementRun(t, lo, hi, starts, lim.minTokens, lim.minTokens, r);
    TierIsStatementRun(t, lo, hi, starts, 2 * lim.minTokens, lim.minTokens, r);
    TierIsStatementRun(t, lo, hi, starts, 4 * lim.minTokens, lim.minTokens, r);
  }

  lemma LaterIsBehind(t: seq<Token>, lo: nat, hi: nat, p: nat)
    requires hi <= |t|
    ensures StartsLater(t, lo, hi, p) ==> lo < p
  {
  }

  lemma AtFirst(t: seq<Token>, lo: nat, hi: nat)
    requires lo <= |t|
    ensures BetweenBlocks(t, lo, hi, lo) && Open(t, lo, hi, lo, 0)
  {
    assert TopNet(t, lo, hi, lo, lo) == 0;
  }

  lemma StartOfRun(starts: seq<nat>, min: nat, hi: nat, r: Span)
    ensures SomeStart(starts, 0, [min, min * 2, min * 4], min, hi, r)
       <==> r.lo in starts && (|| TierRun(starts, r.lo, min, min, hi, r) || TierRun(starts, r.lo, 2 * min, min, hi, r)
                              || TierRun(starts, r.lo, 4 * min, min, hi, r))
  {
    hide EndsAt;
    if r.lo in starts && SomeTier(starts, r.lo, [min, min * 2, min * 4], min, hi, r) {
      var x: nat :| x < |starts| && starts[x] == r.lo;
    }
    forall tier
      ensures tier in [min, min * 2, min * 4] <==> tier == min || tier == 2 * min || tier == 4 * min
    {
    }
  }

  /** The runs a file yields: prefixes and suffixes of callable bodies within the limits, and
      statement runs of callable bodies above them that follow no control statement. */
  lemma RunsIff(t: seq<Token>, match_: seq<int>, lim: Limits, r: Span)
    requires IsBraceMatch(t, match_) && Forwards(t, match_) && r.boundary
    ensures r in Walk(t, match_, lim, 0, |t|, false) <==> exists i: nat, j: nat :: RunFrom(t, lim, i, j, r)
  {
    hide IsBraceMatch, Walk, RunAt, RunFrom;
    WalkRuns(t, match_, lim, 0, |t|, false, r);
    if i: nat :| BlockIn(t, match_, 0, |t|, i) && RunAt(t, match_, lim, i, r) {
      RunAtIff(t, match_, lim, i, match_[i], r);
    }
    if i: nat, j: nat :| RunFrom(t, lim, i, j, r) {
      RunAtIff(t, match_, lim, i, j, r);
    }
  }

  /** The body from brace `i` to brace `j` yields the run. */
  ghost predicate RunFrom(t: seq<Token>, lim: Limits, i: nat, j: nat, r: Span) {
    && Closes(t, i, j) && BehindParameters(t, i)
    && (if j - i - 1 > lim.maxTokens then !BehindControl(t, i) && StatementRunIn(t, lim, i + 1, j, r)
        else lim.minTokens <= j - i - 1 && IsEdgeRun(lim, i + 1, j, r))
  }

  lemma RunAtIff(t: seq<Token>, match_: seq<int>, lim: Limits, i: nat, j: nat, r: Span)
    requires IsBraceMatch(t, match_) && Forwards(t, match_) && r.boundary
    ensures BlockIn(t, match_, 0, |t|, i) && match_[i] == j && RunAt(t, match_, lim, i, r) <==> RunFrom(t, lim, i, j, r)
  {
    hide Level, NeverUnder, Callable, BehindParameters, ControlBody, BehindControl, RunsOf, StatementRunIn,
      BoundaryRuns, IsEdgeRun;
    if i < |t| {
      if Closes(t, i, j) {
        PartnerIsIt(t, match_, i, j);
      }
      if t[i].sym == LBrace {
        OpenPointsForward(t, match_, i);
      }
      CallableIff(t, i);
      ControlIff(t, i);
      if i + 1 < j < |t| {
        StatementRunsIff(t, match_, lim, i + 1, j, r);
      }
      EdgeRunsIff(lim, i + 1, j, r);
    }
  }
}
