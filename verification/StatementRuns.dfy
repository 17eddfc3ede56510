/** Fragment spans and the synthetic runs cut from a body. */
module StatementRuns {
  import opened Tokens
  import opened BraceMatching

  datatype Limits = Limits(minTokens: nat, maxTokens: nat, boundaryRuns: bool, statementRuns: bool)

  /** The tokens [lo, hi) as one fragment. */
  datatype Span = Span(lo: nat, hi: nat, nested: bool, boundary: bool)

  // ------------------------------------------------------------- statement starts

  /** `p` as a statement start, unless out of range or a bare `;`. */
  function StartAt(t: seq<Token>, p: nat, hi: nat): seq<nat>
    requires hi <= |t|
  {
    if p < hi && t[p].sym != Semicolon then [p] else []
  }

  predicate OpensBlock(t: seq<Token>, match_: seq<int>, i: nat, hi: nat)
    requires |match_| == |t| && i < |t|
  {
    t[i].sym == LBrace && 0 <= match_[i] < hi
  }

  /** Where the scan goes from `i`: past a whole block, or to the next token. */
  function NextScan(t: seq<Token>, match_: seq<int>, i: nat, hi: nat): int
    requires |match_| == |t| && i < |t|
  {
    if OpensBlock(t, match_, i, hi) then match_[i] + 1 else i + 1
  }

  function ParenAfter(sym: Sym, paren: nat): nat {
    if sym == LParen then paren + 1 else if sym == RParen && paren > 0 then paren - 1 else paren
  }

  /** Blocks are skipped forwards. */
  ghost predicate Forwards(t: seq<Token>, match_: seq<int>) {
    |match_| == |t| && forall i: nat :: i < |t| && t[i].sym == LBrace && match_[i] >= 0 ==> i < match_[i]
  }

  /** The statement starts found from position `i` on. */
  ghost function StartsFrom(t: seq<Token>, match_: seq<int>, i: nat, hi: nat, paren: nat): seq<nat>
    requires Forwards(t, match_) && hi <= |t|
    decreases hi - i
  {
    if i >= hi then []
    else if OpensBlock(t, match_, i, hi) || (t[i].sym == Semicolon && paren == 0) then
      StartAt(t, NextScan(t, match_, i, hi), hi) + StartsFrom(t, match_, NextScan(t, match_, i, hi), hi, paren)
    else StartsFrom(t, match_, i + 1, hi, ParenAfter(t[i].sym, paren))
  }

  lemma StartsStep(t: seq<Token>, match_: seq<int>, i: nat, hi: nat, paren: nat)
    requires Forwards(t, match_) && hi <= |t| && i < hi
    ensures var n, sym := NextScan(t, match_, i, hi), t[i].sym;
      && i < n <= hi
      && StartsFrom(t, match_, i, hi, paren)
         == if OpensBlock(t, match_, i, hi) || (sym == Semicolon && paren == 0)
            then StartAt(t, n, hi) + StartsFrom(t, match_, n, hi, paren)
            else StartsFrom(t, match_, i + 1, hi, ParenAfter(sym, paren))
  {
    hide StartAt;
  }

  lemma NoStarts(t: seq<Token>, match_: seq<int>, i: nat, hi: nat, paren: nat)
    requires Forwards(t, match_) && hi <= |t| && i >= hi
    ensures StartsFrom(t, match_, i, hi, paren) == []
  {
  }

  method StatementStarts(t: seq<Token>, match_: seq<int>, lo: nat, hi: nat) returns (starts: seq<nat>)
    requires Forwards(t, match_) && lo <= hi <= |t|
    ensures starts == [lo] + StartsFrom(t, match_, lo, hi, 0)
  {
    hide StartsFrom, StartAt;
    starts := [lo];
    var paren := 0;
    var i := lo;
    while i < hi
      invariant lo <= i <= hi && paren >= 0
      invariant starts + StartsFrom(t, match_, i, hi, paren) == [lo] + StartsFrom(t, match_, lo, hi, 0)
    {
      StartsStep(t, match_, i, hi, paren);
      if t[i].sym == LParen {
        paren := paren + 1;
      } else if t[i].sym == RParen && paren > 0 {
        paren := paren - 1;
      } else if OpensBlock(t, match_, i, hi) {
        i := match_[i];
        starts := starts + StartAt(t, i + 1, hi);
      } else if t[i].sym == Semicolon && paren == 0 {
        starts := starts + StartAt(t, i + 1, hi);
      }
      i := i + 1;
    }
    NoStarts(t, match_, i, hi, paren);
  }

  ghost predicate Rising(s: seq<nat>, lo: nat, hi: nat) {
    && (forall x: nat :: x < |s| ==> lo <= s[x] < hi)
    && (forall x: nat, y: nat :: x < y < |s| ==> s[x] < s[y])
  }

  /** `p` does not fall inside a block of [lo, hi), its closing brace included. */
  ghost predicate BetweenBlocks(t: seq<Token>, lo: nat, hi: nat, p: nat) {
    forall k: nat, m: nat :: lo <= k && Closes(t, k, m) && m < hi ==> !(k < p <= m)
  }

  lemma {:induction false} StartsRise(t: seq<Token>, match_: seq<int>, i: nat, hi: nat, paren: nat)
    requires Forwards(t, match_) && hi <= |t|
    ensures Rising(StartsFrom(t, match_, i, hi, paren), i + 1, hi)
    decreases hi - i
  {
    if i < hi {
      if OpensBlock(t, match_, i, hi) || (t[i].sym == Semicolon && paren == 0) {
        StartsRise(t, match_, NextScan(t, match_, i, hi), hi, paren);
      } else {
        StartsRise(t, match_, i + 1, hi, ParenAfter(t[i].sym, paren));
      }
    }
  }

  /** The scan enters no block of its range, so from one resting place to the next nothing
      opens that is still open. */
  lemma RestStaysBetween(t: seq<Token>, match_: seq<int>, lo: nat, i: nat, hi: nat)
    requires IsBraceMatch(t, match_) && lo <= i < hi <= |t| && BetweenBlocks(t, lo, hi, i)
    ensures NextScan(t, match_, i, hi) > i
    ensures BetweenBlocks(t, lo, hi, NextScan(t, match_, i, hi))
  {
    hide Level, NeverUnder;
    var n := NextScan(t, match_, i, hi);
    assert OpensBlock(t, match_, i, hi) ==> i < match_[i] by {
      if OpensBlock(t, match_, i, hi) {
        OpenPointsForward(t, match_, i);
      }
    }
    forall k: nat, m: nat | lo <= k && Closes(t, k, m) && m < hi
      ensures !(k < n <= m)
    {
      if OpensBlock(t, match_, i, hi) {
        PartnerUnique(t, i, match_[i], k, m);
        if i < k < match_[i] {
          PairsNest(t, i, match_[i], k, m);
        }
      }
    }
  }

  lemma OpenPointsForward(t: seq<Token>, match_: seq<int>, i: nat)
    requires IsBraceMatch(t, match_) && i < |t| && t[i].sym == LBrace
    ensures match_[i] >= 0 ==> Closes(t, i, match_[i])
  {
    if match_[i] >= 0 {
      PartnerCloses(t, match_, i, match_[i]);
    }
  }

  lemma PartnerCloses(t: seq<Token>, match_: seq<int>, i: nat, j: nat)
    requires IsBraceMatch(t, match_) && i < |t| && match_[i] == j
    ensures if i < j then Closes(t, i, j) else Closes(t, j, i)
  {
    hide Closes;
  }

  lemma MatchForwards(t: seq<Token>, match_: seq<int>)
    requires IsBraceMatch(t, match_)
    ensures Forwards(t, match_)
  {
    forall i: nat | i < |t| && t[i].sym == LBrace && match_[i] >= 0
      ensures i < match_[i]
    {
      OpenPointsForward(t, match_, i);
    }
  }

  lemma {:induction false} StartsBetweenBlocks(t: seq<Token>, match_: seq<int>, lo: nat, i: nat, hi: nat, paren: nat)
    requires IsBraceMatch(t, match_) && Forwards(t, match_) && lo <= i && hi <= |t|
    requires i < hi ==> BetweenBlocks(t, lo, hi, i)
    ensures forall p :: p in StartsFrom(t, match_, i, hi, paren) ==> BetweenBlocks(t, lo, hi, p)
    decreases hi - i
  {
    hide IsBraceMatch, BetweenBlocks;
    if i < hi {
      RestStaysBetween(t, match_, lo, i, hi);
      var n := NextScan(t, match_, i, hi);
      if OpensBlock(t, match_, i, hi) || (t[i].sym == Semicolon && paren == 0) {
        StartsBetweenBlocks(t, match_, lo, n, hi, paren);
      } else {
        StartsBetweenBlocks(t, match_, lo, n, hi, ParenAfter(t[i].sym, paren));
      }
    }
  }

  // ---------------------------------------------------------------- statement runs

  /** The first start from `si` on that is at least `tier` past `s`, or `hi`. */
  function SnapFrom(starts: seq<nat>, si: nat, s: nat, tier: nat, hi: nat): nat
    decreases |starts| - si
  {
    if si >= |starts| then hi
    else if starts[si] - s >= tier then starts[si]
    else SnapFrom(starts, si + 1, s, tier, hi)
  }

  method SnapEnd(starts: seq<nat>, si: nat, s: nat, tier: nat, hi: nat) returns (e: nat)
    ensures e == SnapFrom(starts, si + 1, s, tier, hi)
  {
    var sj := si + 1;
    while sj < |starts|
      decreases |starts| - sj
      invariant SnapFrom(starts, sj, s, tier, hi) == SnapFrom(starts, si + 1, s, tier, hi)
    {
      if starts[sj] - s >= tier {
        return starts[sj];
      }
      sj := sj + 1;
    }
    return hi;
  }

  /** The runs starting at `starts[si]`, one for each tier, equal consecutive ends once. */
  ghost function TierRuns(starts: seq<nat>, si: nat, tiers: seq<nat>, min: nat, hi: nat, prevEnd: nat): seq<Span>
    requires si < |starts|
    decreases |tiers|
  {
    if tiers == [] then []
    else
      var s := starts[si];
      var e := SnapFrom(starts, si + 1, s, tiers[0], hi);
      if e - s >= min && e != prevEnd
      then [Span(s, e, true, true)] + TierRuns(starts, si, tiers[1..], min, hi, e)
      else TierRuns(starts, si, tiers[1..], min, hi, prevEnd)
  }

  ghost function RunsFrom(starts: seq<nat>, si: nat, min: nat, hi: nat): seq<Span>
    decreases |starts| - si
  {
    if si >= |starts| then []
    else TierRuns(starts, si, [min, min * 2, min * 4], min, hi, 0) + RunsFrom(starts, si + 1, min, hi)
  }

  ghost function RunsOf(t: seq<Token>, match_: seq<int>, lim: Limits, lo: nat, hi: nat): seq<Span>
    requires Forwards(t, match_) && hi <= |t|
  {
    if !lim.statementRuns || hi <= lo || hi - lo < lim.minTokens then []
    else RunsFrom([lo] + StartsFrom(t, match_, lo, hi, 0), 0, lim.minTokens, hi)
  }

  method EmitStatementRuns(t: seq<Token>, match_: seq<int>, lim: Limits, lo: nat, hi: nat) returns (runs: seq<Span>)
    requires Forwards(t, match_) && hi <= |t|
    ensures runs == RunsOf(t, match_, lim, lo, hi)
  {
    runs := [];
    if !lim.statementRuns || hi <= lo || hi - lo < lim.minTokens {
      return;
    }
    var starts := StatementStarts(t, match_, lo, hi);
    var min := lim.minTokens;
    var tiers := [min, min * 2, min * 4];
    var si := 0;
    while si < |starts|
      invariant si <= |starts|
      invariant runs + RunsFrom(starts, si, min, hi) == RunsFrom(starts, 0, min, hi)
    {
      var more := EmitTiers(starts, si, tiers, min, hi);
      runs := runs + more;
      si := si + 1;
    }
  }

  method EmitTiers(starts: seq<nat>, si: nat, tiers: seq<nat>, min: nat, hi: nat) returns (runs: seq<Span>)
    requires si < |starts|
    ensures runs == TierRuns(starts, si, tiers, min, hi, 0)
  {
    runs := [];
    var s := starts[si];
    var prevEnd: nat := 0;
    var k := 0;
    while k < |tiers|
      invariant k <= |tiers|
      invariant runs + TierRuns(starts, si, tiers[k..], min, hi, prevEnd) == TierRuns(starts, si, tiers, min, hi, 0)
    {
      assert tiers[k..][1..] == tiers[k + 1..];
      var e := SnapEnd(starts, si, s, tiers[k], hi);
      if e - s >= min && e != prevEnd {
        runs := runs + [Span(s, e, true, true)];
        prevEnd := e;
      }
      k := k + 1;
    }
  }

  /** A synthetic run of a body: at least `min` tokens, within the body, and cutting none
      of the body's blocks in two. */
  ghost predicate WholeStatements(t: seq<Token>, lo: nat, hi: nat, min: nat, r: Span) {
    && r.nested && r.boundary && lo <= r.lo && r.hi <= hi && r.hi - r.lo >= min
    && BetweenBlocks(t, lo, hi, r.lo) && BetweenBlocks(t, lo, hi, r.hi)
  }

  lemma {:induction false} SnapIsStart(starts: seq<nat>, si: nat, s: nat, tier: nat, hi: nat)
    ensures var e := SnapFrom(starts, si, s, tier, hi); e == hi || (e in starts && e - s >= tier)
    decreases |starts| - si
  {
    if si < |starts| && starts[si] - s < tier {
      SnapIsStart(starts, si + 1, s, tier, hi);
    }
  }

  ghost predicate GoodEnds(t: seq<Token>, lo: nat, hi: nat, starts: seq<nat>) {
    && lo <= hi && (forall p :: p in starts ==> lo <= p <= hi && BetweenBlocks(t, lo, hi, p))
    && BetweenBlocks(t, lo, hi, hi)
  }

  lemma {:induction false} TierRunsWhole(t: seq<Token>, lo: nat, hi: nat, starts: seq<nat>, si: nat, tiers: seq<nat>,
      min: nat, prevEnd: nat)
    requires si < |starts| && GoodEnds(t, lo, hi, starts)
    ensures forall r :: r in TierRuns(starts, si, tiers, min, hi, prevEnd) ==> WholeStatements(t, lo, hi, min, r)
    decreases |tiers|
  {
    hide BetweenBlocks;
    if tiers != [] {
      assert starts[si] in starts;
      var e := SnapFrom(starts, si + 1, starts[si], tiers[0], hi);
      SnapIsStart(starts, si + 1, starts[si], tiers[0], hi);
      TierRunsWhole(t, lo, hi, starts, si, tiers[1..], min, e);
      TierRunsWhole(t, lo, hi, starts, si, tiers[1..], min, prevEnd);
    }
  }

  lemma {:induction false} RunsFromWhole(t: seq<Token>, lo: nat, hi: nat, starts: seq<nat>, si: nat, min: nat)
    requires GoodEnds(t, lo, hi, starts)
    ensures forall r :: r in RunsFrom(starts, si, min, hi) ==> WholeStatements(t, lo, hi, min, r)
    decreases |starts| - si
  {
    hide BetweenBlocks, WholeStatements, GoodEnds;
    if si < |starts| {
      TierRunsWhole(t, lo, hi, starts, si, [min, min * 2, min * 4], min, 0);
      RunsFromWhole(t, lo, hi, starts, si + 1, min);
    }
  }

  /** Statement runs never start or end inside a block of the body they are cut from. */
  lemma RunsAreWholeStatements(t: seq<Token>, match_: seq<int>, lim: Limits, lo: nat, hi: nat)
    requires IsBraceMatch(t, match_) && Forwards(t, match_) && hi <= |t|
    ensures forall r :: r in RunsOf(t, match_, lim, lo, hi) ==> WholeStatements(t, lo, hi, lim.minTokens, r)
  {
    if lo < hi {
      var starts := [lo] + StartsFrom(t, match_, lo, hi, 0);
      StartsRise(t, match_, lo, hi, 0);
      StartsBetweenBlocks(t, match_, lo, lo, hi, 0);
      assert GoodEnds(t, lo, hi, starts);
      RunsFromWhole(t, lo, hi, starts, 0, lim.minTokens);
    }
  }

  // ----------------------------------------------------------------- boundary runs

  function BoundaryPair(lo: nat, hi: nat, size: nat, min: nat): seq<Span> {
    if lo <= hi && hi - lo >= size + min
    then [Span(lo, lo + size, true, true), Span(hi - size, hi, true, true)]
    else []
  }

  /** Prefix and suffix runs of a body in three sizes. */
  function BoundaryRuns(lim: Limits, lo: nat, hi: nat): seq<Span> {
    if !lim.boundaryRuns then []
    else
      var min := lim.minTokens;
      BoundaryPair(lo, hi, min, min) + BoundaryPair(lo, hi, min * 2, min) + BoundaryPair(lo, hi, min * 4, min)
  }

  method EmitBoundaryRuns(lim: Limits, lo: nat, hi: nat) returns (runs: seq<Span>)
    requires lo <= hi
    ensures runs == BoundaryRuns(lim, lo, hi)
  {
    runs := [];
    if !lim.boundaryRuns {
      return;
    }
    var sizes := [lim.minTokens, lim.minTokens * 2, lim.minTokens * 4];
    var k := 0;
    while k < |sizes|
      invariant k <= |sizes|
      invariant k >= 1 ==> BoundaryPair(lo, hi, sizes[0], lim.minTokens) <= runs
      invariant runs == (if k >= 1 then BoundaryPair(lo, hi, sizes[0], lim.minTokens) else [])
                        + (if k >= 2 then BoundaryPair(lo, hi, sizes[1], lim.minTokens) else [])
                        + (if k >= 3 then BoundaryPair(lo, hi, sizes[2], lim.minTokens) else [])
    {
      var size := sizes[k];
      if hi - lo >= size + lim.minTokens {
        runs := runs + [Span(lo, lo + size, true, true)];
        runs := runs + [Span(hi - size, hi, true, true)];
      }
      k := k + 1;
    }
  }
}
