/** Which fragments the walk emits: the callable bodies within the limits, once each in
    source order, nested exactly when an emitted body encloses them. */
module FragmentTheorems {
  import opened Tokens
  import opened BraceMatching
  import opened StatementRuns
  import opened FragmentWalk
  import opened Sorting

  /** An emitted body strictly encloses the one opened at `i`. */
  ghost predicate EnclosedBody(t: seq<Token>, match_: seq<int>, lim: Limits, i: nat)
    requires |match_| == |t| && i < |t|
  {
    exists k: nat :: k < i && Emitted(t, match_, lim, k) && match_[i] < match_[k]
  }

  /** The bodies opened in [from, to), read off one brace at a time. */
  ghost function Bodies(t: seq<Token>, match_: seq<int>, lim: Limits, from: nat, to: nat): seq<Span>
    requires Forwards(t, match_) && to <= |t|
    decreases |t| - from
  {
    if from >= to then []
    else
      (if Emitted(t, match_, lim, from)
       then [Span(from + 1, match_[from], EnclosedBody(t, match_, lim, from), false)]
       else [])
      + Bodies(t, match_, lim, from + 1, to)
  }

  predicate IsBody(s: Span) {
    !s.boundary
  }

  /** No brace pair straddles an end of the range. */
  ghost predicate Whole(t: seq<Token>, from: nat, to: nat) {
    forall k: nat, m: nat :: Closes(t, k, m) ==> m < from || k >= to || (from <= k && m < to) || (k < from && to <= m)
  }

  /** An emitted body reaches around [from, to). */
  ghost predicate Enclosed(t: seq<Token>, match_: seq<int>, lim: Limits, from: nat, to: nat)
    requires |match_| == |t| && from <= |t|
  {
    exists k: nat :: k < from && Emitted(t, match_, lim, k) && to <= match_[k]
  }

  lemma {:induction false} BodiesConcat(t: seq<Token>, match_: seq<int>, lim: Limits, a: nat, b: nat, c: nat)
    requires Forwards(t, match_) && a <= b <= c <= |t|
    ensures Bodies(t, match_, lim, a, c) == Bodies(t, match_, lim, a, b) + Bodies(t, match_, lim, b, c)
    decreases |t| - a
  {
    hide Emitted, EnclosedBody;
    if a < b {
      BodiesConcat(t, match_, lim, a + 1, b, c);
    }
  }

  // ------------------------------------------------------------- ranges stay whole

  /** Where no block opens, no matched brace stands. */
  lemma WholeNext(t: seq<Token>, match_: seq<int>, from: nat, to: nat)
    requires IsBraceMatch(t, match_) && from < to <= |t| && Whole(t, from, to)
    requires !OpensBlock(t, match_, from, to)
    ensures Whole(t, from + 1, to) && (t[from].sym == LBrace ==> match_[from] < 0)
    ensures forall k: nat :: k < from && match_[k] > k ==> match_[k] != from
  {
    hide Level, NeverUnder;
    if t[from].sym == LBrace {
      OpenPointsForward(t, match_, from);
    }
    forall k: nat, m: nat | Closes(t, k, m)
      ensures k != from && m != from
    {
      assert match_[k] == m;
    }
    forall k: nat | k < from && match_[k] > k
      ensures match_[k] != from
    {
      PartnerCloses(t, match_, k, match_[k]);
    }
  }

  lemma WholeInside(t: seq<Token>, match_: seq<int>, from: nat, to: nat)
    requires IsBraceMatch(t, match_) && from < to <= |t| && Whole(t, from, to) && OpensBlock(t, match_, from, to)
    ensures from < match_[from] && Closes(t, from, match_[from])
    ensures Whole(t, from + 1, match_[from]) && Whole(t, match_[from] + 1, to)
  {
    hide Level, NeverUnder;
    OpenPointsForward(t, match_, from);
    var j := match_[from];
    forall k: nat, m: nat | Closes(t, k, m)
      ensures m < from || k > j || (from < k && m < j) || (k < from && j < m) || (k == from && m == j)
    {
      PartnerUnique(t, from, j, k, m);
      if from < k < j {
        PairsNest(t, from, j, k, m);
      }
      if k < from < m {
        PairsNest(t, k, m, from, j);
      }
    }
  }

  lemma EmittedCloses(t: seq<Token>, match_: seq<int>, lim: Limits, k: nat)
    requires IsBraceMatch(t, match_) && k < |t|
    ensures Emitted(t, match_, lim, k) ==> Closes(t, k, match_[k])
  {
    hide Closes, Callable;
    if Emitted(t, match_, lim, k) {
      PartnerCloses(t, match_, k, match_[k]);
    }
  }

  lemma EmittedForwards(t: seq<Token>, match_: seq<int>, lim: Limits, k: nat)
    requires |match_| == |t| && k < |t| && Emitted(t, match_, lim, k)
    ensures match_[k] > k
  {
  }

  lemma EnclosedNext(t: seq<Token>, match_: seq<int>, lim: Limits, from: nat, to: nat)
    requires IsBraceMatch(t, match_) && from < to <= |t| && !OpensBlock(t, match_, from, to)
    requires Whole(t, from, to)
    ensures !Emitted(t, match_, lim, from)
    ensures Enclosed(t, match_, lim, from + 1, to) == Enclosed(t, match_, lim, from, to)
  {
    hide Closes, Callable, Whole;
    WholeNext(t, match_, from, to);
  }

  /** Around the inside of a block: what surrounds the block, and the block itself. */
  lemma EnclosedInside(t: seq<Token>, match_: seq<int>, lim: Limits, from: nat, to: nat)
    requires IsBraceMatch(t, match_) && Forwards(t, match_)
    requires from < to <= |t| && Whole(t, from, to) && OpensBlock(t, match_, from, to)
    ensures from < match_[from]
    ensures EnclosedBody(t, match_, lim, from) == Enclosed(t, match_, lim, from, to)
    ensures Enclosed(t, match_, lim, from + 1, match_[from])
         == (Enclosed(t, match_, lim, from, to) || Emitted(t, match_, lim, from))
    ensures Enclosed(t, match_, lim, match_[from] + 1, to) == Enclosed(t, match_, lim, from, to)
  {
    hide Level, NeverUnder, Callable, Emitted, IsBraceMatch;
    WholeInside(t, match_, from, to);
    var j := match_[from];
    forall k: nat | k < |t| && Emitted(t, match_, lim, k)
      ensures match_[k] > k && Closes(t, k, match_[k])
      ensures match_[k] < from || k > j || (from < k && match_[k] < j) || (k < from && to <= match_[k]) || k == from
    {
      EmittedCloses(t, match_, lim, k);
      EmittedForwards(t, match_, lim, k);
      if from < k < j {
        PairsNest(t, from, j, k, match_[k]);
      }
    }
    EnclosedWays(t, match_, lim, from, to, j);
  }

  lemma EnclosedWays(t: seq<Token>, match_: seq<int>, lim: Limits, from: nat, to: nat, j: nat)
    requires |match_| == |t| && from < j < to <= |t| && match_[from] == j
    requires forall k: nat :: k < |t| && Emitted(t, match_, lim, k) ==>
      match_[k] < from || k > j || (from < k && match_[k] < j) || (k < from && to <= match_[k]) || k == from
    ensures EnclosedBody(t, match_, lim, from) == Enclosed(t, match_, lim, from, to)
    ensures Enclosed(t, match_, lim, from + 1, j)
         == (Enclosed(t, match_, lim, from, to) || Emitted(t, match_, lim, from))
    ensures Enclosed(t, match_, lim, j + 1, to) == Enclosed(t, match_, lim, from, to)
  {
    hide Emitted;
  }

  // ------------------------------------------------------------------- the theorem

  lemma OneBody(t: seq<Token>, match_: seq<int>, lim: Limits, i: nat, j: nat, inside: bool)
    requires Forwards(t, match_) && i < j < |t| && match_[i] == j && t[i].sym == LBrace
    requires IsBraceMatch(t, match_)
    ensures Filter(IsBody, Block(t, match_, lim, i, j, inside))
         == if Emitted(t, match_, lim, i) then [Span(i + 1, j, inside, false)] else []
  {
    hide Callable, ControlBody, IsBraceMatch;
    RunsAreWholeStatements(t, match_, lim, i + 1, j);
    FilterNone(IsBody, RunsOf(t, match_, lim, i + 1, j));
    assert forall r :: r in BoundaryRuns(lim, i + 1, j) ==> r.boundary;
    FilterNone(IsBody, BoundaryRuns(lim, i + 1, j));
    FilterConcat(IsBody, [Span(i + 1, j, inside, false)], BoundaryRuns(lim, i + 1, j));
  }

  /** The bodies the recursion emits are the bodies read off brace by brace. */
  lemma {:induction false} WalkEmitsBodies(t: seq<Token>, match_: seq<int>, lim: Limits, from: nat, to: nat,
      inside: bool)
    requires IsBraceMatch(t, match_) && Forwards(t, match_) && from <= to <= |t|
    requires Whole(t, from, to) && inside == Enclosed(t, match_, lim, from, to)
    ensures Filter(IsBody, Walk(t, match_, lim, from, to, inside)) == Bodies(t, match_, lim, from, to)
    decreases |t| - from
  {
    hide IsBraceMatch, Whole, Enclosed, EnclosedBody, Emitted, Block, Filter;
    if from == to {
      FilterNone(IsBody, []);
    } else if !OpensBlock(t, match_, from, to) {
      WholeNext(t, match_, from, to);
      EnclosedNext(t, match_, lim, from, to);
      WalkEmitsBodies(t, match_, lim, from + 1, to, inside);
    } else {
      var j := match_[from];
      WholeInside(t, match_, from, to);
      EnclosedInside(t, match_, lim, from, to);
      var within := inside || Emitted(t, match_, lim, from);
      WalkEmitsBodies(t, match_, lim, from + 1, j, within);
      WalkEmitsBodies(t, match_, lim, j + 1, to, inside);
      JoinBlock(t, match_, lim, from, to, inside);
    }
  }

  lemma JoinBlock(t: seq<Token>, match_: seq<int>, lim: Limits, from: nat, to: nat, inside: bool)
    requires IsBraceMatch(t, match_) && Forwards(t, match_) && from < to <= |t| && OpensBlock(t, match_, from, to)
    requires inside == EnclosedBody(t, match_, lim, from)
    requires Filter(IsBody, Walk(t, match_, lim, from + 1, match_[from], inside || Emitted(t, match_, lim, from)))
          == Bodies(t, match_, lim, from + 1, match_[from])
    requires Filter(IsBody, Walk(t, match_, lim, match_[from] + 1, to, inside))
          == Bodies(t, match_, lim, match_[from] + 1, to)
    ensures Filter(IsBody, Walk(t, match_, lim, from, to, inside)) == Bodies(t, match_, lim, from, to)
  {
    hide IsBraceMatch, EnclosedBody, Emitted, Block, Filter, Walk, Bodies;
    var j := match_[from];
    WalkStep(t, match_, lim, from, to, inside);
    var own := Block(t, match_, lim, from, j, inside);
    var within := Walk(t, match_, lim, from + 1, j, inside || Emitted(t, match_, lim, from));
    var rest := Walk(t, match_, lim, j + 1, to, inside);
    FilterConcat(IsBody, own + within, rest);
    FilterConcat(IsBody, own, within);
    OneBody(t, match_, lim, from, j, inside);
    BodiesOfBlock(t, match_, lim, from, to);
  }

  lemma BodiesOfBlock(t: seq<Token>, match_: seq<int>, lim: Limits, i: nat, to: nat)
    requires IsBraceMatch(t, match_) && Forwards(t, match_) && i < to <= |t| && OpensBlock(t, match_, i, to)
    ensures i < match_[i]
    ensures Bodies(t, match_, lim, i, to)
         == (if Emitted(t, match_, lim, i)
             then [Span(i + 1, match_[i], EnclosedBody(t, match_, lim, i), false)]
             else [])
            + Bodies(t, match_, lim, i + 1, match_[i]) + Bodies(t, match_, lim, match_[i] + 1, to)
  {
    hide IsBraceMatch, Emitted, EnclosedBody, Bodies;
    ClosingBraceEmitsNothing(t, match_, lim, i, to);
    BodiesFirst(t, match_, lim, i, to);
    BodiesConcat(t, match_, lim, i + 1, match_[i], to);
  }

  lemma BodiesFirst(t: seq<Token>, match_: seq<int>, lim: Limits, i: nat, to: nat)
    requires Forwards(t, match_) && i < to <= |t|
    ensures Bodies(t, match_, lim, i, to)
         == (if Emitted(t, match_, lim, i)
             then [Span(i + 1, match_[i], EnclosedBody(t, match_, lim, i), false)]
             else [])
            + Bodies(t, match_, lim, i + 1, to)
  {
    hide EnclosedBody, Callable;
  }

  lemma ClosingBraceEmitsNothing(t: seq<Token>, match_: seq<int>, lim: Limits, i: nat, to: nat)
    requires IsBraceMatch(t, match_) && Forwards(t, match_) && i < to <= |t| && OpensBlock(t, match_, i, to)
    ensures i < match_[i] && Bodies(t, match_, lim, match_[i], to) == Bodies(t, match_, lim, match_[i] + 1, to)
  {
    hide Level, NeverUnder, Callable, EnclosedBody;
    OpenPointsForward(t, match_, i);
  }

  /** A body opened in [from, to). */
  ghost predicate OpenedIn(t: seq<Token>, match_: seq<int>, lim: Limits, from: nat, to: nat, s: Span)
    requires |match_| == |t| && to <= |t|
  {
    && from < s.lo <= to && Emitted(t, match_, lim, s.lo - 1) && s.hi == match_[s.lo - 1]
    && s.nested == EnclosedBody(t, match_, lim, s.lo - 1) && !s.boundary
  }

  lemma OpenedFirst(t: seq<Token>, match_: seq<int>, lim: Limits, from: nat, to: nat, s: Span)
    requires |match_| == |t| && from < to <= |t|
    ensures OpenedIn(t, match_, lim, from, to, s)
       <==> OpenedIn(t, match_, lim, from + 1, to, s)
            || (Emitted(t, match_, lim, from)
                && s == Span(from + 1, match_[from], EnclosedBody(t, match_, lim, from), false))
  {
    hide EnclosedBody, Callable;
  }

  lemma OpenedAfter(t: seq<Token>, match_: seq<int>, lim: Limits, from: nat, to: nat, s: Span)
    requires |match_| == |t| && to <= |t| && OpenedIn(t, match_, lim, from, to, s)
    ensures from < s.lo
  {
    hide EnclosedBody, Emitted;
  }

  lemma BodyIsForward(t: seq<Token>, match_: seq<int>, lim: Limits, i: nat)
    requires |match_| == |t| && i < |t| && Emitted(t, match_, lim, i)
    ensures match_[i] >= 0
  {
    hide Callable;
  }

  lemma RisesInFront(s: Span, rest: seq<Span>)
    requires RisesBy(StartsBefore, rest) && forall r :: r in rest ==> s.lo < r.lo
    ensures RisesBy(StartsBefore, [s] + rest)
  {
    var all := [s] + rest;
    forall i: nat, j: nat | i < j < |all|
      ensures StartsBefore(all[i], all[j])
    {
      assert all[j] == rest[j - 1] && all[j] in rest;
    }
  }

  lemma {:induction false} BodiesOpened(t: seq<Token>, match_: seq<int>, lim: Limits, from: nat, to: nat)
    requires Forwards(t, match_) && to <= |t|
    ensures forall s :: s in Bodies(t, match_, lim, from, to) <==> OpenedIn(t, match_, lim, from, to, s)
    ensures RisesBy(StartsBefore, Bodies(t, match_, lim, from, to))
    decreases |t| - from
  {
    hide Emitted, EnclosedBody, OpenedIn, Bodies;
    if from < to {
      BodiesOpened(t, match_, lim, from + 1, to);
      BodiesFirst(t, match_, lim, from, to);
      var rest := Bodies(t, match_, lim, from + 1, to);
      forall s
        ensures s in Bodies(t, match_, lim, from, to) <==> OpenedIn(t, match_, lim, from, to, s)
        ensures s in rest ==> from + 1 < s.lo
      {
        OpenedFirst(t, match_, lim, from, to, s);
        if s in rest {
          OpenedAfter(t, match_, lim, from + 1, to, s);
        }
      }
      if Emitted(t, match_, lim, from) {
        BodyIsForward(t, match_, lim, from);
        RisesInFront(Span(from + 1, match_[from], EnclosedBody(t, match_, lim, from), false), rest);
      } else {
        assert [] + rest == rest;
      }
    } else {
      NoBodies(t, match_, lim, from, to);
    }
  }

  lemma NoBodies(t: seq<Token>, match_: seq<int>, lim: Limits, from: nat, to: nat)
    requires Forwards(t, match_) && to <= |t| && from >= to
    ensures Bodies(t, match_, lim, from, to) == []
    ensures forall s :: !OpenedIn(t, match_, lim, from, to, s)
  {
    hide Emitted, EnclosedBody;
  }

  lemma BodiesAre(t: seq<Token>, match_: seq<int>, lim: Limits, from: nat, to: nat)
    requires Forwards(t, match_) && to <= |t|
    ensures forall s :: s in Bodies(t, match_, lim, from, to) <==>
      from < s.lo <= to && Emitted(t, match_, lim, s.lo - 1) && s.hi == match_[s.lo - 1]
      && s.nested == EnclosedBody(t, match_, lim, s.lo - 1) && !s.boundary
    ensures RisesBy(StartsBefore, Bodies(t, match_, lim, from, to))
  {
    hide Emitted, EnclosedBody, Bodies;
    BodiesOpened(t, match_, lim, from, to);
  }

  predicate StartsBefore(a: Span, b: Span) {
    a.lo < b.lo
  }

  lemma EverythingIsWhole(t: seq<Token>, match_: seq<int>, lim: Limits)
    requires |match_| == |t|
    ensures Whole(t, 0, |t|) && !Enclosed(t, match_, lim, 0, |t|)
  {
    hide Level, NeverUnder, Callable;
  }

  /** A whole-body fragment is emitted exactly for the callable bodies within the limits,
      in strictly rising order, so once each; it is nested exactly when an emitted body
      strictly encloses it. */
  lemma BodiesOnceInOrder(t: seq<Token>, match_: seq<int>, lim: Limits)
    requires IsBraceMatch(t, match_) && Forwards(t, match_)
    ensures var bodies := Filter(IsBody, Walk(t, match_, lim, 0, |t|, false));
      && RisesBy(StartsBefore, bodies)
      && forall s :: s in bodies <==>
           && 0 < s.lo <= |t| && Emitted(t, match_, lim, s.lo - 1) && s.hi == match_[s.lo - 1]
           && s.nested == EnclosedBody(t, match_, lim, s.lo - 1) && !s.boundary
  {
    hide IsBraceMatch, Whole, Enclosed, EnclosedBody, Emitted, Walk, Filter, Bodies;
    EverythingIsWhole(t, match_, lim);
    WalkEmitsBodies(t, match_, lim, 0, |t|, false);
    BodiesAre(t, match_, lim, 0, |t|);
  }

  // ------------------------------------------------------------------ synthetic runs

  /** The run lies in a callable body and has at least the minimal length. */
  ghost predicate RunOfBody(t: seq<Token>, match_: seq<int>, lim: Limits, r: Span) {
    exists i: nat, j: nat ::
      Closes(t, i, j) && Callable(t, i) && i < r.lo && r.hi <= j && r.hi - r.lo >= lim.minTokens && r.nested
  }

  lemma BlockRuns(t: seq<Token>, match_: seq<int>, lim: Limits, i: nat, j: nat, inside: bool)
    requires IsBraceMatch(t, match_) && Forwards(t, match_) && i < j < |t| && Closes(t, i, j)
    ensures forall r :: r in Block(t, match_, lim, i, j, inside) && r.boundary ==> RunOfBody(t, match_, lim, r)
  {
    hide Callable, ControlBody, Closes, RunsOf, IsBraceMatch;
    RunsAreWholeStatements(t, match_, lim, i + 1, j);
  }

  /** Every synthetic run is nested and lies inside one callable body. */
  lemma {:induction false} RunsLieInBodies(t: seq<Token>, match_: seq<int>, lim: Limits, from: nat, to: nat,
      inside: bool)
    requires IsBraceMatch(t, match_) && Forwards(t, match_) && to <= |t|
    ensures forall r :: r in Walk(t, match_, lim, from, to, inside) && r.boundary ==> RunOfBody(t, match_, lim, r)
    decreases |t| - from
  {
    hide IsBraceMatch, Block, RunOfBody, Emitted;
    if from < to {
      if OpensBlock(t, match_, from, to) {
        OpenPointsForward(t, match_, from);
        WalkStep(t, match_, lim, from, to, inside);
        BlockRuns(t, match_, lim, from, match_[from], inside);
        RunsLieInBodies(t, match_, lim, from + 1, match_[from], inside || Emitted(t, match_, lim, from));
        RunsLieInBodies(t, match_, lim, match_[from] + 1, to, inside);
      } else {
        RunsLieInBodies(t, match_, lim, from + 1, to, inside);
      }
    }
  }
}
