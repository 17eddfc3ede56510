/** What the containment pass and the overlap pass may drop, and what they never lose. */
module Containment {
  import opened Fragments
  import opened Sorting
  import opened PairFilters

  // ---------------------------------------------------------------- containment

  ghost predicate AllValid(scan: Scan, cands: seq<Pair>) {
    forall p :: p in cands ==> ValidRanges(scan, p)
  }

  /** A pair that is not made of two synthetic runs. */
  predicate RealPair(scan: Scan, p: Pair) {
    !BoundaryPair(scan, p)
  }

  function TotalSpan(scan: Scan, p: Pair): int {
    LineSpan(FragA(scan, p)) + LineSpan(FragB(scan, p))
  }

  /** Same place: one file, same lines. */
  predicate SamePlace(x: Fragment, y: Fragment) {
    x.file == y.file && SameSpan(x, y)
  }

  /** The two pairs cover the same places with their sides exchanged, on different lines. */
  predicate CrosswiseTwins(scan: Scan, p: Pair, q: Pair) {
    && SamePlace(FragA(scan, p), FragB(scan, q)) && SamePlace(FragB(scan, p), FragA(scan, q))
    && !SameSpan(FragA(scan, p), FragB(scan, p))
  }

  lemma ContainedTransitive(scan: Scan, p: Pair, q: Pair, r: Pair)
    requires PairContainedIn(scan, p, q) && PairContainedIn(scan, q, r)
    ensures PairContainedIn(scan, p, r)
  {
  }

  lemma ContainedReflexive(scan: Scan, p: Pair)
    ensures PairContainedIn(scan, p, p)
  {
  }

  /** A pair drops a real pair exactly when it is a real pair around it, on more lines or
      with the sides exchanged. */
  lemma DropsReal(scan: Scan, p: Pair, q: Pair)
    requires RealPair(scan, p) && ValidRanges(scan, p) && ValidRanges(scan, q)
    ensures ShouldDrop(scan, p, q)
       <==> RealPair(scan, q) && PairContainedIn(scan, p, q)
            && (TotalSpan(scan, p) < TotalSpan(scan, q) || CrosswiseTwins(scan, p, q))
    ensures PairContainedIn(scan, p, q) ==> TotalSpan(scan, p) <= TotalSpan(scan, q)
  {
  }

  /** `q` is a real candidate around `p`. */
  ghost predicate Surrounds(scan: Scan, cands: seq<Pair>, q: Pair, p: Pair) {
    q in cands && RealPair(scan, q) && PairContainedIn(scan, p, q)
  }

  /** No real candidate around `q` has more lines. */
  ghost predicate Maximal(scan: Scan, cands: seq<Pair>, q: Pair) {
    forall r :: Surrounds(scan, cands, r, q) ==> TotalSpan(scan, r) <= TotalSpan(scan, q)
  }

  ghost predicate HasTwin(scan: Scan, cands: seq<Pair>, q: Pair) {
    exists r :: r in cands && RealPair(scan, r) && CrosswiseTwins(scan, q, r)
  }

  /** The real pairs that survive are the maximal ones without a crosswise twin. */
  lemma SurvivorIff(scan: Scan, cands: seq<Pair>, q: Pair)
    requires AllValid(scan, cands) && q in cands && RealPair(scan, q)
    ensures q in Uncontained(scan, cands) <==> Maximal(scan, cands, q) && !HasTwin(scan, cands, q)
  {
    hide RealPair, PairContainedIn, TotalSpan, CrosswiseTwins, ValidRanges, ShouldDrop;
    forall r | r in cands
      ensures ShouldDrop(scan, q, r)
         <==> Surrounds(scan, cands, r, q)
              && (TotalSpan(scan, q) < TotalSpan(scan, r) || CrosswiseTwins(scan, q, r))
      ensures CrosswiseTwins(scan, q, r) ==> PairContainedIn(scan, q, r)
    {
      DropsReal(scan, q, r);
      TwinsContain(scan, q, r);
    }
    if Dropped(scan, cands, q) {
      var k: nat :| k < |cands| && ShouldDrop(scan, q, cands[k]);
      assert cands[k] in cands;
    } else {
      forall r | r in cands
        ensures !ShouldDrop(scan, q, r)
      {
        var k: nat :| k < |cands| && cands[k] == r;
      }
    }
  }

  lemma TwinsContain(scan: Scan, q: Pair, r: Pair)
    ensures CrosswiseTwins(scan, q, r) ==> PairContainedIn(scan, q, r)
  {
  }

  /** A real pair stays represented by a surviving real pair around it exactly when some
      maximal candidate around it has no crosswise twin. */
  lemma RepresentedIff(scan: Scan, cands: seq<Pair>, p: Pair)
    requires AllValid(scan, cands)
    ensures (exists q :: q in Uncontained(scan, cands) && RealPair(scan, q) && PairContainedIn(scan, p, q))
       <==> (exists q :: Surrounds(scan, cands, q, p) && Maximal(scan, cands, q) && !HasTwin(scan, cands, q))
  {
    hide RealPair, PairContainedIn, Maximal, HasTwin;
    forall q | q in cands && RealPair(scan, q)
      ensures q in Uncontained(scan, cands) <==> Maximal(scan, cands, q) && !HasTwin(scan, cands, q)
    {
      SurvivorIff(scan, cands, q);
    }
    if q :| q in Uncontained(scan, cands) && RealPair(scan, q) && PairContainedIn(scan, p, q) {
      assert Surrounds(scan, cands, q, p);
    }
    if q :| Surrounds(scan, cands, q, p) && Maximal(scan, cands, q) && !HasTwin(scan, cands, q) {
      assert q in Uncontained(scan, cands);
    }
  }

  function LargestSpan(scan: Scan, cands: seq<Pair>): (m: int)
    ensures forall p :: p in cands ==> TotalSpan(scan, p) <= m
  {
    if cands == [] then 0
    else
      var m := LargestSpan(scan, cands[1..]);
      if TotalSpan(scan, cands[0]) > m then TotalSpan(scan, cands[0]) else m
  }

  /** Every real candidate has a maximal one around it. */
  lemma {:induction false} MaximalAround(scan: Scan, cands: seq<Pair>, p: Pair)
    requires AllValid(scan, cands) && p in cands && RealPair(scan, p)
    ensures exists q :: Surrounds(scan, cands, q, p) && Maximal(scan, cands, q)
    decreases LargestSpan(scan, cands) - TotalSpan(scan, p)
  {
    hide RealPair, PairContainedIn, TotalSpan;
    ContainedReflexive(scan, p);
    if Maximal(scan, cands, p) {
      assert Surrounds(scan, cands, p, p);
    } else {
      var r :| Surrounds(scan, cands, r, p) && TotalSpan(scan, r) > TotalSpan(scan, p);
      MaximalAround(scan, cands, r);
      var q :| Surrounds(scan, cands, q, r) && Maximal(scan, cands, q);
      ContainedTransitive(scan, p, r, q);
    }
  }

  /** Without crosswise twins the containment pass loses no real clone: whatever it drops
      lies inside a real pair that it keeps. */
  lemma NoRealCloneLost(scan: Scan, cands: seq<Pair>, p: Pair)
    requires AllValid(scan, cands) && p in cands && RealPair(scan, p)
    requires forall q :: q in cands ==> !HasTwin(scan, cands, q)
    ensures exists q :: q in Uncontained(scan, cands) && RealPair(scan, q) && PairContainedIn(scan, p, q)
  {
    hide RealPair, PairContainedIn, Maximal, HasTwin, Uncontained;
    MaximalAround(scan, cands, p);
    RepresentedIff(scan, cands, p);
  }

  /** Two crosswise twins drop each other, and nothing remains of the clone. */
  lemma TwinsDropEachOther(scan: Scan, p: Pair, q: Pair)
    requires RealPair(scan, p) && RealPair(scan, q) && CrosswiseTwins(scan, p, q)
    requires ValidRanges(scan, p)
    ensures Uncontained(scan, [p, q]) == []
  {
    var cands := [p, q];
    assert ShouldDrop(scan, p, cands[1]);
    assert ShouldDrop(scan, q, cands[0]);
    assert Dropped(scan, cands, p) && Dropped(scan, cands, q);
    FilterNone(p => !Dropped(scan, cands, p), cands);
  }

  // --------------------------------------------------------------------- overlap

  lemma OverlapSymmetric(scan: Scan, p: Pair, q: Pair)
    ensures PairOverlaps(scan, p, q) == PairOverlaps(scan, q, p)
  {
  }

  ghost predicate NoneOverlap(scan: Scan, s: seq<Pair>) {
    forall i: nat, j: nat :: i < |s| && j < |s| && i != j ==> !PairOverlaps(scan, s[i], s[j])
  }

  /** Everything before `n` is kept or overlaps something kept before it. */
  ghost predicate Accounted(scan: Scan, s: seq<Pair>, kept: seq<Pair>) {
    forall k: nat :: k < |s| ==> s[k] in kept || OverlapsEarlier(scan, s, kept, k)
  }

  ghost predicate OverlapsEarlier(scan: Scan, s: seq<Pair>, kept: seq<Pair>, k: nat)
    requires k < |s|
  {
    exists j: nat :: j < k && s[j] in kept && PairOverlaps(scan, s[k], s[j])
  }

  lemma {:induction false} DisjointedFrom(scan: Scan, done: seq<Pair>, s: seq<Pair>, kept: seq<Pair>)
    requires NoneOverlap(scan, kept) && Accounted(scan, done, kept)
    requires forall p :: p in kept ==> p in done
    ensures var r := Disjointed(scan, s, kept);
      NoneOverlap(scan, r) && Accounted(scan, done + s, r) && forall p :: p in r ==> p in done + s
    decreases |s|
  {
    hide PairOverlaps, NoneOverlap, Accounted, OverlapsAny;
    if s == [] {
      assert done + s == done;
    } else {
      var p := s[0];
      var more := if OverlapsAny(scan, kept, p) then kept else kept + [p];
      assert NoneOverlap(scan, more) by {
        if more != kept {
          KeepOneMore(scan, kept, p);
        }
      }
      AccountedOneMore(scan, done, kept, p);
      DisjointedFrom(scan, done + [p], s[1..], more);
      assert done + [p] + s[1..] == done + s;
    }
  }

  lemma KeepOneMore(scan: Scan, kept: seq<Pair>, p: Pair)
    requires NoneOverlap(scan, kept) && !OverlapsAny(scan, kept, p)
    ensures NoneOverlap(scan, kept + [p])
  {
    hide PairOverlaps;
    var s := kept + [p];
    forall i: nat, j: nat | i < |s| && j < |s| && i != j
      ensures !PairOverlaps(scan, s[i], s[j])
    {
      OverlapSymmetric(scan, s[i], s[j]);
      assert i < |kept| || !OverlapsAny(scan, kept, s[i]);
      assert j < |kept| || !OverlapsAny(scan, kept, s[j]);
    }
  }

  lemma AccountedOneMore(scan: Scan, done: seq<Pair>, kept: seq<Pair>, p: Pair)
    requires Accounted(scan, done, kept) && forall q :: q in kept ==> q in done
    ensures Accounted(scan, done + [p], if OverlapsAny(scan, kept, p) then kept else kept + [p])
  {
    hide PairOverlaps;
    var s := done + [p];
    var more := if OverlapsAny(scan, kept, p) then kept else kept + [p];
    forall k: nat | k < |s|
      ensures s[k] in more || OverlapsEarlier(scan, s, more, k)
    {
      if k < |done| {
        assert s[k] == done[k];
        if done[k] !in kept {
          assert OverlapsEarlier(scan, done, kept, k);
          var j: nat :| j < k && done[j] in kept && PairOverlaps(scan, done[k], done[j]);
          assert s[j] == done[j];
        }
      } else if OverlapsAny(scan, kept, p) {
        var m: nat :| m < |kept| && PairOverlaps(scan, p, kept[m]);
        assert kept[m] in done;
        var j: nat :| j < |done| && done[j] == kept[m];
        assert s[j] == kept[m];
      }
    }
  }

  /** After the overlap pass no two pairs overlap, and every pair it dropped overlaps a
      survivor that ranked before it. */
  lemma DisjointedIsMaximal(scan: Scan, s: seq<Pair>)
    ensures var r := Disjointed(scan, s, []);
      NoneOverlap(scan, r) && Accounted(scan, s, r) && forall p :: p in r ==> p in s
  {
    hide PairOverlaps, Disjointed;
    DisjointedFrom(scan, [], s, []);
    assert [] + s == s;
  }

  /** Through both passes: a real candidate lies inside a pair that is reported or that
      overlaps a reported pair ranked before it. */
  lemma RealClonesAreAccountedFor(scan: Scan, cands: seq<Pair>, p: Pair)
    requires AllValid(scan, cands) && p in cands && RealPair(scan, p)
    requires forall q :: q in cands ==> !HasTwin(scan, cands, q)
    ensures var r := Disjointed(scan, Uncontained(scan, cands), []);
      exists q :: q in cands && RealPair(scan, q) && PairContainedIn(scan, p, q)
        && (q in r || exists w :: w in r && PairOverlaps(scan, q, w))
  {
    hide RealPair, PairContainedIn, HasTwin, PairOverlaps, Disjointed, Uncontained;
    var u := Uncontained(scan, cands);
    NoRealCloneLost(scan, cands, p);
    var q :| q in u && RealPair(scan, q) && PairContainedIn(scan, p, q);
    UncontainedMembers(scan, cands, q);
    DisjointedIsMaximal(scan, u);
    var k: nat :| k < |u| && u[k] == q;
    assert u[k] in Disjointed(scan, u, []) || OverlapsEarlier(scan, u, Disjointed(scan, u, []), k);
  }

  lemma UncontainedMembers(scan: Scan, cands: seq<Pair>, q: Pair)
    ensures q in Uncontained(scan, cands) ==> q in cands
  {
  }
}
