/** Restricting a scan to the files of interest changes nothing but speed: the focused
    scan reports exactly the pairs of the full scan that touch a focus file. */
module FocusTheorem {
  import opened Sorting
  import opened PairFilters

  ghost function Focused(scan: Scan, focus: set<string>, s: seq<Pair>): seq<Pair> {
    Filter(p => PairInFocus(scan, focus, p), s)
  }

  ghost predicate OverSameFiles(scan: Scan, p: Pair, q: Pair) {
    var pa, pb, qa, qb := FragA(scan, p).file, FragB(scan, p).file, FragA(scan, q).file, FragB(scan, q).file;
    (pa == qa && pb == qb) || (pa == qb && pb == qa)
  }

  /** A pair drops only pairs over its own two files. */
  lemma DropsOverSameFiles(scan: Scan, p: Pair, q: Pair)
    ensures ShouldDrop(scan, p, q) || PairOverlaps(scan, p, q) ==> OverSameFiles(scan, p, q)
  {
  }

  lemma KeySameFiles(scan: Scan, p: Pair, q: Pair)
    ensures CanonKey(p) == CanonKey(q) ==> OverSameFiles(scan, p, q)
    ensures FileKey(scan, p) == FileKey(scan, q) ==> OverSameFiles(scan, p, q)
  {
  }

  lemma ScoredFocused(scan: Scan, focus: set<string>, measured: seq<Pair>)
    ensures Scored(scan, focus, measured) == Focused(scan, focus, Scored(scan, {}, measured))
  {
    hide ScoreOf;
    FilterAll(p => PairInFocus(scan, {}, p), measured);
    FilterSwap(p => ScoreOf(scan, p) >= scan.opts.simThreshold, p => PairInFocus(scan, focus, p), measured);
  }

  lemma RankedFocused(scan: Scan, focus: set<string>, s: seq<Pair>)
    ensures Ranked(scan, Focused(scan, focus, s)) == Focused(scan, focus, Ranked(scan, s))
  {
    hide PairInFocus;
    SortFilter((p: Pair, q: Pair) => Ranks(scan, p, q), p => PairInFocus(scan, focus, p), s);
  }

  lemma {:induction false} CanonicalFocused(scan: Scan, focus: set<string>, s: seq<Pair>,
      seen: set<(nat, nat)>, focusedSeen: set<(nat, nat)>)
    requires forall p :: PairInFocus(scan, focus, p) ==> (CanonKey(p) in seen <==> CanonKey(p) in focusedSeen)
    ensures Canonical(Focused(scan, focus, s), focusedSeen) == Focused(scan, focus, Canonical(s, seen))
  {
    hide PairInFocus, CanonKey;
    if s != [] {
      var key := CanonKey(s[0]);
      forall p | PairInFocus(scan, focus, p)
        ensures key == CanonKey(p) ==> PairInFocus(scan, focus, s[0])
      {
        KeyKeepsFocus(scan, focus, p, s[0]);
      }
      if key in seen {
        CanonicalFocused(scan, focus, s[1..], seen, focusedSeen);
      } else if PairInFocus(scan, focus, s[0]) {
        CanonicalFocused(scan, focus, s[1..], seen + {key}, focusedSeen + {key});
      } else {
        CanonicalFocused(scan, focus, s[1..], seen + {key}, focusedSeen);
      }
    }
  }

  lemma KeyKeepsFocus(scan: Scan, focus: set<string>, p: Pair, q: Pair)
    requires PairInFocus(scan, focus, p)
    ensures CanonKey(p) == CanonKey(q) ==> PairInFocus(scan, focus, q)
    ensures FileKey(scan, p) == FileKey(scan, q) ==> PairInFocus(scan, focus, q)
  {
    KeySameFiles(scan, p, q);
  }

  lemma FilterFocused(scan: Scan, focus: set<string>, keep: Pair -> bool, s: seq<Pair>)
    ensures Filter(keep, Focused(scan, focus, s)) == Focused(scan, focus, Filter(keep, s))
  {
    hide PairInFocus;
    FilterSwap(keep, p => PairInFocus(scan, focus, p), s);
  }

  // --------------------------------------------------------- whole-file clones

  lemma MatchedFocused(scan: Scan, focus: set<string>, s: seq<Pair>, p: Pair)
    requires PairInFocus(scan, focus, p)
    ensures CountMatched(scan, Focused(scan, focus, s), FileKey(scan, p)) == CountMatched(scan, s, FileKey(scan, p))
  {
    hide PairInFocus, FileKey, WholeBodies;
    var same := q => WholeBodies(scan, q) && FileKey(scan, q) == FileKey(scan, p);
    FilterSwap(same, q => PairInFocus(scan, focus, q), s);
    forall q | q in Filter(same, s)
      ensures PairInFocus(scan, focus, q)
    {
      KeyKeepsFocus(scan, focus, p, q);
    }
    FilterAll(q => PairInFocus(scan, focus, q), Filter(same, s));
  }

  lemma WholeFilesFocused(scan: Scan, focus: set<string>, s: seq<Pair>)
    ensures WithoutWholeFiles(scan, Focused(scan, focus, s)) == Focused(scan, focus, WithoutWholeFiles(scan, s))
  {
    hide PairInFocus, FileKey, CountMatched, IsWholeFileClone, CountFrags;
    var t := Focused(scan, focus, s);
    forall p | p in t
      ensures InWholeFileClone(scan, t, p) == InWholeFileClone(scan, s, p)
    {
      MatchedFocused(scan, focus, s, p);
    }
    FilterSame(p => !InWholeFileClone(scan, t, p), p => !InWholeFileClone(scan, s, p), t);
    FilterFocused(scan, focus, p => !InWholeFileClone(scan, s, p), s);
  }

  // -------------------------------------------------------------------- mapping

  lemma {:induction false} MappedFocused(scan: Scan, focus: set<string>, f: Pair -> Pair, s: seq<Pair>)
    requires forall p :: f(p).a == p.a && f(p).b == p.b
    ensures Mapped(f, Focused(scan, focus, s)) == Focused(scan, focus, Mapped(f, s))
  {
    if s != [] {
      MappedFocused(scan, focus, f, s[1..]);
    }
  }

  // ------------------------------------------------------ containment and overlap

  lemma UncontainedFocused(scan: Scan, focus: set<string>, s: seq<Pair>)
    ensures Uncontained(scan, Focused(scan, focus, s)) == Focused(scan, focus, Uncontained(scan, s))
  {
    hide PairInFocus, ShouldDrop;
    var t := Focused(scan, focus, s);
    forall p | p in t
      ensures Dropped(scan, t, p) == Dropped(scan, s, p)
    {
      DroppedFocused(scan, focus, s, p);
    }
    FilterSame(p => !Dropped(scan, t, p), p => !Dropped(scan, s, p), t);
    FilterFocused(scan, focus, p => !Dropped(scan, s, p), s);
  }

  lemma DroppedFocused(scan: Scan, focus: set<string>, s: seq<Pair>, p: Pair)
    requires PairInFocus(scan, focus, p)
    ensures Dropped(scan, Focused(scan, focus, s), p) == Dropped(scan, s, p)
  {
    hide PairInFocus, ShouldDrop;
    var t := Focused(scan, focus, s);
    forall q
      ensures ShouldDrop(scan, p, q) ==> PairInFocus(scan, focus, q)
    {
      DropKeepsFocus(scan, focus, p, q);
    }
    if Dropped(scan, s, p) {
      var k: nat :| k < |s| && ShouldDrop(scan, p, s[k]);
      assert s[k] in t;
      var j: nat :| j < |t| && t[j] == s[k];
    }
    if Dropped(scan, t, p) {
      var k: nat :| k < |t| && ShouldDrop(scan, p, t[k]);
      assert t[k] in s;
      var j: nat :| j < |s| && s[j] == t[k];
    }
  }

  lemma DropKeepsFocus(scan: Scan, focus: set<string>, p: Pair, q: Pair)
    requires PairInFocus(scan, focus, p)
    ensures ShouldDrop(scan, p, q) || PairOverlaps(scan, p, q) ==> PairInFocus(scan, focus, q)
  {
    hide ShouldDrop, PairOverlaps;
    DropsOverSameFiles(scan, p, q);
  }

  lemma OverlapsFocused(scan: Scan, focus: set<string>, kept: seq<Pair>, p: Pair)
    requires PairInFocus(scan, focus, p)
    ensures OverlapsAny(scan, Focused(scan, focus, kept), p) == OverlapsAny(scan, kept, p)
  {
    hide PairInFocus, PairOverlaps;
    var t := Focused(scan, focus, kept);
    forall q
      ensures PairOverlaps(scan, p, q) ==> PairInFocus(scan, focus, q)
    {
      DropKeepsFocus(scan, focus, p, q);
    }
    if OverlapsAny(scan, kept, p) {
      var k: nat :| k < |kept| && PairOverlaps(scan, p, kept[k]);
      assert kept[k] in t;
      var j: nat :| j < |t| && t[j] == kept[k];
    }
    if OverlapsAny(scan, t, p) {
      var k: nat :| k < |t| && PairOverlaps(scan, p, t[k]);
      assert t[k] in kept;
      var j: nat :| j < |kept| && kept[j] == t[k];
    }
  }

  lemma {:induction false} DisjointedFocused(scan: Scan, focus: set<string>, s: seq<Pair>, kept: seq<Pair>)
    ensures Disjointed(scan, Focused(scan, focus, s), Focused(scan, focus, kept))
         == Focused(scan, focus, Disjointed(scan, s, kept))
    decreases |s|
  {
    hide PairInFocus, OverlapsAny;
    if s != [] {
      var p := s[0];
      DisjointedFocused(scan, focus, s[1..], kept);
      DisjointedFocused(scan, focus, s[1..], kept + [p]);
      FilterConcat(q => PairInFocus(scan, focus, q), kept, [p]);
      if PairInFocus(scan, focus, p) {
        OverlapsFocused(scan, focus, kept, p);
        assert Focused(scan, focus, s) == [p] + Focused(scan, focus, s[1..]);
        assert Focused(scan, focus, [p]) == [p];
      } else {
        assert Focused(scan, focus, s) == Focused(scan, focus, s[1..]);
        assert Focused(scan, focus, [p]) == [];
        assert Focused(scan, focus, kept + [p]) == Focused(scan, focus, kept);
      }
    }
  }

  // ------------------------------------------------------------------ the pipeline

  lemma SiteFiltersFocused(scan: Scan, focus: set<string>, s: seq<Pair>)
    ensures AfterSiteFilters(scan, Focused(scan, focus, s)) == Focused(scan, focus, AfterSiteFilters(scan, s))
  {
    hide Focused, Ranked, Canonical, ValidRanges, DistinctSites, BalancedSpans, JointFloor, Filter;
    RankedFocused(scan, focus, s);
    var c := Canonical(Ranked(scan, s), {});
    CanonicalFocused(scan, focus, Ranked(scan, s), {}, {});
    FilterFocused(scan, focus, p => ValidRanges(scan, p), c);
    var v := Filter(p => ValidRanges(scan, p), c);
    FilterFocused(scan, focus, p => DistinctSites(scan, p), v);
    var d := Filter(p => DistinctSites(scan, p), v);
    FilterFocused(scan, focus, p => BalancedSpans(scan, p), d);
    FilterFocused(scan, focus, p => JointFloor(scan, p), Filter(p => BalancedSpans(scan, p), d));
  }

  lemma FileGuardsFocused(scan: Scan, focus: set<string>, s: seq<Pair>)
    ensures AfterFileGuards(scan, Focused(scan, focus, s)) == Focused(scan, focus, AfterFileGuards(scan, s))
  {
    hide Focused, AfterSiteFilters, HandWritten, WithoutWholeFiles, Filter;
    SiteFiltersFocused(scan, focus, s);
    var a := AfterSiteFilters(scan, s);
    WholeFilesFocused(scan, focus, a);
    FilterFocused(scan, focus, p => HandWritten(scan, p), a);
    FilterFocused(scan, focus, p => HandWritten(scan, p), WithoutWholeFiles(scan, a));
  }

  lemma P1GuardsFocused(scan: Scan, focus: set<string>, s: seq<Pair>)
    ensures AfterP1Guards(scan, Focused(scan, focus, s)) == Focused(scan, focus, AfterP1Guards(scan, s))
  {
    hide Focused, AfterFileGuards, NotDataTable, NotBoilerplate, FileLocalIdiom, Filter, Mapped;
    FileGuardsFocused(scan, focus, s);
    var a := AfterFileGuards(scan, s);
    FilterFocused(scan, focus, p => NotDataTable(scan, p), a);
    var d := Filter(p => NotDataTable(scan, p), a);
    FilterFocused(scan, focus, p => NotBoilerplate(scan, p), d);
    MappedFocused(scan, focus, p => DownWeighted(scan, p), Filter(p => NotBoilerplate(scan, p), d));
  }

  /** Focus before the filters or after them: the same pairs in the same order. */
  lemma FocusCommutes(scan: Scan, focus: set<string>, s: seq<Pair>)
    ensures Survivors(scan, Focused(scan, focus, s)) == Focused(scan, focus, Survivors(scan, s))
  {
    hide Focused, AfterP1Guards, Uncontained, Disjointed, Mapped;
    P1GuardsFocused(scan, focus, s);
    var g := AfterP1Guards(scan, s);
    UncontainedFocused(scan, focus, g);
    assert Focused(scan, focus, []) == [] by {
      NothingFocused(scan, focus);
    }
    DisjointedFocused(scan, focus, Uncontained(scan, g), []);
    MappedFocused(scan, focus, p => Classified(scan, p), Disjointed(scan, Uncontained(scan, g), []));
  }

  lemma NothingFocused(scan: Scan, focus: set<string>)
    ensures Focused(scan, focus, []) == []
  {
  }

  /** The focused scan reports the full scan's pairs that touch a focus file. */
  lemma FocusIsPureSpeedUp(scan: Scan, focus: set<string>, measured: seq<Pair>)
    ensures Survivors(scan, Scored(scan, focus, measured))
         == Focused(scan, focus, Survivors(scan, Scored(scan, {}, measured)))
  {
    hide Survivors, Scored;
    ScoredFocused(scan, focus, measured);
    FocusCommutes(scan, focus, Scored(scan, {}, measured));
  }
}
