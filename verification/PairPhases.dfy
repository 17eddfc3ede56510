/** The filter phases as the scanner runs them: each loop rebuilds the candidate list. */
module PairPhases {
  import opened Fragments
  import opened Sorting
  import opened PairFilters

  /** Keep the pairs that satisfy `keep`, in order. */
  method KeepIf(candidates: seq<Pair>, keep: Pair -> bool) returns (filtered: seq<Pair>)
    ensures filtered == Filter(keep, candidates)
  {
    filtered := [];
    var i := 0;
    while i < |candidates|
      invariant i <= |candidates| && filtered == Filter(keep, candidates[..i])
    {
      assert candidates[..i + 1] == candidates[..i] + [candidates[i]];
      FilterConcat(keep, candidates[..i], [candidates[i]]);
      if keep(candidates[i]) {
        filtered := filtered + [candidates[i]];
      }
      i := i + 1;
    }
    assert candidates[..i] == candidates;
  }

  method ScoreCandidates(scan: Scan, focus: set<string>, measured: seq<Pair>) returns (candidates: seq<Pair>)
    ensures candidates == Scored(scan, focus, measured)
  {
    ghost var inFocus := p => PairInFocus(scan, focus, p);
    ghost var above := p => ScoreOf(scan, p) >= scan.opts.simThreshold;
    candidates := [];
    var i := 0;
    while i < |measured|
      invariant i <= |measured| && candidates == Filter(above, Filter(inFocus, measured[..i]))
    {
      var p := measured[i];
      assert measured[..i + 1] == measured[..i] + [p];
      FilterConcat(inFocus, measured[..i], [p]);
      FilterConcat(above, Filter(inFocus, measured[..i]), Filter(inFocus, [p]));
      if PairInFocus(scan, focus, p) {
        if ScoreOf(scan, p) >= scan.opts.simThreshold {
          candidates := candidates + [p];
        }
      }
      i := i + 1;
    }
    assert measured[..i] == measured;
  }

  method SymmetricPairCanon(candidates: seq<Pair>) returns (deduped: seq<Pair>)
    ensures deduped == Canonical(candidates, {})
  {
    deduped := [];
    var seen: set<(nat, nat)> := {};
    var i := 0;
    while i < |candidates|
      invariant i <= |candidates|
      invariant deduped + Canonical(candidates[i..], seen) == Canonical(candidates, {})
    {
      assert candidates[i..][1..] == candidates[i + 1..];
      var key := CanonKey(candidates[i]);
      if key !in seen {
        seen := seen + {key};
        deduped := deduped + [candidates[i]];
      }
      i := i + 1;
    }
  }

  // ----------------------------------------------------------- whole-file clones

  function Tally<K>(m: map<K, nat>, key: K): nat {
    if key in m then m[key] else 0
  }

  method CountWholeBodies(frags: seq<Fragment>) returns (perFile: map<string, nat>)
    ensures forall file :: Tally(perFile, file) == CountFrags(frags, file)
  {
    perFile := map[];
    var i := 0;
    while i < |frags|
      invariant i <= |frags|
      invariant forall file :: Tally(perFile, file) == CountFrags(frags[..i], file)
    {
      assert frags[..i + 1][..i] == frags[..i];
      if !frags[i].nested {
        perFile := perFile[frags[i].file := Tally(perFile, frags[i].file) + 1];
      }
      i := i + 1;
    }
    assert frags[..i] == frags;
  }

  method CountWholeBodyPairs(scan: Scan, candidates: seq<Pair>) returns (matched: map<(string, string), nat>)
    ensures forall key :: Tally(matched, key) == CountMatched(scan, candidates, key)
    ensures forall key :: key in matched <==> CountMatched(scan, candidates, key) > 0
  {
    hide WholeBodies, FileKey;
    matched := map[];
    var i := 0;
    while i < |candidates|
      invariant i <= |candidates|
      invariant forall key :: Tally(matched, key) == CountMatched(scan, candidates[..i], key)
      invariant forall key :: key in matched ==> matched[key] > 0
    {
      MatchedOneMore(scan, candidates, i);
      if WholeBodies(scan, candidates[i]) {
        var key := FileKey(scan, candidates[i]);
        ghost var before := matched;
        matched := matched[key := Tally(matched, key) + 1];
        assert forall k :: Tally(matched, k) == Tally(before, k) + (if key == k then 1 else 0);
      }
      i := i + 1;
    }
    assert candidates[..i] == candidates;
    forall key
      ensures key in matched <==> CountMatched(scan, candidates, key) > 0
    {
      assert Tally(matched, key) == CountMatched(scan, candidates, key);
    }
  }

  lemma MatchedOneMore(scan: Scan, candidates: seq<Pair>, i: nat)
    requires i < |candidates|
    ensures forall key ::
      CountMatched(scan, candidates[..i + 1], key)
        == CountMatched(scan, candidates[..i], key)
           + (if WholeBodies(scan, candidates[i]) && FileKey(scan, candidates[i]) == key then 1 else 0)
  {
    hide WholeBodies, FileKey;
    assert candidates[..i + 1] == candidates[..i] + [candidates[i]];
    forall key: (string, string)
      ensures CountMatched(scan, candidates[..i + 1], key)
           == CountMatched(scan, candidates[..i], key)
              + (if WholeBodies(scan, candidates[i]) && FileKey(scan, candidates[i]) == key then 1 else 0)
    {
      FilterConcat(q => WholeBodies(scan, q) && FileKey(scan, q) == key, candidates[..i], [candidates[i]]);
    }
  }

  /** `n` file pairs are clones of each other. */
  ghost predicate CountsWholeFiles(scan: Scan, cands: seq<Pair>, n: nat) {
    exists wholeFile: set<(string, string)> ::
      n == |wholeFile| && forall key :: key in wholeFile <==> WholeFilePair(scan, cands, key)
  }

  /** Also counts the file pairs found to be clones of each other. */
  method WholeFileSuppress(scan: Scan, candidates: seq<Pair>) returns (filtered: seq<Pair>, clones: nat)
    ensures filtered == WithoutWholeFiles(scan, candidates)
    ensures CountsWholeFiles(scan, candidates, clones)
  {
    var perFile := CountWholeBodies(scan.frags);
    var matched := CountWholeBodyPairs(scan, candidates);
    var wholeFile := set key | key in matched
                               && IsWholeFileClone(matched[key], Tally(perFile, key.0), Tally(perFile, key.1));
    assert forall key :: key in wholeFile <==> WholeFilePair(scan, candidates, key) by {
      assert forall key :: key in matched ==> matched[key] == Tally(matched, key);
    }
    clones := |wholeFile|;
    if wholeFile == {} {
      FilterAll(p => !InWholeFileClone(scan, candidates, p), candidates);
      return candidates, clones;
    }
    filtered := KeepIf(candidates, p => !(FragA(scan, p).file != FragB(scan, p).file && FileKey(scan, p) in wholeFile));
    FilterSame(p => !(FragA(scan, p).file != FragB(scan, p).file && FileKey(scan, p) in wholeFile),
               p => !InWholeFileClone(scan, candidates, p), candidates);
  }

  // -------------------------------------------------------- file-local down-weight

  /** Token counts of every file, keyed by file and token. */
  method CountFileTokens(frags: seq<Fragment>) returns (freq: map<(string, string), nat>)
    ensures forall file, token :: Tally(freq, (file, token)) == FileFreq(frags, file, token)
  {
    freq := map[];
    var i := 0;
    while i < |frags|
      invariant i <= |frags|
      invariant forall file, token :: Tally(freq, (file, token)) == FileFreq(frags[..i], file, token)
    {
      assert frags[..i + 1][..i] == frags[..i];
      var f := frags[i];
      var todo := f.bag.Keys;
      ghost var before := freq;
      while todo != {}
        invariant todo <= f.bag.Keys
        invariant forall file, token ::
          Tally(freq, (file, token)) == Tally(before, (file, token))
            + (if file == f.file && token in f.bag && token !in todo then f.bag[token] else 0)
      {
        var token :| token in todo;
        freq := freq[(f.file, token) := Tally(freq, (f.file, token)) + f.bag[token]];
        todo := todo - {token};
      }
      i := i + 1;
    }
    assert frags[..i] == frags;
  }

  lemma {:induction false} FrequentWithout(frags: seq<Fragment>, f: Fragment, tokens: set<string>, t: string)
    requires t in tokens
    ensures FrequentTokens(frags, f, tokens) == FrequentCount(frags, f, t) + FrequentTokens(frags, f, tokens - {t})
  {
    var u :| u in tokens && FrequentTokens(frags, f, tokens)
                            == FrequentCount(frags, f, u) + FrequentTokens(frags, f, tokens - {u});
    if u != t {
      FrequentWithout(frags, f, tokens - {u}, t);
      FrequentWithout(frags, f, tokens - {t}, u);
      assert tokens - {u} - {t} == tokens - {t} - {u};
    }
  }

  method CountFrequent(scan: Scan, freq: map<(string, string), nat>, f: Fragment) returns (total: nat)
    requires forall token :: Tally(freq, (f.file, token)) == FileFreq(scan.frags, f.file, token)
    ensures total == FrequentTokens(scan.frags, f, f.bag.Keys)
  {
    total := 0;
    var todo := f.bag.Keys;
    while todo != {}
      invariant todo <= f.bag.Keys
      invariant total + FrequentTokens(scan.frags, f, todo) == FrequentTokens(scan.frags, f, f.bag.Keys)
    {
      var token :| token in todo;
      FrequentWithout(scan.frags, f, todo, token);
      if Tally(freq, (f.file, token)) > 10 {
        total := total + f.bag[token];
      }
      todo := todo - {token};
    }
  }

  method FileLocalDownweight(scan: Scan, candidates: seq<Pair>) returns (weighed: seq<Pair>)
    ensures weighed == Mapped(p => DownWeighted(scan, p), candidates)
  {
    var freq := CountFileTokens(scan.frags);
    weighed := [];
    var i := 0;
    while i < |candidates|
      invariant i <= |candidates| == |weighed| + (|candidates| - i)
      invariant forall k: nat :: k < i ==> weighed[k] == DownWeighted(scan, candidates[k])
    {
      var p := candidates[i];
      var fa := FragA(scan, p);
      if fa.file == FragB(scan, p).file {
        var total := CountFrequent(scan, freq, fa);
        if total > fa.tokenCount / 2 {
          p := p.(weighted := p.weighted * 0.80);
        }
      }
      weighed := weighed + [p];
      i := i + 1;
    }
  }

  // ------------------------------------------------------ containment and overlap

  method NestedContainment(scan: Scan, cands: seq<Pair>) returns (filtered: seq<Pair>)
    ensures filtered == Uncontained(scan, cands)
  {
    hide ShouldDrop;
    ghost var keep := p => !Dropped(scan, cands, p);
    filtered := [];
    var i := 0;
    while i < |cands|
      invariant i <= |cands| && filtered == Filter(keep, cands[..i])
    {
      assert cands[..i + 1] == cands[..i] + [cands[i]];
      FilterConcat(keep, cands[..i], [cands[i]]);
      var nested := false;
      var k := 0;
      while k < |cands| && !nested
        invariant k <= |cands|
        invariant nested ==> Dropped(scan, cands, cands[i])
        invariant !nested ==> forall j: nat :: j < k ==> !ShouldDrop(scan, cands[i], cands[j])
      {
        // A pair is never compared with itself.
        NeverDropsItself(scan, cands[i]);
        if k != i && ShouldDrop(scan, cands[i], cands[k]) {
          nested := true;
        }
        k := k + 1;
      }
      if !nested {
        filtered := filtered + [cands[i]];
      }
      i := i + 1;
    }
    assert cands[..i] == cands;
  }

  lemma NeverDropsItself(scan: Scan, p: Pair)
    ensures !ShouldDrop(scan, p, p)
  {
  }

  method OverlapDedup(scan: Scan, cands: seq<Pair>) returns (filtered: seq<Pair>)
    ensures filtered == Disjointed(scan, cands, [])
  {
    hide PairOverlaps;
    filtered := [];
    var i := 0;
    while i < |cands|
      invariant i <= |cands|
      invariant Disjointed(scan, cands[i..], filtered) == Disjointed(scan, cands, [])
    {
      assert cands[i..][1..] == cands[i + 1..];
      var duplicate := false;
      var k := 0;
      while k < |filtered| && !duplicate
        invariant k <= |filtered|
        invariant duplicate ==> OverlapsAny(scan, filtered, cands[i])
        invariant !duplicate ==> forall j: nat :: j < k ==> !PairOverlaps(scan, cands[i], filtered[j])
      {
        duplicate := PairOverlaps(scan, cands[i], filtered[k]);
        k := k + 1;
      }
      if !duplicate {
        filtered := filtered + [cands[i]];
      }
      i := i + 1;
    }
  }

  method ClassifyCloneType(scan: Scan, candidates: seq<Pair>) returns (tagged: seq<Pair>)
    ensures tagged == Mapped(p => Classified(scan, p), candidates)
  {
    tagged := [];
    var i := 0;
    while i < |candidates|
      invariant i <= |candidates| == |tagged| + (|candidates| - i)
      invariant forall k: nat :: k < i ==> tagged[k] == Classified(scan, candidates[k])
    {
      tagged := tagged + [Classified(scan, candidates[i])];
      i := i + 1;
    }
  }

  /** The whole pipeline, phase by phase. */
  method ApplyCandidateFilters(scan: Scan, candidates: seq<Pair>) returns (pairs: seq<Pair>, wholeFileClones: nat)
    ensures pairs == Survivors(scan, candidates)
    ensures if scan.opts.enableWholeFileGuard
            then CountsWholeFiles(scan, AfterSiteFilters(scan, candidates), wholeFileClones)
            else wholeFileClones == 0
  {
    hide CountsWholeFiles, Ranks, Canonical, ValidRanges, DistinctSites, BalancedSpans, JointFloor, HandWritten,
      WithoutWholeFiles;
    hide NotDataTable, NotBoilerplate, DownWeighted, Uncontained, Disjointed, Classified;
    pairs := SortBy((p: Pair, q: Pair) => Ranks(scan, p, q), candidates);
    pairs := SymmetricPairCanon(pairs);
    pairs := KeepIf(pairs, p => ValidRanges(scan, p));
    pairs := KeepIf(pairs, p => DistinctSites(scan, p));
    pairs := KeepIf(pairs, p => BalancedSpans(scan, p));
    if scan.opts.enableJointFloor {
      pairs := KeepIf(pairs, p => JointFloor(scan, p));
    }
    wholeFileClones := 0;
    if scan.opts.enableWholeFileGuard {
      pairs, wholeFileClones := WholeFileSuppress(scan, pairs);
    }
    if scan.opts.enablePathGuards {
      pairs := KeepIf(pairs, p => HandWritten(scan, p));
    }
    if scan.opts.enableP1Guards {
      pairs := KeepIf(pairs, p => NotDataTable(scan, p));
      pairs := KeepIf(pairs, p => NotBoilerplate(scan, p));
      pairs := FileLocalDownweight(scan, pairs);
    }
    pairs := NestedContainment(scan, pairs);
    pairs := OverlapDedup(scan, pairs);
    pairs := ClassifyCloneType(scan, pairs);
  }
}
