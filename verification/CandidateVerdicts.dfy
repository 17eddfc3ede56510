/** When two fragments are compared at all, told by their fields and the options. */
module CandidateVerdicts {
  import opened Fragments
  import opened CloneIndex
  import opened Winnowing

  /** The token stands in few whole bodies: no more than the cap, or than the percentage of
      all of them. */
  ghost predicate FewBodies(frags: seq<Fragment>, opts: Options, sym: string) {
    || DocFreq(frags, sym) <= opts.rareDfCap
    || (opts.rareDfPct > 0.0
        && 100.0 * DocFreq(frags, sym) as real <= |Bodies(frags, |frags|)| as real * opts.rareDfPct)
  }

  /** The larger of the cap and the rounded percentage bounds exactly these frequencies. */
  lemma RareIff(frags: seq<Fragment>, opts: Options, sym: string)
    ensures IsRare(frags, opts, sym) <==> FewBodies(frags, opts, sym)
  {
    hide DocFreq, Bodies;
    var share := |Bodies(frags, |frags|)| as real * opts.rareDfPct;
    assert share / 100.0 >= 0.0 || opts.rareDfPct <= 0.0;
    assert DocFreq(frags, sym) <= (share / 100.0).Floor <==> 100.0 * DocFreq(frags, sym) as real <= share;
  }

  /** Both hold the token, and few bodies do. */
  ghost function CommonRare(frags: seq<Fragment>, opts: Options, i: nat, j: nat): set<string>
    requires i < |frags| && j < |frags|
  {
    set sym | sym in frags[i].bag && sym in frags[j].bag && FewBodies(frags, opts, sym)
  }

  /** A fingerprint of both, in no more than the allowed number of bodies; 0 allows any. */
  ghost predicate Fingerprinted(mix: Mix, opts: Options, frags: seq<Fragment>, i: nat, j: nat)
    requires i < |frags| && j < |frags|
  {
    && opts.fingerprints
    && exists fp: nat :: HasFingerprint(mix, opts, frags[i], fp) && HasFingerprint(mix, opts, frags[j], fp)
         && (opts.fpMaxPostings == 0 || |Carriers(mix, opts, frags, fp)| <= opts.fpMaxPostings)
  }

  /** Two spans of one file with known lines that share a line or lie on neighbouring lines. */
  predicate Touch(a: Fragment, b: Fragment) {
    && a.file == b.file && 0 < a.startLine && 0 < b.startLine
    && (|| (a.startLine <= b.endLine && b.startLine <= a.endLine)
        || b.startLine == a.endLine + 1 || a.startLine == b.endLine + 1)
  }

  /** Two proper spans touch exactly if a line of one is at most one away from a line of the other. */
  lemma TouchingIsNear(a: Fragment, b: Fragment)
    requires a.startLine <= a.endLine && b.startLine <= b.endLine
    ensures SameFileOverlapOrAdjacent(a, b)
       <==> a.file == b.file && 0 < a.startLine && 0 < b.startLine
            && exists x, y :: Within(a, x) && Within(b, y) && -1 <= x - y <= 1
  {
    if SameFileOverlapOrAdjacent(a, b) {
      var x := if b.startLine > a.endLine then a.endLine
               else if a.startLine > b.endLine then a.startLine
               else if a.startLine <= b.startLine then b.startLine else a.startLine;
      var y := if b.startLine > a.endLine then b.startLine
               else if a.startLine > b.endLine then b.endLine
               else if a.startLine <= b.startLine then b.startLine else a.startLine;
      assert Within(a, x) && Within(b, y) && -1 <= x - y <= 1;
    }
  }

  predicate Within(f: Fragment, line: int) {
    f.startLine <= line <= f.endLine
  }

  /** The candidate pairs, with any floor: fragments in rising order that do not touch, of
      enough variety, with enough rare tokens in common or a fingerprint. */
  lemma VerdictIff(mix: Mix, opts: Options, frags: seq<Fragment>, m: map<PairKey, nat>, i: nat, j: nat)
    requires IsPairMap(mix, opts, frags, m)
    ensures (i, j) in m <==>
      && i < j < |frags| && !Touch(frags[i], frags[j])
      && (|| opts.minDiversity <= 0.0
          || (frags[i].diversity >= opts.minDiversity && frags[j].diversity >= opts.minDiversity))
      && (|| Fingerprinted(mix, opts, frags, i, j)
          || (CommonRare(frags, opts, i, j) != {} && |CommonRare(frags, opts, i, j)| >= opts.minSharedRare))
    ensures (i, j) in m ==>
      var n := |CommonRare(frags, opts, i, j)|;
      m[(i, j)] == if Fingerprinted(mix, opts, frags, i, j) && n < opts.minSharedRare then opts.minSharedRare else n
  {
    hide HasFingerprint, Carriers, IsRare, FewBodies;
    assert (i, j) in m <==> IsCandidate(mix, opts, frags, i, j);
    if i < |frags| && j < |frags| {
      forall sym
        ensures IsRare(frags, opts, sym) <==> FewBodies(frags, opts, sym)
      {
        RareIff(frags, opts, sym);
      }
      assert SharedRare(frags, opts, i, j) == CommonRare(frags, opts, i, j);
      UsableIs(mix, opts, frags, i, j);
    }
  }

  lemma UsableIs(mix: Mix, opts: Options, frags: seq<Fragment>, i: nat, j: nat)
    requires i < |frags| && j < |frags|
    ensures SharesFingerprint(mix, opts, frags, i, j) <==> Fingerprinted(mix, opts, frags, i, j)
  {
    hide HasFingerprint, Carriers;
  }
}
