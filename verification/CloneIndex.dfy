/** The inverted index that proposes candidate pairs of fragments, against counting
    shared tokens and fingerprints pair by pair. */
module CloneIndex {
  import opened Fragments
  import opened Winnowing
  import Sorting

  datatype Options = Options(
    rareDfCap: nat,
    rareDfPct: real,
    minSharedRare: nat,
    minDiversity: real,
    fingerprints: bool,
    fpK: nat,
    fpWindow: nat,
    fpMaxPostings: nat)

  type PairKey = (nat, nat)

  // ------------------------------------------------------------------ definitions

  /** The whole-body fragments that contain a token. */
  ghost function Documents(frags: seq<Fragment>, sym: string, n: nat): set<nat>
    requires n <= |frags|
  {
    set i: nat | i < n && !frags[i].nested && sym in frags[i].bag
  }

  ghost function DocFreq(frags: seq<Fragment>, sym: string): nat {
    |Documents(frags, sym, |frags|)|
  }

  ghost function Bodies(frags: seq<Fragment>, n: nat): set<nat>
    requires n <= |frags|
  {
    set i: nat | i < n && !frags[i].nested
  }

  function EffectiveRareDf(documents: nat, opts: Options): nat {
    if opts.rareDfPct > 0.0 then
      var pct := (documents as real * opts.rareDfPct / 100.0).Floor;
      if opts.rareDfCap < pct then pct else opts.rareDfCap
    else opts.rareDfCap
  }

  ghost predicate IsRare(frags: seq<Fragment>, opts: Options, sym: string) {
    DocFreq(frags, sym) <= EffectiveRareDf(|Bodies(frags, |frags|)|, opts)
  }

  /** The rare tokens that both fragments contain. */
  ghost function SharedRare(frags: seq<Fragment>, opts: Options, i: nat, j: nat): set<string>
    requires i < |frags| && j < |frags|
  {
    set sym | sym in frags[i].bag && sym in frags[j].bag && IsRare(frags, opts, sym)
  }

  ghost predicate HasFingerprint(mix: Mix, opts: Options, f: Fragment, fp: nat) {
    MinimumBefore(Grams(mix, f.toks, opts.fpK), opts.fpWindow, GramCount(|f.toks|, opts.fpK), fp)
  }

  ghost function Carriers(mix: Mix, opts: Options, frags: seq<Fragment>, fp: nat): set<nat> {
    set i: nat | i < |frags| && !frags[i].nested && HasFingerprint(mix, opts, frags[i], fp)
  }

  /** An over-frequent fingerprint is a boilerplate idiom and pairs nothing. */
  ghost predicate Usable(mix: Mix, opts: Options, frags: seq<Fragment>, fp: nat) {
    opts.fpMaxPostings == 0 || |Carriers(mix, opts, frags, fp)| <= opts.fpMaxPostings
  }

  ghost predicate SharesFingerprint(mix: Mix, opts: Options, frags: seq<Fragment>, i: nat, j: nat)
    requires i < |frags| && j < |frags|
  {
    && opts.fingerprints
    && exists fp: nat :: HasFingerprint(mix, opts, frags[i], fp) && HasFingerprint(mix, opts, frags[j], fp)
         && Usable(mix, opts, frags, fp)
  }

  predicate Apart(frags: seq<Fragment>, i: nat, j: nat) {
    i < j < |frags| && !SameFileOverlapOrAdjacent(frags[i], frags[j])
  }

  predicate Diverse(frags: seq<Fragment>, opts: Options, i: nat, j: nat)
    requires i < |frags| && j < |frags|
  {
    opts.minDiversity > 0.0 ==> frags[i].diversity >= opts.minDiversity && frags[j].diversity >= opts.minDiversity
  }

  /** The count kept for a pair: shared rare tokens, raised to the floor by a fingerprint. */
  ghost function Weight(mix: Mix, opts: Options, frags: seq<Fragment>, i: nat, j: nat): nat
    requires i < |frags| && j < |frags|
  {
    var n := |SharedRare(frags, opts, i, j)|;
    if SharesFingerprint(mix, opts, frags, i, j) && n < opts.minSharedRare then opts.minSharedRare else n
  }

  ghost predicate IsCandidate(mix: Mix, opts: Options, frags: seq<Fragment>, i: nat, j: nat) {
    && Apart(frags, i, j)
    && (SharedRare(frags, opts, i, j) != {} || SharesFingerprint(mix, opts, frags, i, j))
    && Weight(mix, opts, frags, i, j) >= opts.minSharedRare
    && Diverse(frags, opts, i, j)
  }

  /** The pair map holds exactly the candidates, each with its weight. */
  ghost predicate IsPairMap(mix: Mix, opts: Options, frags: seq<Fragment>, m: map<PairKey, nat>) {
    && (forall i: nat, j: nat :: (i, j) in m <==> IsCandidate(mix, opts, frags, i, j))
    && (forall i: nat, j: nat :: (i, j) in m ==> m[(i, j)] == Weight(mix, opts, frags, i, j))
  }

  function One(b: bool): nat {
    if b then 1 else 0
  }

  /** `v`, raised to `floor` where `b` holds. */
  function Raise(b: bool, floor: nat, v: nat): nat {
    if b && v < floor then floor else v
  }

  // --------------------------------------------------------------- document counts

  method ComputeDocumentFrequency(frags: seq<Fragment>) returns (documents: nat, df: map<string, nat>)
    ensures documents == |Bodies(frags, |frags|)|
    ensures forall sym :: CountOf(df, sym) == DocFreq(frags, sym)
  {
    documents, df := 0, map[];
    assert Bodies(frags, 0) == {};
    assert forall sym :: Documents(frags, sym, 0) == {};
    var i := 0;
    while i < |frags|
      invariant i <= |frags| && documents == |Bodies(frags, i)|
      invariant forall sym :: CountOf(df, sym) == |Documents(frags, sym, i)|
    {
      forall sym
        ensures |Documents(frags, sym, i + 1)|
             == |Documents(frags, sym, i)| + One(!frags[i].nested && sym in frags[i].bag)
      {
        DocumentsOneMore(frags, sym, i);
      }
      BodiesOneMore(frags, i);
      if !frags[i].nested {
        documents := documents + 1;
        df := CountBag(frags[i].bag, df);
      }
      i := i + 1;
    }
  }

  lemma DocumentsOneMore(frags: seq<Fragment>, sym: string, i: nat)
    requires i < |frags|
    ensures |Documents(frags, sym, i + 1)|
         == |Documents(frags, sym, i)| + One(!frags[i].nested && sym in frags[i].bag)
  {
    var more := Documents(frags, sym, i + 1);
    var here := !frags[i].nested && sym in frags[i].bag;
    forall k: nat
      ensures k in more <==> k in Documents(frags, sym, i) || (k == i && here)
    {
    }
    Sorting.GrowsByOne(Documents(frags, sym, i), more, i, here);
  }

  lemma BodiesOneMore(frags: seq<Fragment>, i: nat)
    requires i < |frags|
    ensures |Bodies(frags, i + 1)| == |Bodies(frags, i)| + One(!frags[i].nested)
  {
    if frags[i].nested {
      assert Bodies(frags, i + 1) == Bodies(frags, i);
    } else {
      assert Bodies(frags, i + 1) == Bodies(frags, i) + {i};
    }
  }

  function CountOf(df: map<string, nat>, sym: string): nat {
    if sym in df then df[sym] else 0
  }

  /** `df` counts one more than `df0` for the symbols of `done`. */
  ghost predicate Counted(df: map<string, nat>, df0: map<string, nat>, done: set<string>) {
    forall sym :: CountOf(df, sym) == CountOf(df0, sym) + One(sym in done)
  }

  lemma CountedNone(df: map<string, nat>)
    ensures Counted(df, df, {})
  {
  }

  lemma CountedMore(df: map<string, nat>, df0: map<string, nat>, done: set<string>, sym: string)
    requires Counted(df, df0, done) && sym !in done
    ensures Counted(df[sym := CountOf(df, sym) + 1], df0, done + {sym})
  {
    var more := df[sym := CountOf(df, sym) + 1];
    forall s
      ensures CountOf(more, s) == CountOf(df0, s) + One(s in done + {sym})
    {
      assert CountOf(df, s) == CountOf(df0, s) + One(s in done);
    }
  }

  method CountBag(bag: map<string, nat>, df0: map<string, nat>) returns (df: map<string, nat>)
    ensures forall sym :: CountOf(df, sym) == CountOf(df0, sym) + One(sym in bag.Keys)
  {
    hide CountOf, One;
    df := df0;
    var rest := bag.Keys;
    ghost var done: set<string> := {};
    CountedNone(df);
    while rest != {}
      invariant rest !! done && rest + done == bag.Keys && Counted(df, df0, done)
      decreases rest
    {
      var sym :| sym in rest;
      CountedMore(df, df0, done, sym);
      rest, done := rest - {sym}, done + {sym};
      df := df[sym := CountOf(df, sym) + 1];
    }
    assert done == bag.Keys;
  }

  // ------------------------------------------------------------------ posting lists

  /** `list` names, in order, the first `n` fragments' numbers with the property. */
  ghost predicate Posts(list: seq<nat>, has: nat -> bool, n: nat) {
    && (forall x: nat, y: nat :: x < y < |list| ==> list[x] < list[y])
    && (forall i: nat :: i in list <==> i < n && has(i))
  }

  function Tail(b: bool, i: nat): seq<nat> {
    if b then [i] else []
  }

  function ListOf<K>(postings: map<K, seq<nat>>, key: K): seq<nat> {
    if key in postings then postings[key] else []
  }

  ghost predicate HasToken(frags: seq<Fragment>, sym: string, i: nat) {
    i < |frags| && sym in frags[i].bag
  }

  ghost predicate RareIndex(frags: seq<Fragment>, opts: Options, postings: map<string, seq<nat>>, n: nat) {
    forall sym :: Posts(ListOf(postings, sym), (i: nat) => HasToken(frags, sym, i) && IsRare(frags, opts, sym), n)
  }

  lemma PostsNext(list: seq<nat>, has: nat -> bool, n: nat)
    requires Posts(list, has, n)
    ensures has(n) ==> Posts(list + [n], has, n + 1)
    ensures !has(n) ==> Posts(list, has, n + 1)
  {
    if has(n) {
      var l := list + [n];
      forall x: nat, y: nat | x < y < |l|
        ensures l[x] < l[y]
      {
        assert l[x] in list;
      }
    }
  }

  method PostRare(syms: set<string>, i: nat, effRareDf: nat, df: map<string, nat>, before: map<string, seq<nat>>)
    returns (postings: map<string, seq<nat>>)
    ensures forall sym ::
      ListOf(postings, sym) == ListOf(before, sym) + Tail(sym in syms && CountOf(df, sym) <= effRareDf, i)
  {
    postings := before;
    var rest := syms;
    while rest != {}
      invariant rest <= syms
      invariant forall sym ::
        ListOf(postings, sym) == ListOf(before, sym) + Tail(sym in syms - rest && CountOf(df, sym) <= effRareDf, i)
      decreases rest
    {
      var sym :| sym in rest;
      rest := rest - {sym};
      var docFreq := CountOf(df, sym);
      if docFreq <= effRareDf {
        postings := postings[sym := ListOf(postings, sym) + [i]];
      }
    }
  }

  /** Posting the rare tokens of fragment `i` takes the index from `i` fragments to `i + 1`. */
  lemma RareNext(frags: seq<Fragment>, opts: Options, before: map<string, seq<nat>>, postings: map<string, seq<nat>>,
      i: nat)
    requires i < |frags| && RareIndex(frags, opts, before, i)
    requires forall sym ::
      ListOf(postings, sym) == ListOf(before, sym) + Tail(sym in frags[i].bag && IsRare(frags, opts, sym), i)
    ensures RareIndex(frags, opts, postings, i + 1)
  {
    hide Posts, IsRare, ListOf;
    forall sym
      ensures Posts(ListOf(postings, sym), (k: nat) => HasToken(frags, sym, k) && IsRare(frags, opts, sym), i + 1)
    {
      PostsNext(ListOf(before, sym), (k: nat) => HasToken(frags, sym, k) && IsRare(frags, opts, sym), i);
      assert ListOf(before, sym) + [] == ListOf(before, sym);
    }
  }

  method BuildRareTokenIndex(frags: seq<Fragment>, opts: Options, effRareDf: nat, df: map<string, nat>)
    returns (postings: map<string, seq<nat>>)
    requires effRareDf == EffectiveRareDf(|Bodies(frags, |frags|)|, opts)
    requires forall sym :: CountOf(df, sym) == DocFreq(frags, sym)
    ensures RareIndex(frags, opts, postings, |frags|)
  {
    hide DocFreq, Bodies, EffectiveRareDf, RareIndex, ListOf, Tail;
    postings := map[];
    NoPosts(frags, opts);
    var i := 0;
    while i < |frags|
      invariant i <= |frags| && RareIndex(frags, opts, postings, i)
    {
      ghost var before := postings;
      postings := PostRare(frags[i].bag.Keys, i, effRareDf, df, postings);
      RareNext(frags, opts, before, postings, i);
      i := i + 1;
    }
  }

  lemma NoPosts(frags: seq<Fragment>, opts: Options)
    ensures RareIndex(frags, opts, map[], 0)
  {
  }

  // ------------------------------------------------------------------- pairing up

  /** The pairs from one posting list before place `(x, y)`. */
  ghost predicate PairBefore(frags: seq<Fragment>, list: seq<nat>, x: nat, y: nat, i: nat, j: nat) {
    && Apart(frags, i, j)
    && exists a: nat, b: nat :: a < b < |list| && list[a] == i && list[b] == j && (a < x || (a == x && b < y))
  }

  predicate Here(frags: seq<Fragment>, list: seq<nat>, x: nat, y: nat, i: nat, j: nat)
    requires x < |list| && y < |list|
  {
    Apart(frags, list[x], list[y]) && i == list[x] && j == list[y]
  }

  lemma PairOneMore(frags: seq<Fragment>, list: seq<nat>, x: nat, y: nat, i: nat, j: nat)
    requires x < y < |list|
    ensures PairBefore(frags, list, x, y + 1, i, j)
       <==> PairBefore(frags, list, x, y, i, j) || Here(frags, list, x, y, i, j)
  {
  }

  lemma PairNextRow(frags: seq<Fragment>, list: seq<nat>, x: nat, i: nat, j: nat)
    requires x < |list|
    ensures PairBefore(frags, list, x + 1, x + 2, i, j) <==> PairBefore(frags, list, x, |list|, i, j)
  {
  }

  lemma PairStart(frags: seq<Fragment>, list: seq<nat>, i: nat, j: nat)
    ensures !PairBefore(frags, list, 0, 1, i, j)
  {
  }

  lemma PairAll(frags: seq<Fragment>, list: seq<nat>, has: nat -> bool, i: nat, j: nat)
    requires Posts(list, has, |frags|)
    ensures PairBefore(frags, list, |list|, |list| + 1, i, j) <==> Apart(frags, i, j) && has(i) && has(j)
  {
    if Apart(frags, i, j) && has(i) && has(j) {
      var a: nat :| a < |list| && list[a] == i;
      var b: nat :| b < |list| && list[b] == j;
      assert a < b;
    }
  }

  function Get(m: map<PairKey, nat>, key: PairKey): nat {
    if key in m then m[key] else 0
  }

  predicate Ordered(frags: seq<Fragment>, list: seq<nat>) {
    && (forall x: nat, y: nat :: x < y < |list| ==> list[x] < list[y])
    && (forall x: nat :: x < |list| ==> list[x] < |frags|)
  }

  /** `m` counts one more than `m0` for the pairs before place `(x, y)`. */
  ghost predicate Bumped(frags: seq<Fragment>, list: seq<nat>, x: nat, y: nat, m0: map<PairKey, nat>,
      m: map<PairKey, nat>) {
    && (forall i: nat, j: nat :: Get(m, (i, j)) == Get(m0, (i, j)) + One(PairBefore(frags, list, x, y, i, j)))
    && (forall key :: key in m <==> key in m0 || PairBefore(frags, list, x, y, key.0, key.1))
  }

  /** `m` is `m0` with the pairs before place `(x, y)` raised to the floor. */
  ghost predicate Lifted(frags: seq<Fragment>, list: seq<nat>, x: nat, y: nat, floor: nat, m0: map<PairKey, nat>,
      m: map<PairKey, nat>) {
    && (forall i: nat, j: nat :: Get(m, (i, j)) == Raise(PairBefore(frags, list, x, y, i, j), floor, Get(m0, (i, j))))
    && (forall key :: key in m <==> key in m0 || PairBefore(frags, list, x, y, key.0, key.1))
  }

  lemma PairSteps(frags: seq<Fragment>, list: seq<nat>, m: map<PairKey, nat>, floor: nat)
    ensures Bumped(frags, list, 0, 1, m, m) && Lifted(frags, list, 0, 1, floor, m, m)
  {
    forall i: nat, j: nat
      ensures !PairBefore(frags, list, 0, 1, i, j)
    {
      PairStart(frags, list, i, j);
    }
  }

  lemma NextRow(frags: seq<Fragment>, list: seq<nat>, x: nat, floor: nat, m0: map<PairKey, nat>, m: map<PairKey, nat>)
    requires x < |list|
    ensures Bumped(frags, list, x, |list|, m0, m) ==> Bumped(frags, list, x + 1, x + 2, m0, m)
    ensures Lifted(frags, list, x, |list|, floor, m0, m) ==> Lifted(frags, list, x + 1, x + 2, floor, m0, m)
  {
    hide PairBefore, Raise;
    forall i: nat, j: nat
      ensures PairBefore(frags, list, x + 1, x + 2, i, j) <==> PairBefore(frags, list, x, |list|, i, j)
    {
      PairNextRow(frags, list, x, i, j);
    }
  }

  lemma PlaceStep(frags: seq<Fragment>, list: seq<nat>, x: nat, y: nat)
    requires Ordered(frags, list) && x < y < |list|
    ensures forall i: nat, j: nat ::
      PairBefore(frags, list, x, y + 1, i, j) <==> PairBefore(frags, list, x, y, i, j) || Here(frags, list, x, y, i, j)
    ensures !PairBefore(frags, list, x, y, list[x], list[y])
  {
    forall i: nat, j: nat
      ensures PairBefore(frags, list, x, y + 1, i, j)
         <==> PairBefore(frags, list, x, y, i, j) || Here(frags, list, x, y, i, j)
    {
      PairOneMore(frags, list, x, y, i, j);
    }
    NotPairedYet(frags, list, x, y);
  }

  lemma NotPairedYet(frags: seq<Fragment>, list: seq<nat>, x: nat, y: nat)
    requires Ordered(frags, list) && x < y < |list|
    ensures !PairBefore(frags, list, x, y, list[x], list[y])
  {
  }

  /** The next place of a posting list, when its pair is apart and when it is not. */
  lemma BumpStep(frags: seq<Fragment>, list: seq<nat>, x: nat, y: nat, m0: map<PairKey, nat>, m: map<PairKey, nat>)
    requires Ordered(frags, list) && x < y < |list| && Bumped(frags, list, x, y, m0, m)
    ensures var key := (list[x], list[y]);
      Bumped(frags, list, x, y + 1, m0, if Apart(frags, list[x], list[y]) then m[key := Get(m, key) + 1] else m)
  {
    PlaceStep(frags, list, x, y);
    hide PairBefore, Apart, Ordered;
  }

  lemma LiftStep(frags: seq<Fragment>, list: seq<nat>, x: nat, y: nat, floor: nat, m0: map<PairKey, nat>,
      m: map<PairKey, nat>)
    requires Ordered(frags, list) && x < y < |list| && Lifted(frags, list, x, y, floor, m0, m)
    ensures var key := (list[x], list[y]);
      Lifted(frags, list, x, y + 1, floor, m0,
             if Apart(frags, list[x], list[y]) then m[key := Raise(true, floor, Get(m, key))] else m)
  {
    PlaceStep(frags, list, x, y);
    hide PairBefore, Apart, Ordered;
  }

  /** Counts one more shared token for every pair of one posting list. */
  method BumpPairs(frags: seq<Fragment>, list: seq<nat>, m0: map<PairKey, nat>) returns (m: map<PairKey, nat>)
    requires Ordered(frags, list)
    ensures Bumped(frags, list, |list|, |list| + 1, m0, m)
  {
    hide Bumped, Lifted, SameFileOverlapOrAdjacent;
    m := m0;
    PairSteps(frags, list, m, 0);
    var x := 0;
    while x < |list|
      invariant x <= |list| && Bumped(frags, list, x, x + 1, m0, m)
    {
      var y := x + 1;
      while y < |list|
        invariant x < y <= |list| && Bumped(frags, list, x, y, m0, m)
      {
        BumpStep(frags, list, x, y, m0, m);
        if !SameFileOverlapOrAdjacent(frags[list[x]], frags[list[y]]) {
          var key := (list[x], list[y]);
          m := m[key := Get(m, key) + 1];
        }
        y := y + 1;
      }
      NextRow(frags, list, x, 0, m0, m);
      x := x + 1;
    }
  }

  /** Raises every pair of one posting list to the candidacy floor. */
  method RaisePairs(frags: seq<Fragment>, list: seq<nat>, floor: nat, m0: map<PairKey, nat>)
    returns (m: map<PairKey, nat>)
    requires Ordered(frags, list)
    ensures Lifted(frags, list, |list|, |list| + 1, floor, m0, m)
  {
    hide Bumped, Lifted, SameFileOverlapOrAdjacent;
    m := m0;
    PairSteps(frags, list, m, floor);
    var x := 0;
    while x < |list|
      invariant x <= |list| && Lifted(frags, list, x, x + 1, floor, m0, m)
    {
      var y := x + 1;
      while y < |list|
        invariant x < y <= |list| && Lifted(frags, list, x, y, floor, m0, m)
      {
        LiftStep(frags, list, x, y, floor, m0, m);
        if !SameFileOverlapOrAdjacent(frags[list[x]], frags[list[y]]) {
          var key := (list[x], list[y]);
          var c := Get(m, key);
          m := m[key := if c < floor then floor else c];
        }
        y := y + 1;
      }
      NextRow(frags, list, x, floor, m0, m);
      x := x + 1;
    }
  }

  // --------------------------------------------------------- shared rare tokens

  ghost function SharedAmong(frags: seq<Fragment>, opts: Options, syms: set<string>, i: nat, j: nat): set<string>
    requires i < |frags| && j < |frags|
  {
    set sym | sym in syms && sym in frags[i].bag && sym in frags[j].bag && IsRare(frags, opts, sym)
  }

  /** The map counts, for pairs apart, the shared rare tokens among `syms`. */
  ghost predicate CountsShared(frags: seq<Fragment>, opts: Options, syms: set<string>, m: map<PairKey, nat>) {
    && (forall i: nat, j: nat ::
          Get(m, (i, j)) == if Apart(frags, i, j) then |SharedAmong(frags, opts, syms, i, j)| else 0)
    && (forall key :: key in m <==> Get(m, key) > 0)
  }

  lemma OneMoreSym(frags: seq<Fragment>, opts: Options, syms: set<string>, sym: string, i: nat, j: nat)
    requires i < |frags| && j < |frags| && sym !in syms
    ensures |SharedAmong(frags, opts, syms + {sym}, i, j)|
         == |SharedAmong(frags, opts, syms, i, j)|
            + One(sym in frags[i].bag && sym in frags[j].bag && IsRare(frags, opts, sym))
  {
    hide IsRare;
    if sym in frags[i].bag && sym in frags[j].bag && IsRare(frags, opts, sym) {
      assert SharedAmong(frags, opts, syms + {sym}, i, j) == SharedAmong(frags, opts, syms, i, j) + {sym};
    } else {
      assert SharedAmong(frags, opts, syms + {sym}, i, j) == SharedAmong(frags, opts, syms, i, j);
    }
  }

  lemma PostsOrdered(frags: seq<Fragment>, list: seq<nat>, has: nat -> bool)
    requires Posts(list, has, |frags|)
    ensures Ordered(frags, list)
  {
    forall x: nat | x < |list|
      ensures list[x] < |frags|
    {
      assert list[x] in list;
    }
  }

  method FindCandidatePairs(frags: seq<Fragment>, opts: Options, postings: map<string, seq<nat>>)
    returns (m: map<PairKey, nat>)
    requires RareIndex(frags, opts, postings, |frags|)
    ensures CountsShared(frags, opts, postings.Keys, m)
  {
    hide PairBefore, IsRare, Posts, Ordered;
    m := map[];
    NothingShared(frags, opts);
    var rest := postings.Keys;
    ghost var syms: set<string> := {};
    while rest != {}
      invariant rest + syms == postings.Keys && rest !! syms
      invariant CountsShared(frags, opts, syms, m)
      decreases rest
    {
      var sym :| sym in rest;
      rest := rest - {sym};
      var list := postings[sym];
      ghost var has := (i: nat) => HasToken(frags, sym, i) && IsRare(frags, opts, sym);
      assert list == ListOf(postings, sym) && Posts(list, has, |frags|);
      PostsOrdered(frags, list, has);
      ghost var before := m;
      m := BumpPairs(frags, list, m);
      SharedStep(frags, opts, syms, sym, list, before, m);
      syms := syms + {sym};
    }
    assert syms == postings.Keys;
  }

  lemma NothingShared(frags: seq<Fragment>, opts: Options)
    ensures CountsShared(frags, opts, {}, map[])
  {
    forall i: nat, j: nat | i < |frags| && j < |frags|
      ensures SharedAmong(frags, opts, {}, i, j) == {}
    {
    }
  }

  lemma SharedStep(frags: seq<Fragment>, opts: Options, syms: set<string>, sym: string, list: seq<nat>,
                   before: map<PairKey, nat>, m: map<PairKey, nat>)
    requires CountsShared(frags, opts, syms, before) && sym !in syms
    requires Posts(list, (i: nat) => HasToken(frags, sym, i) && IsRare(frags, opts, sym), |frags|)
    requires Bumped(frags, list, |list|, |list| + 1, before, m)
    ensures CountsShared(frags, opts, syms + {sym}, m)
  {
    hide PairBefore, IsRare, Posts, SharedAmong, SameFileOverlapOrAdjacent;
    var has := (i: nat) => HasToken(frags, sym, i) && IsRare(frags, opts, sym);
    forall i: nat, j: nat
      ensures PairBefore(frags, list, |list|, |list| + 1, i, j) <==> Apart(frags, i, j) && has(i) && has(j)
      ensures Get(m, (i, j)) == if Apart(frags, i, j) then |SharedAmong(frags, opts, syms + {sym}, i, j)| else 0
    {
      PairAll(frags, list, has, i, j);
      if Apart(frags, i, j) {
        OneMoreSym(frags, opts, syms, sym, i, j);
      }
    }
    forall key: PairKey
      ensures key in m <==> Get(m, key) > 0
    {
      assert key == (key.0, key.1);
    }
  }

  /** Tokens outside the posting lists are in no fragment or not rare. */
  lemma PostedIsShared(frags: seq<Fragment>, opts: Options, postings: map<string, seq<nat>>, i: nat, j: nat)
    requires RareIndex(frags, opts, postings, |frags|) && i < |frags| && j < |frags|
    ensures SharedAmong(frags, opts, postings.Keys, i, j) == SharedRare(frags, opts, i, j)
  {
    hide IsRare;
    forall sym | sym in SharedRare(frags, opts, i, j)
      ensures sym in postings
    {
      assert HasToken(frags, sym, i);
      var list := ListOf(postings, sym);
      assert Posts(list, (k: nat) => HasToken(frags, sym, k) && IsRare(frags, opts, sym), |frags|);
      assert i in list;
    }
  }

  // ---------------------------------------------------------------- fingerprints

  ghost predicate Carries(mix: Mix, opts: Options, frags: seq<Fragment>, fp: nat, i: nat) {
    i < |frags| && HasFingerprint(mix, opts, frags[i], fp)
  }

  ghost predicate FpIndex(mix: Mix, opts: Options, frags: seq<Fragment>, postings: map<nat, seq<nat>>, n: nat) {
    forall fp: nat :: Posts(ListOf(postings, fp), (i: nat) => Carries(mix, opts, frags, fp, i), n)
  }

  method PostEach(fps: set<nat>, i: nat, before: map<nat, seq<nat>>) returns (postings: map<nat, seq<nat>>)
    ensures forall fp: nat :: ListOf(postings, fp) == ListOf(before, fp) + Tail(fp in fps, i)
  {
    postings := before;
    var rest := fps;
    while rest != {}
      invariant rest <= fps
      invariant forall fp: nat :: ListOf(postings, fp) == ListOf(before, fp) + Tail(fp in fps - rest, i)
      decreases rest
    {
      var fp :| fp in rest;
      rest := rest - {fp};
      postings := postings[fp := ListOf(postings, fp) + [i]];
    }
  }

  method PostFingerprints(mix: Mix, opts: Options, frags: seq<Fragment>) returns (postings: map<nat, seq<nat>>)
    requires opts.fpWindow > 0
    ensures FpIndex(mix, opts, frags, postings, |frags|)
  {
    hide FpIndex, ListOf, Tail, AreFingerprints;
    postings := map[];
    NoFpPosts(mix, opts, frags);
    var i := 0;
    while i < |frags|
      invariant i <= |frags| && FpIndex(mix, opts, frags, postings, i)
    {
      ghost var before := postings;
      var fps := FingerprintsOf(mix, frags[i].toks, opts.fpK, opts.fpWindow);
      postings := PostEach(fps, i, postings);
      FpNext(mix, opts, frags, fps, before, postings, i);
      i := i + 1;
    }
  }

  /** One more fragment posted under its fingerprints. */
  lemma FpNext(mix: Mix, opts: Options, frags: seq<Fragment>, fps: set<nat>, before: map<nat, seq<nat>>,
      after: map<nat, seq<nat>>, i: nat)
    requires i < |frags| && FpIndex(mix, opts, frags, before, i)
    requires AreFingerprints(mix, frags[i].toks, opts.fpK, opts.fpWindow, fps)
    requires forall fp: nat :: ListOf(after, fp) == ListOf(before, fp) + Tail(fp in fps, i)
    ensures FpIndex(mix, opts, frags, after, i + 1)
  {
    hide Posts, ListOf;
    forall fp: nat
      ensures Posts(ListOf(after, fp), (k: nat) => Carries(mix, opts, frags, fp, k), i + 1)
    {
      assert fp in fps <==> Carries(mix, opts, frags, fp, i) by { FingerprintsCarried(mix, opts, frags, fps, i, fp); }
      FpPostedBelow(mix, opts, frags, before, i, fp);
      hide Carries;
      PostsNext(ListOf(before, fp), (k: nat) => Carries(mix, opts, frags, fp, k), i);
      assert ListOf(before, fp) + [] == ListOf(before, fp);
    }
  }

  lemma FingerprintsCarried(mix: Mix, opts: Options, frags: seq<Fragment>, fps: set<nat>, i: nat, fp: nat)
    requires i < |frags| && AreFingerprints(mix, frags[i].toks, opts.fpK, opts.fpWindow, fps)
    ensures fp in fps <==> Carries(mix, opts, frags, fp, i)
  {
    hide MinimumBefore, Grams;
  }

  lemma FpPostedBelow(mix: Mix, opts: Options, frags: seq<Fragment>, postings: map<nat, seq<nat>>, n: nat, fp: nat)
    requires FpIndex(mix, opts, frags, postings, n)
    ensures Posts(ListOf(postings, fp), (i: nat) => Carries(mix, opts, frags, fp, i), n)
  {
    hide Posts, Carries, ListOf;
  }

  lemma NoFpPosts(mix: Mix, opts: Options, frags: seq<Fragment>)
    ensures FpIndex(mix, opts, frags, map[], 0)
  {
  }

  /** How many whole bodies a posting list names. */
  method CountBodies(mix: Mix, opts: Options, frags: seq<Fragment>, fp: nat, list: seq<nat>) returns (n: nat)
    requires Posts(list, (i: nat) => Carries(mix, opts, frags, fp, i), |frags|)
    ensures n == |Carriers(mix, opts, frags, fp)|
  {
    hide HasFingerprint;
    PostsOrdered(frags, list, (i: nat) => Carries(mix, opts, frags, fp, i));
    n := 0;
    var x := 0;
    while x < |list|
      invariant x <= |list| && n == |BodiesIn(frags, list, x)|
    {
      BodiesInNext(frags, list, x);
      if !frags[list[x]].nested {
        n := n + 1;
      }
      x := x + 1;
    }
    assert BodiesIn(frags, list, |list|) == Carriers(mix, opts, frags, fp) by {
      forall i: nat
        ensures i in BodiesIn(frags, list, |list|) <==> i in Carriers(mix, opts, frags, fp)
      {
        assert list[..|list|] == list;
        assert i in list <==> Carries(mix, opts, frags, fp, i);
      }
    }
  }

  ghost function BodiesIn(frags: seq<Fragment>, list: seq<nat>, x: nat): set<nat>
    requires x <= |list|
  {
    set i: nat | i in list[..x] && i < |frags| && !frags[i].nested
  }

  lemma BodiesInNext(frags: seq<Fragment>, list: seq<nat>, x: nat)
    requires Ordered(frags, list) && x < |list|
    ensures |BodiesIn(frags, list, x + 1)| == |BodiesIn(frags, list, x)| + One(!frags[list[x]].nested)
  {
    assert list[..x + 1] == list[..x] + [list[x]];
    assert list[x] !in list[..x];
    if frags[list[x]].nested {
      assert BodiesIn(frags, list, x + 1) == BodiesIn(frags, list, x);
    } else {
      assert BodiesIn(frags, list, x + 1) == BodiesIn(frags, list, x) + {list[x]};
    }
  }

  /** Pairs that share a usable fingerprint among `fps`. */
  ghost predicate SharesAmong(mix: Mix, opts: Options, frags: seq<Fragment>, fps: set<nat>, i: nat, j: nat) {
    exists fp: nat :: fp in fps && Carries(mix, opts, frags, fp, i) && Carries(mix, opts, frags, fp, j)
      && Usable(mix, opts, frags, fp)
  }

  ghost predicate Raised(mix: Mix, opts: Options, frags: seq<Fragment>, fps: set<nat>, m0: map<PairKey, nat>,
      m: map<PairKey, nat>) {
    && (forall i: nat, j: nat :: Get(m, (i, j))
          == Raise(Apart(frags, i, j) && SharesAmong(mix, opts, frags, fps, i, j), opts.minSharedRare, Get(m0, (i, j))))
    && (forall i: nat, j: nat :: (i, j) in m
          <==> (i, j) in m0 || (Apart(frags, i, j) && SharesAmong(mix, opts, frags, fps, i, j)))
  }

  /** `fps` holds every fingerprint of every fragment. */
  ghost predicate AllCarried(mix: Mix, opts: Options, frags: seq<Fragment>, fps: set<nat>) {
    forall fp: nat, i: nat :: Carries(mix, opts, frags, fp, i) ==> fp in fps
  }

  method AddFingerprintCandidates(mix: Mix, opts: Options, frags: seq<Fragment>, m0: map<PairKey, nat>)
    returns (m: map<PairKey, nat>)
    requires opts.fpWindow > 0
    ensures exists fps: set<nat> :: AllCarried(mix, opts, frags, fps) && Raised(mix, opts, frags, fps, m0, m)
  {
    hide Posts, Carries, Usable, Ordered, Carriers, Lifted, Raised, FpIndex;
    var postings := PostFingerprints(mix, opts, frags);
    m := m0;
    var rest := postings.Keys;
    ghost var fps: set<nat> := {};
    NothingRaised(mix, opts, frags, m0);
    while rest != {}
      invariant rest + fps == postings.Keys && rest !! fps
      invariant Raised(mix, opts, frags, fps, m0, m)
      decreases rest
    {
      var fp :| fp in rest;
      rest := rest - {fp};
      var list := postings[fp];
      FpPosted(mix, opts, frags, postings, fp);
      ghost var before := m;
      var documents := CountBodies(mix, opts, frags, fp, list);
      if opts.fpMaxPostings == 0 || documents <= opts.fpMaxPostings {
        UsableMeans(mix, opts, frags, fp, documents);
        PostsOrdered(frags, list, (i: nat) => Carries(mix, opts, frags, fp, i));
        m := RaisePairs(frags, list, opts.minSharedRare, m);
        RaisedStep(mix, opts, frags, fps, fp, list, m0, before, m);
      } else {
        SkippedStep(mix, opts, frags, fps, fp, m0, m, documents);
      }
      fps := fps + {fp};
    }
    assert fps == postings.Keys;
    forall fp: nat, i: nat | Carries(mix, opts, frags, fp, i)
      ensures fp in fps
    {
      CarriedIsPosted(mix, opts, frags, postings, fp, i);
    }
    assert AllCarried(mix, opts, frags, fps);
  }

  lemma NothingRaised(mix: Mix, opts: Options, frags: seq<Fragment>, m: map<PairKey, nat>)
    ensures Raised(mix, opts, frags, {}, m, m)
  {
  }

  lemma FpPosted(mix: Mix, opts: Options, frags: seq<Fragment>, postings: map<nat, seq<nat>>, fp: nat)
    requires FpIndex(mix, opts, frags, postings, |frags|) && fp in postings
    ensures Posts(postings[fp], (i: nat) => Carries(mix, opts, frags, fp, i), |frags|)
  {
    assert ListOf(postings, fp) == postings[fp];
  }

  lemma UsableMeans(mix: Mix, opts: Options, frags: seq<Fragment>, fp: nat, documents: nat)
    requires documents == |Carriers(mix, opts, frags, fp)|
    ensures Usable(mix, opts, frags, fp) <==> opts.fpMaxPostings == 0 || documents <= opts.fpMaxPostings
  {
  }

  lemma CarriedIsPosted(mix: Mix, opts: Options, frags: seq<Fragment>, postings: map<nat, seq<nat>>, fp: nat, i: nat)
    requires FpIndex(mix, opts, frags, postings, |frags|) && Carries(mix, opts, frags, fp, i)
    ensures fp in postings
  {
    hide HasFingerprint;
    assert Posts(ListOf(postings, fp), (k: nat) => Carries(mix, opts, frags, fp, k), |frags|);
    assert i in ListOf(postings, fp);
  }

  lemma RaisedStep(mix: Mix, opts: Options, frags: seq<Fragment>, fps: set<nat>, fp: nat, list: seq<nat>,
                   m0: map<PairKey, nat>, before: map<PairKey, nat>, m: map<PairKey, nat>)
    requires Raised(mix, opts, frags, fps, m0, before) && Usable(mix, opts, frags, fp)
    requires Posts(list, (i: nat) => Carries(mix, opts, frags, fp, i), |frags|)
    requires Lifted(frags, list, |list|, |list| + 1, opts.minSharedRare, before, m)
    ensures Raised(mix, opts, frags, fps + {fp}, m0, m)
  {
    hide PairBefore, Posts, Carries, Usable, SameFileOverlapOrAdjacent;
    forall i: nat, j: nat
      ensures PairBefore(frags, list, |list|, |list| + 1, i, j)
         <==> Apart(frags, i, j) && Carries(mix, opts, frags, fp, i) && Carries(mix, opts, frags, fp, j)
      ensures SharesAmong(mix, opts, frags, fps + {fp}, i, j)
         <==> SharesAmong(mix, opts, frags, fps, i, j)
              || (Carries(mix, opts, frags, fp, i) && Carries(mix, opts, frags, fp, j))
    {
      PairAll(frags, list, (k: nat) => Carries(mix, opts, frags, fp, k), i, j);
    }
  }

  lemma SkippedStep(mix: Mix, opts: Options, frags: seq<Fragment>, fps: set<nat>, fp: nat,
                    m0: map<PairKey, nat>, m: map<PairKey, nat>, documents: nat)
    requires Raised(mix, opts, frags, fps, m0, m)
    requires documents == |Carriers(mix, opts, frags, fp)| && opts.fpMaxPostings > 0 && documents > opts.fpMaxPostings
    ensures Raised(mix, opts, frags, fps + {fp}, m0, m)
  {
    hide Carries, Carriers, SameFileOverlapOrAdjacent;
    forall i: nat, j: nat
      ensures SharesAmong(mix, opts, frags, fps + {fp}, i, j) <==> SharesAmong(mix, opts, frags, fps, i, j)
    {
    }
  }

  // -------------------------------------------------------------------- the index

  predicate ShouldKeepPair(frags: seq<Fragment>, opts: Options, key: PairKey, shared: nat)
    requires key.0 < |frags| && key.1 < |frags|
  {
    shared >= opts.minSharedRare && Diverse(frags, opts, key.0, key.1)
  }

  method FilterCandidatePairs(frags: seq<Fragment>, opts: Options, m0: map<PairKey, nat>) returns (m: map<PairKey, nat>)
    requires forall key :: key in m0 ==> key.0 < |frags| && key.1 < |frags|
    ensures forall key :: key in m <==> key in m0 && ShouldKeepPair(frags, opts, key, m0[key])
    ensures forall key :: key in m ==> m[key] == m0[key]
  {
    m := m0;
    var rest := m0.Keys;
    while rest != {}
      invariant rest <= m0.Keys
      invariant forall key :: key in m <==> key in m0 && (key in rest || ShouldKeepPair(frags, opts, key, m0[key]))
      invariant forall key :: key in m ==> m[key] == m0[key]
      decreases rest
    {
      var key :| key in rest;
      rest := rest - {key};
      if !ShouldKeepPair(frags, opts, key, m[key]) {
        m := m - {key};
      }
    }
  }

  method BuildIndex(mix: Mix, opts: Options, frags: seq<Fragment>) returns (m: map<PairKey, nat>)
    requires opts.fingerprints ==> opts.fpWindow > 0
    ensures IsPairMap(mix, opts, frags, m)
  {
    hide RareIndex, CountsShared, Raised, Carries, Usable, IsRare, DocFreq, Bodies, EffectiveRareDf;
    var documents, df := ComputeDocumentFrequency(frags);
    var effRareDf := EffectiveRareDf(documents, opts);
    var postings := BuildRareTokenIndex(frags, opts, effRareDf, df);
    var shared := FindCandidatePairs(frags, opts, postings);
    var all := shared;
    ghost var fps: set<nat> := {};
    if opts.fingerprints {
      all := AddFingerprintCandidates(mix, opts, frags, shared);
      fps :| AllCarried(mix, opts, frags, fps) && Raised(mix, opts, frags, fps, shared, all);
    }
    BeforeFilter(mix, opts, frags, postings, shared, fps, all);
    m := FilterCandidatePairs(frags, opts, all);
    forall i: nat, j: nat
      ensures (i, j) in m <==> IsCandidate(mix, opts, frags, i, j)
      ensures (i, j) in m ==> m[(i, j)] == Weight(mix, opts, frags, i, j)
    {
    }
  }

  /** What the map holds before the count and diversity filter. */
  lemma BeforeFilter(mix: Mix, opts: Options, frags: seq<Fragment>, postings: map<string, seq<nat>>,
                     shared: map<PairKey, nat>, fps: set<nat>, all: map<PairKey, nat>)
    requires RareIndex(frags, opts, postings, |frags|) && CountsShared(frags, opts, postings.Keys, shared)
    requires opts.fingerprints ==> Raised(mix, opts, frags, fps, shared, all)
    requires opts.fingerprints ==> forall fp: nat, i: nat :: Carries(mix, opts, frags, fp, i) ==> fp in fps
    requires !opts.fingerprints ==> all == shared
    ensures forall key :: key in all ==> key.0 < |frags| && key.1 < |frags|
    ensures forall i: nat, j: nat :: (i, j) in all <==>
      Apart(frags, i, j) && (SharedRare(frags, opts, i, j) != {} || SharesFingerprint(mix, opts, frags, i, j))
    ensures forall i: nat, j: nat :: (i, j) in all ==> all[(i, j)] == Weight(mix, opts, frags, i, j)
  {
    hide RareIndex, IsRare, HasFingerprint, Usable, SharedRare, SharedAmong, SameFileOverlapOrAdjacent;
    forall i: nat, j: nat
      ensures (i, j) in all <==>
        Apart(frags, i, j) && (SharedRare(frags, opts, i, j) != {} || SharesFingerprint(mix, opts, frags, i, j))
      ensures (i, j) in all ==> all[(i, j)] == Weight(mix, opts, frags, i, j)
    {
      assert (i, j) in shared <==> Get(shared, (i, j)) > 0;
      if Apart(frags, i, j) {
        PostedIsShared(frags, opts, postings, i, j);
        if opts.fingerprints {
          SharesMeans(mix, opts, frags, fps, i, j);
        }
      }
      assert Get(all, (i, j)) == if (i, j) in all then all[(i, j)] else 0;
    }
    forall key | key in all
      ensures key.0 < |frags| && key.1 < |frags|
    {
      assert key == (key.0, key.1);
    }
  }

  lemma SharesMeans(mix: Mix, opts: Options, frags: seq<Fragment>, fps: set<nat>, i: nat, j: nat)
    requires i < |frags| && j < |frags| && opts.fingerprints
    requires forall fp: nat, k: nat :: Carries(mix, opts, frags, fp, k) ==> fp in fps
    ensures SharesFingerprint(mix, opts, frags, i, j) <==> SharesAmong(mix, opts, frags, fps, i, j)
  {
    hide HasFingerprint, Usable;
    if SharesFingerprint(mix, opts, frags, i, j) {
      var fp: nat :| HasFingerprint(mix, opts, frags[i], fp) && HasFingerprint(mix, opts, frags[j], fp)
                     && Usable(mix, opts, frags, fp);
      assert Carries(mix, opts, frags, fp, i) && Carries(mix, opts, frags, fp, j);
    }
  }

  /** With a floor of at least one, a pair is a candidate exactly if it is apart and
      diverse and either shares that many rare tokens or a usable fingerprint. */
  lemma CandidateIff(mix: Mix, opts: Options, frags: seq<Fragment>, i: nat, j: nat)
    requires opts.minSharedRare >= 1
    ensures IsCandidate(mix, opts, frags, i, j) <==>
      && Apart(frags, i, j) && Diverse(frags, opts, i, j)
      && (|SharedRare(frags, opts, i, j)| >= opts.minSharedRare || SharesFingerprint(mix, opts, frags, i, j))
  {
    hide SharesFingerprint, IsRare;
  }

  /** The index does not depend on the order in which its hash maps are walked. */
  lemma PairMapUnique(mix: Mix, opts: Options, frags: seq<Fragment>, m: map<PairKey, nat>, n: map<PairKey, nat>)
    requires IsPairMap(mix, opts, frags, m) && IsPairMap(mix, opts, frags, n)
    ensures m == n
  {
    hide IsCandidate, Weight;
    forall key
      ensures key in m <==> key in n
      ensures key in m ==> m[key] == n[key]
    {
      assert key == (key.0, key.1);
    }
  }

  /** `fp` is a fingerprint of these tokens alone; a run of fpK + fpWindow - 1 or more has one. */
  ghost predicate FingerprintOf(mix: Mix, opts: Options, run: seq<string>, fp: nat) {
    MinimumBefore(Grams(mix, run, opts.fpK), opts.fpWindow, GramCount(|run|, opts.fpK), fp)
  }

  lemma LongRunHasFingerprint(mix: Mix, opts: Options, run: seq<string>) returns (fp: nat)
    requires opts.fpWindow > 0 && |run| >= opts.fpK + opts.fpWindow - 1
    ensures FingerprintOf(mix, opts, run, fp)
  {
    hide IsWindowMin;
    fp := WindowMinExists(Grams(mix, run, opts.fpK), opts.fpWindow, 0);
    assert MinimumBefore(Grams(mix, run, opts.fpK), opts.fpWindow, GramCount(|run|, opts.fpK), fp);
  }

  /** A run that two fragments apart share verbatim makes them a candidate pair, however
      common its tokens are, as soon as one fingerprint of the run is within the cap. */
  lemma SharedRunIsCandidate(mix: Mix, opts: Options, frags: seq<Fragment>, i: nat, j: nat, x: nat, y: nat, n: nat,
      fp: nat)
    requires opts.fingerprints && Apart(frags, i, j) && Diverse(frags, opts, i, j)
    requires x + n <= |frags[i].toks| && y + n <= |frags[j].toks|
    requires frags[i].toks[x..x + n] == frags[j].toks[y..y + n]
    requires FingerprintOf(mix, opts, frags[i].toks[x..x + n], fp) && Usable(mix, opts, frags, fp)
    ensures IsCandidate(mix, opts, frags, i, j)
  {
    hide MinimumBefore, IsRare;
    FingerprintOfRun(mix, frags[i].toks, opts.fpK, opts.fpWindow, x, n, fp);
    FingerprintOfRun(mix, frags[j].toks, opts.fpK, opts.fpWindow, y, n, fp);
    assert HasFingerprint(mix, opts, frags[i], fp) && HasFingerprint(mix, opts, frags[j], fp);
  }
}
