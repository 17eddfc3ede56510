/** What is left after directives are removed: a subsequence of the source without any
    directive, which a second pass leaves alone. */
module DirectiveOutput {
  import opened Tokens
  import opened Subsequences
  import opened Directives

  // ------------------------------------------------------------------- subsequence

  /** The text tokens among the pieces from `i` up to `j`. */
  ghost function Texts(ps: seq<Piece>, i: nat, j: nat): seq<Token>
    requires i <= j <= |ps|
    decreases j - i
  {
    if i == j then [] else (if ps[i].Text? then [ps[i].tok] else []) + Texts(ps, i + 1, j)
  }

  lemma {:induction false} TextsSplit(ps: seq<Piece>, i: nat, k: nat, j: nat)
    requires i <= k <= j <= |ps|
    ensures Texts(ps, i, j) == Texts(ps, i, k) + Texts(ps, k, j)
    decreases k - i
  {
    if i < k {
      TextsSplit(ps, i + 1, k, j);
    }
  }

  lemma {:induction false} BranchSub(ps: seq<Piece>, i: nat)
    requires i <= |ps|
    ensures var (o, j) := EvalBranch(ps, i); IsSub(o, Texts(ps, i, j))
    decreases |ps| - i, 0
  {
    hide IsSub;
    var (o, j) := EvalBranch(ps, i);
    NothingIsSub(Texts(ps, i, j));
    if i < |ps| {
      match ps[i]
      case Text(t) =>
        BranchSub(ps, i + 1);
        SubSelf([t]);
        SubConcat([t], [t], EvalBranch(ps, i + 1).0, Texts(ps, i + 1, j));
      case Directive(Opens) =>
        var (w, k) := EvalChain(ps, i + 1, []);
        NothingIsSub(Texts(ps, i + 1, i + 1));
        ChainSub(ps, i + 1, [], i + 1);
        BranchSub(ps, k);
        TextsSplit(ps, i + 1, k, j);
        SubConcat(w, Texts(ps, i + 1, k), EvalBranch(ps, k).0, Texts(ps, k, j));
        assert [] + Texts(ps, i + 1, j) == Texts(ps, i + 1, j);
      case Directive(Ignored) =>
        BranchSub(ps, i + 1);
        assert [] + Texts(ps, i + 1, j) == Texts(ps, i + 1, j);
      case Directive(_) =>
    }
  }

  lemma NothingIsSub(b: seq<Token>)
    ensures IsSub([], b)
  {
  }

  /** `from` is where the chain's first branch started. */
  lemma {:induction false} ChainSub(ps: seq<Piece>, i: nat, best: seq<Token>, from: nat)
    requires from <= i <= |ps| && IsSub(best, Texts(ps, from, i))
    ensures var (w, j) := EvalChain(ps, i, best); IsSub(w, Texts(ps, from, j))
    decreases |ps| - i, 1
  {
    hide IsSub;
    var (o, j) := EvalBranch(ps, i);
    BranchSub(ps, i);
    TextsSplit(ps, from, i, j);
    SubMore(best, Texts(ps, from, i), Texts(ps, i, j));
    SubMore(o, Texts(ps, i, j), Texts(ps, from, i));
    var longest := if |o| > |best| then o else best;
    if j < |ps| {
      TextsSplit(ps, from, j, j + 1);
      SubMore(longest, Texts(ps, from, j), Texts(ps, j, j + 1));
      if ps[j] == Directive(Alternates) {
        ChainSub(ps, j + 1, longest, from);
      }
    }
  }

  lemma {:induction false} TopSub(ps: seq<Piece>, i: nat)
    requires i <= |ps|
    ensures IsSub(EvalTop(ps, i), Texts(ps, i, |ps|))
    decreases |ps| - i
  {
    hide IsSub, EvalBranch, Texts;
    var (o, j) := EvalBranch(ps, i);
    BranchSub(ps, i);
    if j < |ps| {
      TopSub(ps, j + 1);
      TextsSplit(ps, i, j, |ps|);
      TextsSplit(ps, j, j + 1, |ps|);
      SubMore(EvalTop(ps, j + 1), Texts(ps, j + 1, |ps|), Texts(ps, j, j + 1));
      SubConcat(o, Texts(ps, i, j), EvalTop(ps, j + 1), Texts(ps, j, |ps|));
    }
  }

  lemma {:induction false} TextsShift(p: Piece, ps: seq<Piece>, i: nat, j: nat)
    requires i <= j <= |ps|
    ensures Texts([p] + ps, i + 1, j + 1) == Texts(ps, i, j)
    decreases j - i
  {
    if i < j {
      assert ([p] + ps)[i + 1] == ps[i];
      TextsShift(p, ps, i + 1, j);
    }
  }

  lemma TextsCons(p: Piece, ps: seq<Piece>)
    ensures Texts([p] + ps, 0, |[p] + ps|) == (if p.Text? then [p.tok] else []) + Texts(ps, 0, |ps|)
  {
    TextsShift(p, ps, 0, |ps|);
  }

  lemma {:induction false} PiecesSub(toks: seq<Token>, i: nat)
    requires i <= |toks|
    ensures IsSub(Texts(Pieces(toks, i), 0, |Pieces(toks, i)|), toks[i..])
    decreases |toks| - i
  {
    hide IsSub, DirectiveKind, StartsDirective, Texts;
    if i == |toks| {
      assert Texts([], 0, 0) == [] by { NoTexts(); }
      NothingIsSub(toks[i..]);
    } else if StartsDirective(toks, i) {
      var k := SkipLine(toks, i, toks[i].line);
      var rest := Pieces(toks, k);
      PiecesSub(toks, k);
      TextsCons(Directive(DirectiveKind(toks, i)), rest);
      assert [] + Texts(rest, 0, |rest|) == Texts(rest, 0, |rest|);
      SubMore(Texts(rest, 0, |rest|), toks[k..], toks[i..k]);
      assert toks[i..k] + toks[k..] == toks[i..];
    } else {
      var rest := Pieces(toks, i + 1);
      PiecesSub(toks, i + 1);
      TextsCons(Text(toks[i]), rest);
      SubSelf([toks[i]]);
      SubConcat([toks[i]], [toks[i]], Texts(rest, 0, |rest|), toks[i + 1..]);
      assert [toks[i]] + toks[i + 1..] == toks[i..];
    }
  }

  lemma NoTexts()
    ensures Texts([], 0, 0) == []
  {
  }

  /** Stripping only deletes tokens. */
  lemma StrippedIsSub(toks: seq<Token>)
    ensures IsSub(Stripped(toks), toks)
  {
    hide IsSub, Stripped, Pieces, EvalTop;
    var ps := Pieces(toks, 0);
    StrippedIsEval(toks);
    TopSub(ps, 0);
    PiecesSub(toks, 0);
    assert toks[0..] == toks;
    SubTrans(EvalTop(ps, 0), Texts(ps, 0, |ps|), toks);
  }

  // ---------------------------------------------------------- no directive is left

  /** Every `#` has the token before it on its own line. */
  predicate HashesInline(s: seq<Token>) {
    forall k: nat :: k < |s| && s[k].sym.Hash? ==> k > 0 && s[k - 1].line == s[k].line
  }

  /** A `#` at position `k` of the pieces follows a text token of the same line. */
  predicate HashFollows(ps: seq<Piece>, k: nat)
    requires k < |ps|
  {
    ps[k].Text? && ps[k].tok.sym.Hash? ==> k > 0 && ps[k - 1].Text? && ps[k - 1].tok.line == ps[k].tok.line
  }

  ghost predicate PiecesInline(ps: seq<Piece>) {
    forall k: nat :: k < |ps| ==> HashFollows(ps, k)
  }

  /** Like HashesInline, except that the first token may be a `#` if it is piece `i` itself. */
  ghost predicate InlineAfter(ps: seq<Piece>, i: nat, o: seq<Token>) {
    && (forall k: nat :: 0 < k < |o| && o[k].sym.Hash? ==> o[k - 1].line == o[k].line)
    && (o != [] && o[0].sym.Hash? ==> i < |ps| && ps[i] == Text(o[0]))
  }

  lemma InlineConcat(a: seq<Token>, b: seq<Token>)
    requires HashesInline(a) && HashesInline(b)
    ensures HashesInline(a + b)
  {
    var c := a + b;
    forall k: nat | k < |c| && c[k].sym.Hash?
      ensures k > 0 && c[k - 1].line == c[k].line
    {
      if k >= |a| {
        assert c[k] == b[k - |a|];
      }
    }
  }

  lemma NotHash(ps: seq<Piece>, i: nat, t: Token)
    requires PiecesInline(ps) && i < |ps| && ps[i] == Text(t) && (i == 0 || ps[i - 1].Directive?)
    ensures !t.sym.Hash?
  {
    assert HashFollows(ps, i);
  }

  /** After a directive no token can be a leading `#`. */
  lemma InlineStart(ps: seq<Piece>, i: nat, o: seq<Token>)
    requires PiecesInline(ps) && 0 < i <= |ps| && ps[i - 1].Directive? && InlineAfter(ps, i, o)
    ensures HashesInline(o)
  {
    if o != [] && i < |ps| && ps[i] == Text(o[0]) {
      NotHash(ps, i, o[0]);
    }
  }

  lemma {:induction false} BranchInline(ps: seq<Piece>, i: nat)
    requires i <= |ps| && PiecesInline(ps)
    ensures InlineAfter(ps, i, EvalBranch(ps, i).0)
    decreases |ps| - i, 0
  {
    hide PiecesInline, HashesInline;
    if i < |ps| {
      match ps[i]
      case Text(t) =>
        BranchInline(ps, i + 1);
        PrependInline(ps, i, EvalBranch(ps, i + 1).0);
      case Directive(Opens) =>
        var (w, k) := EvalChain(ps, i + 1, []);
        NothingInline();
        ChainInline(ps, i + 1, []);
        BranchInline(ps, k);
        if k == |ps| {
          assert EvalBranch(ps, k).0 == [];
          assert w + [] == w;
          InlineAnywhere(ps, i, w);
        } else {
          InlineAfterChain(ps, i, k, w);
        }
      case Directive(Ignored) =>
        BranchInline(ps, i + 1);
        InlineStart(ps, i + 1, EvalBranch(ps, i + 1).0);
        InlineAnywhere(ps, i, EvalBranch(ps, i + 1).0);
      case Directive(_) =>
    }
  }

  lemma NothingInline()
    ensures HashesInline([])
  {
  }

  lemma InlineAnywhere(ps: seq<Piece>, i: nat, o: seq<Token>)
    requires HashesInline(o)
    ensures InlineAfter(ps, i, o)
  {
  }

  lemma PrependInline(ps: seq<Piece>, i: nat, o: seq<Token>)
    requires PiecesInline(ps) && i < |ps| && ps[i].Text? && InlineAfter(ps, i + 1, o)
    ensures InlineAfter(ps, i, [ps[i].tok] + o)
  {
    var c := [ps[i].tok] + o;
    forall k: nat | 0 < k < |c| && c[k].sym.Hash?
      ensures c[k - 1].line == c[k].line
    {
      if k == 1 {
        assert HashFollows(ps, i + 1);
      } else {
        assert c[k] == o[k - 1] && c[k - 1] == o[k - 2];
      }
    }
  }

  lemma InlineAfterChain(ps: seq<Piece>, i: nat, k: nat, w: seq<Token>)
    requires PiecesInline(ps) && k < |ps| && HashesInline(w)
    requires 0 < k && ps[k - 1].Directive? && InlineAfter(ps, k, EvalBranch(ps, k).0)
    ensures InlineAfter(ps, i, w + EvalBranch(ps, k).0)
  {
    var o := EvalBranch(ps, k).0;
    InlineStart(ps, k, o);
    InlineConcat(w, o);
    InlineAnywhere(ps, i, w + o);
  }

  /** A chain that does not end the file ends with a directive. */
  lemma {:induction false} ChainInline(ps: seq<Piece>, i: nat, best: seq<Token>)
    requires 0 < i <= |ps| && ps[i - 1].Directive? && PiecesInline(ps) && HashesInline(best)
    ensures var (w, j) := EvalChain(ps, i, best); HashesInline(w) && (j < |ps| ==> j > 0 && ps[j - 1].Directive?)
    decreases |ps| - i, 1
  {
    hide PiecesInline, HashesInline, InlineAfter;
    var (o, j) := EvalBranch(ps, i);
    BranchInline(ps, i);
    InlineStart(ps, i, o);
    if j < |ps| && ps[j] == Directive(Alternates) {
      ChainInline(ps, j + 1, if |o| > |best| then o else best);
    }
  }

  lemma {:induction false} TopInline(ps: seq<Piece>, i: nat)
    requires i <= |ps| && PiecesInline(ps) && (i > 0 ==> ps[i - 1].Directive?)
    ensures HashesInline(EvalTop(ps, i))
    decreases |ps| - i
  {
    hide PiecesInline, HashesInline, EvalBranch;
    var (o, j) := EvalBranch(ps, i);
    BranchInline(ps, i);
    if i > 0 {
      InlineStart(ps, i, o);
    } else {
      InlineFirst(ps, o);
    }
    if j < |ps| {
      TopInline(ps, j + 1);
      InlineConcat(o, EvalTop(ps, j + 1));
    }
  }

  lemma InlineFirst(ps: seq<Piece>, o: seq<Token>)
    requires PiecesInline(ps) && InlineAfter(ps, 0, o)
    ensures HashesInline(o)
  {
    if o != [] && 0 < |ps| && ps[0] == Text(o[0]) {
      NotHash(ps, 0, o[0]);
    }
  }

  /** Folding directive lines leaves only `#`s that stand inside a line of text. */
  lemma {:induction false} FoldedInline(toks: seq<Token>, i: nat)
    requires i <= |toks|
    ensures var ps := Pieces(toks, i);
      && (forall k: nat :: 0 < k < |ps| ==> HashFollows(ps, k))
      && (ps != [] && ps[0].Text? ==> i < |toks| && ps[0].tok == toks[i] && !StartsDirective(toks, i))
    decreases |toks| - i
  {
    hide DirectiveKind;
    var ps := Pieces(toks, i);
    if i < |toks| {
      var next := if StartsDirective(toks, i) then SkipLine(toks, i, toks[i].line) else i + 1;
      var rest := Pieces(toks, next);
      FoldedInline(toks, next);
      if StartsDirective(toks, i) {
        SkipStops(toks, i, toks[i].line);
      }
      forall k: nat | 0 < k < |ps|
        ensures HashFollows(ps, k)
      {
        if k > 1 {
          assert ps[k] == rest[k - 1] && ps[k - 1] == rest[k - 2];
          assert HashFollows(rest, k - 1);
        } else {
          assert ps[1] == rest[0];
        }
      }
    }
  }

  /** A directive line ends where another line starts. */
  lemma {:induction false} SkipStops(toks: seq<Token>, i: nat, line: int)
    requires i < |toks| && (toks[i].line == line || (i > 0 && toks[i - 1].line == line))
    ensures var k := SkipLine(toks, i, line); k < |toks| ==> LineStart(toks, k)
    decreases |toks| - i
  {
    if toks[i].line == line {
      if i + 1 < |toks| {
        SkipStops(toks, i + 1, line);
      }
    } else if i > 0 && toks[i - 1].sym.Backslash? {
      if i + 1 < |toks| {
        SkipStops(toks, i + 1, toks[i].line);
      }
    }
  }

  /** The output of the stripper has no `#` at the start of a line. */
  lemma StrippedHasNoDirective(toks: seq<Token>)
    ensures HashesInline(Stripped(toks))
    ensures forall k: nat :: k < |Stripped(toks)| ==> !StartsDirective(Stripped(toks), k)
  {
    hide Stripped, Pieces, EvalTop;
    var ps := Pieces(toks, 0);
    StrippedIsEval(toks);
    FoldedInline(toks, 0);
    assert PiecesInline(ps) by {
      if ps != [] {
        assert HashFollows(ps, 0);
      }
    }
    TopInline(ps, 0);
  }

  // ------------------------------------------------------------------- idempotence

  lemma {:induction false} NoPiecesFolded(s: seq<Token>, i: nat)
    requires i <= |s| && forall k: nat :: k < |s| ==> !StartsDirective(s, k)
    ensures |Pieces(s, i)| == |s| - i
    ensures forall k: nat :: k < |s| - i ==> Pieces(s, i)[k] == Text(s[i + k])
    decreases |s| - i
  {
    hide StartsDirective, DirectiveKind;
    if i < |s| {
      NoPiecesFolded(s, i + 1);
    }
  }

  lemma {:induction false} AllText(ps: seq<Piece>, i: nat)
    requires i <= |ps| && forall k: nat :: k < |ps| ==> ps[k].Text?
    ensures EvalBranch(ps, i).1 == |ps| && |EvalBranch(ps, i).0| == |ps| - i
    ensures forall k: nat :: k < |ps| - i ==> EvalBranch(ps, i).0[k] == ps[i + k].tok
    decreases |ps| - i
  {
    if i < |ps| {
      AllText(ps, i + 1);
    }
  }

  /** A stream without directives passes through unchanged. */
  lemma StripFixed(s: seq<Token>)
    requires forall k: nat :: k < |s| ==> !StartsDirective(s, k)
    ensures Stripped(s) == s
  {
    hide Stripped, StartsDirective, Pieces;
    StrippedIsEval(s);
    NoPiecesFolded(s, 0);
    AllText(Pieces(s, 0), 0);
    assert EvalTop(Pieces(s, 0), 0) == s;
  }

  /** Stripping twice is stripping once. */
  lemma StripIdempotent(toks: seq<Token>)
    ensures Stripped(Stripped(toks)) == Stripped(toks)
  {
    hide Stripped, StartsDirective;
    StrippedHasNoDirective(toks);
    StripFixed(Stripped(toks));
  }
}
