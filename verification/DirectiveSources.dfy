/** Stripping told on the tokens of a source: lines of code and directive lines, nested into
    conditional chains. */
module DirectiveSources {
  import opened Tokens
  import opened Directives

  /** A line of code, a directive that opens or ends nothing, or a chain. A directive line
      goes on behind a backslash. */
  datatype Source =
    | Code(line: seq<Token>)
    | Remark(line: seq<Token>)
    | Conditional(open: seq<Token>, branches: Alternatives)

  datatype Alternatives =
    | Last(body: seq<Source>, close: seq<Token>)
    | Next(body: seq<Source>, alt: seq<Token>, rest: Alternatives)

  // ------------------------------------------------------------------------- lines

  /** The token spells the word. */
  predicate Word(tok: Token, w: string) {
    if tok.raw != "" then tok.raw == w
    else tok.sym == Other(w) || (w == "if" && tok.sym == If) || (w == "else" && tok.sym == Else)
  }

  predicate CodeLine(l: seq<Token>) {
    l != [] && l[0].sym != Hash && forall k: nat :: k < |l| ==> l[k].line == l[0].line
  }

  predicate GoesOn(a: Token, b: Token) {
    a.line == b.line || a.sym == Backslash
  }

  predicate DirectiveLine(l: seq<Token>) {
    && l != [] && l[0].sym == Hash && l[|l| - 1].sym != Backslash
    && forall k: nat :: k + 1 < |l| ==> GoesOn(l[k], l[k + 1])
  }

  /** A directive whose first word, on the line of its `#`, is one of these. */
  predicate Says(l: seq<Token>, ws: seq<string>) {
    && DirectiveLine(l) && |l| > 1 && l[1].line == l[0].line
    && exists i: nat :: i < |ws| && Word(l[1], ws[i])
  }

  const OPENERS := ["if", "ifdef", "ifndef"]
  const ALTERNATIVES := ["elif", "else"]
  const CLOSERS := ["endif"]

  predicate WellFormed(ns: seq<Source>)
    decreases ns, 0
  {
    ns == [] || (WellFormedNode(ns[0]) && WellFormed(ns[1..]))
  }

  predicate WellFormedNode(n: Source)
    decreases n, 0
  {
    match n
    case Code(l) => CodeLine(l)
    case Remark(l) => DirectiveLine(l) && !Says(l, OPENERS) && !Says(l, ALTERNATIVES) && !Says(l, CLOSERS)
    case Conditional(l, bs) => Says(l, OPENERS) && WellFormedAll(bs)
  }

  predicate WellFormedAll(bs: Alternatives)
    decreases bs, 0
  {
    match bs
    case Last(body, l) => WellFormed(body) && Says(l, CLOSERS)
    case Next(body, l, rest) => WellFormed(body) && Says(l, ALTERNATIVES) && WellFormedAll(rest)
  }

  // ---------------------------------------------------------------------- the tokens

  function LinesOf(ns: seq<Source>): seq<seq<Token>>
    decreases ns, 0
  {
    if ns == [] then [] else LinesOfNode(ns[0]) + LinesOf(ns[1..])
  }

  function LinesOfNode(n: Source): seq<seq<Token>>
    decreases n, 0
  {
    match n
    case Code(l) => [l]
    case Remark(l) => [l]
    case Conditional(l, bs) => [l] + LinesOfAll(bs)
  }

  function LinesOfAll(bs: Alternatives): seq<seq<Token>>
    decreases bs, 0
  {
    match bs
    case Last(body, l) => LinesOf(body) + [l]
    case Next(body, l, rest) => LinesOf(body) + ([l] + LinesOfAll(rest))
  }

  function Joined(ls: seq<seq<Token>>): seq<Token> {
    if ls == [] then [] else ls[0] + Joined(ls[1..])
  }

  /** Every line starts on a new line of the file. */
  predicate StartAfresh(ls: seq<seq<Token>>) {
    && (forall k: nat :: k < |ls| ==> ls[k] != [])
    && (forall k: nat, j: nat :: k < |ls| && j == k + 1 < |ls| ==> ls[k][|ls[k]| - 1].line != ls[j][0].line)
  }

  // ------------------------------------------------------------------- what is kept

  function Kept(ns: seq<Source>): seq<Token>
    decreases ns, 0
  {
    if ns == [] then [] else KeptOf(ns[0]) + Kept(ns[1..])
  }

  /** Of a chain the longest branch, the first of them on ties. */
  function KeptOf(n: Source): seq<Token>
    decreases n, 0
  {
    match n
    case Code(l) => l
    case Remark(_) => []
    case Conditional(_, bs) => Longest(KeptOfAll(bs))
  }

  function KeptOfAll(bs: Alternatives): seq<seq<Token>>
    decreases bs, 0
  {
    match bs
    case Last(body, _) => [Kept(body)]
    case Next(body, _, rest) => [Kept(body)] + KeptOfAll(rest)
  }

  // ---------------------------------------------------------------- pieces of lines

  function Texts(l: seq<Token>): seq<Piece> {
    if l == [] then [] else [Text(l[0])] + Texts(l[1..])
  }

  function KindOfLine(l: seq<Token>): Kind {
    if |l| > 1 && l[1].line == l[0].line then KindOf(l[1].Text()) else Ignored
  }

  function PiecesOf(l: seq<Token>): seq<Piece> {
    if l != [] && l[0].sym == Hash then [Directive(KindOfLine(l))] else Texts(l)
  }

  function AllPieces(ls: seq<seq<Token>>): seq<Piece> {
    if ls == [] then [] else PiecesOf(ls[0]) + AllPieces(ls[1..])
  }

  predicate GoodLine(l: seq<Token>) {
    CodeLine(l) || DirectiveLine(l)
  }

  /** What comes before and after a line is on other lines. */
  predicate Between(pre: seq<Token>, l: seq<Token>, post: seq<Token>) {
    && l != [] && (pre != [] ==> pre[|pre| - 1].line != l[0].line)
    && (post != [] ==> l[|l| - 1].line != post[0].line)
  }

  lemma {:induction false} CodePieces(pre: seq<Token>, l: seq<Token>, post: seq<Token>, m: nat)
    requires CodeLine(l) && m <= |l|
    ensures var toks := pre + l + post;
      Pieces(toks, |pre| + m) == Texts(l[m..]) + Pieces(toks, |pre| + |l|)
    decreases |l| - m
  {
    hide Pieces, CodeLine;
    var toks, i := pre + l + post, |pre| + m;
    if m == |l| {
      assert l[m..] == [] && [] + Pieces(toks, |pre| + |l|) == Pieces(toks, |pre| + |l|);
    } else {
      CodePieces(pre, l, post, m + 1);
      assert toks[i] == l[m] && l[m..][0] == l[m] && l[m..][1..] == l[m + 1..];
      CodeStartsNothing(pre, l, post, m);
      TextPiece(toks, i);
    }
  }

  lemma CodeStartsNothing(pre: seq<Token>, l: seq<Token>, post: seq<Token>, m: nat)
    requires CodeLine(l) && m < |l|
    ensures !StartsDirective(pre + l + post, |pre| + m)
  {
    var toks := pre + l + post;
    assert toks[|pre| + m] == l[m];
    if m > 0 {
      assert toks[|pre| + m - 1] == l[m - 1];
    }
  }

  lemma TextPiece(toks: seq<Token>, i: nat)
    requires i < |toks| && !StartsDirective(toks, i)
    ensures Pieces(toks, i) == [Text(toks[i])] + Pieces(toks, i + 1)
  {
    hide StartsDirective;
  }

  lemma {:induction false} LineEnds(pre: seq<Token>, l: seq<Token>, post: seq<Token>, m: nat)
    requires DirectiveLine(l) && Between(pre, l, post) && 0 < m <= |l|
    ensures SkipLine(pre + l + post, |pre| + m, l[m - 1].line) == |pre| + |l|
    decreases |l| - m
  {
    var toks, i := pre + l + post, |pre| + m;
    assert toks[i - 1] == l[m - 1];
    if m < |l| {
      LineEnds(pre, l, post, m + 1);
      assert toks[i] == l[m] && GoesOn(l[m - 1], l[m]);
    } else if post != [] {
      assert toks[i] == post[0];
    }
  }

  lemma DirectivePieces(pre: seq<Token>, l: seq<Token>, post: seq<Token>)
    requires DirectiveLine(l) && Between(pre, l, post)
    ensures var toks := pre + l + post;
      Pieces(toks, |pre|) == [Directive(KindOfLine(l))] + Pieces(toks, |pre| + |l|)
  {
    hide KindOf, SkipLine;
    var toks := pre + l + post;
    assert toks[|pre|] == l[0];
    if pre != [] {
      assert toks[|pre| - 1] == pre[|pre| - 1];
    }
    LineEnds(pre, l, post, 1);
    SkipFirst(toks, |pre|);
    if |l| > 1 {
      assert toks[|pre| + 1] == l[1];
    } else if post != [] {
      assert toks[|pre| + 1] == post[0];
    }
  }

  lemma SkipFirst(toks: seq<Token>, i: nat)
    requires i < |toks|
    ensures SkipLine(toks, i, toks[i].line) == SkipLine(toks, i + 1, toks[i].line)
  {
  }

  lemma LinePieces(pre: seq<Token>, l: seq<Token>, post: seq<Token>)
    requires GoodLine(l) && Between(pre, l, post)
    ensures var toks := pre + l + post;
      Pieces(toks, |pre|) == PiecesOf(l) + Pieces(toks, |pre| + |l|)
  {
    hide Pieces, KindOfLine;
    if CodeLine(l) {
      CodePieces(pre, l, post, 0);
      assert l[0..] == l;
    } else {
      DirectivePieces(pre, l, post);
    }
  }

  lemma {:induction false} JoinedPieces(pre: seq<Token>, ls: seq<seq<Token>>)
    requires StartAfresh(ls) && forall k: nat :: k < |ls| ==> GoodLine(ls[k])
    requires ls != [] && pre != [] ==> pre[|pre| - 1].line != ls[0][0].line
    ensures Pieces(pre + Joined(ls), |pre|) == AllPieces(ls)
    decreases |ls|
  {
    hide Pieces, GoodLine, PiecesOf;
    if ls == [] {
      assert pre + Joined(ls) == pre;
      PiecesEnd(pre);
    } else {
      var l, rest := ls[0], ls[1..];
      assert StartAfresh(rest) by {
        assert forall k: nat :: k < |rest| ==> rest[k] == ls[k + 1];
      }
      var post := Joined(rest);
      if rest != [] {
        assert rest[0] == ls[1] && rest[0] != [];
        assert post[0] == rest[0][0];
      }
      LinePieces(pre, l, post);
      assert pre + l + post == pre + Joined(ls);
      JoinedPieces(pre + l, rest);
      assert |pre + l| == |pre| + |l|;
    }
  }

  lemma PiecesEnd(toks: seq<Token>)
    ensures Pieces(toks, |toks|) == []
  {
  }

  // ------------------------------------------------------------------ the same tree

  function Tree(ns: seq<Source>): seq<Node>
    decreases ns, 0
  {
    if ns == [] then [] else TreeOf(ns[0]) + Tree(ns[1..])
  }

  function TreeOf(n: Source): seq<Node>
    decreases n, 0
  {
    match n
    case Code(l) => Leaves(l)
    case Remark(_) => [Note]
    case Conditional(_, bs) => [Cond(TreeOfAll(bs))]
  }

  function TreeOfAll(bs: Alternatives): Branches
    decreases bs, 0
  {
    match bs
    case Last(body, _) => Only(Tree(body))
    case Next(body, _, rest) => More(Tree(body), TreeOfAll(rest))
  }

  function Leaves(l: seq<Token>): seq<Node> {
    if l == [] then [] else [Line(l[0])] + Leaves(l[1..])
  }

  lemma {:induction false} AllPiecesConcat(a: seq<seq<Token>>, b: seq<seq<Token>>)
    ensures AllPieces(a + b) == AllPieces(a) + AllPieces(b)
    decreases |a|
  {
    hide PiecesOf;
    if a == [] {
      assert a + b == b;
    } else {
      assert (a + b)[1..] == a[1..] + b;
      AllPiecesConcat(a[1..], b);
    }
  }

  lemma AllPiecesOne(l: seq<Token>)
    ensures AllPieces([l]) == PiecesOf(l)
  {
    hide PiecesOf;
    assert [l][1..] == [] && PiecesOf(l) + [] == PiecesOf(l);
  }

  lemma {:induction false} PrintConcat(a: seq<Node>, b: seq<Node>)
    ensures Print(a + b) == Print(a) + Print(b)
    decreases |a|
  {
    hide PrintNode;
    if a == [] {
      assert a + b == b;
    } else {
      assert (a + b)[1..] == a[1..] + b;
      PrintConcat(a[1..], b);
    }
  }

  lemma PrintOne(n: Node)
    ensures Print([n]) == PrintNode(n)
  {
    hide PrintNode;
    assert [n][1..] == [] && PrintNode(n) + [] == PrintNode(n);
  }

  lemma {:induction false} ResolveConcat(a: seq<Node>, b: seq<Node>)
    ensures Resolve(a + b) == Resolve(a) + Resolve(b)
    decreases |a|
  {
    hide ResolveNode;
    if a == [] {
      assert a + b == b;
    } else {
      assert (a + b)[1..] == a[1..] + b;
      ResolveConcat(a[1..], b);
    }
  }

  lemma ResolveOne(n: Node)
    ensures Resolve([n]) == ResolveNode(n)
  {
    hide ResolveNode;
    assert [n][1..] == [] && ResolveNode(n) + [] == ResolveNode(n);
  }

  lemma {:induction false} LeavesAre(l: seq<Token>)
    ensures Print(Leaves(l)) == Texts(l) && Resolve(Leaves(l)) == l
    decreases |l|
  {
    if l != [] {
      LeavesAre(l[1..]);
      PrintOne(Line(l[0]));
      ResolveOne(Line(l[0]));
      PrintConcat([Line(l[0])], Leaves(l[1..]));
      ResolveConcat([Line(l[0])], Leaves(l[1..]));
      assert l == [l[0]] + l[1..];
    }
  }

  /** The word decides what a directive does. */
  lemma WordIs(tok: Token, w: string)
    requires w in ["if", "ifdef", "ifndef", "elif", "else", "endif"]
    ensures Word(tok, w) <==> tok.Text() == w
  {
  }

  lemma SaysKind(l: seq<Token>)
    requires DirectiveLine(l)
    ensures Says(l, OPENERS) ==> KindOfLine(l) == Opens
    ensures Says(l, ALTERNATIVES) ==> KindOfLine(l) == Alternates
    ensures Says(l, CLOSERS) ==> KindOfLine(l) == Closes
    ensures !Says(l, OPENERS) && !Says(l, ALTERNATIVES) && !Says(l, CLOSERS) ==> KindOfLine(l) == Ignored
  {
    hide Word;
    if |l| > 1 && l[1].line == l[0].line {
      WordIs(l[1], OPENERS[0]);
      WordIs(l[1], OPENERS[1]);
      WordIs(l[1], OPENERS[2]);
      WordIs(l[1], ALTERNATIVES[0]);
      WordIs(l[1], ALTERNATIVES[1]);
      WordIs(l[1], CLOSERS[0]);
    }
  }

  lemma {:induction false} SamePieces(ns: seq<Source>)
    requires WellFormed(ns)
    ensures AllPieces(LinesOf(ns)) == Print(Tree(ns)) && Resolve(Tree(ns)) == Kept(ns)
    ensures forall k: nat :: k < |LinesOf(ns)| ==> GoodLine(LinesOf(ns)[k])
    decreases ns, 0
  {
    hide AllPieces, Print, Resolve, WellFormedNode, LinesOfNode, TreeOf, KeptOf, GoodLine;
    if ns == [] {
      EmptyTrees();
    } else {
      SamePiecesOf(ns[0]);
      SamePieces(ns[1..]);
      AllPiecesConcat(LinesOfNode(ns[0]), LinesOf(ns[1..]));
      PrintConcat(TreeOf(ns[0]), Tree(ns[1..]));
      ResolveConcat(TreeOf(ns[0]), Tree(ns[1..]));
    }
  }

  lemma EmptyTrees()
    ensures AllPieces([]) == [] && Print([]) == [] && Resolve([]) == []
  {
  }

  lemma {:induction false} SamePiecesOf(n: Source)
    requires WellFormedNode(n)
    ensures AllPieces(LinesOfNode(n)) == Print(TreeOf(n)) && Resolve(TreeOf(n)) == KeptOf(n)
    ensures forall k: nat :: k < |LinesOfNode(n)| ==> GoodLine(LinesOfNode(n)[k])
    decreases n, 0
  {
    hide AllPieces, Print, Resolve, KindOfLine, Longest, Says, KeptOfAll, WellFormedAll, TreeOfAll, LinesOfAll;
    match n
    case Code(l) =>
      AllPiecesOne(l);
      LeavesAre(l);
    case Remark(l) =>
      AllPiecesOne(l);
      SaysKind(l);
      PrintOne(Note);
      ResolveOne(Note);
    case Conditional(l, bs) =>
      SaysDirective(l, OPENERS);
      SaysKind(l);
      SamePiecesOfAll(bs);
      AllPiecesOne(l);
      AllPiecesConcat([l], LinesOfAll(bs));
      PrintOne(Cond(TreeOfAll(bs)));
      ResolveOne(Cond(TreeOfAll(bs)));
  }

  lemma SaysDirective(l: seq<Token>, ws: seq<string>)
    requires Says(l, ws)
    ensures DirectiveLine(l)
  {
  }

  lemma {:induction false} SamePiecesOfAll(bs: Alternatives)
    requires WellFormedAll(bs)
    ensures AllPieces(LinesOfAll(bs)) == PrintBranches(TreeOfAll(bs)) && ResolveAll(TreeOfAll(bs)) == KeptOfAll(bs)
    ensures forall k: nat :: k < |LinesOfAll(bs)| ==> GoodLine(LinesOfAll(bs)[k])
    decreases bs, 0
  {
    hide AllPieces, Print, Resolve, KindOfLine, Says, WellFormed, Tree, LinesOf, Kept;
    match bs
    case Last(body, l) =>
      SaysDirective(l, CLOSERS);
      SaysKind(l);
      SamePieces(body);
      AllPiecesOne(l);
      AllPiecesConcat(LinesOf(body), [l]);
    case Next(body, l, rest) =>
      SaysDirective(l, ALTERNATIVES);
      SaysKind(l);
      SamePieces(body);
      SamePiecesOfAll(rest);
      AllPiecesOne(l);
      AllPiecesConcat([l], LinesOfAll(rest));
      AllPiecesConcat(LinesOf(body), [l] + LinesOfAll(rest));
  }

  // ------------------------------------------------------------------- the theorem

  /** Stripping the tokens of a source leaves its lines of code outside chains and of each
      chain the first longest branch. */
  lemma StripsSources(ns: seq<Source>)
    requires WellFormed(ns) && StartAfresh(LinesOf(ns))
    ensures Stripped(Joined(LinesOf(ns))) == Kept(ns)
  {
    hide Pieces, Stripped, Print, Resolve, AllPieces, GoodLine, StartAfresh, LinesOf, Tree, Kept, WellFormed;
    var toks := Joined(LinesOf(ns));
    SamePieces(ns);
    JoinedPieces([], LinesOf(ns));
    assert [] + toks == toks;
    StripsTrees(toks, Tree(ns));
  }
}
