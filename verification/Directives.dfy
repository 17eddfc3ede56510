/** Removing preprocessor directives from a token stream: each conditional chain is
    replaced by its longest branch. */
module Directives {
  import opened Tokens

  /** A chain of conditional branches: the longest finished one, and the one being read. */
  datatype Chain = Chain(best: seq<Token>, current: seq<Token>)

  datatype Kind = Opens | Alternates | Closes | Ignored

  /** A token that stays, or a whole directive line. */
  datatype Piece = Text(tok: Token) | Directive(kind: Kind)

  function KindOf(spelling: string): Kind {
    if spelling == "if" || spelling == "ifdef" || spelling == "ifndef" then Opens
    else if spelling == "elif" || spelling == "else" then Alternates
    else if spelling == "endif" then Closes
    else Ignored
  }

  // -------------------------------------------------------- lines of directives

  predicate LineStart(toks: seq<Token>, i: nat)
    requires i < |toks|
  {
    i == 0 || toks[i - 1].line != toks[i].line
  }

  predicate StartsDirective(toks: seq<Token>, i: nat)
    requires i < |toks|
  {
    toks[i].sym.Hash? && LineStart(toks, i)
  }

  /** End of the logical line that holds token `i`, honouring backslash continuations;
      `line` is the physical line being read. */
  function SkipLine(toks: seq<Token>, i: nat, line: int): (k: nat)
    requires i <= |toks|
    ensures i <= k <= |toks|
    ensures i < |toks| && toks[i].line == line ==> i < k
    decreases |toks| - i
  {
    if i == |toks| then i
    else if toks[i].line == line then SkipLine(toks, i + 1, line)
    else if i > 0 && toks[i - 1].sym.Backslash? then SkipLine(toks, i + 1, toks[i].line)
    else i
  }

  function DirectiveKind(toks: seq<Token>, i: nat): Kind
    requires i < |toks|
  {
    if i + 1 < |toks| && toks[i + 1].line == toks[i].line then KindOf(toks[i + 1].Text()) else Ignored
  }

  /** The token stream from `i` on, directive lines folded. */
  function Pieces(toks: seq<Token>, i: nat): seq<Piece>
    requires i <= |toks|
    decreases |toks| - i
  {
    if i == |toks| then []
    else if StartsDirective(toks, i) then
      [Directive(DirectiveKind(toks, i))] + Pieces(toks, SkipLine(toks, i, toks[i].line))
    else [Text(toks[i])] + Pieces(toks, i + 1)
  }

  method SkipDirectiveLine(toks: seq<Token>, start: nat) returns (i: nat)
    requires start < |toks|
    ensures i == SkipLine(toks, start, toks[start].line)
  {
    var line := toks[start].line;
    i := start;
    while i < |toks|
      invariant start <= i <= |toks|
      invariant i == start ==> line == toks[start].line
      invariant SkipLine(toks, i, line) == SkipLine(toks, start, toks[start].line)
      decreases |toks| - i
    {
      if toks[i].line != line {
        if !toks[i - 1].sym.Backslash? {
          break;
        }
        line := toks[i].line;
      }
      i := i + 1;
    }
  }

  // ---------------------------------------------------------------- the machine

  datatype State = State(chains: seq<Chain>, out: seq<Token>)

  /** Append to the innermost open branch, or to the output. */
  function Emit(st: State, toks: seq<Token>): State {
    if st.chains == [] then st.(out := st.out + toks)
    else
      var k := |st.chains| - 1;
      st.(chains := st.chains[k := st.chains[k].(current := st.chains[k].current + toks)])
  }

  function NextBranch(c: Chain): Chain {
    Chain(if |c.current| > |c.best| then c.current else c.best, [])
  }

  function OpenChain(st: State): State {
    st.(chains := st.chains + [Chain([], [])])
  }

  function Alternate(st: State): State
    requires st.chains != []
  {
    var k := |st.chains| - 1;
    st.(chains := st.chains[k := NextBranch(st.chains[k])])
  }

  function CloseChain(st: State): State
    requires st.chains != []
  {
    var k := |st.chains| - 1;
    Emit(st.(chains := st.chains[..k]), NextBranch(st.chains[k]).best)
  }

  function Step(st: State, p: Piece): State {
    match p
    case Text(t) => Emit(st, [t])
    case Directive(kind) =>
      if kind.Opens? then OpenChain(st)
      else if kind.Alternates? && st.chains != [] then Alternate(st)
      else if kind.Closes? && st.chains != [] then CloseChain(st)
      else st
  }

  /** Close whatever is still open. */
  function CloseAll(st: State): State
    decreases |st.chains|
  {
    if st.chains == [] then st else CloseAll(CloseChain(st))
  }

  /** Run over the pieces from `i` on, then close the open chains. */
  function Run(st: State, ps: seq<Piece>, i: nat): State
    requires i <= |ps|
    decreases |ps| - i
  {
    if i == |ps| then CloseAll(st) else Run(Step(st, ps[i]), ps, i + 1)
  }

  class DirectiveState {
    var chains: seq<Chain>
    var out: seq<Token>

    ghost function Model(): State
      reads this
    {
      State(chains, out)
    }

    constructor ()
      ensures Model() == State([], [])
    {
      chains, out := [], [];
    }

    method Append(toks: seq<Token>)
      modifies this
      ensures Model() == Emit(old(Model()), toks)
    {
      if chains == [] {
        out := out + toks;
      } else {
        var k := |chains| - 1;
        chains := chains[k := chains[k].(current := chains[k].current + toks)];
      }
    }

    method OnDirective(kind: Kind)
      modifies this
      ensures Model() == Step(old(Model()), Directive(kind))
    {
      if kind.Opens? {
        chains := chains + [Chain([], [])];
      } else if kind.Alternates? && chains != [] {
        var k := |chains| - 1;
        chains := chains[k := NextBranch(chains[k])];
      } else if kind.Closes? && chains != [] {
        Close();
      }
    }

    method Close()
      requires chains != []
      modifies this
      ensures Model() == CloseChain(old(Model()))
    {
      var winner := NextBranch(chains[|chains| - 1]).best;
      chains := chains[..|chains| - 1];
      Append(winner);
    }
  }

  /** The stream without directives. */
  function Stripped(toks: seq<Token>): seq<Token> {
    Run(State([], []), Pieces(toks, 0), 0).out
  }

  method StripDirectiveTokens(toks: seq<Token>) returns (out: seq<Token>)
    ensures out == Stripped(toks)
  {
    hide KindOf;
    var cond := new DirectiveState();
    var i := 0;
    ghost var ps := Pieces(toks, 0);
    ghost var j := 0;
    while i < |toks|
      invariant i <= |toks| && j <= |ps|
      invariant ps[j..] == Pieces(toks, i)
      invariant Run(cond.Model(), ps, j).out == Stripped(toks)
      decreases |toks| - i
    {
      assert ps[j..][1..] == ps[j + 1..] && ps[j] == ps[j..][0];
      var lineStart := i == 0 || toks[i - 1].line != toks[i].line;
      if !toks[i].sym.Hash? || !lineStart {
        cond.Append([toks[i]]);
        i := i + 1;
      } else {
        if i + 1 < |toks| && toks[i + 1].line == toks[i].line {
          cond.OnDirective(KindOf(toks[i + 1].Text()));
        }
        i := SkipDirectiveLine(toks, i);
      }
      j := j + 1;
    }
    while cond.chains != []
      invariant CloseAll(cond.Model()).out == Stripped(toks)
      decreases |cond.chains|
    {
      cond.Close();
    }
    out := cond.out;
  }

  // -------------------------------------------------- evaluation by recursion

  /** A branch from piece `i`: the tokens it resolves to, and where it stops, which is
      at an alternative or end directive of its own level or at the end of the file. */
  function EvalBranch(ps: seq<Piece>, i: nat): (r: (seq<Token>, nat))
    requires i <= |ps|
    ensures i <= r.1 <= |ps|
    ensures r.1 < |ps| ==> ps[r.1] == Directive(Alternates) || ps[r.1] == Directive(Closes)
    decreases |ps| - i, 0
  {
    if i == |ps| then ([], i)
    else
      match ps[i]
      case Text(t) =>
        var (o, j) := EvalBranch(ps, i + 1);
        ([t] + o, j)
      case Directive(Opens) =>
        var (w, k) := EvalChain(ps, i + 1, []);
        var (o, j) := EvalBranch(ps, k);
        (w + o, j)
      case Directive(Ignored) => EvalBranch(ps, i + 1)
      case Directive(_) => ([], i)
  }

  /** A chain whose next branch starts at `i` and whose longest branch so far is `best`:
      the longest branch of all, the first of them on ties, and where the chain ends. */
  function EvalChain(ps: seq<Piece>, i: nat, best: seq<Token>): (r: (seq<Token>, nat))
    requires i <= |ps|
    ensures i <= r.1 <= |ps|
    decreases |ps| - i, 1
  {
    var (o, j) := EvalBranch(ps, i);
    var longest := if |o| > |best| then o else best;
    if j == |ps| then (longest, j)
    else if ps[j] == Directive(Alternates) then EvalChain(ps, j + 1, longest)
    else (longest, j + 1)
  }

  /** At the top level a stray alternative or end directive is ignored. */
  function EvalTop(ps: seq<Piece>, i: nat): seq<Token>
    requires i <= |ps|
    decreases |ps| - i
  {
    var (o, j) := EvalBranch(ps, i);
    if j == |ps| then o else o + EvalTop(ps, j + 1)
  }

  lemma EmitEmit(st: State, a: seq<Token>, b: seq<Token>)
    ensures Emit(Emit(st, a), b) == Emit(st, a + b)
    ensures Emit(st, []) == st
  {
    if st.chains == [] {
      assert st.out + a + b == st.out + (a + b);
      assert st.out + [] == st.out;
    } else {
      var k := |st.chains| - 1;
      assert st.chains[k].current + a + b == st.chains[k].current + (a + b);
      assert st.chains[k].current + [] == st.chains[k].current;
      assert Emit(st, []).chains == st.chains;
    }
  }

  function WithChain(st: State, c: Chain): State {
    st.(chains := st.chains + [c])
  }

  lemma EmitInChain(st: State, c: Chain, toks: seq<Token>)
    ensures Emit(WithChain(st, c), toks) == WithChain(st, c.(current := c.current + toks))
  {
  }

  lemma ChainEnds(st: State, c: Chain)
    ensures WithChain(st, c).chains != []
    ensures Alternate(WithChain(st, c)) == WithChain(st, NextBranch(c))
    ensures CloseChain(WithChain(st, c)) == Emit(st, NextBranch(c).best)
  {
    assert WithChain(st, c).chains[..|st.chains|] == st.chains;
  }

  /** Up to where a branch stops, the machine just emits what the branch resolves to. */
  lemma {:induction false} BranchRun(st: State, ps: seq<Piece>, i: nat)
    requires i <= |ps|
    ensures var (o, j) := EvalBranch(ps, i); Run(st, ps, i) == Run(Emit(st, o), ps, j)
    decreases |ps| - i, 0
  {
    hide Emit, CloseChain, Alternate;
    EmitEmit(st, [], []);
    if i < |ps| {
      match ps[i]
      case Text(t) =>
        BranchRun(Emit(st, [t]), ps, i + 1);
        EmitEmit(st, [t], EvalBranch(ps, i + 1).0);
      case Directive(Opens) =>
        var (w, k) := EvalChain(ps, i + 1, []);
        assert Step(st, ps[i]) == WithChain(st, Chain([], []));
        ChainRun(st, [], ps, i + 1);
        BranchRun(Emit(st, w), ps, k);
        EmitEmit(st, w, EvalBranch(ps, k).0);
      case Directive(Ignored) => BranchRun(st, ps, i + 1);
      case Directive(_) =>
    }
  }

  /** And a whole chain has the effect of emitting its longest branch. */
  lemma {:induction false} ChainRun(st: State, best: seq<Token>, ps: seq<Piece>, i: nat)
    requires i <= |ps|
    ensures var (w, j) := EvalChain(ps, i, best); Run(WithChain(st, Chain(best, [])), ps, i) == Run(Emit(st, w), ps, j)
    decreases |ps| - i, 1
  {
    hide Emit, CloseChain, Alternate, EvalBranch;
    var (o, j) := EvalBranch(ps, i);
    var longest := if |o| > |best| then o else best;
    BranchRun(WithChain(st, Chain(best, [])), ps, i);
    EmitInChain(st, Chain(best, []), o);
    assert [] + o == o;
    ChainEnds(st, Chain(best, o));
    if j < |ps| && ps[j] == Directive(Alternates) {
      ChainRun(st, longest, ps, j + 1);
    }
  }

  lemma {:induction false} TopRun(out: seq<Token>, ps: seq<Piece>, i: nat)
    requires i <= |ps|
    ensures Run(State([], out), ps, i).out == out + EvalTop(ps, i)
    decreases |ps| - i
  {
    hide EvalBranch;
    var (o, j) := EvalBranch(ps, i);
    BranchRun(State([], out), ps, i);
    if j < |ps| {
      TopRun(out + o, ps, j + 1);
      assert out + o + EvalTop(ps, j + 1) == out + (o + EvalTop(ps, j + 1));
    }
  }

  /** The machine computes the recursive evaluation, on every token stream: unterminated
      chains end at the end of the file, stray directives are dropped. */
  lemma StrippedIsEval(toks: seq<Token>)
    ensures Stripped(toks) == EvalTop(Pieces(toks, 0), 0)
  {
    hide Run, EvalTop, Pieces;
    TopRun([], Pieces(toks, 0), 0);
  }

  // ------------------------------------------------------------------ trees

  /** A properly nested source: text, other directives, and conditional chains. */
  datatype Node = Line(tok: Token) | Note | Cond(branches: Branches)

  datatype Branches = Only(body: seq<Node>) | More(body: seq<Node>, rest: Branches)

  function Print(ns: seq<Node>): seq<Piece>
    decreases ns, 0
  {
    if ns == [] then [] else PrintNode(ns[0]) + Print(ns[1..])
  }

  function PrintNode(n: Node): seq<Piece>
    decreases n, 0
  {
    match n
    case Line(t) => [Text(t)]
    case Note => [Directive(Ignored)]
    case Cond(bs) => [Directive(Opens)] + PrintBranches(bs)
  }

  function PrintBranches(bs: Branches): seq<Piece>
    decreases bs, 0
  {
    match bs
    case Only(body) => Print(body) + [Directive(Closes)]
    case More(body, rest) => Print(body) + ([Directive(Alternates)] + PrintBranches(rest))
  }

  function Resolve(ns: seq<Node>): seq<Token>
    decreases ns, 0
  {
    if ns == [] then [] else ResolveNode(ns[0]) + Resolve(ns[1..])
  }

  function ResolveNode(n: Node): seq<Token>
    decreases n, 0
  {
    match n
    case Line(t) => [t]
    case Note => []
    case Cond(bs) => Longest(ResolveAll(bs))
  }

  /** What each branch resolves to. */
  function ResolveAll(bs: Branches): seq<seq<Token>>
    decreases bs, 0
  {
    match bs
    case Only(body) => [Resolve(body)]
    case More(body, rest) => [Resolve(body)] + ResolveAll(rest)
  }

  /** The first longest of the candidates after `best`. */
  function LongestAfter(best: seq<Token>, cs: seq<seq<Token>>): seq<Token>
    decreases |cs|
  {
    if cs == [] then best
    else LongestAfter(if |cs[0]| > |best| then cs[0] else best, cs[1..])
  }

  function Longest(cs: seq<seq<Token>>): seq<Token> {
    LongestAfter([], cs)
  }

  lemma {:induction false} LongestAfterIsFirst(best: seq<Token>, cs: seq<seq<Token>>) returns (k: nat)
    ensures k <= |cs| && LongestAfter(best, cs) == ([best] + cs)[k]
    ensures forall i: nat :: i <= |cs| ==> |([best] + cs)[i]| <= |LongestAfter(best, cs)|
    ensures forall i: nat :: i < k ==> |([best] + cs)[i]| < |LongestAfter(best, cs)|
    decreases |cs|
  {
    if cs == [] {
      k := 0;
    } else {
      var next := if |cs[0]| > |best| then cs[0] else best;
      var j := LongestAfterIsFirst(next, cs[1..]);
      var all := [best] + cs;
      var w := LongestAfter(best, cs);
      forall i: nat | i <= |cs|
        ensures |all[i]| <= |w|
      {
        if i >= 2 {
          assert all[i] == ([next] + cs[1..])[i - 1];
        } else {
          assert |([next] + cs[1..])[0]| <= |w|;
        }
      }
      k := if j > 0 then j + 1 else if |cs[0]| > |best| then 1 else 0;
      forall i: nat | i < k
        ensures |all[i]| < |w|
      {
        if i >= 2 {
          assert all[i] == ([next] + cs[1..])[i - 1];
        } else if j > 0 {
          assert |([next] + cs[1..])[0]| < |w|;
        }
      }
    }
  }

  /** A chain keeps a branch of maximal length, and the first such. */
  lemma LongestIsFirst(cs: seq<seq<Token>>) returns (k: nat)
    requires cs != []
    ensures k < |cs| && Longest(cs) == cs[k]
    ensures forall i: nat :: i < |cs| ==> |cs[i]| <= |Longest(cs)|
    ensures forall i: nat :: i < k ==> |cs[i]| < |Longest(cs)|
  {
    var all := [[]] + cs;
    var j := LongestAfterIsFirst([], cs);
    forall i: nat | i < |cs|
      ensures |cs[i]| <= |Longest(cs)|
    {
      assert all[i + 1] == cs[i];
    }
    if j == 0 {
      k := 0;
      assert |cs[0]| <= 0;
    } else {
      k := j - 1;
      forall i: nat | i < k
        ensures |cs[i]| < |Longest(cs)|
      {
        assert all[i + 1] == cs[i];
      }
    }
  }

  /** The pieces from `i` on start with `block`. */
  predicate Reads(ps: seq<Piece>, i: nat, block: seq<Piece>) {
    i + |block| <= |ps| && ps[i..i + |block|] == block
  }

  lemma ReadsSplit(ps: seq<Piece>, i: nat, a: seq<Piece>, b: seq<Piece>)
    requires Reads(ps, i, a + b)
    ensures Reads(ps, i, a) && Reads(ps, i + |a|, b)
  {
    assert ps[i..i + |a|] == (a + b)[..|a|];
    assert ps[i + |a|..i + |a| + |b|] == (a + b)[|a|..];
  }

  /** Evaluating from `i` yields `o` and then whatever evaluating from `k` yields. */
  predicate Yields(ps: seq<Piece>, i: nat, o: seq<Token>, k: nat) {
    i <= k <= |ps| && EvalBranch(ps, i) == (o + EvalBranch(ps, k).0, EvalBranch(ps, k).1)
  }

  lemma YieldsNothing(ps: seq<Piece>, i: nat)
    requires i <= |ps|
    ensures Yields(ps, i, [], i)
  {
    hide EvalBranch;
    assert [] + EvalBranch(ps, i).0 == EvalBranch(ps, i).0;
  }

  lemma YieldsThen(ps: seq<Piece>, i: nat, a: seq<Token>, k: nat, b: seq<Token>, m: nat)
    requires Yields(ps, i, a, k) && Yields(ps, k, b, m)
    ensures Yields(ps, i, a + b, m)
  {
    hide EvalBranch;
    assert a + (b + EvalBranch(ps, m).0) == (a + b) + EvalBranch(ps, m).0;
  }

  lemma {:induction false} TreeBranch(ps: seq<Piece>, i: nat, ns: seq<Node>)
    requires Reads(ps, i, Print(ns))
    ensures Yields(ps, i, Resolve(ns), i + |Print(ns)|)
    decreases ns, 0
  {
    hide Yields, Reads, PrintNode, ResolveNode;
    if ns == [] {
      ReadsInRange(ps, i, Print(ns));
      YieldsNothing(ps, i);
    } else {
      var a, b := PrintNode(ns[0]), Print(ns[1..]);
      ReadsSplit(ps, i, a, b);
      TreeBranch(ps, i + |a|, ns[1..]);
      TreeNode(ps, i, ns[0]);
      YieldsThen(ps, i, ResolveNode(ns[0]), i + |a|, Resolve(ns[1..]), i + |Print(ns)|);
    }
  }

  lemma ReadsInRange(ps: seq<Piece>, i: nat, block: seq<Piece>)
    requires Reads(ps, i, block)
    ensures i + |block| <= |ps|
    ensures forall k: nat :: k < |block| ==> ps[i + k] == block[k]
  {
    forall k: nat | k < |block|
      ensures ps[i + k] == block[k]
    {
      assert ps[i..i + |block|][k] == block[k];
    }
  }

  lemma {:induction false} TreeNode(ps: seq<Piece>, i: nat, n: Node)
    requires Reads(ps, i, PrintNode(n))
    ensures Yields(ps, i, ResolveNode(n), i + |PrintNode(n)|)
    decreases n, 0
  {
    hide Reads, EvalChain, PrintBranches, ResolveAll, Longest;
    ReadsInRange(ps, i, PrintNode(n));
    var k := i + |PrintNode(n)|;
    assert ps[i + 0] == PrintNode(n)[0];
    match n
    case Line(t) =>
    case Note =>
      assert [] + EvalBranch(ps, k).0 == EvalBranch(ps, k).0;
    case Cond(bs) =>
      ReadsSplit(ps, i, [Directive(Opens)], PrintBranches(bs));
      TreeChain(ps, i + 1, [], bs);
      assert Longest(ResolveAll(bs)) == LongestAfter([], ResolveAll(bs)) by { LongestUnfolds(ResolveAll(bs)); }
  }

  lemma LongestUnfolds(cs: seq<seq<Token>>)
    ensures Longest(cs) == LongestAfter([], cs)
  {
  }

  /** A printed chain resolves to its first longest branch. */
  lemma {:induction false} TreeChain(ps: seq<Piece>, i: nat, best: seq<Token>, bs: Branches)
    requires Reads(ps, i, PrintBranches(bs))
    ensures i + |PrintBranches(bs)| <= |ps|
    ensures EvalChain(ps, i, best) == (LongestAfter(best, ResolveAll(bs)), i + |PrintBranches(bs)|)
    decreases bs, 0
  {
    hide Reads, Resolve, Print, EvalBranch, PrintBranches, ResolveAll, EvalChain, LongestAfter;
    BranchesShape(bs);
    var tail := BranchTail(bs);
    ReadsInRange(ps, i, PrintBranches(bs));
    ReadsSplit(ps, i, Print(bs.body), tail);
    TreeBranch(ps, i, bs.body);
    var m := i + |Print(bs.body)|;
    ReadsInRange(ps, m, tail);
    BranchEnds(ps, i, m, best, bs);
    if bs.More? {
      ReadsSplit(ps, m, [Directive(Alternates)], PrintBranches(bs.rest));
      TreeChain(ps, m + 1, Better(best, Resolve(bs.body)), bs.rest);
    }
  }

  function Better(best: seq<Token>, c: seq<Token>): seq<Token> {
    if |c| > |best| then c else best
  }

  function BranchTail(bs: Branches): seq<Piece> {
    if bs.Only? then [Directive(Closes)] else [Directive(Alternates)] + PrintBranches(bs.rest)
  }

  lemma BranchesShape(bs: Branches)
    ensures PrintBranches(bs) == Print(bs.body) + BranchTail(bs)
    ensures BranchTail(bs)[0] == if bs.Only? then Directive(Closes) else Directive(Alternates)
  {
    hide Print;
  }

  /** Where the first branch ends, the chain closes or goes on with the next one. */
  lemma BranchEnds(ps: seq<Piece>, i: nat, m: nat, best: seq<Token>, bs: Branches)
    requires m < |ps| && Yields(ps, i, Resolve(bs.body), m)
    requires ps[m] == if bs.Only? then Directive(Closes) else Directive(Alternates)
    ensures EvalChain(ps, i, best)
         == if bs.Only? then (Better(best, Resolve(bs.body)), m + 1)
            else EvalChain(ps, m + 1, Better(best, Resolve(bs.body)))
    ensures LongestAfter(best, ResolveAll(bs))
         == if bs.Only? then Better(best, Resolve(bs.body))
            else LongestAfter(Better(best, Resolve(bs.body)), ResolveAll(bs.rest))
  {
    hide Resolve;
    assert EvalBranch(ps, m) == ([], m);
    assert Resolve(bs.body) + [] == Resolve(bs.body);
    var cs := ResolveAll(bs);
    assert cs[0] == Resolve(bs.body);
    assert cs[1..] == if bs.Only? then [] else ResolveAll(bs.rest);
  }

  /** On a properly nested source every chain is replaced by its first longest branch. */
  lemma StripsTrees(toks: seq<Token>, ns: seq<Node>)
    requires Pieces(toks, 0) == Print(ns)
    ensures Stripped(toks) == Resolve(ns)
  {
    hide Pieces, Stripped, Print, Resolve;
    var ps := Print(ns);
    StrippedIsEval(toks);
    assert ps[0..0 + |ps|] == ps;
    TreeBranch(ps, 0, ns);
    assert Resolve(ns) + [] == Resolve(ns);
  }
}
