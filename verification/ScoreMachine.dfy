/** The token-level state machine that scores cognitive complexity. */
module ScoreMachine {
  import opened Tokens
  import Sorting

  /** A logical operator, as the series tracker remembers it. */
  datatype Op = NoOp | AndOp | OrOp

  datatype BraceFrame = BraceFrame(control: bool, isDo: bool)

  datatype Tally = Tally(score: int, increments: int, nesting: int, maxNesting: int)

  datatype Parens = Parens(
    depth: nat,
    lastOp: seq<Op>,            // logical-series tracker per paren depth
    awaitingHeader: bool,       // saw a control keyword, waiting for its `(`
    headerBaseDepth: int,
    inHeader: bool,
    swallowHeader: bool)        // consume the do-while tail `while (...)` silently

  datatype Pending = Pending(
    control: bool,              // the next `{` or braceless statement opens a control body
    isDo: bool,
    skipNextIf: bool,           // `else if`: the `if` was already counted by `else`
    elseArmed: bool,            // saw `else`, resolving else against else-if
    doTail: bool,
    lambda: bool)               // saw `[`, a following `{` is a lambda body

  datatype Score = Score(tally: Tally, parens: Parens, pending: Pending, braces: seq<BraceFrame>, bracelessOpen: int)

  function Initial(): Score {
    Score(Tally(0, 0, 0, 0), Parens(0, [NoOp], false, 0, false, false),
          Pending(false, false, false, false, false, false), [], 0)
  }

  /** One tracker entry for every open parenthesis, and one for the statement level. */
  predicate Shaped(st: Score) {
    |st.parens.lastOp| == st.parens.depth + 1
  }

  function Max(a: int, b: int): int {
    if a < b then b else a
  }

  // ------------------------------------------------------------------ transitions

  function Increment(t: Tally, structural: bool): Tally {
    Tally(t.score + 1 + (if structural then t.nesting else 0), t.increments + 1, t.nesting, t.maxNesting)
  }

  function Deeper(t: Tally): Tally {
    Tally(t.score, t.increments, t.nesting + 1, Max(t.maxNesting, t.nesting + 1))
  }

  function Shallower(t: Tally, levels: int): Tally {
    Tally(t.score, t.increments, Max(0, t.nesting - levels), t.maxNesting)
  }

  predicate IsKeyword(sym: Sym) {
    IsStructural(sym) || sym.Case? || sym.Default? || sym.Do? || sym.Else? || sym.Goto? || sym.CoAwait?
  }

  /** Keywords that are free or already accounted for. */
  predicate IsFree(st: Score, sym: Sym) {
    || sym.Case? || sym.Default?
    || (sym.While? && (st.pending.doTail || st.parens.swallowHeader))
    || (sym.If? && st.pending.skipNextIf)
  }

  function Structural(st: Score): Score {
    st.(tally := Increment(st.tally, true), parens := st.parens.(awaitingHeader := true))
  }

  function Keyword(st: Score, sym: Sym): Score {
    match sym
    case While =>
      if st.pending.doTail || st.parens.swallowHeader
      then st.(parens := st.parens.(swallowHeader := true), pending := st.pending.(doTail := false))
      else Structural(st)
    case If =>
      if st.pending.skipNextIf
      then st.(parens := st.parens.(awaitingHeader := true), pending := st.pending.(skipNextIf := false))
      else Structural(st)
    case For => Structural(st)
    case Switch => Structural(st)
    case Catch => Structural(st)
    case Do => DoKeyword(st)
    case Else => ElseKeyword(st)
    case Goto => st.(tally := Increment(st.tally, false))
    case CoAwait => st.(tally := Increment(st.tally, false))
    case _ => st
  }

  lemma KeywordCases(st: Score, sym: Sym)
    ensures IsFree(st, sym) ==> IsKeyword(sym)
    ensures sym.Case? || sym.Default? ==> IsFree(st, sym)
    ensures IsStructural(sym) && !IsFree(st, sym) ==> Keyword(st, sym) == Structural(st)
    ensures sym.Do? ==> Keyword(st, sym) == DoKeyword(st)
    ensures sym.Else? ==> Keyword(st, sym) == ElseKeyword(st)
    ensures sym.Goto? || sym.CoAwait? ==> Keyword(st, sym) == st.(tally := Increment(st.tally, false))
  {
    hide Increment;
  }

  function DoKeyword(st: Score): Score {
    st.(tally := Increment(st.tally, true), pending := st.pending.(control := true, isDo := true))
  }

  function ElseKeyword(st: Score): Score {
    st.(tally := Increment(st.tally, false), pending := st.pending.(elseArmed := true))
  }

  function LogicalOp(st: Score, op: Op): Score
    requires Shaped(st)
  {
    if st.parens.lastOp[st.parens.depth] != op
    then st.(tally := Increment(st.tally, false), parens := SetOp(st.parens, op))
    else st
  }

  function SetOp(p: Parens, op: Op): Parens
    requires p.depth < |p.lastOp|
  {
    p.(lastOp := p.lastOp[p.depth := op])
  }

  /** A `{` opens a control body, a lambda body or a plain scope. */
  function OpenBrace(st: Score): Score {
    if st.pending.control then
      Score(Deeper(st.tally), st.parens, st.pending.(control := false, isDo := false),
            st.braces + [BraceFrame(true, st.pending.isDo)], st.bracelessOpen)
    else if st.pending.lambda then
      Score(Deeper(st.tally), st.parens, st.pending.(lambda := false),
            st.braces + [BraceFrame(true, false)], st.bracelessOpen)
    else st.(braces := st.braces + [BraceFrame(false, false)])
  }

  function CloseBrace(st: Score): Score {
    if st.braces == [] then st
    else
      var frame := st.braces[|st.braces| - 1];
      Score(if frame.control then Shallower(st.tally, 1) else st.tally,
            st.parens,
            if frame.isDo then st.pending.(doTail := true) else st.pending,
            st.braces[..|st.braces| - 1],
            st.bracelessOpen)
  }

  /** `resize(n)`: cut, or extend with empty trackers. */
  function Resize(s: seq<Op>, n: nat): (r: seq<Op>)
    ensures |r| == n
  {
    if n <= |s| then s[..n] else s + seq(n - |s|, _ => NoOp)
  }

  function OpenParen(p: Parens): Parens
    requires |p.lastOp| == p.depth + 1
  {
    var ops := Resize(p.lastOp, p.depth + 2)[p.depth + 1 := NoOp];
    if p.awaitingHeader then Parens(p.depth + 1, ops, false, p.depth, true, p.swallowHeader)
    else p.(depth := p.depth + 1, lastOp := ops)
  }

  /** The `)` that ends a control header. */
  predicate EndsHeader(p: Parens) {
    p.inHeader && Shut(p.depth) == p.headerBaseDepth
  }

  function Shut(depth: nat): nat {
    if depth == 0 then 0 else depth - 1
  }

  function CloseParen(st: Score): Score {
    var p := st.parens;
    var d := Shut(p.depth);
    var ends := EndsHeader(p);
    st.(parens := Parens(d, Resize(p.lastOp, d + 1), p.awaitingHeader, p.headerBaseDepth,
                         p.inHeader && !ends, p.swallowHeader && !ends),
        pending := if ends && !p.swallowHeader then st.pending.(control := true) else st.pending)
  }

  /** A `;` outside parentheses ends a statement and every braceless body around it. */
  function EndStatement(st: Score): Score {
    if st.bracelessOpen > 0
    then Score(Shallower(st.tally, st.bracelessOpen), st.parens, st.pending.(lambda := false), st.braces, 0)
    else st.(pending := st.pending.(lambda := false))
  }

  function Punct(st: Score, sym: Sym): Score
    requires Shaped(st)
  {
    match sym
    case Question => st.(tally := Increment(st.tally, true))
    case Bang => st.(parens := SetOp(st.parens, NoOp))
    case LParen => st.(parens := OpenParen(st.parens))
    case RParen => CloseParen(st)
    case LBracket => st.(pending := st.pending.(lambda := true))
    case Equals => st.(pending := st.pending.(lambda := false))
    case LBrace => OpenBrace(st)
    case RBrace => CloseBrace(st)
    case Semicolon => if st.parens.depth == 0 then EndStatement(st) else st
    case _ => st
  }

  predicate IsPunct(sym: Sym) {
    || sym.Question? || sym.Bang? || sym.LParen? || sym.RParen? || sym.LBrace? || sym.RBrace?
    || sym.LBracket? || sym.Equals? || sym.Semicolon?
  }

  lemma PunctCases(st: Score, sym: Sym)
    requires Shaped(st)
    ensures sym.Question? ==> Punct(st, sym) == st.(tally := Increment(st.tally, true))
    ensures sym.Bang? ==> Punct(st, sym) == st.(parens := SetOp(st.parens, NoOp))
    ensures sym.LParen? ==> Punct(st, sym) == st.(parens := OpenParen(st.parens))
    ensures sym.RParen? ==> Punct(st, sym) == CloseParen(st)
    ensures sym.LBrace? ==> Punct(st, sym) == OpenBrace(st)
    ensures sym.RBrace? ==> Punct(st, sym) == CloseBrace(st)
    ensures sym.LBracket? ==> Punct(st, sym) == st.(pending := st.pending.(lambda := true))
    ensures sym.Equals? ==> Punct(st, sym) == st.(pending := st.pending.(lambda := false))
    ensures sym.Semicolon? ==> Punct(st, sym) == if st.parens.depth == 0 then EndStatement(st) else st
    ensures !IsPunct(sym) ==> Punct(st, sym) == st
  {
    hide Increment, SetOp, OpenParen, CloseParen, OpenBrace, CloseBrace, EndStatement;
  }

  /** `else` turns out to be `else if`, or to wait for its body. */
  function ResolveElse(p: Pending, sym: Sym): Pending {
    if !p.elseArmed then p
    else if sym.If? then p.(elseArmed := false, skipNextIf := true)
    else p.(elseArmed := false, control := true)
  }

  /** Resolves `else` against `else if`, then opens a braceless control body at the
      first statement token after a header. */
  function ResolvePending(st: Score, sym: Sym): Score {
    var p := ResolveElse(st.pending, sym);
    if p.control && !sym.LBrace? then OpenBraceless(st.(pending := p)) else st.(pending := p)
  }

  function OpenBraceless(st: Score): Score {
    Score(Deeper(st.tally), st.parens, st.pending.(control := false, isDo := false), st.braces, st.bracelessOpen + 1)
  }

  /** One symbol, once pending bodies are resolved; `glued` says that an `&&` or `||`
      sticks to the token before it. */
  function Consume(st: Score, sym: Sym, glued: bool): Score
    requires Shaped(st)
  {
    if sym.AndAnd? then if glued then st else LogicalOp(st, AndOp)
    else if sym.OrOr? then if glued then st else LogicalOp(st, OrOp)
    else if sym.WordAnd? then LogicalOp(st, AndOp)
    else if sym.WordOr? then LogicalOp(st, OrOp)
    else if IsKeyword(sym) then Keyword(st, sym)
    else Punct(st, sym)
  }

  function StepSym(st: Score, sym: Sym, glued: bool): (r: Score)
    requires Shaped(st)
    ensures Shaped(r)
  {
    ConsumeShaped(ResolvePending(st, sym), sym, glued);
    Consume(ResolvePending(st, sym), sym, glued)
  }

  lemma ConsumeShaped(st: Score, sym: Sym, glued: bool)
    requires Shaped(st)
    ensures Shaped(Consume(st, sym, glued))
  {
  }

  predicate IsAlnum(c: char) {
    ('a' <= c <= 'z') || ('A' <= c <= 'Z') || ('0' <= c <= '9')
  }

  /** `Type&&` is glued to the token before; the logical operator is spaced. */
  predicate IsGlued(tok: Token, prev: Token) {
    var text := prev.Text();
    && tok.off == prev.off + |text|
    && text != ""
    && var last := text[|text| - 1];
       IsAlnum(last) || last == '_' || last == '>'
  }

  predicate GluedAt(toks: seq<Token>, k: nat)
    requires k < |toks|
  {
    k > 0 && IsGlued(toks[k], toks[k - 1])
  }

  /** Runs over the tokens from number `k` on; the first one has no predecessor. */
  function RunFrom(st: Score, toks: seq<Token>, k: nat): (r: Score)
    requires Shaped(st) && k <= |toks|
    ensures Shaped(r)
    decreases |toks| - k
  {
    if k == |toks| then st else RunFrom(StepSym(st, toks[k].sym, GluedAt(toks, k)), toks, k + 1)
  }

  // ---------------------------------------------------------------- the machine

  class ScoreState {
    var score: int
    var increments: int
    var nesting: int
    var maxNesting: int
    var parenDepth: nat
    var braceStack: seq<BraceFrame>
    var lastOp: seq<Op>
    var pendingControl: bool
    var pendingIsDo: bool
    var awaitingHeader: bool
    var headerBaseDepth: int
    var inHeader: bool
    var skipNextIf: bool
    var elseArmed: bool
    var doTailPending: bool
    var swallowHeader: bool
    var lambdaPending: bool
    var bracelessOpen: int

    ghost function Model(): Score
      reads this
    {
      Score(Tally(score, increments, nesting, maxNesting),
            Parens(parenDepth, lastOp, awaitingHeader, headerBaseDepth, inHeader, swallowHeader),
            Pending(pendingControl, pendingIsDo, skipNextIf, elseArmed, doTailPending, lambdaPending),
            braceStack, bracelessOpen)
    }

    constructor ()
      ensures Model() == Initial()
    {
      score, increments, nesting, maxNesting := 0, 0, 0, 0;
      parenDepth, braceStack, lastOp := 0, [], [NoOp];
      pendingControl, pendingIsDo, awaitingHeader := false, false, false;
      headerBaseDepth, inHeader, skipNextIf, elseArmed := 0, false, false, false;
      doTailPending, swallowHeader, lambdaPending := false, false, false;
      bracelessOpen := 0;
    }

    method AddIncrement(structural: bool)
      modifies this`score, this`increments
      ensures Model() == old(Model()).(tally := Increment(old(Model()).tally, structural))
    {
      score := score + 1 + (if structural then nesting else 0);
      increments := increments + 1;
    }

    method Deepen()
      modifies this`nesting, this`maxNesting
      ensures Model() == old(Model()).(tally := Deeper(old(Model()).tally))
    {
      nesting := nesting + 1;
      maxNesting := Max(maxNesting, nesting);
    }

    method HandleFreeKeyword(sym: Sym) returns (consumed: bool)
      modifies this`doTailPending, this`swallowHeader, this`skipNextIf, this`awaitingHeader
      ensures consumed <==> IsFree(old(Model()), sym)
      ensures Model() == if consumed then Keyword(old(Model()), sym) else old(Model())
    {
      if sym.Case? || sym.Default? {
        return true;
      }
      if sym.While? && (doTailPending || swallowHeader) {
        doTailPending := false;
        swallowHeader := true;
        return true;
      }
      if skipNextIf && sym.If? {
        skipNextIf := false;
        awaitingHeader := true;
        return true;
      }
      return false;
    }

    method AddStructural()
      modifies this
      ensures Model() == Structural(old(Model()))
    {
      hide Increment;
      AddIncrement(true);
      awaitingHeader := true;
    }

    method HandleDo()
      modifies this
      ensures Model() == DoKeyword(old(Model()))
    {
      hide Increment;
      AddIncrement(true);
      pendingControl := true;
      pendingIsDo := true;
    }

    method HandleElse()
      modifies this
      ensures Model() == ElseKeyword(old(Model()))
    {
      hide Increment;
      AddIncrement(false);
      elseArmed := true;
    }

    method HandleKeyword(sym: Sym) returns (consumed: bool)
      modifies this
      ensures consumed <==> IsKeyword(sym)
      ensures Model() == if consumed then Keyword(old(Model()), sym) else old(Model())
    {
      hide Increment, Keyword, Structural, DoKeyword, ElseKeyword, IsFree;
      KeywordCases(Model(), sym);
      var isFree := HandleFreeKeyword(sym);
      if isFree {
        return true;
      }
      if IsStructural(sym) {
        AddStructural();
        return true;
      }
      if sym.Do? {
        HandleDo();
        return true;
      }
      if sym.Else? {
        HandleElse();
        return true;
      }
      if sym.Goto? || sym.CoAwait? {
        AddIncrement(false);
        return true;
      }
      return false;
    }

    method HandleLogicalOp(isAnd: bool)
      requires Shaped(Model())
      modifies this
      ensures Model() == LogicalOp(old(Model()), if isAnd then AndOp else OrOp)
    {
      var op := if isAnd then AndOp else OrOp;
      if lastOp[parenDepth] != op {
        AddIncrement(false);
        lastOp := lastOp[parenDepth := op];
      }
    }

    method HandleOpenBrace()
      modifies this
      ensures Model() == OpenBrace(old(Model()))
    {
      if pendingControl {
        braceStack := braceStack + [BraceFrame(true, pendingIsDo)];
        Deepen();
        pendingControl := false;
        pendingIsDo := false;
      } else if lambdaPending {
        braceStack := braceStack + [BraceFrame(true, false)];
        Deepen();
        lambdaPending := false;
      } else {
        braceStack := braceStack + [BraceFrame(false, false)];
      }
    }

    method HandleCloseBrace()
      modifies this
      ensures Model() == CloseBrace(old(Model()))
    {
      if braceStack == [] {
        return;
      }
      var frame := braceStack[|braceStack| - 1];
      braceStack := braceStack[..|braceStack| - 1];
      if frame.control {
        nesting := Max(0, nesting - 1);
      }
      if frame.isDo {
        doTailPending := true;
      }
    }

    method HandleOpenParen()
      requires Shaped(Model())
      modifies this`parenDepth, this`lastOp, this`inHeader, this`headerBaseDepth, this`awaitingHeader
      ensures Model() == old(Model()).(parens := OpenParen(old(Model()).parens))
    {
      parenDepth := parenDepth + 1;
      lastOp := Resize(lastOp, parenDepth + 1);
      lastOp := lastOp[|lastOp| - 1 := NoOp];
      if awaitingHeader {
        inHeader := true;
        headerBaseDepth := parenDepth - 1;
        awaitingHeader := false;
      }
    }

    method HandleCloseParen()
      modifies this`parenDepth, this`lastOp, this`inHeader, this`swallowHeader, this`pendingControl
      ensures Model() == CloseParen(old(Model()))
    {
      parenDepth := Shut(parenDepth);
      lastOp := Resize(lastOp, parenDepth + 1);
      if inHeader && parenDepth == headerBaseDepth {
        inHeader := false;
        if swallowHeader {
          swallowHeader := false;
        } else {
          pendingControl := true;
        }
      }
    }

    method HandleParens(open: bool)
      requires Shaped(Model())
      modifies this
      ensures Model() == if open then old(Model()).(parens := OpenParen(old(Model()).parens))
          else CloseParen(old(Model()))
    {
      hide OpenParen, CloseParen;
      if open {
        HandleOpenParen();
      } else {
        HandleCloseParen();
      }
    }

    method ResetOp()
      requires Shaped(Model())
      modifies this`lastOp
      ensures Model() == old(Model()).(parens := SetOp(old(Model()).parens, NoOp))
    {
      lastOp := lastOp[parenDepth := NoOp];
    }

    method HandleSemicolon()
      modifies this`lambdaPending, this`nesting, this`bracelessOpen
      ensures Model() == EndStatement(old(Model()))
    {
      lambdaPending := false;
      if bracelessOpen > 0 {
        nesting := Max(0, nesting - bracelessOpen);
        bracelessOpen := 0;
      }
    }

    method HandlePunct(sym: Sym)
      requires Shaped(Model())
      modifies this
      ensures Model() == Punct(old(Model()), sym)
    {
      hide Increment, SetOp, OpenParen, CloseParen, OpenBrace, CloseBrace, EndStatement, Punct;
      PunctCases(Model(), sym);
      if sym.Question? {
        AddIncrement(true);
      } else if sym.Bang? {
        ResetOp();
      } else if sym.LParen? {
        HandleParens(true);
      } else if sym.RParen? {
        HandleParens(false);
      } else if sym.LBracket? {
        lambdaPending := true;
      } else if sym.Equals? {
        lambdaPending := false;
      } else if sym.LBrace? {
        HandleOpenBrace();
      } else if sym.RBrace? {
        HandleCloseBrace();
      } else if sym.Semicolon? && parenDepth == 0 {
        HandleSemicolon();
      }
    }

    method ResolveElseArmed(sym: Sym)
      modifies this`elseArmed, this`skipNextIf, this`pendingControl
      ensures Model() == old(Model()).(pending := ResolveElse(old(Model()).pending, sym))
    {
      if elseArmed {
        elseArmed := false;
        if sym.If? {
          skipNextIf := true;
        } else {
          pendingControl := true;
        }
      }
    }

    method ResolvePendingControl(sym: Sym)
      modifies this
      ensures Model() == ResolvePending(old(Model()), sym)
    {
      hide ResolveElse, OpenBraceless;
      ResolveElseArmed(sym);
      if pendingControl && !sym.LBrace? {
        OpenBracelessBody();
      }
    }

    method OpenBracelessBody()
      modifies this`nesting, this`maxNesting, this`bracelessOpen, this`pendingControl, this`pendingIsDo
      ensures Model() == OpenBraceless(old(Model()))
    {
      hide Deeper;
      Deepen();
      bracelessOpen := bracelessOpen + 1;
      pendingControl := false;
      pendingIsDo := false;
    }

    method ScoreToken(tok: Token, prev: seq<Token>)
      requires Shaped(Model())
      modifies this
      ensures Model() == StepSym(old(Model()), tok.sym, prev != [] && IsGlued(tok, prev[0]))
    {
      ResolvePendingControl(tok.sym);
      if tok.sym.AndAnd? || tok.sym.OrOr? {
        if prev == [] || !IsGlued(tok, prev[0]) {
          HandleLogicalOp(tok.sym.AndAnd?);
        }
        return;
      }
      if tok.sym.WordAnd? || tok.sym.WordOr? {
        HandleLogicalOp(tok.sym.WordAnd?);
        return;
      }
      var consumed := HandleKeyword(tok.sym);
      if !consumed {
        HandlePunct(tok.sym);
      }
    }
  }

  /** How often the line changes along the tokens, starting from line `prev`. */
  function LineRuns(toks: seq<Token>, prev: int): nat {
    if toks == [] then 0
    else if toks[0].line != prev then 1 + LineRuns(toks[1..], toks[0].line)
    else LineRuns(toks[1..], prev)
  }

  lemma LineStep(toks: seq<Token>, k: nat, prev: int)
    requires k <= |toks|
    ensures LineRuns(toks[k..], prev)
         == if k == |toks| then 0
            else (if toks[k].line != prev then 1 else 0) + LineRuns(toks[k + 1..], toks[k].line)
  {
    if k < |toks| {
      assert toks[k..][0] == toks[k] && toks[k..][1..] == toks[k + 1..];
    }
  }

  lemma RunStep(st: Score, toks: seq<Token>, k: nat)
    requires Shaped(st) && k <= |toks|
    ensures RunFrom(st, toks, k)
         == if k == |toks| then st else RunFrom(StepSym(st, toks[k].sym, GluedAt(toks, k)), toks, k + 1)
  {
    hide StepSym, GluedAt;
  }

  lemma GluedInside(tokens: seq<Token>, lo: nat, hi: nat, k: nat)
    requires lo <= k < hi <= |tokens|
    ensures tokens[lo..hi][k - lo] == tokens[k]
    ensures GluedAt(tokens[lo..hi], k - lo) == (k > lo && IsGlued(tokens[k], tokens[k - 1]))
  {
    hide IsGlued;
  }

  /** Scores the tokens strictly between the two braces of a body, and counts its lines. */
  method ScoreSpan(tokens: seq<Token>, bodyBegin: nat, bodyEnd: nat) returns (st: ScoreState, lines: nat)
    requires bodyBegin < bodyEnd <= |tokens|
    ensures fresh(st)
    ensures st.Model() == RunFrom(Initial(), tokens[bodyBegin + 1..bodyEnd], 0)
    ensures lines == LineRuns(tokens[bodyBegin + 1..bodyEnd], -1)
  {
    hide StepSym, IsGlued, GluedAt, RunFrom, LineRuns;
    st := new ScoreState();
    lines := 0;
    var prevLine := -1;
    var k := bodyBegin + 1;
    ghost var body := tokens[bodyBegin + 1..bodyEnd];
    assert body[0..] == body;
    while k < bodyEnd
      invariant bodyBegin + 1 <= k <= bodyEnd && fresh(st)
      invariant Shaped(st.Model())
      invariant RunFrom(st.Model(), body, k - bodyBegin - 1) == RunFrom(Initial(), body, 0)
      invariant lines + LineRuns(body[k - bodyBegin - 1..], prevLine) == LineRuns(body, -1)
    {
      GluedInside(tokens, bodyBegin + 1, bodyEnd, k);
      RunStep(st.Model(), body, k - bodyBegin - 1);
      LineStep(body, k - bodyBegin - 1, prevLine);
      st.ScoreToken(tokens[k], if k > bodyBegin + 1 then [tokens[k - 1]] else []);
      if tokens[k].line != prevLine {
        lines := lines + 1;
        prevLine := tokens[k].line;
      }
      k := k + 1;
    }
    RunStep(st.Model(), body, |body|);
    LineStep(body, |body|, prevLine);
  }

  /** Token `k` begins a line; `prev` is the line before the first. */
  predicate BeginsLine(toks: seq<Token>, prev: int, k: nat)
    requires k < |toks|
  {
    toks[k].line != if k == 0 then prev else toks[k - 1].line
  }

  lemma {:induction false} LineRunsLast(toks: seq<Token>, t: Token, prev: int)
    ensures var all := toks + [t];
      LineRuns(all, prev) == LineRuns(toks, prev) + if BeginsLine(all, prev, |toks|) then 1 else 0
    decreases |toks|
  {
    var all := toks + [t];
    if toks == [] {
      assert all[0] == t && all[1..] == [];
    } else {
      LineRunsLast(toks[1..], t, toks[0].line);
      assert all[0] == toks[0] && all[1..] == toks[1..] + [t];
      assert LineRuns(all, prev) == LineRuns(toks[1..] + [t], toks[0].line) + if toks[0].line != prev then 1 else 0;
    }
  }

  ghost function Beginnings(toks: seq<Token>, prev: int): set<nat> {
    set k: nat | k < |toks| && BeginsLine(toks, prev, k)
  }

  lemma BeginningsLast(toks: seq<Token>, t: Token, prev: int)
    ensures var all := toks + [t];
      |Beginnings(all, prev)| == |Beginnings(toks, prev)| + if BeginsLine(all, prev, |toks|) then 1 else 0
  {
    var all, n := toks + [t], |toks|;
    forall k: nat
      ensures k in Beginnings(all, prev) <==> k in Beginnings(toks, prev) || (k == n && BeginsLine(all, prev, n))
    {
      assert k < n ==> all[k] == toks[k];
      assert 0 < k < n ==> all[k - 1] == toks[k - 1];
    }
    Sorting.GrowsByOne(Beginnings(toks, prev), Beginnings(all, prev), n, BeginsLine(all, prev, n));
  }

  /** The lines counted are those that begin somewhere: the maximal runs of tokens on one line. */
  lemma {:induction false} LinesAreRuns(toks: seq<Token>, prev: int)
    ensures LineRuns(toks, prev) == |Beginnings(toks, prev)|
    decreases |toks|
  {
    if toks == [] {
      assert Beginnings(toks, prev) == {};
    } else {
      hide LineRuns, Beginnings, BeginsLine;
      var n := |toks| - 1;
      assert toks == toks[..n] + [toks[n]];
      LineRunsLast(toks[..n], toks[n], prev);
      BeginningsLast(toks[..n], toks[n], prev);
      LinesAreRuns(toks[..n], prev);
    }
  }

  // ---------------------------------------------- which operators stick to what

  /** A token sticks to one spelled out exactly if it follows at once, and the spelling ends in
      a letter, a digit, `_` or `>`. */
  lemma SticksToText(tok: Token, prev: Token, rest: string, c: char)
    requires prev.raw == rest + [c]
    ensures IsGlued(tok, prev)
       <==> tok.off == prev.off + |rest| + 1
            && ('a' <= c <= 'z' || 'A' <= c <= 'Z' || '0' <= c <= '9' || c in "_>")
  {
  }

  /** Brackets and operators have nothing stick to them. */
  lemma NothingSticksToSymbols(tok: Token, prev: Token)
    requires prev.raw == "" && prev.sym in {LParen, RParen, LBracket, LBrace, RBrace, Equals, Semicolon, Bang, Question,
                                            AndAnd, OrOr}
    ensures !IsGlued(tok, prev)
  {
  }

  // ------------------------------------------------- what every token stream keeps

  function ControlFrames(stack: seq<BraceFrame>): nat {
    if stack == [] then 0
    else ControlFrames(stack[..|stack| - 1]) + if stack[|stack| - 1].control then 1 else 0
  }

  /** The score lies between one per increment and one plus the deepest nesting each. */
  ghost predicate Bounded(t: Tally) {
    && t.nesting <= t.maxNesting
    && 0 <= t.increments <= t.score
    && t.score <= t.increments * (1 + t.maxNesting)
  }

  /** The nesting level counts the open control bodies, braced and braceless. */
  ghost predicate Balanced(st: Score) {
    && Shaped(st)
    && Bounded(st.tally)
    && st.bracelessOpen >= 0
    && st.tally.nesting == ControlFrames(st.braces) + st.bracelessOpen
  }

  lemma PushFrame(stack: seq<BraceFrame>, f: BraceFrame)
    ensures ControlFrames(stack + [f]) == ControlFrames(stack) + if f.control then 1 else 0
  {
    assert (stack + [f])[..|stack|] == stack;
  }

  lemma IncrementBounded(t: Tally, structural: bool)
    requires Bounded(t) && t.nesting >= 0
    ensures Bounded(Increment(t, structural))
  {
    assert (t.increments + 1) * (1 + t.maxNesting) == t.increments * (1 + t.maxNesting) + 1 + t.maxNesting;
  }

  lemma DeeperBounded(t: Tally)
    requires Bounded(t)
    ensures Bounded(Deeper(t))
  {
    var m := Max(t.maxNesting, t.nesting + 1);
    assert t.increments * (1 + t.maxNesting) <= t.increments * (1 + m);
  }

  lemma TallyParts(t: Tally, levels: int)
    requires Bounded(t) && t.nesting >= 0
    ensures Bounded(Increment(t, true)) && Bounded(Increment(t, false)) && Bounded(Deeper(t))
    ensures Increment(t, true).nesting == t.nesting && Increment(t, false).nesting == t.nesting
    ensures Deeper(t).nesting == t.nesting + 1
    ensures 0 <= levels <= t.nesting ==>
      Bounded(Shallower(t, levels)) && Shallower(t, levels).nesting == t.nesting - levels
    ensures t.nesting >= 1 ==> Bounded(Shallower(t, 1)) && Shallower(t, 1).nesting == t.nesting - 1
  {
    IncrementBounded(t, true);
    IncrementBounded(t, false);
    DeeperBounded(t);
  }

  lemma ResolveBalanced(st: Score, sym: Sym)
    requires Balanced(st)
    ensures Balanced(ResolvePending(st, sym))
  {
    DeeperBounded(st.tally);
  }

  lemma KeywordBalanced(st: Score, sym: Sym)
    requires Balanced(st)
    ensures Balanced(Keyword(st, sym))
  {
    hide Bounded, Increment, Deeper, Shallower;
    TallyParts(st.tally, st.bracelessOpen);
  }

  lemma LogicalBalanced(st: Score, op: Op)
    requires Balanced(st)
    ensures Balanced(LogicalOp(st, op))
  {
    hide Bounded, Increment;
    TallyParts(st.tally, st.bracelessOpen);
  }

  lemma OpenBraceBalanced(st: Score)
    requires Balanced(st)
    ensures Balanced(OpenBrace(st))
  {
    hide Bounded, Deeper, ControlFrames;
    TallyParts(st.tally, st.bracelessOpen);
    PushFrame(st.braces, BraceFrame(true, st.pending.isDo));
    PushFrame(st.braces, BraceFrame(true, false));
    PushFrame(st.braces, BraceFrame(false, false));
  }

  lemma CloseBraceBalanced(st: Score)
    requires Balanced(st)
    ensures Balanced(CloseBrace(st))
  {
    hide Bounded, Shallower;
    TallyParts(st.tally, st.bracelessOpen);
  }

  lemma PunctBalanced(st: Score, sym: Sym)
    requires Balanced(st)
    ensures Balanced(Punct(st, sym))
  {
    hide Bounded, Increment, Deeper, Shallower, Resize, OpenBrace, CloseBrace, ControlFrames;
    TallyParts(st.tally, st.bracelessOpen);
    OpenBraceBalanced(st);
    CloseBraceBalanced(st);
  }

  /** Consuming any symbol keeps the balance. */
  lemma ConsumeBalanced(st: Score, sym: Sym, glued: bool)
    requires Balanced(st)
    ensures Balanced(Consume(st, sym, glued))
  {
    assert Shaped(st);
    hide Balanced, Keyword, LogicalOp, Punct, IsKeyword;
    KeywordBalanced(st, sym);
    LogicalBalanced(st, AndOp);
    LogicalBalanced(st, OrOp);
    PunctBalanced(st, sym);
  }

  /** Every symbol keeps the balance, in any state and any context. */
  lemma StepBalanced(st: Score, sym: Sym, glued: bool)
    requires Balanced(st)
    ensures Shaped(st) && Balanced(StepSym(st, sym, glued))
  {
    ResolveBalanced(st, sym);
    ConsumeBalanced(ResolvePending(st, sym), sym, glued);
  }

  lemma {:induction false} RunBalancedFrom(st: Score, toks: seq<Token>, k: nat)
    requires Balanced(st) && k <= |toks|
    ensures Shaped(st) && Balanced(RunFrom(st, toks, k))
    decreases |toks| - k
  {
    assert Shaped(st);
    hide Balanced, StepSym, IsGlued;
    if k < |toks| {
      StepBalanced(st, toks[k].sym, GluedAt(toks, k));
      RunBalancedFrom(StepSym(st, toks[k].sym, GluedAt(toks, k)), toks, k + 1);
    }
  }

  /** So it holds after any token stream whatsoever. */
  lemma RunBalanced(toks: seq<Token>)
    ensures Balanced(RunFrom(Initial(), toks, 0))
  {
    hide *;
    InitialBalanced();
    RunBalancedFrom(Initial(), toks, 0);
  }

  lemma InitialBalanced()
    ensures Shaped(Initial()) && Balanced(Initial())
  {
  }

  /** In a balanced state neither clamp of the nesting level at zero ever acts. */
  lemma ClampsNeverAct(st: Score)
    requires Balanced(st)
    ensures st.braces != [] && st.braces[|st.braces| - 1].control
      ==> CloseBrace(st).tally.nesting == st.tally.nesting - 1
    ensures EndStatement(st).tally.nesting == st.tally.nesting - st.bracelessOpen
  {
  }

  // ------------------------------------------------------ brace-balanced spans

  /** How far the tokens before number `k` leave braces open. */
  function BraceDepth(toks: seq<Token>, k: nat): int
    requires k <= |toks|
  {
    if k == 0 then 0
    else BraceDepth(toks, k - 1) + (if toks[k - 1].sym.LBrace? then 1 else if toks[k - 1].sym.RBrace? then -1 else 0)
  }

  lemma ResolveBraces(st: Score, sym: Sym)
    ensures ResolvePending(st, sym).braces == st.braces && ResolvePending(st, sym).parens == st.parens
  {
    hide Deeper, ResolveElse;
  }

  lemma KeywordBraces(st: Score, sym: Sym)
    ensures Keyword(st, sym).braces == st.braces
  {
    hide Increment;
  }

  lemma ConsumeBraces(st: Score, sym: Sym, glued: bool)
    requires Shaped(st)
    ensures var t := Consume(st, sym, glued);
      && (sym.LBrace? ==> |t.braces| == |st.braces| + 1)
      && (sym.RBrace? && st.braces != [] ==> |t.braces| == |st.braces| - 1)
      && (!sym.LBrace? && !sym.RBrace? ==> t.braces == st.braces)
  {
    hide Increment, Deeper, Shallower, Resize, SetOp, OpenParen, Keyword;
    KeywordBraces(st, sym);
  }

  lemma StepBraces(st: Score, sym: Sym, glued: bool)
    requires Shaped(st)
    ensures var t := StepSym(st, sym, glued);
      && (sym.LBrace? ==> |t.braces| == |st.braces| + 1)
      && (sym.RBrace? && st.braces != [] ==> |t.braces| == |st.braces| - 1)
      && (!sym.LBrace? && !sym.RBrace? ==> t.braces == st.braces)
  {
    hide ResolvePending, Consume;
    ResolveBraces(st, sym);
    ConsumeBraces(ResolvePending(st, sym), sym, glued);
  }

  /** If no prefix of a span closes more braces than it opens, the brace stack follows
      the depth exactly: it is never popped while empty. */
  lemma {:induction false} RunBraces(st: Score, toks: seq<Token>, k: nat)
    requires Shaped(st) && k <= |toks| && |st.braces| == BraceDepth(toks, k)
    requires forall j: nat :: j <= |toks| ==> BraceDepth(toks, j) >= 0
    ensures |RunFrom(st, toks, k).braces| == BraceDepth(toks, |toks|)
    decreases |toks| - k
  {
    hide StepSym, IsGlued;
    if k < |toks| {
      StepBraces(st, toks[k].sym, GluedAt(toks, k));
      assert BraceDepth(toks, k + 1) >= 0;
      RunBraces(StepSym(st, toks[k].sym, GluedAt(toks, k)), toks, k + 1);
    }
  }

  // ------------------------------------------------------------------ parentheses

  /** How many parentheses the first `k` tokens leave open; one too many that closes is
      passed over. */
  function OpenParens(toks: seq<Token>, k: nat): nat
    requires k <= |toks|
  {
    if k == 0 then 0
    else
      var n := OpenParens(toks, k - 1);
      if toks[k - 1].sym.LParen? then n + 1 else if toks[k - 1].sym.RParen? && n > 0 then n - 1 else n
  }

  lemma KeywordDepth(st: Score, sym: Sym)
    ensures Keyword(st, sym).parens.depth == st.parens.depth
  {
    hide Increment;
  }

  lemma ConsumeDepth(st: Score, sym: Sym, glued: bool)
    requires Shaped(st)
    ensures var n := st.parens.depth;
      Consume(st, sym, glued).parens.depth
        == if sym.LParen? then n + 1 else if sym.RParen? && n > 0 then n - 1 else n
  {
    hide Increment, Deeper, Shallower, Resize, Keyword;
    KeywordDepth(st, sym);
  }

  lemma StepDepth(st: Score, sym: Sym, glued: bool)
    requires Shaped(st)
    ensures var n := st.parens.depth;
      StepSym(st, sym, glued).parens.depth
        == if sym.LParen? then n + 1 else if sym.RParen? && n > 0 then n - 1 else n
  {
    hide ResolvePending, Consume;
    ResolveBraces(st, sym);
    ConsumeDepth(ResolvePending(st, sym), sym, glued);
  }

  /** Over every token stream the scorer knows how many parentheses are open. */
  lemma {:induction false} RunParens(st: Score, toks: seq<Token>, k: nat)
    requires Shaped(st) && k <= |toks| && st.parens.depth == OpenParens(toks, k)
    ensures RunFrom(st, toks, k).parens.depth == OpenParens(toks, |toks|)
    decreases |toks| - k
  {
    hide StepSym, IsGlued;
    if k < |toks| {
      StepDepth(st, toks[k].sym, GluedAt(toks, k));
      RunParens(StepSym(st, toks[k].sym, GluedAt(toks, k)), toks, k + 1);
    }
  }
}
