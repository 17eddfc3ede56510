/** Which tokens make a function definition, told by the tokens themselves: the search finds
    exactly these. */
module DefinitionShapes {
  import opened Tokens
  import opened Wrappers
  import opened FunctionSpans

  const ID: Sym := Other("id")
  const OPERATOR: Sym := Other("operator")
  const ANGLE: Sym := Other(">")
  const ARROW: Sym := Other("->")
  const COLON: Sym := Other(":")
  const NOEXCEPT: Sym := Other("noexcept")
  const THROW: Sym := Other("throw")

  const QUALIFIERS: set<Sym> :=
    {Other("const"), NOEXCEPT, Other("override"), Other("final"), Other("&"), AndAnd, Other("mutable")}

  // --------------------------------------------------------- what makes a definition

  /** A parenthesis right behind a name, or behind `operator` and one or two symbols, opens a
      parameter list; after `operator()` the next parenthesis does. */
  ghost predicate OpensParameters(toks: seq<Token>, i: nat, o: nat)
    requires i < |toks| && toks[i].sym == LParen
  {
    if i + 2 < |toks| && i >= 1 && toks[i - 1].sym == OPERATOR && toks[i + 1].sym == RParen && toks[i + 2].sym == LParen
    then o == i + 2
    else
      && o == i
      && (|| (i >= 1 && toks[i - 1].sym == ID)
          || (i >= 2 && toks[i - 2].sym == OPERATOR)
          || (i >= 3 && toks[i - 3].sym == OPERATOR))
  }

  /** The tokens from `k` to the brace at `b` are a return type: no brace, `;` or `=` but in
      parentheses. */
  ghost predicate ReturnsUpTo(toks: seq<Token>, k: nat, b: nat)
    requires b < |toks|
    decreases b - k
  {
    if k >= b then k == b && toks[b].sym == LBrace
    else if toks[k].sym == LParen then
      exists e: nat :: k < e && e < b && Matches(toks, LParen, RParen, k, e) && ReturnsUpTo(toks, e + 1, b)
    else
      toks[k].sym !in {LBrace, RBrace, Semicolon, Equals} && ReturnsUpTo(toks, k + 1, b)
  }

  ghost predicate BehindName(toks: seq<Token>, k: nat)
    requires k < |toks|
  {
    k > 0 && toks[k - 1].sym in {ID, ANGLE}
  }

  /** The tokens from `k` to the brace at `b` are initialisers: a bracket right behind a name or
      `>` is skipped with its partner, and the brace is behind no name. */
  ghost predicate InitsUpTo(toks: seq<Token>, k: nat, b: nat)
    requires b < |toks|
    decreases b - k
  {
    if k >= b then k == b && toks[b].sym == LBrace && !BehindName(toks, b)
    else if toks[k].sym == LParen && BehindName(toks, k) then
      exists e: nat :: k < e && e < b && Matches(toks, LParen, RParen, k, e) && InitsUpTo(toks, e + 1, b)
    else if toks[k].sym == LBrace && BehindName(toks, k) then
      exists e: nat :: k < e && e < b && Matches(toks, LBrace, RBrace, k, e) && InitsUpTo(toks, e + 1, b)
    else
      toks[k].sym !in {LBrace, Semicolon} && InitsUpTo(toks, k + 1, b)
  }

  /** The argument in parentheses behind `k` ends at `e`. */
  ghost predicate ArgumentEnds(toks: seq<Token>, k: nat, e: nat) {
    Matches(toks, LParen, RParen, k + 1, e)
  }

  /** The tokens from `k` to the brace at `b` may stand between parameters and body: qualifiers,
      `noexcept` and `throw` with their arguments, then nothing, `->` and a return type, or `:`
      and initialisers. */
  ghost predicate HeadUpTo(toks: seq<Token>, k: nat, b: nat)
    requires b < |toks|
    decreases b - k
  {
    if k >= b then k == b && toks[b].sym == LBrace
    else if toks[k].sym == ARROW then ReturnsUpTo(toks, k + 1, b)
    else if toks[k].sym == COLON then InitsUpTo(toks, k + 1, b)
    else if toks[k].sym in {NOEXCEPT, THROW} && toks[k + 1].sym == LParen then
      exists e: nat :: k < e && e < b && ArgumentEnds(toks, k, e) && HeadUpTo(toks, e + 1, b)
    else
      toks[k].sym in QUALIFIERS && HeadUpTo(toks, k + 1, b)
  }

  /** A definition: parameters, head, body. */
  ghost predicate Defines(toks: seq<Token>, i: nat, span: FunctionSpan)
    requires i < |toks| && toks[i].sym == LParen
  {
    && OpensParameters(toks, i, span.paramOpen)
    && Matches(toks, LParen, RParen, span.paramOpen, span.paramClose)
    && span.bodyBegin < |toks| && HeadUpTo(toks, span.paramClose + 1, span.bodyBegin)
    && Matches(toks, LBrace, RBrace, span.bodyBegin, span.bodyEnd)
  }

  // ----------------------------------------------------------------- the same brace

  /** The parenthesis at `k` ends before the rest of a return type up to `b`. */
  ghost predicate ParensUpTo(toks: seq<Token>, k: nat, b: nat)
    requires b < |toks|
  {
    exists e: nat :: k < e && e < b && Matches(toks, LParen, RParen, k, e) && ReturnsUpTo(toks, e + 1, b)
  }

  lemma ParensIs(toks: seq<Token>, k: nat, b: nat, e: Option<nat>)
    requires b < |toks| && e == Partner(toks, k, LParen, RParen)
    ensures ParensUpTo(toks, k, b) <==> e.Some? && e.value < b && ReturnsUpTo(toks, e.value + 1, b)
  {
    hide Matches, Partner, ReturnsUpTo;
    forall e': nat | Matches(toks, LParen, RParen, k, e')
      ensures e == Some(e')
    {
      PartnerIs(toks, LParen, RParen, k, e');
    }
  }

  lemma ReturnsStep(toks: seq<Token>, k: nat, b: nat)
    requires k < b < |toks|
    ensures ReturnsUpTo(toks, k, b)
         == if toks[k].sym == LParen then ParensUpTo(toks, k, b)
            else toks[k].sym !in {LBrace, RBrace, Semicolon, Equals} && ReturnsUpTo(toks, k + 1, b)
  {
    hide Matches;
  }

  lemma BraceStep(toks: seq<Token>, k: nat)
    requires k < |toks|
    ensures BraceAfterReturn(toks, k)
         == if toks[k].sym == LBrace then Some(k)
            else if toks[k].sym in {RBrace, Semicolon, Equals} then None
            else if toks[k].sym == LParen then
              match Partner(toks, k, LParen, RParen)
              case None => None
              case Some(e) => BraceAfterReturn(toks, e + 1)
            else BraceAfterReturn(toks, k + 1)
  {
    hide Matches, Partner;
  }

  lemma ReturnsEnd(toks: seq<Token>, k: nat, b: nat)
    requires b < |toks| && k >= b
    ensures ReturnsUpTo(toks, k, b) <==> k == b && toks[b].sym == LBrace
    ensures k >= |toks| ==> BraceAfterReturn(toks, k) == None
  {
  }

  lemma {:induction false} ReturnsIff(toks: seq<Token>, k: nat, b: nat)
    requires b < |toks|
    ensures BraceAfterReturn(toks, k) == Some(b) <==> ReturnsUpTo(toks, k, b)
    decreases |toks| - k
  {
    hide Matches, Partner, BraceAfterReturn, ReturnsUpTo, ParensUpTo;
    if k < |toks| {
      BraceStep(toks, k);
    }
    if k < b {
      ReturnsStep(toks, k, b);
      if toks[k].sym == LParen {
        var e := Partner(toks, k, LParen, RParen);
        ParensIs(toks, k, b, e);
        if e.Some? {
          ReturnsIff(toks, e.value + 1, b);
        }
      } else {
        ReturnsIff(toks, k + 1, b);
      }
    } else {
      ReturnsEnd(toks, k, b);
    }
  }

  lemma AfterNameIs(toks: seq<Token>, k: nat)
    requires k < |toks|
    ensures AfterName(toks, k) <==> BehindName(toks, k)
  {
  }

  lemma {:induction false} InitsIff(toks: seq<Token>, k: nat, b: nat)
    requires b < |toks|
    ensures BraceAfterInits(toks, k) == Some(b) <==> InitsUpTo(toks, k, b)
    decreases |toks| - k
  {
    hide Matches, Partner, AfterName, BehindName, BraceAfterInits;
    if k < |toks| {
      AfterNameIs(toks, k);
      if (toks[k].sym == LParen || toks[k].sym == LBrace) && BehindName(toks, k) {
        PastInit(toks, k);
        var close := Closer(toks[k].sym);
        var e := Partner(toks, k, toks[k].sym, close);
        if e.Some? {
          InitsIff(toks, e.value + 1, b);
        }
        forall e': nat | Matches(toks, toks[k].sym, close, k, e')
          ensures e == Some(e')
        {
          PartnerIs(toks, toks[k].sym, close, k, e');
        }
      } else {
        PastInitToken(toks, k);
        if k + 1 <= |toks| {
          InitsIff(toks, k + 1, b);
        }
      }
    } else {
      PastLastInit(toks, k);
    }
  }

  lemma ArgumentStep(toks: seq<Token>, k: nat)
    requires k < |toks| && TakesArgument(toks, k)
    ensures BodyBrace(toks, k)
         == match Partner(toks, k + 1, LParen, RParen) case None => None case Some(e) => BodyBrace(toks, e + 1)
  {
    hide Partner, Matches, BraceAfterInits, BraceAfterReturn;
  }

  lemma OtherStep(toks: seq<Token>, k: nat)
    requires k < |toks| && !TakesArgument(toks, k)
    ensures BodyBrace(toks, k)
         == if toks[k].sym == LBrace then Some(k)
            else if toks[k].sym == ARROW then BraceAfterReturn(toks, k + 1)
            else if toks[k].sym == COLON then BraceAfterInits(toks, k + 1)
            else if toks[k].sym in QUALIFIERS then BodyBrace(toks, k + 1)
            else None
  {
    hide TakesArgument, Partner, Matches, BraceAfterInits, BraceAfterReturn;
  }

  lemma TakesArgumentIs(toks: seq<Token>, k: nat)
    requires k < |toks|
    ensures TakesArgument(toks, k) <==> toks[k].sym in {NOEXCEPT, THROW} && k + 1 < |toks| && toks[k + 1].sym == LParen
  {
  }

  lemma {:induction false} HeadIff(toks: seq<Token>, k: nat, b: nat)
    requires b < |toks|
    ensures BodyBrace(toks, k) == Some(b) <==> HeadUpTo(toks, k, b)
    decreases |toks| - k
  {
    hide Matches, Partner, BraceAfterInits, BraceAfterReturn, ReturnsUpTo, InitsUpTo, BodyBrace, TakesArgument;
    if k < |toks| {
      TakesArgumentIs(toks, k);
      if TakesArgument(toks, k) {
        ArgumentHead(toks, k, b);
      } else {
        ReturnsIff(toks, k + 1, b);
        InitsIff(toks, k + 1, b);
        HeadIff(toks, k + 1, b);
        OtherStep(toks, k);
      }
    } else {
      NoBraceLeft(toks, k);
    }
  }

  lemma NoBraceLeft(toks: seq<Token>, k: nat)
    requires k >= |toks|
    ensures BodyBrace(toks, k) == None
  {
  }

  /** Some argument behind `k` ends before the rest of a head up to `b`. */
  ghost predicate ArgumentUpTo(toks: seq<Token>, k: nat, b: nat)
    requires b < |toks|
    decreases b - k, 0
  {
    exists e: nat :: k < e && e < b && ArgumentEnds(toks, k, e) && HeadUpTo(toks, e + 1, b)
  }

  lemma ArgumentUpToIs(toks: seq<Token>, k: nat, b: nat)
    requires b < |toks| && k < |toks| && TakesArgument(toks, k)
    ensures HeadUpTo(toks, k, b) <==> k < b && ArgumentUpTo(toks, k, b)
  {
    hide ReturnsUpTo, InitsUpTo, TakesArgument, ArgumentEnds;
    TakesArgumentIs(toks, k);
    if k < b {
      assert HeadUpTo(toks, k, b)
          == exists e: nat :: k < e && e < b && ArgumentEnds(toks, k, e) && HeadUpTo(toks, e + 1, b);
    }
  }

  lemma ArgumentIs(toks: seq<Token>, k: nat, b: nat, e: Option<nat>)
    requires b < |toks| && e == Partner(toks, k + 1, LParen, RParen)
    ensures ArgumentUpTo(toks, k, b) <==> e.Some? && e.value < b && HeadUpTo(toks, e.value + 1, b)
  {
    hide Matches, Partner, HeadUpTo;
    forall e': nat | ArgumentEnds(toks, k, e')
      ensures e == Some(e')
    {
      PartnerIs(toks, LParen, RParen, k + 1, e');
    }
    if e.Some? {
      assert ArgumentEnds(toks, k, e.value);
    }
  }

  lemma {:induction false} ArgumentHead(toks: seq<Token>, k: nat, b: nat)
    requires b < |toks| && k < |toks| && TakesArgument(toks, k)
    ensures BodyBrace(toks, k) == Some(b) <==> HeadUpTo(toks, k, b)
    decreases |toks| - k, 0
  {
    hide Matches, Partner, BodyBrace, HeadUpTo, TakesArgument;
    ArgumentStep(toks, k);
    ArgumentUpToIs(toks, k, b);
    var e := Partner(toks, k + 1, LParen, RParen);
    if e.Some? {
      HeadIff(toks, e.value + 1, b);
    }
    ArgumentIs(toks, k, b, e);
  }

  lemma OpensIff(toks: seq<Token>, i: nat, o: nat)
    requires i < |toks| && toks[i].sym == LParen
    ensures OpensParameters(toks, i, o)
       <==> (CallOperator(toks, i) || HasName(toks, i)) && o == ParamOpen(toks, i)
  {
  }

  // -------------------------------------------------------------- what the search finds

  lemma ScanIs(toks: seq<Token>, i: nat, span: FunctionSpan)
    requires i < |toks| && toks[i].sym == LParen
    ensures ScanAt(toks, i).0 == [span] <==> Defines(toks, i, span)
    ensures Defines(toks, i, span) ==> ScanAt(toks, i).1 == span.bodyEnd + 1
  {
    hide Matches, Partner, HasName, CallOperator, OpensParameters, HeadUpTo, BodyBrace;
    OpensIff(toks, i, span.paramOpen);
    if span.bodyBegin < |toks| {
      HeadIff(toks, span.paramClose + 1, span.bodyBegin);
    }
    if Matches(toks, LParen, RParen, span.paramOpen, span.paramClose) {
      PartnerIs(toks, LParen, RParen, span.paramOpen, span.paramClose);
    }
    if Matches(toks, LBrace, RBrace, span.bodyBegin, span.bodyEnd) {
      PartnerIs(toks, LBrace, RBrace, span.bodyBegin, span.bodyEnd);
    }
  }

  /** A definition is found, and the search goes on behind its body. */
  lemma DefinitionFound(toks: seq<Token>, i: nat, span: FunctionSpan)
    requires i < |toks| && toks[i].sym == LParen && Defines(toks, i, span)
    ensures Functions(toks, i) == [span] + Functions(toks, span.bodyEnd + 1)
  {
    hide Defines, ScanAt;
    ScanIs(toks, i, span);
  }

  /** Anything else is no definition: the search goes on behind the parameter list, if there is
      one, or at the next token. */
  lemma NothingElseFound(toks: seq<Token>, i: nat)
    requires i < |toks| && toks[i].sym == LParen && forall span :: !Defines(toks, i, span)
    ensures forall o: nat, c: nat :: OpensParameters(toks, i, o) && Matches(toks, LParen, RParen, o, c) ==>
      Functions(toks, i) == Functions(toks, c + 1)
    ensures (forall o: nat, c: nat :: !(OpensParameters(toks, i, o) && Matches(toks, LParen, RParen, o, c))) ==>
      Functions(toks, i) == Functions(toks, i + 1)
  {
    hide Defines, Matches, Partner, HasName, CallOperator, OpensParameters, BodyBrace;
    var spans := ScanAt(toks, i).0;
    ScanIsWellFormed(toks, i);
    if spans != [] {
      assert spans == [spans[0]];
      ScanIs(toks, i, spans[0]);
    }
    assert spans + Functions(toks, ScanAt(toks, i).1) == Functions(toks, ScanAt(toks, i).1);
    forall o: nat, c: nat | OpensParameters(toks, i, o) && Matches(toks, LParen, RParen, o, c)
      ensures ScanAt(toks, i).1 == c + 1
    {
      OpensIff(toks, i, o);
      PartnerIs(toks, LParen, RParen, o, c);
    }
    OpensIff(toks, i, ParamOpen(toks, i));
  }

  /** The head of a scope runs to its brace without `;`, parenthesis, `=` or closing brace, and
      without angle brackets or commas before a colon. */
  lemma ScopeHeadIff(toks: seq<Token>, kw: nat, b: nat)
    ensures OpensScope(toks, kw, b) <==>
      && kw < b < |toks| && toks[b].sym == LBrace
      && (forall m: nat :: kw < m < b ==>
            && toks[m].sym !in {LBrace, Semicolon, LParen, RParen, Equals, RBrace}
            && (toks[m].sym in {Other("<"), ANGLE, Other(",")} ==> exists c: nat :: kw < c < m && toks[c].sym == COLON))
  {
    if kw < |toks| {
      forall m: nat | kw < m < |toks|
        ensures StopsHead(toks, kw, m) <==>
          || toks[m].sym in {LBrace, Semicolon, LParen, RParen, Equals, RBrace}
          || (toks[m].sym in {Other("<"), ANGLE, Other(",")} && !exists c: nat :: kw < c < m && toks[c].sym == COLON)
      {
        StopsIff(toks, kw, m);
      }
    }
  }

  lemma StopsIff(toks: seq<Token>, kw: nat, m: nat)
    requires kw < m < |toks|
    ensures StopsHead(toks, kw, m) <==>
      || toks[m].sym in {LBrace, Semicolon, LParen, RParen, Equals, RBrace}
      || (toks[m].sym in {Other("<"), ANGLE, Other(",")} && !exists c: nat :: kw < c < m && toks[c].sym == COLON)
  {
  }

  /** Only behind these four keywords a scope is looked for. */
  lemma ResumesIff(toks: seq<Token>, i: nat, next: nat)
    requires i < |toks|
    ensures Resumes(toks, i, next) <==>
      if toks[i].sym in {Other("namespace"), Other("class"), Other("struct"), Other("union")}
         && exists b: nat :: OpensScope(toks, i, b)
      then next > 0 && OpensScope(toks, i, next - 1) else next == i + 1
  {
    hide OpensScope;
  }

  /** The head of a scope holds no parenthesis, so that leaving it out of the search hides no
      function. */
  lemma {:induction false} ScopesHideNothing(toks: seq<Token>, i: nat)
    requires i < |toks| && toks[i].sym != LParen
    ensures Functions(toks, i) == Functions(toks, i + 1)
    decreases |toks| - i, 0
  {
    hide StopsHead, ScanAt;
    ResumeIs(toks, i);
    var next := Resume(toks, i);
    if next > i + 1 {
      HeadHasNone(toks, i, next - 1);
      SkipPlain(toks, i + 1, next);
    }
  }

  lemma HeadHasNone(toks: seq<Token>, kw: nat, b: nat)
    requires OpensScope(toks, kw, b)
    ensures forall m: nat :: kw < m <= b ==> toks[m].sym != LParen
  {
    forall m: nat | kw < m <= b
      ensures toks[m].sym != LParen
    {
      if m < b {
        assert !StopsHead(toks, kw, m);
      }
    }
  }

  lemma {:induction false} SkipPlain(toks: seq<Token>, i: nat, j: nat)
    requires i <= j <= |toks| && forall m: nat :: i <= m < j ==> toks[m].sym != LParen
    ensures Functions(toks, i) == Functions(toks, j)
    decreases |toks| - i
  {
    hide Functions;
    if i < j {
      ScopesHideNothing(toks, i);
      SkipPlain(toks, i + 1, j);
    }
  }

  /** `id ( ... ) : id { ... } { ... }`: the initialiser is not taken for the body. */
  lemma InitialiserIsNoBody(toks: seq<Token>, i: nat, c: nat, g: nat, e: nat)
    requires i >= 1 && Matches(toks, LParen, RParen, i, c) && toks[i - 1].sym == ID
    requires c + 3 < |toks| && toks[c + 1].sym == COLON && toks[c + 2].sym == ID
    requires Matches(toks, LBrace, RBrace, c + 3, g) && Matches(toks, LBrace, RBrace, g + 1, e)
    ensures Functions(toks, i) == [FunctionSpan(i, c, g + 1, e)] + Functions(toks, e + 1)
  {
    hide Functions, Net;
    assert InitsUpTo(toks, g + 1, g + 1);
    assert BehindName(toks, c + 3) && InitsUpTo(toks, c + 3, g + 1);
    assert InitsUpTo(toks, c + 2, g + 1);
    assert HeadUpTo(toks, c + 1, g + 1);
    DefinitionFound(toks, i, FunctionSpan(i, c, g + 1, e));
  }
}
