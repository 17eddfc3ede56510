/** Finding function definitions in a token stream, and why the scorer never loses count
    of the braces in what is found. */
module FunctionSpans {
  import opened Tokens
  import opened Wrappers
  import opened BraceMatching
  import opened ScoreMachine

  // --------------------------------------------------------------------- matching

  /** Opening minus closing symbols in [i, j). */
  function Net(toks: seq<Token>, open: Sym, close: Sym, i: nat, j: nat): int
    requires j <= |toks|
  {
    if i >= j then 0
    else
      Net(toks, open, close, i, j - 1)
        + (if toks[j - 1].sym == open then 1 else if toks[j - 1].sym == close then -1 else 0)
  }

  /** The symbol at `j` is the first to bring the count from `i` back to zero. */
  ghost predicate Matches(toks: seq<Token>, open: Sym, close: Sym, i: nat, j: nat) {
    && i < j < |toks| && toks[i].sym == open && toks[j].sym == close
    && Net(toks, open, close, i, j + 1) == 0
    && forall m: nat :: i < m <= j ==> Net(toks, open, close, i, m) > 0
  }

  /** The partner of the symbol at `at`, if it has one. */
  ghost function Partner(toks: seq<Token>, at: nat, open: Sym, close: Sym): (r: Option<nat>)
    ensures r.Some? ==> Matches(toks, open, close, at, r.value) && at < r.value < |toks|
  {
    if exists j: nat :: Matches(toks, open, close, at, j)
    then var j: nat :| Matches(toks, open, close, at, j); Some(j)
    else None
  }

  lemma NoLaterMatch(toks: seq<Token>, open: Sym, close: Sym, at: nat, j: nat, k: nat)
    requires Matches(toks, open, close, at, j) && j < k
    ensures !Matches(toks, open, close, at, k)
  {
    hide Net;
    var m := j + 1;
    assert Net(toks, open, close, at, m) == 0;
  }

  /** There is only one. */
  lemma PartnerIs(toks: seq<Token>, open: Sym, close: Sym, at: nat, j: nat)
    requires Matches(toks, open, close, at, j)
    ensures Partner(toks, at, open, close) == Some(j)
  {
    hide Matches;
    var k := Partner(toks, at, open, close).value;
    if k < j {
      NoLaterMatch(toks, open, close, at, k, j);
    } else if j < k {
      NoLaterMatch(toks, open, close, at, j, k);
    }
  }

  method FindMatching(toks: seq<Token>, at: nat, open: Sym, close: Sym) returns (k: Option<nat>)
    requires at < |toks| && toks[at].sym == open && open != close
    ensures k.Some? ==> Matches(toks, open, close, at, k.value)
    ensures k.None? ==> forall j: nat :: !Matches(toks, open, close, at, j)
    ensures k == Partner(toks, at, open, close)
  {
    var depth := 0;
    var i := at;
    while i < |toks|
      invariant at <= i <= |toks| && depth == Net(toks, open, close, at, i)
      invariant forall m: nat :: at < m <= i ==> Net(toks, open, close, at, m) > 0
    {
      if toks[i].sym == open {
        depth := depth + 1;
      } else if toks[i].sym == close {
        depth := depth - 1;
        if depth == 0 {
          PartnerIs(toks, open, close, at, i);
          return Some(i);
        }
      }
      i := i + 1;
    }
    return None;
  }

  lemma {:induction false} NetIsLevel(toks: seq<Token>, i: nat, j: nat)
    requires i < j <= |toks| && toks[i].sym == LBrace
    ensures Net(toks, LBrace, RBrace, i, j) == 1 + Level(toks, i + 1, j)
    decreases j
  {
    if j > i + 1 {
      NetIsLevel(toks, i, j - 1);
    }
  }

  /** For braces this is the pairing of the whole stream. */
  lemma MatchesIsCloses(toks: seq<Token>, i: nat, j: nat)
    ensures Matches(toks, LBrace, RBrace, i, j) <==> Closes(toks, i, j)
  {
    if i < j < |toks| && toks[i].sym == LBrace && toks[j].sym == RBrace {
      forall m: nat | i < m <= j + 1
        ensures Net(toks, LBrace, RBrace, i, m) == 1 + Level(toks, i + 1, m)
      {
        NetIsLevel(toks, i, m);
      }
      assert Level(toks, i + 1, j + 1) == Level(toks, i + 1, j) - 1;
      if Matches(toks, LBrace, RBrace, i, j) {
        var lo := i + 1;
        forall m: nat | lo <= m <= j
          ensures Level(toks, lo, m) >= 0
        {
          assert Net(toks, LBrace, RBrace, i, m) > 0;
        }
      }
      if Closes(toks, i, j) {
        forall m: nat | i < m <= j
          ensures Net(toks, LBrace, RBrace, i, m) > 0
        {
          assert Level(toks, i + 1, m) >= 0;
        }
      }
    }
  }

  // ------------------------------------------------------------------ definitions

  predicate IsText(sym: Sym, text: string) {
    sym == Other(text)
  }

  predicate IsPlainQualifier(sym: Sym) {
    sym == AndAnd || (sym.Other? && sym.text in ["const", "noexcept", "override", "final", "&", "mutable"])
  }

  /** The tokens before the parenthesis name a function. */
  predicate HasName(toks: seq<Token>, paren: nat)
    requires paren < |toks|
  {
    && paren > 0
    && (|| IsText(toks[paren - 1].sym, "id")
        || (paren > 1 && IsText(toks[paren - 2].sym, "operator"))
        || (paren > 2 && IsText(toks[paren - 3].sym, "operator")))
  }

  function Closer(open: Sym): Sym {
    if open == LParen then RParen else RBrace
  }

  predicate AfterName(toks: seq<Token>, k: nat)
    requires k < |toks|
  {
    k > 0 && (IsText(toks[k - 1].sym, "id") || IsText(toks[k - 1].sym, ">"))
  }

  /** The body brace after a constructor's initialisers: the first brace that follows no
      name, each initialiser being skipped as a whole. */
  ghost function BraceAfterInits(toks: seq<Token>, k: nat): (r: Option<nat>)
    ensures r.Some? ==> k <= r.value < |toks| && toks[r.value].sym == LBrace
    decreases |toks| - k
  {
    if k >= |toks| then None
    else
      var s := toks[k].sym;
      if (s == LParen || s == LBrace) && AfterName(toks, k) then
        match Partner(toks, k, s, Closer(s))
        case None => None
        case Some(e) => BraceAfterInits(toks, e + 1)
      else if s == LBrace then Some(k)
      else if s == Semicolon then None
      else BraceAfterInits(toks, k + 1)
  }

  lemma PastInit(toks: seq<Token>, k: nat)
    requires k < |toks| && (toks[k].sym == LParen || toks[k].sym == LBrace) && AfterName(toks, k)
    ensures BraceAfterInits(toks, k)
         == match Partner(toks, k, toks[k].sym, Closer(toks[k].sym))
            case None => None
            case Some(e) => BraceAfterInits(toks, e + 1)
  {
    hide Partner, Matches, AfterName;
  }

  lemma PastInitToken(toks: seq<Token>, k: nat)
    requires k < |toks| && !((toks[k].sym == LParen || toks[k].sym == LBrace) && AfterName(toks, k))
    ensures BraceAfterInits(toks, k)
         == if toks[k].sym == LBrace then Some(k)
            else if toks[k].sym == Semicolon then None
            else BraceAfterInits(toks, k + 1)
  {
    hide Partner, Matches, AfterName;
  }

  lemma PastLastInit(toks: seq<Token>, k: nat)
    ensures k >= |toks| ==> BraceAfterInits(toks, k) == None
  {
  }

  method SkipInitList(toks: seq<Token>, from: nat) returns (brace: Option<nat>)
    ensures brace == BraceAfterInits(toks, from)
  {
    hide IsText, Partner, Matches, BraceAfterInits;
    var k := from;
    while k < |toks|
      invariant BraceAfterInits(toks, k) == BraceAfterInits(toks, from)
      decreases |toks| - k
    {
      var s := toks[k].sym;
      var afterName := k > 0 && (IsText(toks[k - 1].sym, "id") || IsText(toks[k - 1].sym, ">"));
      if (s == LParen || s == LBrace) && afterName {
        PastInit(toks, k);
        var close := if s == LParen then RParen else RBrace;
        var end := FindMatching(toks, k, s, close);
        if end == None {
          return None;
        }
        k := end.value;
      } else {
        PastInitToken(toks, k);
        if s == LBrace {
          return Some(k);
        } else if s == Semicolon {
          return None;
        }
      }
      k := k + 1;
    }
    PastLastInit(toks, k);
    return None;
  }

  /** The body brace after a trailing return type: the first brace outside parentheses. */
  ghost function BraceAfterReturn(toks: seq<Token>, k: nat): (r: Option<nat>)
    ensures r.Some? ==> k <= r.value < |toks| && toks[r.value].sym == LBrace
    decreases |toks| - k
  {
    if k >= |toks| then None
    else
      var s := toks[k].sym;
      if s == LBrace then Some(k)
      else if s == Semicolon || s == Equals || s == RBrace then None
      else if s == LParen then
        match Partner(toks, k, LParen, RParen)
        case None => None
        case Some(e) => BraceAfterReturn(toks, e + 1)
      else BraceAfterReturn(toks, k + 1)
  }

  lemma PastParens(toks: seq<Token>, k: nat)
    requires k < |toks| && toks[k].sym == LParen
    ensures BraceAfterReturn(toks, k)
         == match Partner(toks, k, LParen, RParen) case None => None case Some(e) => BraceAfterReturn(toks, e + 1)
  {
    hide Partner, Matches;
  }

  lemma PastToken(toks: seq<Token>, k: nat)
    requires k < |toks| && toks[k].sym != LParen
    ensures BraceAfterReturn(toks, k)
         == if toks[k].sym == LBrace then Some(k)
            else if toks[k].sym in [Semicolon, Equals, RBrace] then None
            else BraceAfterReturn(toks, k + 1)
  {
  }

  lemma PastEnd(toks: seq<Token>, k: nat)
    ensures k >= |toks| ==> BraceAfterReturn(toks, k) == None
  {
  }

  method SkipTrailingReturn(toks: seq<Token>, from: nat) returns (brace: Option<nat>)
    ensures brace == BraceAfterReturn(toks, from)
  {
    hide Partner, Matches, BraceAfterReturn;
    var k := from;
    while k < |toks|
      invariant BraceAfterReturn(toks, k) == BraceAfterReturn(toks, from)
      decreases |toks| - k
    {
      var s := toks[k].sym;
      if s != LParen {
        PastToken(toks, k);
      }
      if s == LBrace {
        return Some(k);
      }
      if s == Semicolon || s == Equals || s == RBrace {
        return None;
      }
      if s == LParen {
        PastParens(toks, k);
        var end := FindMatching(toks, k, LParen, RParen);
        if end == None {
          return None;
        }
        k := end.value;
      }
      k := k + 1;
    }
    PastEnd(toks, k);
    return None;
  }

  /** `noexcept` or `throw` with an argument. */
  predicate TakesArgument(toks: seq<Token>, k: nat)
    requires k < |toks|
  {
    (IsText(toks[k].sym, "noexcept") || IsText(toks[k].sym, "throw")) && k + 1 < |toks| && toks[k + 1].sym == LParen
  }

  /** The body brace from `k` on, behind qualifiers, initialisers or a return type. */
  ghost function BodyBrace(toks: seq<Token>, k: nat): (r: Option<nat>)
    ensures r.Some? ==> k <= r.value < |toks| && toks[r.value].sym == LBrace
    decreases |toks| - k
  {
    if k >= |toks| then None
    else
      var s := toks[k].sym;
      if s == LBrace then Some(k)
      else if IsText(s, "->") then BraceAfterReturn(toks, k + 1)
      else if IsText(s, ":") then BraceAfterInits(toks, k + 1)
      else if TakesArgument(toks, k) then
        match Partner(toks, k + 1, LParen, RParen)
        case None => None
        case Some(e) => BodyBrace(toks, e + 1)
      else if IsPlainQualifier(s) then BodyBrace(toks, k + 1)
      else None
  }

  method FindBodyBrace(toks: seq<Token>, closeParen: nat) returns (brace: Option<nat>)
    ensures brace == BodyBrace(toks, closeParen + 1)
  {
    hide IsText, IsPlainQualifier, Partner, Matches, BraceAfterReturn, BraceAfterInits;
    var k := closeParen + 1;
    while k < |toks|
      invariant BodyBrace(toks, k) == BodyBrace(toks, closeParen + 1)
      decreases |toks| - k
    {
      var s := toks[k].sym;
      if s == LBrace {
        return Some(k);
      }
      if IsText(s, "->") {
        brace := SkipTrailingReturn(toks, k + 1);
        return;
      }
      if IsText(s, ":") {
        brace := SkipInitList(toks, k + 1);
        return;
      }
      if (IsText(s, "noexcept") || IsText(s, "throw")) && k + 1 < |toks| && toks[k + 1].sym == LParen {
        var end := FindMatching(toks, k + 1, LParen, RParen);
        if end == None {
          return None;
        }
        k := end.value;
      } else if !IsPlainQualifier(s) {
        return None;
      }
      k := k + 1;
    }
    return None;
  }

  predicate EndsHead(sym: Sym) {
    sym == Semicolon || sym == LParen || sym == RParen || sym == Equals || sym == RBrace
  }

  predicate EndsPlainHead(sym: Sym) {
    IsText(sym, "<") || IsText(sym, ">") || IsText(sym, ",")
  }

  predicate IsScopeKeyword(sym: Sym) {
    sym.Other? && sym.text in ["namespace", "class", "struct", "union"]
  }

  /** The head of a scope ends at `j`: in a brace, or in a symbol that no head contains;
      template brackets and commas are allowed behind a `:` only. */
  ghost predicate StopsHead(toks: seq<Token>, kw: nat, j: nat)
    requires j < |toks|
  {
    || toks[j].sym == LBrace || EndsHead(toks[j].sym)
    || (EndsPlainHead(toks[j].sym) && forall m: nat :: kw < m < j ==> !IsText(toks[m].sym, ":"))
  }

  ghost predicate FirstStop(toks: seq<Token>, kw: nat, j: nat) {
    kw < j < |toks| && StopsHead(toks, kw, j) && forall m: nat :: kw < m < j ==> !StopsHead(toks, kw, m)
  }

  /** The brace at `b` opens the scope that the keyword at `kw` defines. */
  ghost predicate OpensScope(toks: seq<Token>, kw: nat, b: nat) {
    FirstStop(toks, kw, b) && toks[b].sym == LBrace
  }

  method FindScopeBrace(toks: seq<Token>, kw: nat) returns (brace: Option<nat>)
    ensures brace.Some? ==> OpensScope(toks, kw, brace.value)
    ensures brace.None? ==> forall b: nat :: !OpensScope(toks, kw, b)
  {
    hide EndsPlainHead, EndsHead, IsText;
    var inBases := false;
    var j := kw + 1;
    while j < |toks|
      invariant kw < j
      invariant forall m: nat :: kw < m < j && m < |toks| ==> !StopsHead(toks, kw, m)
      invariant j <= |toks| ==> (inBases <==> exists m: nat :: kw < m < j && IsText(toks[m].sym, ":"))
    {
      var s := toks[j].sym;
      if s == LBrace {
        return Some(j);
      }
      if EndsHead(s) || (!inBases && EndsPlainHead(s)) {
        assert FirstStop(toks, kw, j);
        return None;
      }
      if IsText(s, ":") {
        inBases := true;
      }
      j := j + 1;
    }
    return None;
  }

  /** Positions of the parameter list and of the body. */
  datatype FunctionSpan = FunctionSpan(paramOpen: nat, paramClose: nat, bodyBegin: nat, bodyEnd: nat)

  /** Parameter list and body are matched pairs, one after the other. */
  ghost predicate WellFormed(toks: seq<Token>, span: FunctionSpan) {
    && Matches(toks, LParen, RParen, span.paramOpen, span.paramClose)
    && span.paramClose < span.bodyBegin
    && Closes(toks, span.bodyBegin, span.bodyEnd)
  }

  /** Well-formed spans, each after the end of the one before, all before `n`. */
  ghost predicate InOrder(toks: seq<Token>, spans: seq<FunctionSpan>, n: nat) {
    && (forall k: nat :: k < |spans| ==> WellFormed(toks, spans[k]) && spans[k].bodyEnd < n)
    && (forall k: nat, l: nat :: k < l < |spans| ==> spans[k].bodyEnd < spans[l].paramOpen)
  }

  /** `operator()` has its name parentheses first, the parameter list follows. */
  predicate CallOperator(toks: seq<Token>, i: nat)
    requires i < |toks|
  {
    && i >= 1 && IsText(toks[i - 1].sym, "operator") && i + 2 < |toks|
    && toks[i + 1].sym == RParen && toks[i + 2].sym == LParen
  }

  function ParamOpen(toks: seq<Token>, i: nat): nat
    requires i < |toks|
  {
    if CallOperator(toks, i) then i + 2 else i
  }

  /** What the parenthesis at `i` opens: a definition or nothing, and where the scan goes on. */
  ghost function ScanAt(toks: seq<Token>, i: nat): (r: (seq<FunctionSpan>, nat))
    requires i < |toks| && toks[i].sym == LParen
    ensures r.1 > i
  {
    var open := ParamOpen(toks, i);
    if !CallOperator(toks, i) && !HasName(toks, i) then ([], i + 1)
    else
      match Partner(toks, open, LParen, RParen)
      case None => ([], i + 1)
      case Some(c) =>
        match BodyBrace(toks, c + 1)
        case None => ([], c + 1)
        case Some(b) =>
          match Partner(toks, b, LBrace, RBrace)
          case None => ([], c + 1)
          case Some(e) => ([FunctionSpan(open, c, b, e)], e + 1)
  }

  /** Appends a span when the parenthesis at `i` opens a definition. */
  method ScanCandidate(toks: seq<Token>, i: nat, before: seq<FunctionSpan>)
    returns (next: nat, spans: seq<FunctionSpan>)
    requires i < |toks| && toks[i].sym == LParen
    ensures spans == before + ScanAt(toks, i).0 && next == ScanAt(toks, i).1
  {
    hide IsText, HasName, Partner, Matches, BodyBrace;
    var callOperator := i >= 1 && IsText(toks[i - 1].sym, "operator") && i + 2 < |toks|
                        && toks[i + 1].sym == RParen && toks[i + 2].sym == LParen;
    var paramOpen := if callOperator then i + 2 else i;
    if !callOperator && !HasName(toks, i) {
      return i + 1, before;
    }
    var paramClose := FindMatching(toks, paramOpen, LParen, RParen);
    if paramClose == None {
      return i + 1, before;
    }
    next, spans := paramClose.value + 1, before;
    var bodyOpen := FindBodyBrace(toks, paramClose.value);
    if bodyOpen == None {
      return;
    }
    var bodyClose := FindMatching(toks, bodyOpen.value, LBrace, RBrace);
    if bodyClose == None {
      return;
    }
    var span := FunctionSpan(paramOpen, paramClose.value, bodyOpen.value, bodyClose.value);
    next, spans := bodyClose.value + 1, before + [span];
  }

  /** Where the scan resumes after a token that opens no parenthesis: behind the brace of a
      scope, or at the next token. */
  ghost predicate Resumes(toks: seq<Token>, i: nat, next: nat)
    requires i < |toks|
  {
    if IsScopeKeyword(toks[i].sym) && exists b: nat :: OpensScope(toks, i, b)
    then next > 0 && OpensScope(toks, i, next - 1)
    else next == i + 1
  }

  method TrackScopes(toks: seq<Token>, i: nat) returns (next: nat)
    requires i < |toks|
    ensures i < next <= |toks| && Resumes(toks, i, next)
  {
    hide IsScopeKeyword, StopsHead;
    if IsScopeKeyword(toks[i].sym) {
      var brace := FindScopeBrace(toks, i);
      if brace != None {
        return brace.value + 1;
      }
    }
    return i + 1;
  }

  lemma NoLaterStop(toks: seq<Token>, kw: nat, j: nat, k: nat)
    requires FirstStop(toks, kw, j) && j < k
    ensures !FirstStop(toks, kw, k)
  {
    hide StopsHead;
    assert StopsHead(toks, kw, j);
  }

  lemma ResumesOnce(toks: seq<Token>, i: nat, m: nat, n: nat)
    requires i < |toks| && Resumes(toks, i, m) && Resumes(toks, i, n)
    ensures m == n
  {
    hide StopsHead, IsScopeKeyword;
    if IsScopeKeyword(toks[i].sym) && exists b: nat :: OpensScope(toks, i, b) {
      var b: nat, c: nat := m - 1, n - 1;
      if b < c {
        NoLaterStop(toks, i, b, c);
      } else if c < b {
        NoLaterStop(toks, i, c, b);
      }
    }
  }

  ghost function Resume(toks: seq<Token>, i: nat): (next: nat)
    requires i < |toks|
    ensures next > i
  {
    if IsScopeKeyword(toks[i].sym) && exists b: nat :: OpensScope(toks, i, b)
    then var b: nat :| OpensScope(toks, i, b); b + 1
    else i + 1
  }

  lemma ResumeIs(toks: seq<Token>, i: nat)
    requires i < |toks|
    ensures Resumes(toks, i, Resume(toks, i))
  {
    hide StopsHead, IsScopeKeyword;
  }

  /** The definitions from `i` on. */
  ghost function Functions(toks: seq<Token>, i: nat): seq<FunctionSpan>
    decreases |toks| - i
  {
    if i >= |toks| then []
    else if toks[i].sym == LParen then ScanAt(toks, i).0 + Functions(toks, ScanAt(toks, i).1)
    else Functions(toks, Resume(toks, i))
  }

  method DiscoverFunctions(toks: seq<Token>) returns (spans: seq<FunctionSpan>)
    ensures spans == Functions(toks, 0)
  {
    hide ScanAt, Resumes, Resume;
    spans := [];
    var i := 0;
    while i < |toks|
      invariant spans + Functions(toks, i) == Functions(toks, 0)
      decreases |toks| - i
    {
      if toks[i].sym == LParen {
        i, spans := ScanCandidate(toks, i, spans);
      } else {
        ghost var was := i;
        i := TrackScopes(toks, i);
        ResumeIs(toks, was);
        ResumesOnce(toks, was, i, Resume(toks, was));
      }
    }
  }

  // --------------------------------------------------------------- what is found

  lemma ScanIsWellFormed(toks: seq<Token>, i: nat)
    requires i < |toks| && toks[i].sym == LParen
    ensures var (spans, next) := ScanAt(toks, i);
      spans == [] || (|spans| == 1 && WellFormed(toks, spans[0]) && i <= spans[0].paramOpen
          && next == spans[0].bodyEnd + 1)
  {
    hide IsText, HasName, Partner, BodyBrace, Closes, Net;
    var spans := ScanAt(toks, i).0;
    if spans != [] {
      MatchesIsCloses(toks, spans[0].bodyBegin, spans[0].bodyEnd);
    }
  }

  lemma PrependSpan(toks: seq<Token>, span: FunctionSpan, rest: seq<FunctionSpan>)
    requires WellFormed(toks, span) && span.bodyEnd < |toks| && InOrder(toks, rest, |toks|)
    requires forall k: nat :: k < |rest| ==> span.bodyEnd < rest[k].paramOpen
    ensures InOrder(toks, [span] + rest, |toks|)
  {
    hide WellFormed;
    var all := [span] + rest;
    assert forall k: nat :: 0 < k < |all| ==> all[k] == rest[k - 1];
  }

  /** From `i` on all definitions are matched pairs, disjoint, in source order. */
  ghost predicate Ordered(toks: seq<Token>, spans: seq<FunctionSpan>, i: nat) {
    InOrder(toks, spans, |toks|) && forall k: nat :: k < |spans| ==> i <= spans[k].paramOpen
  }

  lemma OrderedFromEarlier(toks: seq<Token>, spans: seq<FunctionSpan>, i: nat, j: nat)
    requires Ordered(toks, spans, j) && i <= j
    ensures Ordered(toks, spans, i)
  {
    hide InOrder;
  }

  lemma ScanPrepends(toks: seq<Token>, i: nat, rest: seq<FunctionSpan>)
    requires i < |toks| && toks[i].sym == LParen && Ordered(toks, rest, ScanAt(toks, i).1)
    ensures Ordered(toks, ScanAt(toks, i).0 + rest, i)
  {
    hide ScanAt, WellFormed;
    ScanIsWellFormed(toks, i);
    var spans := ScanAt(toks, i).0;
    if spans == [] {
      assert spans + rest == rest;
    } else {
      SpanInside(toks, spans[0]);
      PrependSpan(toks, spans[0], rest);
      assert spans == [spans[0]];
    }
  }

  lemma SpanInside(toks: seq<Token>, span: FunctionSpan)
    requires WellFormed(toks, span)
    ensures span.paramOpen < span.bodyEnd < |toks|
  {
    hide Net, Level, NeverUnder;
  }

  lemma NothingOrdered(toks: seq<Token>, i: nat)
    ensures Ordered(toks, [], i)
  {
  }

  lemma {:induction false} FunctionsInOrder(toks: seq<Token>, i: nat)
    ensures Ordered(toks, Functions(toks, i), i)
    decreases |toks| - i
  {
    hide ScanAt, Resume, Ordered;
    if i >= |toks| {
      NothingOrdered(toks, i);
    } else if toks[i].sym == LParen {
      FunctionsInOrder(toks, ScanAt(toks, i).1);
      ScanPrepends(toks, i, Functions(toks, ScanAt(toks, i).1));
    } else {
      FunctionsInOrder(toks, Resume(toks, i));
      OrderedFromEarlier(toks, Functions(toks, i), i, Resume(toks, i));
    }
  }

  lemma QualifierStep(toks: seq<Token>, k: nat)
    requires k < |toks| && IsPlainQualifier(toks[k].sym) && !TakesArgument(toks, k)
    ensures BodyBrace(toks, k) == BodyBrace(toks, k + 1)
  {
    hide TakesArgument, BraceAfterInits, BraceAfterReturn, Partner;
  }

  lemma BodyEndsAt(toks: seq<Token>, k: nat)
    requires k < |toks|
    ensures toks[k].sym == LBrace ==> BodyBrace(toks, k) == Some(k)
    ensures toks[k].sym == Semicolon ==> BodyBrace(toks, k) == None
  {
    hide BraceAfterInits, BraceAfterReturn, Partner;
  }

  lemma {:induction false} QualifiersLeadToBrace(toks: seq<Token>, k: nat, b: nat)
    requires k <= b < |toks| && toks[b].sym == LBrace
    requires forall m: nat :: k <= m < b ==> IsPlainQualifier(toks[m].sym) && !TakesArgument(toks, m)
    ensures BodyBrace(toks, k) == Some(b)
    decreases b - k
  {
    hide BodyBrace, IsPlainQualifier, TakesArgument;
    if k < b {
      QualifierStep(toks, k);
      QualifiersLeadToBrace(toks, k + 1, b);
    } else {
      BodyEndsAt(toks, b);
    }
  }

  lemma BodyMakesSpan(toks: seq<Token>, i: nat, c: nat, b: nat, e: nat)
    requires Matches(toks, LParen, RParen, i, c) && HasName(toks, i) && !CallOperator(toks, i)
    requires BodyBrace(toks, c + 1) == Some(b) && Closes(toks, b, e)
    ensures ScanAt(toks, i) == ([FunctionSpan(i, c, b, e)], e + 1)
  {
    hide Partner, HasName, CallOperator, BodyBrace, Net, Closes;
    PartnerIs(toks, LParen, RParen, i, c);
    MatchesIsCloses(toks, b, e);
    PartnerIs(toks, LBrace, RBrace, b, e);
  }

  /** A named parameter list with nothing but qualifiers before a body is found, and its
      body is left out of the search. */
  lemma PlainDefinitionFound(toks: seq<Token>, i: nat, c: nat, b: nat, e: nat)
    requires Matches(toks, LParen, RParen, i, c) && HasName(toks, i) && !CallOperator(toks, i)
    requires c < b && Closes(toks, b, e)
    requires forall m: nat :: c < m < b ==> IsPlainQualifier(toks[m].sym) && !TakesArgument(toks, m)
    ensures Functions(toks, i) == [FunctionSpan(i, c, b, e)] + Functions(toks, e + 1)
  {
    hide HasName, CallOperator, IsPlainQualifier, TakesArgument, BodyBrace, Net, Level, NeverUnder, ScanAt;
    QualifiersLeadToBrace(toks, c + 1, b);
    BodyMakesSpan(toks, i, c, b, e);
  }

  lemma {:induction false} QualifiersLeadNowhere(toks: seq<Token>, k: nat, b: nat)
    requires k <= b < |toks| && toks[b].sym == Semicolon
    requires forall m: nat :: k <= m < b ==> IsPlainQualifier(toks[m].sym) && !TakesArgument(toks, m)
    ensures BodyBrace(toks, k) == None
    decreases b - k
  {
    hide BodyBrace, IsPlainQualifier, TakesArgument;
    if k < b {
      QualifierStep(toks, k);
      QualifiersLeadNowhere(toks, k + 1, b);
    } else {
      BodyEndsAt(toks, b);
    }
  }

  lemma NoBodyNoSpan(toks: seq<Token>, i: nat, c: nat)
    requires Matches(toks, LParen, RParen, i, c) && HasName(toks, i) && !CallOperator(toks, i)
    requires BodyBrace(toks, c + 1) == None
    ensures ScanAt(toks, i) == ([], c + 1)
  {
    hide Partner, HasName, CallOperator, BodyBrace, Net;
    PartnerIs(toks, LParen, RParen, i, c);
  }

  /** A declaration or a call is none, and the search goes on behind its parentheses. */
  lemma DeclarationPassed(toks: seq<Token>, i: nat, c: nat, b: nat)
    requires Matches(toks, LParen, RParen, i, c) && HasName(toks, i) && !CallOperator(toks, i)
    requires c < b < |toks| && toks[b].sym == Semicolon
    requires forall m: nat :: c < m < b ==> IsPlainQualifier(toks[m].sym) && !TakesArgument(toks, m)
    ensures Functions(toks, i) == Functions(toks, c + 1)
  {
    hide HasName, CallOperator, IsPlainQualifier, TakesArgument, BodyBrace, Net, ScanAt;
    QualifiersLeadNowhere(toks, c + 1, b);
    NoBodyNoSpan(toks, i, c);
    assert [] + Functions(toks, c + 1) == Functions(toks, c + 1);
  }

  // --------------------------------------------------------- scoring what is found

  lemma {:induction false} LevelIsBraceDepth(toks: seq<Token>, i: nat, j: nat, k: nat)
    requires i <= j <= |toks| && k <= j - i
    ensures Level(toks, i, i + k) == BraceDepth(toks[i..j], k)
  {
    if k > 0 {
      LevelIsBraceDepth(toks, i, j, k - 1);
      assert toks[i..j][k - 1] == toks[i + (k - 1)];
    }
  }

  /** Over the body of a discovered function the scorer's brace stack is never popped
      while empty, and ends empty. */
  lemma BodyKeepsBraceStack(toks: seq<Token>, span: FunctionSpan)
    requires WellFormed(toks, span)
    ensures var body := toks[span.bodyBegin + 1..span.bodyEnd];
      && RunFrom(Initial(), body, 0).braces == []
      && forall k: nat :: k <= |body| ==> |RunFrom(Initial(), body[..k], 0).braces| == BraceDepth(body, k) >= 0
  {
    hide *;
    InitialBalanced();
    BodyDepths(toks, span);
    var body := toks[span.bodyBegin + 1..span.bodyEnd];
    forall k: nat | k <= |body|
      ensures |RunFrom(Initial(), body[..k], 0).braces| == BraceDepth(body, k)
    {
      PrefixBraces(body, k);
    }
    assert body[..|body|] == body;
  }

  lemma BodyDepths(toks: seq<Token>, span: FunctionSpan)
    requires WellFormed(toks, span)
    ensures span.bodyBegin + 1 <= span.bodyEnd <= |toks|
    ensures var body := toks[span.bodyBegin + 1..span.bodyEnd];
      BraceDepth(body, |body|) == 0 && forall k: nat :: k <= |body| ==> BraceDepth(body, k) >= 0
  {
    var i, j := span.bodyBegin + 1, span.bodyEnd;
    forall k: nat | k <= j - i
      ensures Level(toks, i, i + k) == BraceDepth(toks[i..j], k)
    {
      LevelIsBraceDepth(toks, i, j, k);
    }
  }

  lemma {:induction false} DepthOfPrefix(body: seq<Token>, n: nat, k: nat)
    requires k <= n <= |body|
    ensures BraceDepth(body[..n], k) == BraceDepth(body, k)
  {
    if k > 0 {
      DepthOfPrefix(body, n, k - 1);
    }
  }

  lemma PrefixBraces(body: seq<Token>, n: nat)
    requires n <= |body| && forall k: nat :: k <= |body| ==> BraceDepth(body, k) >= 0
    ensures |RunFrom(Initial(), body[..n], 0).braces| == BraceDepth(body, n)
  {
    hide RunFrom;
    forall k: nat | k <= n
      ensures BraceDepth(body[..n], k) == BraceDepth(body, k)
    {
      DepthOfPrefix(body, n, k);
    }
    InitialBalanced();
    RunBraces(Initial(), body[..n], 0);
  }
}
