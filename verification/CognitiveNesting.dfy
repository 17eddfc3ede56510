/** Programs on which the scorer is wrong about the nesting, in closed form: a family for each
    cause, and one with lambdas on which it is right. */
module CognitiveNesting {
  import opened Tokens
  import opened ScoreMachine
  import opened CognitiveTree
  import opened CognitiveCost
  import opened CognitiveMetric
  import opened CognitiveDeviations
  import opened CognitivePlain
  import opened CognitiveTheorems
  import opened CognitiveFamilies

  // ------------------------------------------------------------ bodies closed too early

  /** `for (id) body` */
  function Loop(body: Body): Stmt {
    Control(Head(For, [ID]), body)
  }

  lemma LoopIs(body: Body, mode: Mode, f: nat, n: int)
    requires !mode.swallow
    ensures var b := ArmedCost(body, Passed(mode), f);
      Costs(StmtCost(Loop(body), mode, f), 1 + Level(mode, f) + b.score, b.mode)
    ensures CognitiveStmt(Loop(body), n) == 1 + n + CognitiveBody(body, n + 1)
    ensures ValidStmt(Loop(body)) == ValidBody(body) && !StartsWithBrace(Loop(body))
  {
    hide HeaderCost, GroupCost, LooseCost, ItemsCost, ArmedCost, Expression, CognitiveBody, ValidItems, ValidBody;
    IdAlone(mode, f, n);
    IdIsValid(true);
  }

  /** `if (id) for (id) { ss }`: a braceless body around a braced one. */
  function Around(ss: seq<Stmt>): Stmt {
    If1([ID], Bare(Loop(Block(ss))))
  }

  lemma AroundIs(ss: seq<Stmt>, mode: Mode, f: nat, n: int)
    requires !mode.swallow
    ensures var c := StmtsCost(ss, Passed(mode).(open := mode.open + 1), f + 1);
      Costs(StmtCost(Around(ss), mode, f), 3 + 2 * Level(mode, f) + c.score, c.mode)
    ensures CognitiveStmt(Around(ss), n) == 3 + 2 * n + Cognitive(ss, n + 2)
    ensures ValidStmt(Around(ss)) == ValidStmts(ss)
  {
    hide HeaderCost, GroupCost, ItemsCost, Expression, ValidItems, StmtCost, StmtsCost, CognitiveStmt, Cognitive;
    hide ValidStmt, ValidStmts, StartsWithBrace, Loop;
    IdAlone(mode, f, n);
    IdIsValid(true);
    If1Is([ID], Bare(Loop(Block(ss))), mode, 0, mode, f, n);
    LoopIs(Block(ss), Passed(mode).(open := mode.open + 1), f, n + 1);
  }

  /** `if (id) for (id) { if (id) id; if (id) id; ... }` costs 3 for each inner if. But the
      first `;` closes the outer body as well, so from then on the scorer says 2. */
  lemma ClosedEarly(d: nat, toks: seq<Token>)
    requires d > 0 && Spells(toks, PrintStmts([Around(Repeat(BareIf(), d))]))
    ensures Cognitive([Around(Repeat(BareIf(), d))], 0) == 3 + 3 * d && ScoreOf(toks) == 4 + 2 * d
  {
    hide StmtsCost, Cognitive, ValidStmts, Spells, ScoreOf, PrintStmts, StmtCost, CognitiveStmt, ValidStmt, BareIf,
      Around;
    var s, rest, inner := BareIf(), Repeat(BareIf(), d - 1), START.(open := 1);
    BareIfIs(inner, 1, 2);
    BareIfIs(START, 1, 2);
    assert Rest(Passed(inner).(open := 2)) == START && Rest(Passed(START).(open := 1)) == START;
    assert Passed(START).(open := START.open + 1) == inner;
    RepeatCosts(s, d - 1, START, 1, 2);
    StmtsCons(s, rest, inner, 1, 2);
    AroundIs(Repeat(s, d), START, 0, 0);
    OneStmt(Around(Repeat(s, d)), START, 0, 0);
    MachineScores([Around(Repeat(s, d))], toks);
  }

  // ------------------------------------------------------------- bodies closed too late

  /** `if (id) for (id) { } if (id) { } if (id) { } ...`: no `;` closes the braceless body,
      so each of the later ifs is charged one level for it. */
  lemma ClosedLate(d: nat, toks: seq<Token>)
    requires Spells(toks, PrintStmts([Around([])] + Repeat(EmptyIf(), d)))
    ensures Cognitive([Around([])] + Repeat(EmptyIf(), d), 0) == 3 + d && ScoreOf(toks) == 3 + 2 * d
  {
    hide StmtsCost, Cognitive, ValidStmts, Spells, ScoreOf, PrintStmts, StmtCost, CognitiveStmt, ValidStmt, EmptyIf,
      Around;
    var s, later := EmptyIf(), START.(open := 1);
    assert Passed(later) == later && Passed(START).(open := START.open + 1) == later;
    EmptyStmts(later, 1, 2);
    AroundIs([], START, 0, 0);
    EmptyIfIs(later, 0, 0);
    RepeatCosts(s, d, later, 0, 0);
    StmtsCons(Around([]), Repeat(s, d), START, 0, 0);
    MachineScores([Around([])] + Repeat(s, d), toks);
  }

  // ---------------------------------------------------- scopes taken for lambda bodies

  /** `if (id[id]) { { ss } }` */
  function Indexing(ss: seq<Stmt>): Stmt {
    If1([ID] + [Subscript([ID])], Block([Scope([], ss)]))
  }

  lemma IndexIs(mode: Mode, f: nat, n: int)
    ensures var xs := [ID] + [Subscript([ID])];
      && Costs(HeaderCost(xs, mode, f), 0, Heading(mode.(lambda := true)))
      && Expression(xs, n) == 0 && ValidItems(xs, true)
  {
    hide ItemsCost, Expression, ValidItems, Within, Marks, RunsAfter;
    var it, there := Subscript([ID]), InsideHeader(mode);
    IdAlone(there.(lambda := true), f, n);
    IdIsValid(true);
    OneItem(it, there, f, n, true);
    ExpressionIs([ID] + [it], n);
    NoRuns(Cut);
  }

  lemma ScopeIs(ss: seq<Stmt>, mode: Mode, f: nat, n: int)
    requires mode.lambda
    ensures var c := StmtsCost(ss, mode.(lambda := false), f + 1);
      Costs(StmtCost(Scope([], ss), mode, f), c.score, c.mode)
    ensures CognitiveStmt(Scope([], ss), n) == Cognitive(ss, n) && ValidStmt(Scope([], ss)) == ValidStmts(ss)
  {
    hide StmtsCost, Cognitive, ValidStmts, ItemsCost, Expression, ValidItems, RunsAfter;
    EmptyItems(mode, f, n, false);
    ExpressionIs([], n);
    NoRuns(Cut);
  }

  /** `if (id[id]) { { if (id) { } if (id) { } ... } }`: the scorer takes the inner scope for
      a lambda body, and everything in it is charged one level more. */
  lemma ScopeTakenForLambda(d: nat, toks: seq<Token>)
    requires Spells(toks, PrintStmts([Indexing(Repeat(EmptyIf(), d))]))
    ensures Cognitive([Indexing(Repeat(EmptyIf(), d))], 0) == 1 + 2 * d && ScoreOf(toks) == 1 + 3 * d
  {
    hide StmtsCost, Cognitive, ValidStmts, Spells, ScoreOf, PrintStmts, StmtCost, CognitiveStmt, ValidStmt, EmptyIf;
    hide HeaderCost, Expression, ValidItems;
    var ss, pending := Repeat(EmptyIf(), d), START.(lambda := true);
    assert Passed(START) == START && Passed(pending) == pending;
    EmptyIfIs(START, 2, 1);
    RepeatCosts(EmptyIf(), d, START, 2, 1);
    ScopeIs(ss, pending, 1, 1);
    OneStmt(Scope([], ss), pending, 1, 1);
    IndexIs(START, 0, 0);
    If1Is([ID] + [Subscript([ID])], Block([Scope([], ss)]), START, 0, pending, 0, 0);
    OneStmt(Indexing(ss), START, 0, 0);
    MachineScores([Indexing(ss)], toks);
  }

  // --------------------------------------------------------------------------- lambdas

  const EQUALS: Item := Atom(Equals)

  /** `id([captures] { ss })` */
  function Passing(captures: seq<Item>, ss: seq<Stmt>): seq<Item> {
    [ID] + [Paren([Lambda(captures, [], ss)])]
  }

  lemma LambdaIs(captures: seq<Item>, ss: seq<Stmt>, mode: Mode, there: Mode, f: nat, n: int)
    requires Costs(ItemsCost(captures, mode.(lambda := true), f), 0, there)
    requires Expression(captures, n) == 0 && ValidItems(captures, true)
    ensures var it, c := Lambda(captures, [], ss), StmtsCost(ss, there.(lambda := false), InBrace(there, f));
      && Costs(ItemCost(it, mode, f), c.score, c.mode)
      && ItemValue(it, n) == Cognitive(ss, n + 1) && MarkOf(it) == [] && ValidItem(it, true) == ValidStmts(ss)
  {
    hide ItemsCost, StmtsCost, Expression, Cognitive, ValidItems, ValidStmts, InBrace, RunsAfter;
    EmptyItems(there, f, n, true);
    ExpressionIs([], n);
    NoRuns(Cut);
  }

  /** The argument of a call, as an expression of its own or in a header. */
  lemma PassingIs(captures: seq<Item>, ss: seq<Stmt>, mode: Mode, there: Mode, f: nat, n: int, inside: bool)
    requires Costs(ItemsCost(captures, Inside(mode).(lambda := true), f), 0, there)
    requires Expression(captures, n) == 0 && ValidItems(captures, true)
    ensures var c := StmtsCost(ss, there.(lambda := false), InBrace(there, f));
      Costs(ItemsCost(Passing(captures, ss), mode, f), c.score, c.mode.(op := mode.op, depth := mode.depth))
    ensures Expression(Passing(captures, ss), n) == Cognitive(ss, n + 1)
    ensures ValidItems(Passing(captures, ss), inside) == ValidStmts(ss)
  {
    hide ItemsCost, StmtsCost, Expression, Cognitive, ValidItems, ValidStmts, InBrace, RunsAfter, Within, Marks;
    hide ItemCost, ItemValue, MarkOf, ValidItem;
    var it := Lambda(captures, [], ss);
    LambdaIs(captures, ss, Inside(mode), there, f, n);
    SingleItem(it, Inside(mode), f, n, true);
    ExpressionIs([it], n);
    NoRuns(Cut);
    ParenIs([it], mode, f, n, inside);
    OneItem(Paren([it]), mode, f, n, inside);
    ExpressionIs(Passing(captures, ss), n);
  }

  /** A lambda without captures. */
  lemma PassingNothing(ss: seq<Stmt>, mode: Mode, f: nat, n: int, inside: bool)
    requires !mode.lambda
    ensures var c := StmtsCost(ss, Inside(mode), f + 1);
      Costs(ItemsCost(Passing([], ss), mode, f), c.score, c.mode.(op := mode.op, depth := mode.depth))
    ensures Expression(Passing([], ss), n) == Cognitive(ss, n + 1)
    ensures ValidItems(Passing([], ss), inside) == ValidStmts(ss)
  {
    hide ItemsCost, StmtsCost, Expression, Cognitive, ValidItems, ValidStmts, Passing;
    var there := Inside(mode).(lambda := true);
    NoCaptures(there, f, n);
    PassingIs([], ss, mode, there, f, n, inside);
    assert there.(lambda := false) == Inside(mode);
  }

  /** `id([...] { ss });` */
  lemma PassedScore(captures: seq<Item>, ss: seq<Stmt>, toks: seq<Token>)
    requires ValidItems(Passing(captures, ss), false) && Spells(toks, PrintStmts([Simple(Passing(captures, ss))]))
    ensures Cognitive([Simple(Passing(captures, ss))], 0) == Expression(Passing(captures, ss), 0)
    ensures ScoreOf(toks) == ItemsCost(Passing(captures, ss), START, 0).score
  {
    hide ItemsCost, StmtsCost, Expression, Cognitive, ValidItems, ValidStmts, Passing, Spells, ScoreOf, PrintStmts;
    OneStmt(Simple(Passing(captures, ss)), START, 0, 0);
    MachineScores([Simple(Passing(captures, ss))], toks);
  }

  lemma InsideStart()
    ensures var inner := Inside(START);
      inner.depth > 0 && !inner.swallow && !inner.lambda && Level(inner, 0) == 0 && Level(inner, 1) == 1
  {
  }

  lemma ParenIs(xs: seq<Item>, mode: Mode, f: nat, n: int, inside: bool)
    ensures ItemCost(Paren(xs), mode, f) == Outside(ItemsCost(xs, Inside(mode), f), mode)
    ensures ItemValue(Paren(xs), n) == Expression(xs, n) && MarkOf(Paren(xs)) == []
    ensures ValidItem(Paren(xs), inside) == ValidItems(xs, true)
  {
    hide ItemsCost, Expression, ValidItems;
  }

  lemma NoCaptures(mode: Mode, f: nat, n: int)
    ensures Costs(ItemsCost([], mode, f), 0, mode) && Expression([], n) == 0 && ValidItems([], true)
  {
    hide ItemsCost, Expression, ValidItems, Within, Marks, RunsAfter;
    EmptyItems(mode, f, n, true);
    ExpressionIs([], n);
    NoRuns(Cut);
  }

  /** In parentheses no `;` closes a braceless body: the d-th is charged d levels for those
      before it. */
  lemma {:induction false} PilesUp(d: nat, mode: Mode, f: nat, n: int)
    requires mode.depth > 0 && !mode.swallow
    ensures 2 * StmtsCost(Repeat(BareIf(), d), mode, f).score == Triangle(d, Level(mode, f))
    ensures Cognitive(Repeat(BareIf(), d), n) == Times(d, 1 + n) && ValidStmts(Repeat(BareIf(), d))
    decreases d
  {
    hide StmtCost, StmtsCost, CognitiveStmt, Cognitive, ValidStmt, ValidStmts, BareIf, Triangle, Times;
    TriangleStep(d, Level(mode, f));
    OneMore(d, 1 + n);
    if d == 0 {
      EmptyStmts(mode, f, n);
    } else {
      BareIfIs(mode, f, n);
      PilesUp(d - 1, Passed(mode).(open := mode.open + 1), f, n);
      StmtsCons(BareIf(), Repeat(BareIf(), d - 1), mode, f, n);
    }
  }

  lemma Closed(d: int)
    ensures Triangle(d, 1) == d * (d + 3) && Times(d, 2) == 2 * d && Times(d, 1) == d
  {
  }

  /** `id([] { if (id) id; if (id) id; ... });` costs 2 for each if; but each of them is
      charged one level more than the one before. */
  lemma LambdaPilesUp(d: nat, toks: seq<Token>)
    requires Spells(toks, PrintStmts([Simple(Passing([], Repeat(BareIf(), d)))]))
    ensures Cognitive([Simple(Passing([], Repeat(BareIf(), d)))], 0) == 2 * d && 2 * ScoreOf(toks) == d * (d + 3)
  {
    hide StmtsCost, Cognitive, ValidStmts, Spells, ScoreOf, PrintStmts, BareIf, Passing, ItemsCost, Expression;
    hide ValidItems, Triangle, Times, Level, Inside;
    Closed(d);
    InsideStart();
    PassingNothing(Repeat(BareIf(), d), START, 0, 0, false);
    PilesUp(d, Inside(START), 1, 1);
    PassedScore([], Repeat(BareIf(), d), toks);
  }

  /** `if (id) { } if (id) { } ...`, wherever it stands. */
  lemma {:induction false} ManyIfs(d: nat, mode: Mode, f: nat, n: int)
    requires !mode.swallow
    ensures var c := StmtsCost(Repeat(EmptyIf(), d), mode, f);
      Costs(c, Times(d, 1 + Level(mode, f)), if d == 0 then mode else Passed(mode))
    ensures Cognitive(Repeat(EmptyIf(), d), n) == Times(d, 1 + n) && ValidStmts(Repeat(EmptyIf(), d))
    decreases d
  {
    hide StmtCost, StmtsCost, CognitiveStmt, Cognitive, ValidStmt, ValidStmts, EmptyIf, Times;
    OneMore(d, 1 + Level(mode, f));
    OneMore(d, 1 + n);
    if d == 0 {
      EmptyStmts(mode, f, n);
    } else {
      EmptyIfIs(mode, f, n);
      ManyIfs(d - 1, Passed(mode), f, n);
      StmtsCons(EmptyIf(), Repeat(EmptyIf(), d - 1), mode, f, n);
    }
  }

  lemma EqualsIs(x: Item, mode: Mode, f: nat, n: int)
    requires x == EQUALS
    ensures Costs(ItemCost(x, mode, f), 0, mode.(lambda := false))
    ensures ItemValue(x, n) == 0 && MarkOf(x) == [] && ValidItem(x, true)
  {
  }

  lemma CaptureAll(mode: Mode, f: nat, n: int)
    ensures Costs(ItemsCost([EQUALS], mode, f), 0, mode.(lambda := false))
    ensures Expression([EQUALS], n) == 0 && ValidItems([EQUALS], true)
  {
    hide ItemsCost, Expression, ValidItems, Within, Marks, RunsAfter, ItemCost, ItemValue, MarkOf, ValidItem;
    EqualsIs(EQUALS, mode, f, n);
    SingleItem(EQUALS, mode, f, n, true);
    ExpressionIs([EQUALS], n);
    NoRuns(Cut);
  }

  /** `id([=] { if (id) { } if (id) { } ... });`: the `=` makes the scorer forget the `[`, so
      that the body counts for no level. */
  lemma CaptureForgetsLambda(d: nat, toks: seq<Token>)
    requires Spells(toks, PrintStmts([Simple(Passing([EQUALS], Repeat(EmptyIf(), d)))]))
    ensures Cognitive([Simple(Passing([EQUALS], Repeat(EmptyIf(), d)))], 0) == 2 * d && ScoreOf(toks) == d
  {
    hide StmtsCost, Cognitive, ValidStmts, Spells, ScoreOf, PrintStmts, EmptyIf, Passing, ItemsCost, Expression;
    hide ValidItems, Times, Level;
    var inner := Inside(START);
    Closed(d);
    InsideStart();
    CaptureAll(inner.(lambda := true), 0, 0);
    PassingIs([EQUALS], Repeat(EmptyIf(), d), START, inner, 0, 0, false);
    ManyIfs(d, inner, 0, 1);
    PassedScore([EQUALS], Repeat(EmptyIf(), d), toks);
  }

  lemma LooseBody(body: Body, mode: Mode, f: nat)
    requires !mode.header
    ensures BodyCost(body, mode, f) == LooseCost(body, mode, f)
  {
    hide LooseCost, ArmedCost;
  }

  lemma LooseBlock(ss: seq<Stmt>, mode: Mode, f: nat)
    ensures LooseCost(Block(ss), mode, f) == ScopeCost(ss, mode, f)
  {
    hide ScopeCost;
  }

  lemma PlainScopeIs(ss: seq<Stmt>, mode: Mode, f: nat)
    requires !mode.header && !mode.lambda
    ensures var c := StmtsCost(ss, mode, f);
      Costs(BodyCost(Block(ss), mode, f), c.score, c.mode)
  {
    hide StmtsCost, BodyCost, LooseCost;
    LooseBody(Block(ss), mode, f);
    LooseBlock(ss, mode, f);
    assert mode.(lambda := false) == mode;
  }

  /** A header that has been ended inside: the scorer does not know its body for one. */
  lemma LostHeaderIs(xs: seq<Item>, ss: seq<Stmt>, mode: Mode, v: int, there: Mode, f: nat, n: int)
    requires Costs(HeaderCost(xs, mode, f), v, there) && !there.header && !there.lambda
    ensures var c := StmtsCost(ss, there, f);
      Costs(StmtCost(If1(xs, Block(ss)), mode, f), 1 + Level(mode, f) + v + c.score, c.mode)
    ensures CognitiveStmt(If1(xs, Block(ss)), n) == 1 + n + Expression(xs, n) + Cognitive(ss, n + 1)
    ensures ValidStmt(If1(xs, Block(ss))) == (ValidItems(xs, true) && ValidStmts(ss))
  {
    hide HeaderCost, StmtsCost, Expression, Cognitive, ValidItems, ValidStmts, BodyCost;
    PlainScopeIs(ss, there, f);
    NoTailIs(StmtsCost(ss, there, f).mode, f, n);
  }

  /** `if (id([] { if (id) { } })) { ss }` */
  function Asking(ss: seq<Stmt>): Stmt {
    If1(Passing([], Repeat(EmptyIf(), 1)), Block(ss))
  }

  lemma OneTime(x: int)
    ensures Times(1, x) == x
  {
  }

  lemma AskingHeader(mode: Mode, f: nat, n: int)
    requires !mode.swallow
    ensures var xs := Passing([], Repeat(EmptyIf(), 1));
      && Costs(HeaderCost(xs, mode, f), 2 + Level(mode, f),
               mode.(base := mode.depth + 2, lambda := false, header := false))
      && Expression(xs, n) == 2 + n && ValidItems(xs, true)
  {
    hide StmtsCost, Cognitive, ValidStmts, EmptyIf, Passing, ItemsCost, Expression, ValidItems, Repeat, Times;
    var ss, there := Repeat(EmptyIf(), 1), InsideHeader(mode);
    OneTime(1 + Level(Inside(there), f + 1));
    OneTime(2 + n);
    NoCaptures(Inside(there).(lambda := true), f, n);
    PassingIs([], ss, there, Inside(there).(lambda := true), f, n, true);
    ManyIfs(1, Inside(there).(lambda := false), f + 1, n + 1);
  }

  /** `if (id([] { if (id) { } })) { if (id) { } if (id) { } ... }`: the inner header ends the
      outer one, so that its body counts for no level. */
  lemma HeaderLost(d: nat, toks: seq<Token>)
    requires Spells(toks, PrintStmts([Asking(Repeat(EmptyIf(), d))]))
    ensures Cognitive([Asking(Repeat(EmptyIf(), d))], 0) == 3 + 2 * d && ScoreOf(toks) == 3 + d
  {
    hide StmtsCost, Cognitive, ValidStmts, Spells, ScoreOf, PrintStmts, StmtCost, CognitiveStmt, ValidStmt, EmptyIf,
      Passing;
    hide HeaderCost, Expression, ValidItems, Times;
    var ss, there := Repeat(EmptyIf(), d), START.(base := 2);
    Closed(d);
    AskingHeader(START, 0, 0);
    ManyIfs(d, there, 0, 1);
    LostHeaderIs(Passing([], Repeat(EmptyIf(), 1)), ss, START, 2, there, 0, 0);
    OneStmt(Asking(ss), START, 0, 0);
    MachineScores([Asking(ss)], toks);
  }

  // ------------------------------------------------------------- lambdas that are plain

  lemma {:induction false} IfsArePlain(d: nat)
    ensures PlainLambda(Repeat(EmptyIf(), d))
    decreases d
  {
    hide PlainInside, EmptyIf;
    if d > 0 {
      IfsArePlain(d - 1);
      EmptyIfIsPlain(Brace, Bracket);
      assert ([EmptyIf()] + Repeat(EmptyIf(), d - 1))[1..] == Repeat(EmptyIf(), d - 1);
    }
  }

  lemma EmptyIfIsPlain(k1: Kind, k2: Kind)
    requires k1 == Brace && k2 == Bracket
    ensures PlainInside(EmptyIf())
  {
    hide Plain, OneSequence, Holds;
    OneIsPlain([ID], k1);
    OneIsPlain([ID], k2);
    NoStmtIsPlain([]);
  }

  lemma NoStmtIsPlain(ss: seq<Stmt>)
    requires ss == []
    ensures PlainLambda(ss)
  {
  }

  /** A plain item behind a name, or alone. */
  lemma ItemIsPlain(xs: seq<Item>, kind: Kind)
    requires xs != [] && xs[0] == ID && |xs| == 2 && PlainItem(xs[1]) && !xs[1].Logical? && !HoldsItem(xs[1], kind)
    requires kind == Brace
    ensures Plain(xs) && OneSequence(xs) && !Holds(xs, kind)
  {
    hide PlainItem, HoldsItem, Continues;
    NothingIsPlain(xs[2..], kind);
    assert xs[1..][1..] == xs[2..];
    assert PlainItem(ID) && !HoldsItem(ID, kind) by { IdItemIsPlain(ID, kind); }
  }

  lemma IdItemIsPlain(it: Item, kind: Kind)
    requires it == ID && kind == Brace
    ensures PlainItem(it) && !HoldsItem(it, kind)
  {
  }

  lemma AloneIsPlain(xs: seq<Item>, kind: Kind)
    requires |xs| == 1 && PlainItem(xs[0]) && !xs[0].Logical? && !HoldsItem(xs[0], kind) && kind == Brace
    ensures Plain(xs) && OneSequence(xs) && !Holds(xs, kind)
  {
    hide PlainItem, HoldsItem, Continues;
    NothingIsPlain(xs[1..], kind);
  }

  lemma LambdaIsPlain(nothing: seq<Item>, ss: seq<Stmt>, kind: Kind)
    requires PlainLambda(ss) && kind == Brace && nothing == []
    ensures var it := Lambda(nothing, nothing, ss);
      PlainItem(it) && !HoldsItem(it, kind)
  {
    hide PlainLambda, Plain, Holds;
  }

  lemma ArgumentIsPlain(xs: seq<Item>, kind: Kind)
    requires Plain(xs) && OneSequence(xs) && !Holds(xs, kind) && kind == Brace
    ensures PlainItem(Paren(xs)) && !HoldsItem(Paren(xs), kind)
  {
    hide Plain, OneSequence, Holds;
  }

  /** `id([] { if (id) { } if (id) { } ... });` is plain, and scores 2 for each if. */
  lemma PlainLambdaScores(d: nat, toks: seq<Token>)
    requires Spells(toks, PrintStmts([Simple(Passing([], Repeat(EmptyIf(), d)))]))
    ensures ScoreOf(toks) == 2 * d == Cognitive([Simple(Passing([], Repeat(EmptyIf(), d)))], 0)
  {
    hide StmtsCost, Cognitive, ValidStmts, Spells, PrintStmts, EmptyIf, ItemsCost, Expression, ValidItems, Times;
    hide Plain, OneSequence, Holds, PlainLambda, PlainItem, HoldsItem, RunFrom, Level, Inside;
    var ss := Repeat(EmptyIf(), d);
    Closed(d);
    InsideStart();
    PassingNothing(ss, START, 0, 0, false);
    ManyIfs(d, Inside(START), 1, 1);
    PassedScore([], ss, toks);
    IfsArePlain(d);
    LambdaIsPlain([], ss, Brace);
    AloneIsPlain([Lambda([], [], ss)], Brace);
    ArgumentIsPlain([Lambda([], [], ss)], Brace);
    ItemIsPlain(Passing([], ss), Brace);
    OneStmt(Simple(Passing([], ss)), START, 0, 0);
    PlainOne(Simple(Passing([], ss)), true);
    MachineIsCognitive([Simple(Passing([], ss))], toks);
  }

  // -------------------------------------------------------------------------- do-while

  /** `do { } while (id);` */
  function DoNothing(): Stmt {
    DoWhile(Block([]), [ID])
  }

  lemma DoNothingIs(mode: Mode, f: nat, n: int)
    requires mode.open == 0 && !mode.lambda && mode.depth == 0
    ensures Costs(StmtCost(DoNothing(), mode, f), 1 + Level(mode, f), mode.(swallow := true))
    ensures CognitiveStmt(DoNothing(), n) == 1 + n && ValidStmt(DoNothing())
  {
    hide StmtsCost, Cognitive, ValidStmts, GroupCost, HeaderCost, HeadCost, Expression, ValidItems;
    EmptyStmts(mode, f + 1, n + 1);
    IdAlone(mode.(swallow := true), f, n);
    IdIsValid(true);
  }

  /** `while (id) { }` */
  function EmptyWhile(): Stmt {
    Control(Head(While, [ID]), Block([]))
  }

  lemma UnseenWhile(mode: Mode, f: nat, n: int)
    requires mode.swallow && !mode.lambda
    ensures Costs(StmtCost(EmptyWhile(), mode, f), 0, mode)
    ensures CognitiveStmt(EmptyWhile(), n) == 1 + n && ValidStmt(EmptyWhile())
  {
    hide StmtsCost, Cognitive, ValidStmts, GroupCost, HeadCost, BodyCost, Expression, ValidItems;
    EmptyStmts(mode, f, n + 1);
    IdAlone(mode, f, n);
    IdIsValid(true);
  }

  /** After a do-while, no while loop is charged any more until another header comes. */
  lemma LoopsUnseen(d: nat, toks: seq<Token>)
    requires Spells(toks, PrintStmts([DoNothing()] + Repeat(EmptyWhile(), d)))
    ensures Cognitive([DoNothing()] + Repeat(EmptyWhile(), d), 0) == 1 + d && ScoreOf(toks) == 1
  {
    hide StmtsCost, Cognitive, ValidStmts, Spells, ScoreOf, PrintStmts, StmtCost, CognitiveStmt, ValidStmt, EmptyWhile;
    hide DoNothing;
    var s, after := EmptyWhile(), START.(swallow := true);
    DoNothingIs(START, 0, 0);
    UnseenWhile(after, 0, 0);
    RepeatCosts(s, d, after, 0, 0);
    StmtsCons(DoNothing(), Repeat(s, d), START, 0, 0);
    MachineScores([DoNothing()] + Repeat(s, d), toks);
  }

  /** `do id; while (id);` */
  function BareDo(): Stmt {
    DoWhile(Bare(Call()), [ID])
  }

  lemma BareDoIs(mode: Mode, f: nat, n: int)
    requires mode.depth == 0 && mode == Rest(mode) && mode == Passed(mode) && !mode.swallow
    ensures Costs(StmtCost(BareDo(), mode, f), 2 + 2 * f, mode)
    ensures CognitiveStmt(BareDo(), n) == 1 + n && ValidStmt(BareDo())
  {
    hide GroupCost, HeaderCost, Expression, ValidItems, Call;
    CallIs(mode.(open := mode.open + 1), f, n + 1);
    IdAlone(mode, f, n);
    IdIsValid(true);
  }

  /** The tail of a do-while with a braceless body is charged as a loop of its own. */
  lemma TailsCharged(d: nat, toks: seq<Token>)
    requires Spells(toks, PrintStmts(Repeat(BareDo(), d)))
    ensures Cognitive(Repeat(BareDo(), d), 0) == d && ScoreOf(toks) == 2 * d
  {
    hide StmtsCost, Cognitive, ValidStmts, Spells, ScoreOf, PrintStmts, StmtCost, CognitiveStmt, ValidStmt, BareDo;
    BareDoIs(START, 0, 0);
    RepeatCosts(BareDo(), d, START, 0, 0);
    MachineScores(Repeat(BareDo(), d), toks);
  }
}
