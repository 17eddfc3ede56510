/** Programs on which the score and the Cognitive Complexity can be told in closed form: a
    family for each way in which operators and expressions make the two differ, and two on
    which they agree. */
module CognitiveFamilies {
  import opened Tokens
  import opened ScoreMachine
  import opened CognitiveTree
  import opened CognitiveCost
  import opened CognitiveMetric
  import opened CognitiveDeviations
  import opened CognitivePlain
  import opened CognitiveTheorems

  const ID: Item := Atom(Other("id"))
  const BOTH: Item := Logical(true, false)
  const SEPARATOR: Item := Atom(COMMA)

  function ScoreOf(toks: seq<Token>): int {
    RunFrom(Initial(), toks, 0).tally.score
  }

  /** Score and mode of a cost. */
  predicate Costs(c: Cost, score: int, mode: Mode) {
    c.score == score && c.mode == mode
  }

  // --------------------------------------------------------------- one item at a time

  /** The charge with one more item in front. */
  lemma ChargeCons(x: Item, xs: seq<Item>, mode: Mode, f: nat)
    ensures var a := ItemCost(x, mode, f);
            var b := ItemsCost(xs, a.mode, f);
      Costs(ItemsCost([x] + xs, mode, f), a.score + b.score, b.mode)
  {
    hide ItemCost;
    assert ([x] + xs)[1..] == xs;
  }

  lemma MetricCons(x: Item, xs: seq<Item>, n: int)
    ensures Marks([x] + xs) == MarkOf(x) + Marks(xs)
    ensures Within([x] + xs, n) == ItemValue(x, n) + Within(xs, n)
  {
    hide ItemValue, MarkOf;
    assert ([x] + xs)[1..] == xs;
  }

  lemma RunsCons(prev: Mark, m: Mark, ms: seq<Mark>)
    ensures RunsAfter(prev, [m] + ms) == (if m.Operator? && m != prev then 1 else 0) + RunsAfter(m, ms)
  {
    assert ([m] + ms)[1..] == ms;
  }

  lemma ValidCons(x: Item, xs: seq<Item>, inside: bool)
    ensures ValidItems([x] + xs, inside) == (ValidItem(x, inside) && ValidItems(xs, inside))
  {
    hide ValidItem;
    assert ([x] + xs)[1..] == xs;
  }

  lemma EmptyItems(mode: Mode, f: nat, n: int, inside: bool)
    ensures Costs(ItemsCost([], mode, f), 0, mode) && Marks([]) == [] && Within([], n) == 0
    ensures ValidItems([], inside)
  {
  }

  lemma ExpressionIs(xs: seq<Item>, n: int)
    ensures Expression(xs, n) == RunsAfter(Cut, Marks(xs)) + Within(xs, n)
  {
    hide RunStarts, RunsAfter, Marks, Within;
    RunsAreStarts(Marks(xs));
  }

  /** A list of one item. */
  lemma SingleItem(x: Item, mode: Mode, f: nat, n: int, inside: bool)
    ensures Costs(ItemsCost([x], mode, f), ItemCost(x, mode, f).score, ItemCost(x, mode, f).mode)
    ensures Within([x], n) == ItemValue(x, n) && Marks([x]) == MarkOf(x)
    ensures ValidItems([x], inside) == ValidItem(x, inside)
  {
    hide ItemsCost, ValidItems, Within, Marks;
    EmptyItems(ItemCost(x, mode, f).mode, f, n, inside);
    assert [x] + [] == [x];
    ChargeCons(x, [], mode, f);
    MetricCons(x, [], n);
    ValidCons(x, [], inside);
  }

  /** A plain atom costs nothing. */
  lemma AtomIs(x: Item, mode: Mode, f: nat, n: int, inside: bool)
    requires x.Atom? && PlainSym(x.sym) && !x.sym.Equals? && !Separates(x.sym)
    ensures Costs(ItemCost(x, mode, f), 0, mode) && ItemValue(x, n) == 0 && MarkOf(x) == [] && ValidItem(x, inside)
  {
    hide PlainSym, Separates;
  }

  lemma IdIs()
    ensures ID.Atom? && PlainSym(ID.sym) && !ID.sym.Equals? && !Separates(ID.sym)
  {
  }

  /** Behind a header in which nothing else happened. */
  function Heading(mode: Mode): Mode {
    mode.(base := mode.depth, header := true)
  }

  /** Behind its body. */
  function Passed(mode: Mode): Mode {
    mode.(base := mode.depth, header := false)
  }

  lemma IdAlone(mode: Mode, f: nat, n: int)
    ensures Costs(ItemsCost([ID], mode, f), 0, mode) && Expression([ID], n) == 0
    ensures Costs(GroupCost([ID], mode, f), 0, mode) && Costs(HeaderCost([ID], mode, f), 0, Heading(mode))
  {
    hide ItemsCost, Expression, Marks, Within, RunsAfter, ValidItems, PlainSym, Separates, ItemCost, ItemValue, MarkOf;
    hide ValidItem;
    IdIs();
    AtomIs(ID, mode, f, n, true);
    SingleItem(ID, mode, f, n, true);
    AtomIs(ID, Inside(mode), f, n, true);
    SingleItem(ID, Inside(mode), f, n, true);
    AtomIs(ID, InsideHeader(mode), f, n, true);
    SingleItem(ID, InsideHeader(mode), f, n, true);
    ExpressionIs([ID], n);
    NoRuns(Cut);
  }

  lemma IdIsValid(inside: bool)
    ensures ValidItems([ID], inside)
  {
    hide ItemsCost, Marks, Within, ValidItems, PlainSym, Separates, ItemCost, ItemValue, MarkOf, ValidItem;
    IdIs();
    AtomIs(ID, START, 0, 0, inside);
    SingleItem(ID, START, 0, 0, inside);
  }

  lemma OneItem(x: Item, mode: Mode, f: nat, n: int, inside: bool)
    ensures Costs(ItemsCost([ID] + [x], mode, f), ItemCost(x, mode, f).score, ItemCost(x, mode, f).mode)
    ensures Within([ID] + [x], n) == ItemValue(x, n) && Marks([ID] + [x]) == MarkOf(x)
    ensures ValidItems([ID] + [x], inside) == ValidItem(x, inside)
  {
    hide ItemsCost, ValidItems, Within, Marks, PlainSym, Separates, ItemCost, ItemValue, MarkOf, ValidItem;
    IdIs();
    AtomIs(ID, mode, f, n, inside);
    SingleItem(x, mode, f, n, inside);
    ChargeCons(ID, [x], mode, f);
    MetricCons(ID, [x], n);
    ValidCons(ID, [x], inside);
  }

  // ---------------------------------------------------------- one statement at a time

  lemma StmtsCons(s: Stmt, ss: seq<Stmt>, mode: Mode, f: nat, n: int)
    ensures var a := StmtCost(s, mode, f);
            var b := StmtsCost(ss, a.mode, f);
      Costs(StmtsCost([s] + ss, mode, f), a.score + b.score, b.mode)
    ensures Cognitive([s] + ss, n) == CognitiveStmt(s, n) + Cognitive(ss, n)
    ensures ValidStmts([s] + ss) == (ValidStmt(s) && ValidStmts(ss))
  {
    hide StmtCost, CognitiveStmt, ValidStmt;
    assert ([s] + ss)[1..] == ss;
  }

  lemma EmptyStmts(mode: Mode, f: nat, n: int)
    ensures Costs(StmtsCost([], mode, f), 0, mode) && Cognitive([], n) == 0 && ValidStmts([])
  {
  }

  lemma OneStmt(s: Stmt, mode: Mode, f: nat, n: int)
    ensures Costs(StmtsCost([s], mode, f), StmtCost(s, mode, f).score, StmtCost(s, mode, f).mode)
    ensures Cognitive([s], n) == CognitiveStmt(s, n)
    ensures ValidStmts([s]) == ValidStmt(s)
  {
    hide StmtCost, CognitiveStmt, ValidStmt, StmtsCost, Cognitive, ValidStmts;
    EmptyStmts(StmtCost(s, mode, f).mode, f, n);
    StmtsCons(s, [], mode, f, n);
    assert [s] + [] == [s];
  }

  /** `s`, `d` times. */
  function Repeat(s: Stmt, d: nat): seq<Stmt> {
    if d == 0 then [] else [s] + Repeat(s, d - 1)
  }

  /** A statement that leaves the scorer as it found it costs the same every time. */
  lemma {:induction false} RepeatCosts(s: Stmt, d: nat, mode: Mode, f: nat, n: int)
    requires ValidStmt(s) && StmtCost(s, mode, f).mode == mode
    ensures Costs(StmtsCost(Repeat(s, d), mode, f), Times(d, StmtCost(s, mode, f).score), mode)
    ensures Cognitive(Repeat(s, d), n) == Times(d, CognitiveStmt(s, n))
    ensures ValidStmts(Repeat(s, d))
    decreases d
  {
    hide StmtCost, CognitiveStmt, ValidStmt, StmtsCost, Cognitive, ValidStmts, Times;
    OneMore(d, StmtCost(s, mode, f).score);
    OneMore(d, CognitiveStmt(s, n));
    if d == 0 {
      EmptyStmts(mode, f, n);
    } else {
      RepeatCosts(s, d - 1, mode, f, n);
      StmtsCons(s, Repeat(s, d - 1), mode, f, n);
    }
  }

  function Times(d: int, x: int): int {
    d * x
  }

  lemma OneMore(d: int, x: int)
    ensures x + Times(d - 1, x) == Times(d, x) && Times(0, x) == 0
  {
  }

  /** The machine reaches the score of the tree. */
  lemma MachineScores(ss: seq<Stmt>, toks: seq<Token>)
    requires ValidStmts(ss) && Spells(toks, PrintStmts(ss))
    ensures ScoreOf(toks) == StmtsCost(ss, START, 0).score
  {
    hide RunFrom, Spells, ValidStmts, StmtsCost;
    MachineComputesCost(ss, toks);
  }

  /** `if (xs) body` */
  function If1(xs: seq<Item>, body: Body): Stmt {
    Branch(xs, body, NoElse)
  }

  /** A header that costs `v` and changes the memory to `mode'`, and the body behind it. */
  lemma If1Is(xs: seq<Item>, body: Body, mode: Mode, v: int, mode': Mode, f: nat, n: int)
    requires Costs(HeaderCost(xs, mode, f), v, Heading(mode')) && !mode'.swallow
    ensures var b := ArmedCost(body, Passed(mode'), f);
      Costs(StmtCost(If1(xs, body), mode, f), 1 + Level(mode, f) + v + b.score, b.mode)
    ensures CognitiveStmt(If1(xs, body), n) == 1 + n + Expression(xs, n) + CognitiveBody(body, n + 1)
    ensures ValidStmt(If1(xs, body)) == (ValidItems(xs, true) && ValidBody(body))
  {
    hide HeaderCost, ArmedCost, Expression, CognitiveBody, ValidItems, ValidBody;
    NoTailIs(ArmedCost(body, Passed(mode'), f).mode, f, n);
  }

  lemma NoTailIs(mode: Mode, f: nat, n: int)
    ensures Costs(TailCost(NoElse, mode, f), 0, mode) && CognitiveTail(NoElse, n) == 0 && ValidTail(NoElse)
  {
  }

  /** `if (id) { }` */
  function EmptyIf(): Stmt {
    If1([ID], Block([]))
  }

  lemma EmptyIfIs(mode: Mode, f: nat, n: int)
    requires !mode.swallow
    ensures Costs(StmtCost(EmptyIf(), mode, f), 1 + Level(mode, f), Passed(mode))
    ensures CognitiveStmt(EmptyIf(), n) == 1 + n && ValidStmt(EmptyIf())
  {
    hide HeaderCost, Expression, ValidItems, StmtsCost, Cognitive, ValidStmts, GroupCost, ItemsCost;
    IdAlone(mode, f, n);
    IdIsValid(true);
    If1Is([ID], Block([]), mode, 0, mode, f, n);
    EmptyStmts(Passed(mode), f + 1, n + 1);
  }

  /** Behind a `;`. */
  function Rest(mode: Mode): Mode {
    if mode.depth > 0 then mode else mode.(open := 0, lambda := false)
  }

  /** `id;` */
  function Call(): Stmt {
    Simple([ID])
  }

  lemma CallIs(mode: Mode, f: nat, n: int)
    ensures Costs(StmtCost(Call(), mode, f), 0, Rest(mode))
    ensures CognitiveStmt(Call(), n) == 0 && ValidStmt(Call()) && !StartsWithBrace(Call())
  {
    hide ItemsCost, Expression, ValidItems;
    IdAlone(mode, f, n);
    IdIsValid(false);
  }

  /** `if (id) id;` */
  function BareIf(): Stmt {
    If1([ID], Bare(Call()))
  }

  lemma BareIfIs(mode: Mode, f: nat, n: int)
    requires !mode.swallow
    ensures Costs(StmtCost(BareIf(), mode, f), 1 + Level(mode, f), Rest(Passed(mode).(open := mode.open + 1)))
    ensures CognitiveStmt(BareIf(), n) == 1 + n && ValidStmt(BareIf())
  {
    hide HeaderCost, Expression, ValidItems, StmtCost, CognitiveStmt, ValidStmt, StartsWithBrace, Call, GroupCost,
      ItemsCost;
    IdAlone(mode, f, n);
    IdIsValid(true);
    If1Is([ID], Bare(Call()), mode, 0, mode, f, n);
    CallIs(Passed(mode).(open := mode.open + 1), f, n + 1);
  }

  // ------------------------------------------------------------ runs split by negation

  /** `&& !id && !id ...`, `d` times. */
  function Negated(d: nat): seq<Item> {
    if d == 0 then [] else [BOTH] + ([Negate] + ([ID] + Negated(d - 1)))
  }

  lemma {:induction false} NegatedCharge(d: nat, mode: Mode, f: nat)
    requires mode.op == NoOp
    ensures Costs(ItemsCost(Negated(d), mode, f), d, mode)
    ensures ValidItems(Negated(d), true)
    decreases d
  {
    hide ItemsCost, ValidItems;
    if d == 0 {
      EmptyItems(mode, f, 0, true);
    } else {
      var xs := Negated(d - 1);
      NegatedCharge(d - 1, mode, f);
      ChargeCons(ID, xs, mode, f);
      ChargeCons(Negate, [ID] + xs, mode.(op := AndOp), f);
      ChargeCons(BOTH, [Negate] + ([ID] + xs), mode, f);
      ValidCons(ID, xs, true);
      ValidCons(Negate, [ID] + xs, true);
      ValidCons(BOTH, [Negate] + ([ID] + xs), true);
    }
  }

  lemma {:induction false} NegatedValue(d: nat, n: int)
    ensures Within(Negated(d), n) == 0
    ensures RunsAfter(Operator(true), Marks(Negated(d))) == 0
    ensures d > 0 ==> RunsAfter(Cut, Marks(Negated(d))) == 1
  {
    hide Within, Marks, RunsAfter;
    if d == 0 {
      EmptyItems(START, 0, n, true);
      NoRuns(Operator(true));
    } else {
      NegatedValue(d - 1, n);
      NegatedMarks(d, n);
      RunsCons(Cut, Operator(true), Marks(Negated(d - 1)));
      RunsCons(Operator(true), Operator(true), Marks(Negated(d - 1)));
    }
  }

  lemma NegatedStep(d: nat)
    requires d > 0
    ensures Negated(d) == [BOTH] + ([Negate] + ([ID] + Negated(d - 1)))
  {
  }

  lemma NegatedMarks(d: nat, n: int)
    requires d > 0
    ensures Marks(Negated(d)) == [Operator(true)] + Marks(Negated(d - 1))
    ensures Within(Negated(d), n) == Within(Negated(d - 1), n)
  {
    hide Within, Marks, Negated;
    var xs := Negated(d - 1);
    NegatedStep(d);
    MetricCons(ID, xs, n);
    MetricCons(Negate, [ID] + xs, n);
    MetricCons(BOTH, [Negate] + ([ID] + xs), n);
  }

  /** `if (id && !id && !id ...) { }` */
  function NegatedIf(d: nat): Stmt {
    If1([ID] + Negated(d), Block([]))
  }

  lemma NegatedCondition(d: nat, mode: Mode, f: nat, n: int)
    requires d > 0
    ensures var xs := [ID] + Negated(d);
      Costs(HeaderCost(xs, mode, f), d, Heading(mode)) && Expression(xs, n) == 1 && ValidItems(xs, true)
  {
    hide ItemsCost, Expression, Negated, ValidItems, Within, Marks, RunsAfter;
    var xs, there := [ID] + Negated(d), InsideHeader(mode);
    NegatedCharge(d, there, f);
    ChargeCons(ID, Negated(d), there, f);
    ValidCons(ID, Negated(d), true);
    NegatedValue(d, n);
    MetricCons(ID, Negated(d), n);
    assert Marks(xs) == Marks(Negated(d));
    ExpressionIs(xs, n);
  }

  /** One run, so the Cognitive Complexity is 2; but every `!` splits it once more. */
  lemma NegationSplits(d: nat, toks: seq<Token>)
    requires d > 0 && Spells(toks, PrintStmts([NegatedIf(d)]))
    ensures Cognitive([NegatedIf(d)], 0) == 2 && ScoreOf(toks) == 1 + d
  {
    hide HeaderCost, Expression, Negated, Spells, ScoreOf, PrintStmts, ValidItems, ValidStmts, StmtsCost, Cognitive,
      StmtCost;
    hide CognitiveStmt, ValidStmt;
    NegatedCondition(d, START, 0, 0);
    If1Is([ID] + Negated(d), Block([]), START, d, START, 0, 0);
    EmptyStmts(START, 1, 1);
    OneStmt(NegatedIf(d), START, 0, 0);
    MachineScores([NegatedIf(d)], toks);
  }

  // ------------------------------------------------------------ conditional expressions

  /** `id ? id : id ? id : ...`, `d` of them. */
  function Conditionals(d: nat): seq<Item> {
    if d == 0 then [ID] else [ID] + [Ternary([ID], Conditionals(d - 1))]
  }

  lemma ConditionalsStep(d: nat)
    requires d > 0
    ensures Conditionals(d) == [ID] + [Ternary([ID], Conditionals(d - 1))]
  {
  }

  lemma NoConditionals()
    ensures Conditionals(0) == [ID]
  {
  }

  lemma TernaryIs(ys: seq<Item>, mode: Mode, f: nat, n: int)
    ensures var it := Ternary([ID], ys);
      && Costs(ItemCost(it, mode, f), 1 + Level(mode, f) + ItemsCost(ys, mode, f).score, ItemsCost(ys, mode, f).mode)
      && ItemValue(it, n) == 1 + n + Expression(ys, n + 1)
      && ValidItem(it, false) == ValidItems(ys, false) && MarkOf(it) == [Cut]
  {
    hide ItemsCost, Expression, ValidItems;
    IdAlone(mode, f, n + 1);
    IdIsValid(false);
  }

  lemma {:induction false} ConditionalsCharge(d: nat, mode: Mode, f: nat)
    ensures Costs(ItemsCost(Conditionals(d), mode, f), Times(d, 1 + Level(mode, f)), mode)
    ensures ValidItems(Conditionals(d), false)
    decreases d
  {
    hide ItemsCost, ValidItems, ItemCost, ValidItem, Level, Conditionals, Times;
    hide Within, Marks, ItemValue, MarkOf, Expression;
    OneMore(d, 1 + Level(mode, f));
    if d == 0 {
      NoConditionals();
      IdAlone(mode, f, 0);
      IdIsValid(false);
    } else {
      var ys := Conditionals(d - 1);
      ConditionalsStep(d);
      ConditionalsCharge(d - 1, mode, f);
      TernaryIs(ys, mode, f, 0);
      OneItem(Ternary([ID], ys), mode, f, 0, false);
    }
  }

  /** Twice the sum 1 + n, 2 + n, ..., d + n. */
  function Triangle(d: int, n: int): int {
    d * (d + 1 + 2 * n)
  }

  lemma TriangleStep(d: int, n: int)
    ensures 2 * (1 + n) + Triangle(d - 1, n + 1) == Triangle(d, n) && Triangle(0, n) == 0
  {
  }

  lemma {:induction false} ConditionalsValue(d: nat, n: int)
    ensures 2 * Expression(Conditionals(d), n) == Triangle(d, n)
    decreases d
  {
    hide Expression, Within, Marks, ItemValue, MarkOf, Conditionals, RunsAfter, Triangle;
    hide ItemsCost, ItemCost, ValidItems, ValidItem, GroupCost;
    TriangleStep(d, n);
    if d == 0 {
      NoConditionals();
      IdAlone(START, 0, n);
    } else {
      var ys := Conditionals(d - 1);
      ConditionalsStep(d);
      ConditionalsValue(d - 1, n + 1);
      TernaryIs(ys, START, 0, n);
      OneItem(Ternary([ID], ys), START, 0, n, false);
      ExpressionIs(Conditionals(d), n);
      RunsOfOne(Cut, Cut);
    }
  }

  /** Nested conditional expressions should cost d (d + 1) / 2; the scorer says d. */
  lemma NestedConditionals(d: nat, toks: seq<Token>)
    requires Spells(toks, PrintStmts([Simple(Conditionals(d))]))
    ensures 2 * Cognitive([Simple(Conditionals(d))], 0) == d * (d + 1) && ScoreOf(toks) == d
  {
    hide ItemsCost, Expression, Conditionals, Spells, ScoreOf, PrintStmts, ValidItems, StmtsCost, Cognitive, ValidStmts;
    ConditionalsCharge(d, START, 0);
    ConditionalsValue(d, 0);
    OneStmt(Simple(Conditionals(d)), START, 0, 0);
    MachineScores([Simple(Conditionals(d))], toks);
  }

  // ------------------------------------------------------------ runs merged over commas

  /** `id && id` and what follows. */
  function Conjoined(rest: seq<Item>): seq<Item> {
    [ID] + ([BOTH] + ([ID] + rest))
  }

  lemma ConjoinedCharge(rest: seq<Item>, mode: Mode, f: nat, inside: bool)
    ensures var there := mode.(op := AndOp);
      Costs(ItemsCost(Conjoined(rest), mode, f),
            (if mode.op == AndOp then 0 else 1) + ItemsCost(rest, there, f).score, ItemsCost(rest, there, f).mode)
    ensures ValidItems(Conjoined(rest), inside) == ValidItems(rest, inside)
  {
    hide ItemsCost, ValidItems;
    ChargeCons(ID, rest, mode.(op := AndOp), f);
    ChargeCons(BOTH, [ID] + rest, mode, f);
    ChargeCons(ID, [BOTH] + ([ID] + rest), mode, f);
    ValidCons(ID, rest, inside);
    ValidCons(BOTH, [ID] + rest, inside);
    ValidCons(ID, [BOTH] + ([ID] + rest), inside);
  }

  lemma ConjoinedValue(rest: seq<Item>, n: int)
    ensures Within(Conjoined(rest), n) == Within(rest, n)
    ensures RunsAfter(Cut, Marks(Conjoined(rest))) == 1 + RunsAfter(Operator(true), Marks(rest))
  {
    hide Within, Marks, RunsAfter;
    MetricCons(ID, rest, n);
    MetricCons(BOTH, [ID] + rest, n);
    MetricCons(ID, [BOTH] + ([ID] + rest), n);
    assert Marks(Conjoined(rest)) == [Operator(true)] + Marks(rest);
    RunsCons(Cut, Operator(true), Marks(rest));
  }

  /** `, id && id, id && id ...`, `d` times. */
  function Arguments(d: nat): seq<Item> {
    if d == 0 then [] else [SEPARATOR] + Conjoined(Arguments(d - 1))
  }

  lemma {:induction false} ArgumentsCharge(d: nat, mode: Mode, f: nat)
    requires mode.op == AndOp
    ensures Costs(ItemsCost(Arguments(d), mode, f), 0, mode)
    ensures ValidItems(Arguments(d), true)
    decreases d
  {
    hide ItemsCost, ValidItems, Conjoined;
    if d == 0 {
      EmptyItems(mode, f, 0, true);
    } else {
      var xs := Arguments(d - 1);
      ArgumentsCharge(d - 1, mode, f);
      ConjoinedCharge(xs, mode, f, true);
      ChargeCons(SEPARATOR, Conjoined(xs), mode, f);
      ValidCons(SEPARATOR, Conjoined(xs), true);
    }
  }

  lemma {:induction false} ArgumentsValue(d: nat, n: int)
    ensures Within(Arguments(d), n) == 0
    ensures RunsAfter(Operator(true), Marks(Arguments(d))) == d
  {
    hide Within, Marks, RunsAfter, Conjoined;
    if d == 0 {
      EmptyItems(START, 0, n, true);
      NoRuns(Operator(true));
    } else {
      var xs := Arguments(d - 1);
      ArgumentsValue(d - 1, n);
      ConjoinedValue(xs, n);
      MetricCons(SEPARATOR, Conjoined(xs), n);
      RunsCons(Operator(true), Cut, Marks(Conjoined(xs)));
    }
  }

  /** `id(id && id, id && id, ...);` with `d + 1` arguments. */
  function CallOf(d: nat): Stmt {
    Simple([ID] + [Paren(Conjoined(Arguments(d)))])
  }

  lemma ArgumentList(d: nat, mode: Mode, f: nat, n: int)
    ensures var it := Paren(Conjoined(Arguments(d)));
      && Costs(ItemCost(it, mode, f), 1, mode) && ItemValue(it, n) == d + 1
      && ValidItem(it, false) && MarkOf(it) == []
  {
    hide ItemsCost, Expression, Arguments, Conjoined, ValidItems, Within, Marks, RunsAfter;
    var there := Inside(mode);
    ArgumentsCharge(d, there.(op := AndOp), f);
    ArgumentsValue(d, n);
    ConjoinedCharge(Arguments(d), there, f, true);
    ConjoinedValue(Arguments(d), n);
    ExpressionIs(Conjoined(Arguments(d)), n);
  }

  /** Each argument has a run of its own; the scorer takes them for one. */
  lemma ArgumentsMerge(d: nat, toks: seq<Token>)
    requires Spells(toks, PrintStmts([CallOf(d)]))
    ensures Cognitive([CallOf(d)], 0) == d + 1 && ScoreOf(toks) == 1
  {
    hide ItemsCost, Expression, Arguments, Conjoined, Spells, ScoreOf, PrintStmts, ValidItems, Within, Marks;
    hide StmtsCost, Cognitive, ValidStmts, ItemCost, ItemValue, ValidItem, MarkOf;
    var it := Paren(Conjoined(Arguments(d)));
    ArgumentList(d, START, 0, 0);
    OneItem(it, START, 0, 0, false);
    ExpressionIs([ID] + [it], 0);
    NoRuns(Cut);
    OneStmt(CallOf(d), START, 0, 0);
    MachineScores([CallOf(d)], toks);
  }

  // ------------------------------------------------------- runs merged over statements

  /** `id && id;` */
  function Conjunction(): Stmt {
    Simple(Conjoined([]))
  }

  lemma ConjunctionIs(mode: Mode, f: nat, n: int)
    ensures Costs(StmtCost(Conjunction(), mode, f), if mode.op == AndOp then 0 else 1, Rest(mode.(op := AndOp)))
    ensures CognitiveStmt(Conjunction(), n) == 1 && ValidStmt(Conjunction())
  {
    hide ItemsCost, Expression, Conjoined, ValidItems, Within, Marks, RunsAfter;
    EmptyItems(mode.(op := AndOp), f, n, false);
    ConjoinedCharge([], mode, f, false);
    ConjoinedValue([], n);
    NoRuns(Operator(true));
    ExpressionIs(Conjoined([]), n);
  }

  /** A run in each of `d` statements; the scorer counts the first only. */
  lemma TrackerCarriesOver(d: nat, toks: seq<Token>)
    requires d > 0 && Spells(toks, PrintStmts(Repeat(Conjunction(), d)))
    ensures Cognitive(Repeat(Conjunction(), d), 0) == d && ScoreOf(toks) == 1
  {
    hide StmtsCost, Cognitive, ValidStmts, Spells, ScoreOf, PrintStmts, StmtCost, CognitiveStmt, ValidStmt, Conjunction;
    var s, rest, there := Conjunction(), Repeat(Conjunction(), d - 1), START.(op := AndOp);
    ConjunctionIs(START, 0, 0);
    ConjunctionIs(there, 0, 0);
    RepeatCosts(s, d - 1, there, 0, 0);
    StmtsCons(s, rest, START, 0, 0);
    MachineScores(Repeat(s, d), toks);
  }

  // ----------------------------------------------------------- operators stuck to a name

  /** `id&& id;` */
  function Unseparated(): Stmt {
    Simple([ID] + ([Item.Glued(true)] + [ID]))
  }

  lemma GluedIs(x: Item, mode: Mode, f: nat, n: int)
    requires x == Item.Glued(true)
    ensures Costs(ItemCost(x, mode, f), 0, mode) && ItemValue(x, n) == 0
    ensures MarkOf(x) == [Operator(true)] && ValidItem(x, false)
  {
  }

  lemma UnseparatedIs(mode: Mode, f: nat, n: int)
    ensures Costs(StmtCost(Unseparated(), mode, f), 0, Rest(mode))
    ensures CognitiveStmt(Unseparated(), n) == 1 && ValidStmt(Unseparated())
  {
    hide ItemsCost, Expression, ValidItems, Within, Marks, RunsAfter, ItemCost, ItemValue, MarkOf, ValidItem, PlainSym;
    var x := Item.Glued(true);
    IdIs();
    AtomIs(ID, mode, f, n, false);
    SingleItem(ID, mode, f, n, false);
    GluedIs(x, mode, f, n);
    ChargeCons(x, [ID], mode, f);
    MetricCons(x, [ID], n);
    ValidCons(x, [ID], false);
    ChargeCons(ID, [x] + [ID], mode, f);
    MetricCons(ID, [x] + [ID], n);
    ValidCons(ID, [x] + [ID], false);
    var xs := [ID] + ([x] + [ID]);
    assert Marks(xs) == [Operator(true)];
    ExpressionIs(xs, n);
    RunsOfOne(Cut, Operator(true));
  }

  /** An `&&` stuck to the name before it is taken for part of a type, and is not charged. */
  lemma UnspacedIgnored(d: nat, toks: seq<Token>)
    requires Spells(toks, PrintStmts(Repeat(Unseparated(), d)))
    ensures Cognitive(Repeat(Unseparated(), d), 0) == d && ScoreOf(toks) == 0
  {
    hide StmtsCost, Cognitive, ValidStmts, Spells, ScoreOf, PrintStmts, StmtCost, CognitiveStmt, ValidStmt, Unseparated;
    UnseparatedIs(START, 0, 0);
    RepeatCosts(Unseparated(), d, START, 0, 0);
    MachineScores(Repeat(Unseparated(), d), toks);
  }

  // --------------------------------------------------------------------------- awaits

  /** `id co_await id;` */
  function Await(): seq<Item> {
    [ID] + ([Jump(CoAwait)] + [ID])
  }

  /** An await is no part of the metric; the scorer charges 1. */
  lemma AwaitCharged(toks: seq<Token>)
    requires Spells(toks, PrintStmts([Simple(Await())]))
    ensures Cognitive([Simple(Await())], 0) == 0 && ScoreOf(toks) == 1
  {
    hide Spells, ScoreOf, PrintStmts, ValidItems, StmtsCost, Cognitive, ValidStmts, ItemsCost, Expression, Marks,
      Within;
    AwaitIs(START, 0, 0);
    OneStmt(Simple(Await()), START, 0, 0);
    MachineScores([Simple(Await())], toks);
  }

  lemma AwaitIs(mode: Mode, f: nat, n: int)
    ensures Costs(ItemsCost(Await(), mode, f), 1, mode) && Expression(Await(), n) == 0 && ValidItems(Await(), false)
  {
    hide ItemsCost, Expression, ValidItems, Within, Marks, RunsAfter;
    var x := Jump(CoAwait);
    IdAlone(mode, f, n);
    IdIsValid(false);
    ExpressionIs([ID], n);
    ChargeCons(x, [ID], mode, f);
    MetricCons(x, [ID], n);
    ValidCons(x, [ID], false);
    ChargeCons(ID, [x] + [ID], mode, f);
    MetricCons(ID, [x] + [ID], n);
    ValidCons(ID, [x] + [ID], false);
    assert Marks(Await()) == Marks([ID]);
    ExpressionIs(Await(), n);
  }

  // ------------------------------------------------------------------------ nested ifs

  /** `if (id) { if (id) { ... } }`, `d` levels deep. */
  function NestedIfs(d: nat): seq<Stmt> {
    if d == 0 then [] else [If1([ID], Block(NestedIfs(d - 1)))]
  }

  lemma NestedIfsStep(d: nat)
    ensures NestedIfs(d) == if d == 0 then [] else [If1([ID], Block(NestedIfs(d - 1)))]
  {
  }

  lemma NothingIsPlain(xs: seq<Item>, kind: Kind)
    requires xs == []
    ensures Plain(xs) && OneSequence(xs) && !Holds(xs, kind)
  {
  }

  lemma OneIsPlain(xs: seq<Item>, kind: Kind)
    requires |xs| == 1 && xs[0] == ID && kind in {Bracket, Brace}
    ensures Plain(xs) && OneSequence(xs) && !Holds(xs, kind)
  {
    hide Continues;
    NothingIsPlain(xs[1..], kind);
  }

  lemma IdIsPlain(kind: Kind)
    requires kind == Bracket
    ensures Plain([ID]) && OneSequence([ID]) && !Holds([ID], kind)
  {
    hide Plain, OneSequence, Holds;
    OneIsPlain([ID], kind);
  }

  lemma PlainOne(s: Stmt, clean: bool)
    ensures PlainStmts([s], clean) == PlainStmt(s, clean)
  {
    hide PlainStmt, Operates;
    assert [s][1..] == [];
  }

  lemma PlainIf(ss: seq<Stmt>, clean: bool)
    ensures PlainStmt(If1([ID], Block(ss)), clean) == PlainStmts(ss, clean)
  {
    hide PlainStmts, SomeOperate, Plain, OneSequence, Holds;
    IdIsPlain(Bracket);
  }

  lemma {:induction false} NestedIfsAre(d: nat, n: int, clean: bool)
    ensures ValidStmts(NestedIfs(d)) && PlainStmts(NestedIfs(d), clean)
    ensures 2 * Cognitive(NestedIfs(d), n) == Triangle(d, n)
    decreases d
  {
    hide ValidItems, Expression, Cognitive, ValidStmts, PlainStmts, PlainStmt, CognitiveStmt, ValidStmt, If1,
      NestedIfs, Triangle;
    hide StmtCost, StmtsCost, GroupCost, ItemsCost, ArmedCost;
    TriangleStep(d, n);
    NestedIfsStep(d);
    if d == 0 {
      EmptyStmts(START, 0, n);
      PlainNone(clean);
    } else {
      var ss := NestedIfs(d - 1);
      NestedIfsAre(d - 1, n + 1, clean);
      IdAlone(START, 0, n);
      IdIsValid(true);
      If1Is([ID], Block(ss), START, 0, START, 0, n);
      PlainIf(ss, clean);
      OneStmt(If1([ID], Block(ss)), START, 0, n);
      PlainOne(If1([ID], Block(ss)), clean);
    }
  }

  lemma PlainNone(clean: bool)
    ensures PlainStmts([], clean)
  {
  }

  /** `d` nested ifs are plain and score d (d + 1) / 2. */
  lemma NestedIfsScore(d: nat, toks: seq<Token>)
    requires Spells(toks, PrintStmts(NestedIfs(d)))
    ensures 2 * ScoreOf(toks) == d * (d + 1)
  {
    hide Spells, ValidStmts, PlainStmts, NestedIfs, RunFrom;
    NestedIfsAre(d, 0, true);
    MachineIsCognitive(NestedIfs(d), toks);
  }
}
