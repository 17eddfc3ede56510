/** Code on which the scorer departs nowhere from Cognitive Complexity, described without
    the scorer. */
module CognitivePlain {
  import opened Tokens
  import opened ScoreMachine
  import opened CognitiveTree
  import opened CognitiveCost
  import opened CognitiveMetric
  import opened CognitiveDeviations

  // ------------------------------------------------------------------ expressions

  datatype Kind = Structure | Brace | Bracket | Function

  predicate Is(it: Item, kind: Kind) {
    match kind
    case Structure => it.Ternary? || it.Lambda?
    case Brace => it.Braced?
    case Bracket => it.Subscript? || it.Lambda?
    case Function => it.Lambda?
  }

  /** An item of this kind occurs, at whatever depth outside lambdas. */
  predicate Holds(xs: seq<Item>, kind: Kind)
    decreases xs, 0
  {
    xs != [] && (HoldsItem(xs[0], kind) || Holds(xs[1..], kind))
  }

  predicate HoldsItem(it: Item, kind: Kind)
    decreases it, 1
  {
    Is(it, kind) ||
    match it
    case Ternary(xs, ys) => Holds(xs, kind) || Holds(ys, kind)
    case Paren(xs) => Holds(xs, kind)
    case Braced(xs) => Holds(xs, kind)
    case Subscript(xs) => Holds(xs, kind)
    case _ => false
  }

  /** A logical operator or a `!` outside parentheses. */
  predicate Loose(xs: seq<Item>)
    decreases xs, 0
  {
    xs != [] && (LooseItem(xs[0]) || Loose(xs[1..]))
  }

  predicate LooseItem(it: Item)
    decreases it, 1
  {
    match it
    case Logical(_, _) => true
    case Glued(_) => true
    case Negate => true
    case Ternary(xs, ys) => Loose(xs) || Loose(ys)
    case Braced(xs) => Loose(xs)
    case Subscript(xs) => Loose(xs)
    case _ => false
  }

  predicate HasOperator(xs: seq<Item>) {
    xs != [] && (xs[0].Logical? || HasOperator(xs[1..]))
  }

  /** The operators from here on continue one operand sequence without a `!` among them. */
  predicate Continues(xs: seq<Item>) {
    xs == [] || (if xs[0].Negate? || MarkOf(xs[0]) == [Cut] then !HasOperator(xs[1..]) else Continues(xs[1..]))
  }

  /** All operators at this level are in one operand sequence, with no `!` after the first. */
  predicate OneSequence(xs: seq<Item>) {
    xs == [] || if xs[0].Logical? then Continues(xs[1..]) else OneSequence(xs[1..])
  }

  /** The captures of a lambda, or what stands between them and its body: names and operators
      without `=`, in parentheses and brackets. */
  predicate Intro(xs: seq<Item>)
    decreases xs, 0
  {
    xs == [] || (IntroItem(xs[0]) && Intro(xs[1..]))
  }

  predicate IntroItem(it: Item)
    decreases it, 1
  {
    match it
    case Atom(sym) => !sym.Equals?
    case Paren(xs) => Intro(xs)
    case Subscript(xs) => Intro(xs)
    case _ => false
  }

  /** No `co_await`; no operator that sticks to the token before; no conditional expression
      and no lambda in the operands of a conditional expression; in operands, braces and
      subscripts operators only in parentheses; those of one pair of parentheses in one
      operand sequence; lambdas without `=` before a plain body. */
  predicate Plain(xs: seq<Item>)
    decreases xs, 0
  {
    xs == [] || (PlainItem(xs[0]) && Plain(xs[1..]))
  }

  predicate PlainItem(it: Item)
    decreases it, 1
  {
    match it
    case Glued(_) => false
    case Jump(sym) => sym.Goto?
    case Ternary(xs, ys) =>
      Plain(xs) && Plain(ys) && !Holds(xs, Structure) && !Holds(ys, Structure) && !Loose(xs) && !Loose(ys)
    case Paren(xs) => Plain(xs) && OneSequence(xs)
    case Braced(xs) => Plain(xs) && !Loose(xs)
    case Subscript(xs) => Plain(xs) && !Loose(xs)
    case Lambda(captures, intro, ss) => Intro(captures) && Intro(intro) && PlainLambda(ss)
    case _ => true
  }

  /** The body of a plain lambda: no braces but those of bodies, and these everywhere; no
      do-while; operators only in parentheses. */
  predicate PlainLambda(ss: seq<Stmt>)
    decreases ss, 0
  {
    ss == [] || (PlainInside(ss[0]) && PlainLambda(ss[1..]))
  }

  predicate PlainInside(s: Stmt)
    decreases s, 0
  {
    match s
    case Simple(xs) => Plain(xs) && !Loose(xs) && !Holds(xs, Brace)
    case Control(h, body) => PlainHeader(h.header) && !Holds(h.header, Brace) && BlockInside(body)
    case Branch(xs, body, tail) => PlainHeader(xs) && !Holds(xs, Brace) && BlockInside(body) && TailInside(tail)
    case _ => false
  }

  predicate BlockInside(body: Body)
    decreases body, 0
  {
    body.Block? && PlainLambda(body.stmts)
  }

  predicate TailInside(tail: Tail)
    decreases tail, 0
  {
    match tail
    case NoElse => true
    case Else(body) => BlockInside(body)
    case ElseIf(xs, body, rest) => PlainHeader(xs) && !Holds(xs, Brace) && BlockInside(body) && TailInside(rest)
  }

  /** A header has neither subscripts nor lambdas. */
  predicate PlainHeader(xs: seq<Item>)
    decreases xs, 1
  {
    Plain(xs) && OneSequence(xs) && !Holds(xs, Bracket)
  }

  // ------------------------------------------------------------------- statements

  /** An operator outside parentheses and headers. */
  predicate Operates(s: Stmt)
    decreases s, 0
  {
    match s
    case Simple(xs) => HasOperator(xs)
    case Scope(xs, ss) => HasOperator(xs) || SomeOperate(ss)
    case Control(_, body) => BodyOperates(body)
    case Branch(_, body, tail) => BodyOperates(body) || TailOperates(tail)
    case DoWhile(body, _) => BodyOperates(body)
  }

  predicate SomeOperate(ss: seq<Stmt>)
    decreases ss, 0
  {
    ss != [] && (Operates(ss[0]) || SomeOperate(ss[1..]))
  }

  predicate BodyOperates(body: Body)
    decreases body, 0
  {
    match body
    case Block(ss) => SomeOperate(ss)
    case Bare(s) => Operates(s)
  }

  predicate TailOperates(tail: Tail)
    decreases tail, 0
  {
    match tail
    case NoElse => false
    case Else(body) => BodyOperates(body)
    case ElseIf(_, body, rest) => BodyOperates(body) || TailOperates(rest)
  }

  /** Plain, with operators only when none stood outside parentheses before; brackets and
      braces not together. */
  predicate PlainExpression(xs: seq<Item>, clean: bool) {
    && Plain(xs) && (if clean then OneSequence(xs) else !HasOperator(xs))
    && !(Holds(xs, Brace) && Holds(xs, Bracket))
  }

  /** Plain statements. No do-while; a braceless body ends in a simple statement without
      lambdas, with no `else` on the way. `clean` says that no operator stood outside parentheses before. */
  predicate PlainStmts(ss: seq<Stmt>, clean: bool)
    decreases ss, 0
  {
    ss == [] || (PlainStmt(ss[0], clean) && PlainStmts(ss[1..], clean && !Operates(ss[0])))
  }

  predicate PlainStmt(s: Stmt, clean: bool)
    decreases s, 0
  {
    match s
    case Simple(xs) => PlainExpression(xs, clean)
    case Scope(xs, ss) =>
      PlainExpression(xs, clean) && !Holds(xs, Bracket) && PlainStmts(ss, clean && !HasOperator(xs))
    case Control(h, body) => PlainHeader(h.header) && PlainBody(body, clean)
    case Branch(xs, body, tail) =>
      PlainHeader(xs) && PlainBody(body, clean) && PlainTail(tail, clean && !BodyOperates(body))
    case DoWhile(_, _) => false
  }

  predicate PlainBody(body: Body, clean: bool)
    decreases body, 0
  {
    match body
    case Block(ss) => PlainStmts(ss, clean)
    case Bare(s) => PlainChain(s, clean)
  }

  predicate PlainChain(s: Stmt, clean: bool)
    decreases s, 0
  {
    match s
    case Simple(xs) => PlainExpression(xs, clean) && !Holds(xs, Function)
    case Control(h, body) => PlainHeader(h.header) && body.Bare? && PlainChain(body.stmt, clean)
    case Branch(xs, body, tail) => PlainHeader(xs) && body.Bare? && PlainChain(body.stmt, clean) && tail == NoElse
    case _ => false
  }

  predicate PlainTail(tail: Tail, clean: bool)
    decreases tail, 0
  {
    match tail
    case NoElse => true
    case Else(body) => PlainBody(body, clean)
    case ElseIf(xs, body, rest) =>
      PlainHeader(xs) && PlainBody(body, clean) && PlainTail(rest, clean && !BodyOperates(body))
  }

  // ------------------------------------------------- expressions that depart nowhere

  lemma NonePlusNone(d: Departure, e: Departure)
    requires d == NONE && e == NONE
    ensures d.Plus(e) == NONE
  {
    hide Departure.Plus;
    NonePlus(e);
  }

  lemma NoneOff(mode: Mode, f: nat, m: nat)
    requires m == Level(mode, f)
    ensures Off(mode, f, m) == NONE
  {
  }

  /** The same bodies, headers and parentheses are open, and the same do-while is remembered. */
  predicate Same(a: Mode, b: Mode) {
    a.open == b.open && a.swallow == b.swallow && a.depth == b.depth && a.header == b.header
  }

  /** Where a lambda disturbs nothing: a `;` closes nothing, and no header is open. */
  predicate Steady(mode: Mode) {
    !mode.swallow && !mode.header && (mode.depth == 0 ==> mode.open == 0)
  }

  /** No brace will be taken for a lambda body, structures lie where the scorer is, and lambdas
      where they disturb nothing. */
  predicate Fits(xs: seq<Item>, mode: Mode, f: nat, m: nat) {
    && (Holds(xs, Brace) ==> !mode.lambda && !Holds(xs, Bracket))
    && (Holds(xs, Structure) ==> m == Level(mode, f))
    && (Holds(xs, Function) ==> Steady(mode))
  }

  predicate FitsItem(it: Item, mode: Mode, f: nat, m: nat) {
    && (HoldsItem(it, Brace) ==> !mode.lambda && !HoldsItem(it, Bracket))
    && (HoldsItem(it, Structure) ==> m == Level(mode, f))
    && (HoldsItem(it, Function) ==> Steady(mode))
  }

  lemma {:induction false} NoBracketStays(xs: seq<Item>, mode: Mode, f: nat, kind: Kind)
    requires kind == Bracket && !Holds(xs, kind)
    ensures ItemsCost(xs, mode, f).mode.lambda ==> mode.lambda
    decreases xs, 0
  {
    hide ItemCost, HoldsItem;
    if xs != [] {
      NoBracketStaysItem(xs[0], mode, f, kind);
      NoBracketStays(xs[1..], ItemCost(xs[0], mode, f).mode, f, kind);
    }
  }

  lemma TernaryMode(xs: seq<Item>, ys: seq<Item>, mode: Mode, f: nat)
    ensures ItemCost(Ternary(xs, ys), mode, f).mode == ItemsCost(ys, ItemsCost(xs, mode, f).mode, f).mode
  {
    hide ItemsCost;
  }

  lemma ParenMode(xs: seq<Item>, mode: Mode, f: nat)
    ensures ItemCost(Paren(xs), mode, f) == Outside(ItemsCost(xs, Inside(mode), f), mode)
  {
    hide ItemsCost;
  }

  lemma {:induction false} NoBracketStaysItem(it: Item, mode: Mode, f: nat, kind: Kind)
    requires kind == Bracket && !HoldsItem(it, kind)
    ensures ItemCost(it, mode, f).mode.lambda ==> mode.lambda
    decreases it, 1
  {
    hide ItemsCost, ScopeCost, Holds;
    match it
    case Ternary(xs, ys) =>
      NoBracketStays(xs, mode, f, kind);
      NoBracketStays(ys, ItemsCost(xs, mode, f).mode, f, kind);
      TernaryMode(xs, ys, mode, f);
    case Paren(xs) =>
      NoBracketStays(xs, Inside(mode), f, kind);
      ParenMode(xs, mode, f);
    case Braced(xs) => NoBracketStays(xs, mode.(lambda := false), InBrace(mode, f), kind);
    case _ =>
  }

  lemma FitsFirst(xs: seq<Item>, mode: Mode, f: nat, m: nat)
    requires xs != [] && Fits(xs, mode, f, m)
    ensures FitsItem(xs[0], mode, f, m)
  {
    hide HoldsItem, Level, Steady;
  }

  lemma FitsRest(xs: seq<Item>, mode: Mode, f: nat, m: nat)
    requires xs != [] && Fits(xs, mode, f, m) && Same(ItemCost(xs[0], mode, f).mode, mode)
    ensures Fits(xs[1..], ItemCost(xs[0], mode, f).mode, f, m)
  {
    hide HoldsItem, ItemCost;
    if Holds(xs[1..], Brace) {
      NoBracketStaysItem(xs[0], mode, f, Bracket);
    }
  }

  lemma FitsParen(xs: seq<Item>, mode: Mode, f: nat, m: nat)
    requires FitsItem(Paren(xs), mode, f, m)
    ensures Fits(xs, Inside(mode), f, m)
  {
    hide Holds;
  }

  lemma FitsBraced(xs: seq<Item>, mode: Mode, f: nat, m: nat)
    requires FitsItem(Braced(xs), mode, f, m)
    ensures Fits(xs, mode.(lambda := false), f, m) && InBrace(mode, f) == f
  {
    hide Holds;
  }

  lemma FitsSubscript(xs: seq<Item>, mode: Mode, f: nat, m: nat)
    requires FitsItem(Subscript(xs), mode, f, m)
    ensures Fits(xs, mode.(lambda := true), f, m)
  {
    hide Holds;
  }

  lemma FitsTernary(xs: seq<Item>, ys: seq<Item>, mode: Mode, f: nat, m: nat)
    requires FitsItem(Ternary(xs, ys), mode, f, m) && PlainItem(Ternary(xs, ys))
    requires Same(ItemsCost(xs, mode, f).mode, mode)
    ensures m == Level(mode, f) && Fits(ys, ItemsCost(xs, mode, f).mode, f, m + 1)
  {
    hide Holds, ItemsCost, Plain, Loose;
    if Holds(ys, Brace) {
      NoBracketStays(xs, mode, f, Bracket);
    }
    NoFunction(ys, Structure, Function);
  }

  lemma FitsYes(xs: seq<Item>, ys: seq<Item>, mode: Mode, f: nat, m: nat)
    requires FitsItem(Ternary(xs, ys), mode, f, m) && PlainItem(Ternary(xs, ys))
    ensures Fits(xs, mode, f, m + 1)
  {
    hide Holds, Plain, Loose;
    NoFunction(xs, Structure, Function);
  }

  /** Lambdas are structures. */
  lemma {:induction false} NoFunction(xs: seq<Item>, k1: Kind, k2: Kind)
    requires k1 == Structure && k2 == Function && !Holds(xs, k1)
    ensures !Holds(xs, k2)
    decreases xs, 0
  {
    hide HoldsItem;
    if xs != [] {
      NoFunctionItem(xs[0], k1, k2);
      NoFunction(xs[1..], k1, k2);
    }
  }

  lemma {:induction false} NoFunctionItem(it: Item, k1: Kind, k2: Kind)
    requires k1 == Structure && k2 == Function && !HoldsItem(it, k1)
    ensures !HoldsItem(it, k2)
    decreases it, 1
  {
    hide Holds;
    match it
    case Paren(xs) => NoFunction(xs, k1, k2);
    case Braced(xs) => NoFunction(xs, k1, k2);
    case Subscript(xs) => NoFunction(xs, k1, k2);
    case _ =>
  }

  /** Captures and what follows them leave the scorer waiting for the body. */
  lemma {:induction false} IntroStays(xs: seq<Item>, mode: Mode, prev: Mark, f: nat, m: nat)
    requires Intro(xs) && mode.lambda
    ensures ItemsCost(xs, mode, f).mode == mode && Departs(xs, mode, prev, f, m) == NONE
    decreases xs, 0
  {
    hide ItemCost, ItemDeparts, IntroItem, Departure.Plus, MarkOf;
    if xs != [] {
      var next := LastMark(prev, MarkOf(xs[0]));
      IntroItemStays(xs[0], mode, prev, f, m);
      IntroStays(xs[1..], mode, next, f, m);
      NonePlusNone(ItemDeparts(xs[0], mode, prev, f, m), Departs(xs[1..], mode, next, f, m));
    }
  }

  lemma {:induction false} IntroItemStays(it: Item, mode: Mode, prev: Mark, f: nat, m: nat)
    requires IntroItem(it) && mode.lambda
    ensures ItemCost(it, mode, f).mode == mode && ItemDeparts(it, mode, prev, f, m) == NONE
    decreases it, 1
  {
    hide ItemsCost, ScopeCost, Departs, ScopeDepartures, Intro;
    match it
    case Paren(xs) => IntroStays(xs, Inside(mode), Cut, f, m);
    case Subscript(xs) => IntroStays(xs, mode, Cut, f, m);
    case _ =>
  }

  /** Nothing departs; only the tracker and the flag of `[` may change. */
  predicate Quiet(d: Departure, there: Mode, mode: Mode) {
    d == NONE && Same(there, mode)
  }

  /** Items without operators of their own depart nowhere. */
  lemma {:induction false} QuietItems(xs: seq<Item>, mode: Mode, prev: Mark, f: nat, m: nat)
    requires Plain(xs) && !HasOperator(xs) && Fits(xs, mode, f, m)
    ensures var there := ItemsCost(xs, mode, f).mode;
      && Quiet(Departs(xs, mode, prev, f, m), there, mode)
      && there.op in {mode.op, NoOp} && (!Loose(xs) ==> there.op == mode.op)
    decreases xs, 0
  {
    hide ItemCost, ItemDeparts, PlainItem, HoldsItem, LooseItem, Fits, FitsItem, Departure.Plus, MarkOf;
    if xs != [] {
      var mode', next := ItemCost(xs[0], mode, f).mode, LastMark(prev, MarkOf(xs[0]));
      FitsFirst(xs, mode, f, m);
      QuietItem(xs[0], mode, prev, f, m);
      FitsRest(xs, mode, f, m);
      QuietItems(xs[1..], mode', next, f, m);
      NegateIsLoose(xs[0]);
      NonePlusNone(ItemDeparts(xs[0], mode, prev, f, m), Departs(xs[1..], mode', next, f, m));
    }
  }

  lemma NegateIsLoose(it: Item)
    ensures it.Negate? ==> LooseItem(it)
  {
  }

  lemma PlainIsSpaced(it: Item)
    requires PlainItem(it)
    ensures !it.Glued?
  {
  }

  lemma {:induction false} QuietItem(it: Item, mode: Mode, prev: Mark, f: nat, m: nat)
    requires PlainItem(it) && !it.Logical? && FitsItem(it, mode, f, m)
    ensures var there := ItemCost(it, mode, f).mode;
      && Quiet(ItemDeparts(it, mode, prev, f, m), there, mode)
      && there.op == (if it.Negate? then NoOp else mode.op) && !it.Glued?
    decreases it, 1
  {
    hide ItemCost, ItemDeparts, PlainItem, FitsItem, Quiet;
    PlainIsSpaced(it);
    match it
    case Ternary(xs, ys) => QuietTernary(xs, ys, mode, prev, f, m);
    case Paren(xs) => QuietParen(xs, mode, prev, f, m);
    case Braced(xs) => QuietBraced(xs, mode, prev, f, m);
    case Subscript(xs) => QuietSubscript(xs, mode, prev, f, m);
    case Lambda(captures, intro, ss) => QuietLambda(captures, intro, ss, mode, prev, f, m);
    case _ => QuietLeaf(it, mode, prev, f, m);
  }

  lemma QuietLeaf(it: Item, mode: Mode, prev: Mark, f: nat, m: nat)
    requires it.Atom? || it.Negate? || it.Jump?
    requires PlainItem(it)
    ensures var there := ItemCost(it, mode, f).mode;
      && Quiet(ItemDeparts(it, mode, prev, f, m), there, mode)
      && there.op == if it.Negate? then NoOp else mode.op
  {
    hide Departs, ItemsCost, ScopeCost, GroupCost, ScopeDepartures, Plain;
  }

  lemma {:induction false} QuietParen(xs: seq<Item>, mode: Mode, prev: Mark, f: nat, m: nat)
    requires PlainItem(Paren(xs)) && FitsItem(Paren(xs), mode, f, m)
    ensures var there := ItemCost(Paren(xs), mode, f).mode;
      Quiet(ItemDeparts(Paren(xs), mode, prev, f, m), there, mode) && there.op == mode.op
    decreases xs, 1
  {
    hide ItemsCost, Departs, Plain, OneSequence, FitsItem, Fits;
    FitsParen(xs, mode, f, m);
    NoRunLost(xs, Inside(mode), f, m);
  }

  lemma {:induction false} QuietBraced(xs: seq<Item>, mode: Mode, prev: Mark, f: nat, m: nat)
    requires PlainItem(Braced(xs)) && FitsItem(Braced(xs), mode, f, m)
    ensures var there := ItemCost(Braced(xs), mode, f).mode;
      Quiet(ItemDeparts(Braced(xs), mode, prev, f, m), there, mode) && there.op == mode.op
    decreases xs, 1
  {
    hide ItemsCost, Departs, Plain, Loose, HasOperator, FitsItem, Fits, InBrace;
    FitsBraced(xs, mode, f, m);
    TightHasNone(xs);
    QuietItems(xs, mode.(lambda := false), Cut, f, m);
  }

  lemma {:induction false} TightHasNone(xs: seq<Item>)
    requires !Loose(xs)
    ensures !HasOperator(xs)
    decreases xs
  {
    if xs != [] {
      TightHasNone(xs[1..]);
    }
  }

  lemma {:induction false} QuietSubscript(xs: seq<Item>, mode: Mode, prev: Mark, f: nat, m: nat)
    requires PlainItem(Subscript(xs)) && FitsItem(Subscript(xs), mode, f, m)
    ensures var there := ItemCost(Subscript(xs), mode, f).mode;
      Quiet(ItemDeparts(Subscript(xs), mode, prev, f, m), there, mode) && there.op == mode.op
    decreases xs, 1
  {
    hide ItemsCost, Departs, Plain, Loose, HasOperator, FitsItem, Fits;
    FitsSubscript(xs, mode, f, m);
    TightHasNone(xs);
    QuietItems(xs, mode.(lambda := true), Cut, f, m);
  }

  lemma {:induction false} QuietTernary(xs: seq<Item>, ys: seq<Item>, mode: Mode, prev: Mark, f: nat, m: nat)
    requires PlainItem(Ternary(xs, ys)) && FitsItem(Ternary(xs, ys), mode, f, m)
    ensures var there := ItemCost(Ternary(xs, ys), mode, f).mode;
      Quiet(ItemDeparts(Ternary(xs, ys), mode, prev, f, m), there, mode) && there.op == mode.op
    decreases Ternary(xs, ys), 0
  {
    hide ItemsCost, Departs, Plain, Holds, Loose, HasOperator, Departure.Plus, Off, FitsItem, Fits, Level;
    FitsYes(xs, ys, mode, f, m);
    TightHasNone(xs);
    QuietItems(xs, mode, Cut, f, m + 1);
    var mid := ItemsCost(xs, mode, f).mode;
    FitsTernary(xs, ys, mode, f, m);
    TightHasNone(ys);
    QuietItems(ys, mid, Cut, f, m + 1);
    NoneOff(mode, f, m);
    NonePlusNone(Off(mode, f, m), Departs(xs, mode, Cut, f, m + 1));
    NonePlusNone(NONE, Departs(ys, mid, Cut, f, m + 1));
  }

  lemma {:induction false} QuietLambda(
      captures: seq<Item>, intro: seq<Item>, ss: seq<Stmt>, mode: Mode, prev: Mark, f: nat, m: nat)
    requires PlainItem(Lambda(captures, intro, ss)) && FitsItem(Lambda(captures, intro, ss), mode, f, m)
    ensures var it := Lambda(captures, intro, ss);
            var there := ItemCost(it, mode, f).mode;
      Quiet(ItemDeparts(it, mode, prev, f, m), there, mode) && there.op == mode.op
    decreases Lambda(captures, intro, ss), 0
  {
    hide ItemsCost, StmtsCost, Departs, Departures, Intro, PlainLambda, Departure.Plus;
    var there := mode.(lambda := true);
    IntroStays(captures, there, Cut, f, m);
    IntroStays(intro, there, Cut, f, m);
    QuietStmts(ss, there.(lambda := false), f + 1, m + 1);
    LambdaUnfolds(captures, intro, ss, mode, prev, f, m);
    NonePlusNone(NONE, NONE);
  }

  lemma LambdaUnfolds(captures: seq<Item>, intro: seq<Item>, ss: seq<Stmt>, mode: Mode, prev: Mark, f: nat, m: nat)
    requires var there := mode.(lambda := true);
      ItemsCost(captures, there, f).mode == there && ItemsCost(intro, there, f).mode == there
    ensures var it, there := Lambda(captures, intro, ss), mode.(lambda := true);
      && ItemCost(it, mode, f).mode == StmtsCost(ss, mode.(lambda := false), f + 1).mode
      && ItemDeparts(it, mode, prev, f, m)
         == Departs(captures, there, Cut, f, m).Plus(Departs(intro, there, Cut, f, m))
              .Plus(Departures(ss, mode.(lambda := false), f + 1, m + 1))
  {
    hide ItemsCost, StmtsCost, Departs, Departures, Departure.Plus;
  }

  /** In one operand sequence the tracker and the sequence agree on the last operator. */
  lemma {:induction false} NoRunLost(xs: seq<Item>, mode: Mode, f: nat, m: nat)
    requires Plain(xs) && OneSequence(xs) && Fits(xs, mode, f, m) && mode.op == NoOp
    ensures Quiet(Departs(xs, mode, Cut, f, m), ItemsCost(xs, mode, f).mode, mode)
    decreases xs, 0
  {
    hide ItemCost, ItemDeparts, PlainItem, HoldsItem, Fits, FitsItem, Departure.Plus, MarkOf, Continues;
    if xs != [] {
      var x, mode' := xs[0], ItemCost(xs[0], mode, f).mode;
      FitsFirst(xs, mode, f, m);
      if x.Logical? {
        OperatorStarts(x, mode, f, m);
        FitsRest(xs, mode, f, m);
        RunContinues(xs[1..], mode', x.conjunction, f, m);
      } else {
        QuietItem(x, mode, Cut, f, m);
        FitsRest(xs, mode, f, m);
        CutStays(x);
        NoRunLost(xs[1..], mode', f, m);
      }
      NonePlusNone(ItemDeparts(x, mode, Cut, f, m), Departs(xs[1..], mode', LastMark(Cut, MarkOf(x)), f, m));
    }
  }

  lemma OperatorStarts(x: Item, mode: Mode, f: nat, m: nat)
    requires x.Logical? && mode.op == NoOp
    ensures Quiet(ItemDeparts(x, mode, Cut, f, m), ItemCost(x, mode, f).mode, mode)
    ensures ItemCost(x, mode, f).mode.op == OpOf(x.conjunction)
    ensures LastMark(Cut, MarkOf(x)) == Operator(x.conjunction)
  {
    hide ItemsCost, ScopeCost, GroupCost, Departs, ScopeDepartures;
  }

  lemma CutStays(x: Item)
    requires !x.Logical? && !x.Glued?
    ensures LastMark(Cut, MarkOf(x)) == Cut
  {
  }

  lemma OperatorContinues(x: Item, mode: Mode, conj: bool, f: nat, m: nat)
    requires x.Logical? && mode.op == OpOf(conj)
    ensures Quiet(ItemDeparts(x, mode, Operator(conj), f, m), ItemCost(x, mode, f).mode, mode)
    ensures ItemCost(x, mode, f).mode.op == OpOf(x.conjunction)
    ensures LastMark(Operator(conj), MarkOf(x)) == Operator(x.conjunction)
    ensures MarkOf(x) != [Cut]
  {
    hide ItemsCost, ScopeCost, GroupCost, Departs, ScopeDepartures;
  }

  lemma MarkStays(x: Item, conj: bool)
    requires !x.Logical? && !x.Glued? && MarkOf(x) != [Cut]
    ensures LastMark(Operator(conj), MarkOf(x)) == Operator(conj)
  {
  }

  lemma {:induction false} RunContinues(xs: seq<Item>, mode: Mode, conj: bool, f: nat, m: nat)
    requires Plain(xs) && Continues(xs) && Fits(xs, mode, f, m) && mode.op == OpOf(conj)
    ensures Quiet(Departs(xs, mode, Operator(conj), f, m), ItemsCost(xs, mode, f).mode, mode)
    decreases xs, 0
  {
    hide ItemCost, ItemDeparts, PlainItem, HoldsItem, Fits, FitsItem, Departure.Plus, MarkOf, HasOperator, OpOf;
    if xs != [] {
      var x, prev, mode' := xs[0], Operator(conj), ItemCost(xs[0], mode, f).mode;
      FitsFirst(xs, mode, f, m);
      if x.Logical? {
        OperatorContinues(x, mode, conj, f, m);
        FitsRest(xs, mode, f, m);
        RunContinues(xs[1..], mode', x.conjunction, f, m);
      } else {
        QuietItem(x, mode, prev, f, m);
        FitsRest(xs, mode, f, m);
        if x.Negate? || MarkOf(x) == [Cut] {
          QuietItems(xs[1..], mode', LastMark(prev, MarkOf(x)), f, m);
        } else {
          MarkStays(x, conj);
          RunContinues(xs[1..], mode', conj, f, m);
        }
      }
      NonePlusNone(ItemDeparts(x, mode, prev, f, m), Departs(xs[1..], mode', LastMark(prev, MarkOf(x)), f, m));
    }
  }

  // ------------------------------------------------------ lambdas that depart nowhere

  lemma {:induction false} QuietStmts(ss: seq<Stmt>, mode: Mode, f: nat, m: nat)
    requires PlainLambda(ss) && Steady(mode) && m == Level(mode, f)
    ensures var there := StmtsCost(ss, mode, f).mode;
      Quiet(Departures(ss, mode, f, m), there, mode) && there.op == mode.op
    decreases ss, 0
  {
    hide StmtCost, StmtDepartures, PlainInside, Departure.Plus;
    if ss != [] {
      var mode' := StmtCost(ss[0], mode, f).mode;
      QuietStmt(ss[0], mode, f, m);
      QuietStmts(ss[1..], mode', f, m);
      NonePlusNone(StmtDepartures(ss[0], mode, f, m), Departures(ss[1..], mode', f, m));
    }
  }

  lemma {:induction false} QuietStmt(s: Stmt, mode: Mode, f: nat, m: nat)
    requires PlainInside(s) && Steady(mode) && m == Level(mode, f)
    ensures var there := StmtCost(s, mode, f).mode;
      Quiet(StmtDepartures(s, mode, f, m), there, mode) && there.op == mode.op
    decreases s, 1
  {
    hide StmtCost, StmtDepartures, Quiet, Steady, Level;
    match s
    case Simple(xs) => QuietSimple(xs, mode, f, m);
    case Control(h, body) => QuietControl(h, body, mode, f, m);
    case Branch(xs, body, tail) => QuietBranch(xs, body, tail, mode, f, m);
  }

  lemma {:induction false} QuietSimple(xs: seq<Item>, mode: Mode, f: nat, m: nat)
    requires PlainInside(Simple(xs)) && Steady(mode) && m == Level(mode, f)
    ensures var there := StmtCost(Simple(xs), mode, f).mode;
      Quiet(StmtDepartures(Simple(xs), mode, f, m), there, mode) && there.op == mode.op
    decreases xs, 1
  {
    hide ItemsCost, Departs, Plain, Loose, HasOperator, Holds;
    TightHasNone(xs);
    QuietItems(xs, mode, Cut, f, m);
  }

  lemma {:induction false} QuietHeader(xs: seq<Item>, mode: Mode, f: nat, m: nat)
    requires PlainHeader(xs) && (Holds(xs, Brace) ==> !mode.lambda)
    requires !mode.swallow && !mode.header && m == Level(mode, f)
    ensures Departs(xs, InsideHeader(mode), Cut, f, m) == NONE && HeadDepartures(xs, mode, f, m) == NONE
    ensures var there := HeaderCost(xs, mode, f).mode;
      && Arms(there) && Same(Resolved(there), mode) && there.op == mode.op
      && (there.lambda ==> mode.lambda) && HeadCost(xs, mode, f).mode == there
    decreases xs, 2
  {
    hide ItemsCost, Departs, Plain, OneSequence, Holds, Off, Departure.Plus;
    NoFunctionBracket(xs, Bracket, Function);
    NoRunLost(xs, InsideHeader(mode), f, m);
    NoBracketStays(xs, InsideHeader(mode), f, Bracket);
    NoneOff(mode, f, m);
    NonePlusNone(Off(mode, f, m), Departs(xs, InsideHeader(mode), Cut, f, m));
  }

  /** Lambdas have brackets. */
  lemma {:induction false} NoFunctionBracket(xs: seq<Item>, k1: Kind, k2: Kind)
    requires k1 == Bracket && k2 == Function && !Holds(xs, k1)
    ensures !Holds(xs, k2)
    decreases xs, 0
  {
    hide HoldsItem;
    if xs != [] {
      NoFunctionBracketItem(xs[0], k1, k2);
      NoFunctionBracket(xs[1..], k1, k2);
    }
  }

  lemma {:induction false} NoFunctionBracketItem(it: Item, k1: Kind, k2: Kind)
    requires k1 == Bracket && k2 == Function && !HoldsItem(it, k1)
    ensures !HoldsItem(it, k2)
    decreases it, 1
  {
    hide Holds;
    match it
    case Ternary(xs, ys) =>
      NoFunctionBracket(xs, k1, k2);
      NoFunctionBracket(ys, k1, k2);
    case Paren(xs) => NoFunctionBracket(xs, k1, k2);
    case Braced(xs) => NoFunctionBracket(xs, k1, k2);
    case _ =>
  }

  lemma {:induction false} QuietBlock(body: Body, mode: Mode, f: nat, m: nat)
    requires BlockInside(body) && Steady(mode) && m == Level(mode, f) + 1
    ensures var there := ArmedCost(body, mode, f).mode;
      Quiet(ArmedDepartures(body, mode, f, m), there, mode) && there.op == mode.op
    decreases body, 0
  {
    hide StmtsCost, Departures, PlainLambda;
    QuietStmts(body.stmts, mode, f + 1, m);
  }

  lemma {:induction false} QuietBody(body: Body, h: Mode, mode: Mode, f: nat, m: nat)
    requires BlockInside(body) && Arms(h) && Same(Resolved(h), mode) && h.op == mode.op
    requires Steady(mode) && m == Level(mode, f) + 1
    ensures var there := BodyCost(body, h, f).mode;
      Quiet(BodyDepartures(body, h, f, m), there, mode) && there.op == mode.op
    decreases body, 1
  {
    hide ArmedCost, ArmedDepartures, BlockInside;
    QuietBlock(body, Resolved(h), f, m);
  }

  lemma {:induction false} QuietControl(h: Head, body: Body, mode: Mode, f: nat, m: nat)
    requires PlainInside(Control(h, body)) && Steady(mode) && m == Level(mode, f)
    ensures var s := Control(h, body);
            var there := StmtCost(s, mode, f).mode;
      Quiet(StmtDepartures(s, mode, f, m), there, mode) && there.op == mode.op
    decreases Control(h, body), 0
  {
    hide HeadCost, BodyCost, HeadDepartures, BodyDepartures, PlainHeader, Holds, BlockInside, Departure.Plus, Level;
    hide GroupCost, LooseCost, Departs, LooseDepartures, Arms, Resolved;
    QuietHeader(h.header, mode, f, m);
    var there := HeadCost(h.header, mode, f).mode;
    QuietBody(body, there, mode, f, m + 1);
    NonePlusNone(HeadDepartures(h.header, mode, f, m), BodyDepartures(body, there, f, m + 1));
  }

  lemma {:induction false} QuietBranch(xs: seq<Item>, body: Body, tail: Tail, mode: Mode, f: nat, m: nat)
    requires PlainInside(Branch(xs, body, tail)) && Steady(mode) && m == Level(mode, f)
    ensures var s := Branch(xs, body, tail);
            var there := StmtCost(s, mode, f).mode;
      Quiet(StmtDepartures(s, mode, f, m), there, mode) && there.op == mode.op
    decreases Branch(xs, body, tail), 0
  {
    hide HeadCost, BodyCost, TailCost, HeadDepartures, BodyDepartures, TailDepartures, PlainHeader, Holds, BlockInside;
    hide TailInside, Departure.Plus, Arms, Resolved;
    QuietHeader(xs, mode, f, m);
    var there := HeadCost(xs, mode, f).mode;
    QuietBody(body, there, mode, f, m + 1);
    var mid := BodyCost(body, there, f).mode;
    QuietTail(tail, mid, f, m);
    NonePlusNone(HeadDepartures(xs, mode, f, m), BodyDepartures(body, there, f, m + 1));
    NonePlusNone(NONE, TailDepartures(tail, mid, f, m));
  }

  lemma {:induction false} QuietTail(tail: Tail, mode: Mode, f: nat, m: nat)
    requires TailInside(tail) && Steady(mode) && m == Level(mode, f)
    ensures var there := TailCost(tail, mode, f).mode;
      Quiet(TailDepartures(tail, mode, f, m), there, mode) && there.op == mode.op
    decreases tail, 1
  {
    hide TailCost, TailDepartures, TailInside;
    match tail
    case NoElse => NoTail(tail, mode, f, m);
    case Else(body) => QuietElse(body, mode, f, m);
    case ElseIf(xs, body, rest) => QuietElseIf(xs, body, rest, mode, f, m);
  }

  lemma NoTail(tail: Tail, mode: Mode, f: nat, m: nat)
    requires tail == NoElse
    ensures TailDepartures(tail, mode, f, m) == NONE && TailCost(tail, mode, f).mode == mode
  {
  }

  lemma {:induction false} QuietElse(body: Body, mode: Mode, f: nat, m: nat)
    requires TailInside(Tail.Else(body)) && Steady(mode) && m == Level(mode, f)
    ensures var there := TailCost(Tail.Else(body), mode, f).mode;
      Quiet(TailDepartures(Tail.Else(body), mode, f, m), there, mode) && there.op == mode.op
    decreases body, 1
  {
    hide ArmedCost, ArmedDepartures, BlockInside;
    QuietBlock(body, mode, f, m + 1);
  }

  lemma {:induction false} QuietElseIf(xs: seq<Item>, body: Body, rest: Tail, mode: Mode, f: nat, m: nat)
    requires TailInside(ElseIf(xs, body, rest)) && Steady(mode) && m == Level(mode, f)
    ensures var tail := ElseIf(xs, body, rest);
            var there := TailCost(tail, mode, f).mode;
      Quiet(TailDepartures(tail, mode, f, m), there, mode) && there.op == mode.op
    decreases ElseIf(xs, body, rest), 0
  {
    hide HeaderCost, BodyCost, TailCost, Departs, BodyDepartures, TailDepartures, PlainHeader, Holds, BlockInside;
    hide Departure.Plus, Arms, Resolved;
    QuietHeader(xs, mode, f, m);
    var there := HeaderCost(xs, mode, f).mode;
    QuietBody(body, there, mode, f, m + 1);
    var mid := BodyCost(body, there, f).mode;
    QuietTail(rest, mid, f, m);
    NonePlusNone(Departs(xs, InsideHeader(mode), Cut, f, m), BodyDepartures(body, there, f, m + 1));
    NonePlusNone(NONE, TailDepartures(rest, mid, f, m));
    ElseIfUnfolds(xs, body, rest, mode, f, m);
  }

  // --------------------------------------------------- statements that depart nowhere

  /** The scorer holds nothing open but the `open` braceless bodies around. */
  predicate Clear(mode: Mode, open: nat, clean: bool) {
    && mode.open == open && !mode.lambda && !mode.swallow && mode.depth == 0 && !mode.header
    && (clean ==> mode.op == NoOp)
  }

  lemma ClearFits(xs: seq<Item>, mode: Mode, f: nat, m: nat, open: nat, clean: bool)
    requires PlainExpression(xs, clean) && Clear(mode, open, clean) && m == f + open
    requires open > 0 ==> !Holds(xs, Function)
    ensures Fits(xs, mode, f, m)
  {
    hide Plain, OneSequence, HasOperator, Holds;
  }

  /** A statement's expression; the tracker stays fresh without operators. */
  lemma ExpressionClear(xs: seq<Item>, mode: Mode, f: nat, m: nat, open: nat, clean: bool)
    requires PlainExpression(xs, clean) && Clear(mode, open, clean) && m == f + open
    requires open > 0 ==> !Holds(xs, Function)
    ensures Departs(xs, mode, Cut, f, m) == NONE
    ensures var there := ItemsCost(xs, mode, f).mode;
      && Same(there, mode) && (clean && !HasOperator(xs) ==> there.op == NoOp)
      && (!Holds(xs, Bracket) ==> !there.lambda)
  {
    hide ItemsCost, Departs, Plain, OneSequence, Holds, HasOperator, Fits;
    ClearFits(xs, mode, f, m, open, clean);
    if clean {
      NoRunLost(xs, mode, f, m);
    }
    if !HasOperator(xs) {
      QuietItems(xs, mode, Cut, f, m);
    }
    if !Holds(xs, Bracket) {
      NoBracketStays(xs, mode, f, Bracket);
    }
  }

  /** After a header the scorer awaits the body. */
  lemma HeaderClear(xs: seq<Item>, mode: Mode, f: nat, m: nat, open: nat, clean: bool)
    requires PlainHeader(xs) && Clear(mode, open, clean) && m == f + open
    ensures Departs(xs, InsideHeader(mode), Cut, f, m) == NONE && HeadDepartures(xs, mode, f, m) == NONE
    ensures var there := HeaderCost(xs, mode, f).mode;
      Arms(there) && Clear(Resolved(there), open, clean) && HeadCost(xs, mode, f).mode == there
  {
    hide HeaderCost, HeadCost, Departs, HeadDepartures, PlainHeader, Holds;
    QuietHeader(xs, mode, f, m);
  }

  lemma {:induction false} PlainStmtsDepartNowhere(ss: seq<Stmt>, mode: Mode, f: nat, clean: bool)
    requires PlainStmts(ss, clean) && Clear(mode, 0, clean)
    ensures Departures(ss, mode, f, f) == NONE
    ensures Clear(StmtsCost(ss, mode, f).mode, 0, clean && !SomeOperate(ss))
    decreases ss, 0
  {
    hide PlainStmt, StmtDepartures, StmtCost, Operates, Clear, Departure.Plus;
    if ss != [] {
      var mode' := StmtCost(ss[0], mode, f).mode;
      PlainStmtDepartsNowhere(ss[0], mode, f, clean);
      PlainStmtsDepartNowhere(ss[1..], mode', f, clean && !Operates(ss[0]));
      NonePlusNone(StmtDepartures(ss[0], mode, f, f), Departures(ss[1..], mode', f, f));
    }
  }

  lemma SimpleClear(xs: seq<Item>, mode: Mode, f: nat, m: nat, open: nat, clean: bool)
    requires PlainExpression(xs, clean) && Clear(mode, open, clean) && m == f + open
    requires open > 0 ==> !Holds(xs, Function)
    ensures StmtDepartures(Simple(xs), mode, f, m) == NONE
    ensures Clear(StmtCost(Simple(xs), mode, f).mode, 0, clean && !Operates(Simple(xs)))
  {
    hide PlainExpression, Departs, ItemsCost, HasOperator, Holds;
    ExpressionClear(xs, mode, f, m, open, clean);
  }

  lemma {:induction false} PlainStmtDepartsNowhere(s: Stmt, mode: Mode, f: nat, clean: bool)
    requires PlainStmt(s, clean) && Clear(mode, 0, clean)
    ensures StmtDepartures(s, mode, f, f) == NONE
    ensures Clear(StmtCost(s, mode, f).mode, 0, clean && !Operates(s))
    decreases s, 1
  {
    hide StmtDepartures, StmtCost, Operates, Clear;
    match s
    case Simple(xs) => SimplePlain(xs, mode, f, clean);
    case Scope(xs, ss) => PlainScopeDepartsNowhere(xs, ss, mode, f, clean);
    case Control(h, body) => PlainControlDepartsNowhere(h, body, mode, f, clean);
    case Branch(xs, body, tail) => PlainBranchDepartsNowhere(xs, body, tail, mode, f, clean);
  }

  lemma SimplePlain(xs: seq<Item>, mode: Mode, f: nat, clean: bool)
    requires PlainStmt(Simple(xs), clean) && Clear(mode, 0, clean)
    ensures StmtDepartures(Simple(xs), mode, f, f) == NONE
    ensures Clear(StmtCost(Simple(xs), mode, f).mode, 0, clean && !Operates(Simple(xs)))
  {
    hide StmtDepartures, StmtCost, Operates, Clear, PlainExpression, Holds;
    SimpleClear(xs, mode, f, f, 0, clean);
  }

  lemma {:induction false} PlainControlDepartsNowhere(h: Head, body: Body, mode: Mode, f: nat, clean: bool)
    requires PlainStmt(Control(h, body), clean) && Clear(mode, 0, clean)
    ensures StmtDepartures(Control(h, body), mode, f, f) == NONE
    ensures Clear(StmtCost(Control(h, body), mode, f).mode, 0, clean && !Operates(Control(h, body)))
    decreases body, 2
  {
    hide PlainHeader, PlainBody, BodyOperates, HeadDepartures, BodyDepartures, HeadCost, HeaderCost, BodyCost;
    hide GroupCost, LooseCost, Departs, LooseDepartures, Arms, Resolved, Departure.Plus;
    var there := HeadCost(h.header, mode, f).mode;
    HeaderClear(h.header, mode, f, f, 0, clean);
    PlainBodyDepartsNowhere(body, there, f, f + 1, 0, clean);
    NonePlusNone(HeadDepartures(h.header, mode, f, f), BodyDepartures(body, there, f, f + 1));
  }

  lemma {:induction false} PlainBranchDepartsNowhere(
      xs: seq<Item>, body: Body, tail: Tail, mode: Mode, f: nat, clean: bool)
    requires PlainStmt(Branch(xs, body, tail), clean) && Clear(mode, 0, clean)
    ensures StmtDepartures(Branch(xs, body, tail), mode, f, f) == NONE
    ensures Clear(StmtCost(Branch(xs, body, tail), mode, f).mode, 0, clean && !Operates(Branch(xs, body, tail)))
    decreases Branch(xs, body, tail), 0
  {
    hide PlainHeader, PlainBody, PlainTail, BodyOperates, TailOperates, HeadDepartures, BodyDepartures, TailDepartures;
    hide HeadCost, HeaderCost, BodyCost, TailCost, Clear, Arms, Resolved, Departure.Plus;
    var there := HeadCost(xs, mode, f).mode;
    HeaderClear(xs, mode, f, f, 0, clean);
    PlainBodyDepartsNowhere(body, there, f, f + 1, 0, clean);
    var mid := BodyCost(body, there, f).mode;
    PlainTailDepartsNowhere(tail, mid, f, clean && !BodyOperates(body));
    NonePlusNone(HeadDepartures(xs, mode, f, f), BodyDepartures(body, there, f, f + 1));
    NonePlusNone(NONE, TailDepartures(tail, mid, f, f));
  }

  lemma {:induction false} PlainScopeDepartsNowhere(xs: seq<Item>, ss: seq<Stmt>, mode: Mode, f: nat, clean: bool)
    requires PlainStmt(Scope(xs, ss), clean) && Clear(mode, 0, clean)
    ensures StmtDepartures(Scope(xs, ss), mode, f, f) == NONE
    ensures Clear(StmtCost(Scope(xs, ss), mode, f).mode, 0, clean && !Operates(Scope(xs, ss)))
    decreases ss, 1
  {
    hide PlainExpression, PlainStmts, HasOperator, SomeOperate, Departs, Departures, ItemsCost, StmtsCost, Holds;
    hide Departure.Plus;
    var there := ItemsCost(xs, mode, f).mode;
    ExpressionClear(xs, mode, f, f, 0, clean);
    PlainStmtsDepartNowhere(ss, there.(lambda := false), f, clean && !HasOperator(xs));
    NonePlusNone(Departs(xs, mode, Cut, f, f), Departures(ss, there.(lambda := false), f, f));
  }

  /** The body behind a header, at the nesting `m`, one deeper than its owner. */
  lemma {:induction false} PlainBodyDepartsNowhere(body: Body, h: Mode, f: nat, m: nat, open: nat, clean: bool)
    requires Arms(h) && Clear(Resolved(h), open, clean) && m == f + open + 1
    requires if open == 0 then PlainBody(body, clean) else body.Bare? && PlainChain(body.stmt, clean)
    ensures BodyDepartures(body, h, f, m) == NONE
    ensures Clear(BodyCost(body, h, f).mode, 0, clean && !BodyOperates(body))
    decreases body, 1
  {
    hide PlainBody, PlainChain, BodyOperates, Clear, ArmedCost, ArmedDepartures, Resolved;
    PlainArmedDepartsNowhere(body, Resolved(h), f, m, open, clean);
  }

  lemma {:induction false} PlainArmedDepartsNowhere(body: Body, mode: Mode, f: nat, m: nat, open: nat, clean: bool)
    requires Clear(mode, open, clean) && m == f + open + 1
    requires if open == 0 then PlainBody(body, clean) else body.Bare? && PlainChain(body.stmt, clean)
    ensures ArmedDepartures(body, mode, f, m) == NONE
    ensures Clear(ArmedCost(body, mode, f).mode, 0, clean && !BodyOperates(body))
    decreases body, 0
  {
    hide PlainStmts, PlainChain, SomeOperate, Operates, Departures, StmtDepartures, StmtsCost, StmtCost;
    match body
    case Block(ss) => PlainStmtsDepartNowhere(ss, mode, f + 1, clean);
    case Bare(s) => PlainChainDepartsNowhere(s, mode.(open := open + 1), f, m, open + 1, clean);
  }

  /** A chain of braceless bodies: the `;` at its end closes all of them. */
  lemma {:induction false} PlainChainDepartsNowhere(s: Stmt, mode: Mode, f: nat, m: nat, open: nat, clean: bool)
    requires PlainChain(s, clean) && Clear(mode, open, clean) && m == f + open && open > 0
    ensures StmtDepartures(s, mode, f, m) == NONE
    ensures Clear(StmtCost(s, mode, f).mode, 0, clean && !Operates(s))
    decreases s, 1
  {
    hide StmtDepartures, StmtCost, Operates, Clear, PlainExpression, PlainHeader, Holds;
    match s
    case Simple(xs) => SimpleClear(xs, mode, f, m, open, clean);
    case Control(h, body) => ChainedControl(h, body, mode, f, m, open, clean);
    case Branch(xs, body, tail) => ChainedBranch(xs, body, mode, f, m, open, clean);
  }

  lemma {:induction false} ChainedControl(
      h: Head, body: Body, mode: Mode, f: nat, m: nat, open: nat, clean: bool)
    requires PlainChain(Control(h, body), clean) && Clear(mode, open, clean) && m == f + open && open > 0
    ensures StmtDepartures(Control(h, body), mode, f, m) == NONE
    ensures Clear(StmtCost(Control(h, body), mode, f).mode, 0, clean && !Operates(Control(h, body)))
    decreases body, 2
  {
    hide PlainHeader, PlainBody, BodyOperates, HeadDepartures, BodyDepartures, HeadCost, HeaderCost, BodyCost;
    hide GroupCost, LooseCost, Departs, LooseDepartures, Arms, Resolved, Departure.Plus;
    var there := HeadCost(h.header, mode, f).mode;
    HeaderClear(h.header, mode, f, m, open, clean);
    PlainBodyDepartsNowhere(body, there, f, m + 1, open, clean);
    NonePlusNone(HeadDepartures(h.header, mode, f, m), BodyDepartures(body, there, f, m + 1));
  }

  lemma {:induction false} ChainedBranch(
      xs: seq<Item>, body: Body, mode: Mode, f: nat, m: nat, open: nat, clean: bool)
    requires PlainChain(Branch(xs, body, NoElse), clean) && Clear(mode, open, clean) && m == f + open && open > 0
    ensures StmtDepartures(Branch(xs, body, NoElse), mode, f, m) == NONE
    ensures Clear(StmtCost(Branch(xs, body, NoElse), mode, f).mode, 0, clean && !Operates(Branch(xs, body, NoElse)))
    decreases body, 2
  {
    hide PlainHeader, PlainBody, BodyOperates, HeadDepartures, BodyDepartures, HeadCost, HeaderCost, BodyCost;
    hide Clear, Arms, Resolved, Departure.Plus;
    var there := HeadCost(xs, mode, f).mode;
    HeaderClear(xs, mode, f, m, open, clean);
    PlainBodyDepartsNowhere(body, there, f, m + 1, open, clean);
    NonePlusNone(HeadDepartures(xs, mode, f, m), BodyDepartures(body, there, f, m + 1));
    NonePlusNone(NONE, NONE);
  }

  lemma {:induction false} PlainTailDepartsNowhere(tail: Tail, mode: Mode, f: nat, clean: bool)
    requires PlainTail(tail, clean) && Clear(mode, 0, clean)
    ensures TailDepartures(tail, mode, f, f) == NONE
    ensures Clear(TailCost(tail, mode, f).mode, 0, clean && !TailOperates(tail))
    decreases tail, 0
  {
    hide PlainHeader, PlainBody, BodyOperates, Clear, Departs, BodyDepartures, ArmedDepartures, HeaderCost, BodyCost,
      ArmedCost;
    hide Arms, Resolved, Departure.Plus;
    match tail
    case NoElse =>
    case Else(body) => PlainArmedDepartsNowhere(body, mode, f, f + 1, 0, clean);
    case ElseIf(xs, body, rest) =>
      var there := HeaderCost(xs, mode, f).mode;
      HeaderClear(xs, mode, f, f, 0, clean);
      PlainBodyDepartsNowhere(body, there, f, f + 1, 0, clean);
      var mid := BodyCost(body, there, f).mode;
      PlainTailDepartsNowhere(rest, mid, f, clean && !BodyOperates(body));
      NonePlusNone(Departs(xs, InsideHeader(mode), Cut, f, f), BodyDepartures(body, there, f, f + 1));
      NonePlusNone(NONE, TailDepartures(rest, mid, f, f));
  }
}
