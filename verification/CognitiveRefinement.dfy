/** Running the token machine over the printed form of a statement tree charges what the
    recursion charges. */
module CognitiveRefinement {
  import opened Tokens
  import opened ScoreMachine
  import opened CognitiveTree
  import opened CognitiveCost

  function RunSyms(st: Score, syms: seq<Sym>): (r: Score)
    requires Shaped(st)
    ensures Shaped(r)
    decreases |syms|
  {
    if syms == [] then st else RunSyms(StepSym(st, syms[0], false), syms[1..])
  }

  lemma {:induction false} RunConcat(st: Score, a: seq<Sym>, b: seq<Sym>)
    requires Shaped(st)
    ensures RunSyms(st, a + b) == RunSyms(RunSyms(st, a), b)
    decreases |a|
  {
    hide StepSym;
    if a == [] {
      assert a + b == b;
    } else {
      assert (a + b)[1..] == a[1..] + b;
      RunConcat(StepSym(st, a[0], false), a[1..], b);
    }
  }

  lemma RunOne(st: Score, sym: Sym)
    requires Shaped(st)
    ensures RunSyms(st, [sym]) == StepSym(st, sym, false)
  {
    hide StepSym;
    assert [sym][1..] == [];
  }

  lemma NothingRuns(st: Score)
    requires Shaped(st)
    ensures RunSyms(st, []) == st
  {
  }

  lemma Surrounded(st: Score, a: Sym, xs: seq<Sym>, b: Sym)
    requires Shaped(st)
    ensures RunSyms(st, [a] + xs + [b]) == StepSym(RunSyms(StepSym(st, a, false), xs), b, false)
  {
    hide StepSym, RunSyms;
    RunConcat(st, [a] + xs, [b]);
    RunConcat(st, [a], xs);
    RunOne(st, a);
    RunOne(RunSyms(st, [a] + xs), b);
  }

  const CALM: Pending := Pending(false, false, false, false, false, false)

  // ------------------------------------------------- what the costs leave unchanged

  /** What is charged reaches at least as deep as where it starts and where it ends, ends
      inside as many parentheses, and leaves no header open but the one it started in. */
  predicate Spans(c: Cost, mode: Mode, f: nat) {
    && c.deepest >= Level(mode, f) && c.deepest >= Level(c.mode, f)
    && c.mode.depth == mode.depth
    && (c.mode.header ==> mode.header && c.mode.base == mode.base)
  }

  /** The same for a header, which may leave itself open. */
  predicate HeadSpans(c: Cost, mode: Mode, f: nat) {
    && c.deepest >= Level(mode, f) && c.deepest >= Level(c.mode, f)
    && c.mode.depth == mode.depth
    && (c.mode.header ==> c.mode.base == mode.depth)
  }

  lemma SpansThen(a: Cost, b: Cost, mode: Mode, f: nat)
    requires Spans(a, mode, f) && Spans(b, a.mode, f)
    ensures Spans(Then(a, b), mode, f)
  {
  }

  lemma HeadSpansThen(a: Cost, b: Cost, mode: Mode, f: nat)
    requires Spans(a, mode, f) && HeadSpans(b, a.mode, f)
    ensures HeadSpans(Then(a, b), mode, f)
  {
  }

  /** A header, and what closes it. */
  lemma SpansResolved(h: Cost, b: Cost, mode: Mode, f: nat)
    requires HeadSpans(h, mode, f) && Spans(b, Resolved(h.mode), f)
    ensures Spans(Then(h, b), mode, f)
  {
  }

  lemma StepSpans(score: int, mode: Mode, f: nat)
    ensures Spans(Step(score, mode, f), mode, f) && Step(score, mode, f).mode == mode
    ensures Spans(Nothing(mode, Level(mode, f)), mode, f)
  {
  }

  lemma EndedSpans(c: Cost, mode: Mode, f: nat)
    requires Spans(c, mode, f)
    ensures Spans(Ended(c), mode, f)
  {
  }

  lemma EmptySpans(mode: Mode, f: nat)
    ensures Spans(EmptyCost(mode, f), Resolved(mode), f)
  {
  }

  lemma {:induction false} ItemSpans(it: Item, mode: Mode, f: nat)
    ensures Spans(ItemCost(it, mode, f), mode, f)
    decreases it, 1
  {
    hide ItemsCost, GroupCost, ScopeCost, Then;
    match it
    case Ternary(xs, ys) =>
      var q := Step(1 + Level(mode, f), mode, f);
      StepSpans(1 + Level(mode, f), mode, f);
      ItemsSpan(xs, mode, f);
      SpansThen(q, ItemsCost(xs, mode, f), mode, f);
      var a := Then(q, ItemsCost(xs, mode, f));
      ItemsSpan(ys, a.mode, f);
      SpansThen(a, ItemsCost(ys, a.mode, f), mode, f);
    case Paren(xs) => GroupSpans(xs, mode, f);
    case Braced(xs) => BracedSpans(xs, mode, f);
    case Subscript(xs) =>
      ItemsSpan(xs, mode.(lambda := true), f);
      SpansFrom(ItemsCost(xs, mode.(lambda := true), f), mode.(lambda := true), mode, f);
    case Lambda(captures, intro, ss) => LambdaSpans(captures, intro, ss, mode, f);
    case _ =>
  }

  /** The flag set by `[` is no part of what is kept. */
  lemma SpansFrom(c: Cost, a: Mode, b: Mode, f: nat)
    requires Spans(c, a, f) && b == a.(lambda := b.lambda)
    ensures Spans(c, b, f)
  {
  }

  lemma {:induction false} BracedSpans(xs: seq<Item>, mode: Mode, f: nat)
    ensures var c := ItemsCost(xs, mode.(lambda := false), InBrace(mode, f));
      Spans(c, mode, InBrace(mode, f)) && Spans(Then(Nothing(mode, Level(mode, f)), c), mode, f)
    decreases xs, 1
  {
    hide ItemsCost;
    ItemsSpan(xs, mode.(lambda := false), InBrace(mode, f));
  }

  lemma {:induction false} LambdaSpans(captures: seq<Item>, intro: seq<Item>, ss: seq<Stmt>, mode: Mode, f: nat)
    ensures var a := ItemsCost(captures, mode.(lambda := true), f);
            var b := Then(a, ItemsCost(intro, a.mode, f));
      Spans(a, mode, f) && Spans(b, mode, f) && Spans(Then(b, ScopeCost(ss, b.mode, f)), mode, f)
    decreases Lambda(captures, intro, ss), 0
  {
    hide ItemsCost, ScopeCost, Spans, Then;
    var a := ItemsCost(captures, mode.(lambda := true), f);
    ItemsSpan(captures, mode.(lambda := true), f);
    SpansFrom(a, mode.(lambda := true), mode, f);
    ItemsSpan(intro, a.mode, f);
    SpansThen(a, ItemsCost(intro, a.mode, f), mode, f);
    var b := Then(a, ItemsCost(intro, a.mode, f));
    ScopeSpans(ss, b.mode, f);
    SpansThen(b, ScopeCost(ss, b.mode, f), mode, f);
  }

  lemma {:induction false} ItemsSpan(xs: seq<Item>, mode: Mode, f: nat)
    ensures Spans(ItemsCost(xs, mode, f), mode, f)
    decreases xs, 0
  {
    hide ItemCost;
    if xs != [] {
      var a := ItemCost(xs[0], mode, f);
      ItemSpans(xs[0], mode, f);
      ItemsSpan(xs[1..], a.mode, f);
      SpansThen(a, ItemsCost(xs[1..], a.mode, f), mode, f);
    }
  }

  lemma {:induction false} GroupSpans(xs: seq<Item>, mode: Mode, f: nat)
    ensures Spans(GroupCost(xs, mode, f), mode, f)
    decreases xs, 1
  {
    hide ItemsCost;
    ItemsSpan(xs, Inside(mode), f);
  }

  lemma {:induction false} HeaderSpans(xs: seq<Item>, mode: Mode, f: nat)
    ensures HeadSpans(HeaderCost(xs, mode, f), mode, f)
    decreases xs, 1
  {
    hide ItemsCost;
    ItemsSpan(xs, InsideHeader(mode), f);
  }

  lemma {:induction false} HeadSpan(xs: seq<Item>, mode: Mode, f: nat)
    ensures HeadSpans(HeadCost(xs, mode, f), mode, f)
    decreases xs, 2
  {
    hide HeaderCost;
    HeaderSpans(xs, mode, f);
    StepSpans(1 + Level(mode, f), mode, f);
    HeadSpansThen(Step(1 + Level(mode, f), mode, f), HeaderCost(xs, mode, f), mode, f);
  }

  lemma {:induction false} ArmedSpans(body: Body, mode: Mode, f: nat)
    ensures Spans(ArmedCost(body, mode, f), mode, f) && ArmedCost(body, mode, f).deepest >= Level(mode, f) + 1
    decreases body, 0
  {
    hide StmtCost, StmtsCost;
    match body
    case Block(ss) => StmtsSpan(ss, mode, f + 1);
    case Bare(s) => StmtSpans(s, mode.(open := mode.open + 1), f);
  }

  lemma {:induction false} LooseSpans(body: Body, mode: Mode, f: nat)
    ensures Spans(LooseCost(body, mode, f), mode, f)
    decreases body, 0
  {
    hide StmtCost, ScopeCost;
    match body
    case Block(ss) => ScopeSpans(ss, mode, f);
    case Bare(s) => StmtSpans(s, mode, f);
  }

  lemma {:induction false} BodySpans(body: Body, mode: Mode, f: nat)
    ensures Spans(BodyCost(body, mode, f), Resolved(mode), f)
    decreases body, 1
  {
    hide LooseCost, ArmedCost;
    if Arms(mode) {
      ArmedSpans(body, Resolved(mode), f);
    } else {
      LooseSpans(body, Resolved(mode), f);
    }
  }

  lemma {:induction false} ScopeSpans(ss: seq<Stmt>, mode: Mode, f: nat)
    ensures Spans(StmtsCost(ss, mode.(lambda := false), InBrace(mode, f)), mode, InBrace(mode, f))
    ensures Spans(ScopeCost(ss, mode, f), mode, f)
    decreases ss, 1
  {
    hide StmtsCost;
    StmtsSpan(ss, mode.(lambda := false), InBrace(mode, f));
  }

  lemma {:induction false} StmtSpans(s: Stmt, mode: Mode, f: nat)
    ensures Spans(StmtCost(s, mode, f), mode, f)
    decreases s, 0
  {
    hide ItemsCost, ScopeCost, GroupCost, LooseCost, HeadCost, BodyCost, TailCost, ArmedCost, DoTailCost, Spans, Then,
      Ended;
    match s
    case Simple(xs) =>
      ItemsSpan(xs, mode, f);
      EndedSpans(ItemsCost(xs, mode, f), mode, f);
    case Scope(xs, ss) =>
      ItemsSpan(xs, mode, f);
      var a := ItemsCost(xs, mode, f);
      ScopeSpans(ss, a.mode, f);
      SpansThen(a, ScopeCost(ss, a.mode, f), mode, f);
    case Control(h, body) =>
      if h.keyword.While? && mode.swallow {
        GroupSpans(h.header, mode, f);
        var a := GroupCost(h.header, mode, f);
        LooseSpans(body, a.mode, f);
        SpansThen(a, LooseCost(body, a.mode, f), mode, f);
      } else {
        HeadSpan(h.header, mode, f);
        HeadThenBody(HeadCost(h.header, mode, f), body, mode, f);
      }
    case Branch(xs, body, tail) =>
      var h := HeadCost(xs, mode, f);
      HeadSpan(xs, mode, f);
      HeadThenBody(h, body, mode, f);
      var a := Then(h, BodyCost(body, h.mode, f));
      TailSpans(tail, a.mode, f);
      SpansThen(a, TailCost(tail, a.mode, f), mode, f);
    case DoWhile(body, cond) =>
      var k := Step(1 + Level(mode, f), mode, f);
      StepSpans(1 + Level(mode, f), mode, f);
      ArmedSpans(body, mode, f);
      SpansThen(k, ArmedCost(body, mode, f), mode, f);
      var a := Then(k, ArmedCost(body, mode, f));
      DoTailSpans(cond, body.Block?, a.mode, f);
      SpansThen(a, DoTailCost(cond, body.Block?, a.mode, f), mode, f);
  }

  lemma {:induction false} HeadThenBody(h: Cost, body: Body, mode: Mode, f: nat)
    requires HeadSpans(h, mode, f)
    ensures Spans(Then(h, BodyCost(body, h.mode, f)), mode, f)
    decreases body, 2
  {
    hide BodyCost, Spans, HeadSpans, Then;
    BodySpans(body, h.mode, f);
    SpansResolved(h, BodyCost(body, h.mode, f), mode, f);
  }

  lemma {:induction false} DoTailSpans(cond: seq<Item>, braced: bool, mode: Mode, f: nat)
    ensures Spans(DoTailCost(cond, braced, mode, f), mode, f)
    decreases cond, 3
  {
    hide GroupCost, HeadCost, EmptyCost, Then, Resolved;
    if braced || mode.swallow {
      GroupSpans(cond, mode.(swallow := true), f);
      EndedSpans(GroupCost(cond, mode.(swallow := true), f), mode, f);
    } else {
      var h := HeadCost(cond, mode, f);
      HeadSpan(cond, mode, f);
      EmptySpans(h.mode, f);
      SpansResolved(h, EmptyCost(h.mode, f), mode, f);
    }
  }

  lemma {:induction false} StmtsSpan(ss: seq<Stmt>, mode: Mode, f: nat)
    ensures Spans(StmtsCost(ss, mode, f), mode, f)
    decreases ss, 0
  {
    hide StmtCost;
    if ss != [] {
      var a := StmtCost(ss[0], mode, f);
      StmtSpans(ss[0], mode, f);
      StmtsSpan(ss[1..], a.mode, f);
      SpansThen(a, StmtsCost(ss[1..], a.mode, f), mode, f);
    }
  }

  lemma {:induction false} TailSpans(tail: Tail, mode: Mode, f: nat)
    ensures Spans(TailCost(tail, mode, f), mode, f)
    decreases tail, 0
  {
    hide HeaderCost, ArmedCost, BodyCost, Spans, HeadSpans, Then, Step;
    StepSpans(1, mode, f);
    var e := Step(1, mode, f);
    match tail
    case NoElse =>
    case Else(body) =>
      ArmedSpans(body, mode, f);
      SpansThen(e, ArmedCost(body, mode, f), mode, f);
    case ElseIf(xs, body, rest) =>
      HeaderSpans(xs, mode, f);
      HeadSpansThen(e, HeaderCost(xs, mode, f), mode, f);
      var h := Then(e, HeaderCost(xs, mode, f));
      HeadThenBody(h, body, mode, f);
      var a := Then(h, BodyCost(body, h.mode, f));
      TailSpans(rest, a.mode, f);
      SpansThen(a, TailCost(rest, a.mode, f), mode, f);
  }

  // --------------------------------------------------------- states of the machine

  /** The trackers of the parentheses around, the braces around, and how many of these the
      scorer counts. */
  datatype Place = Place(outer: seq<Op>, braces: seq<BraceFrame>, f: nat)

  function Trackers(mode: Mode, p: Place, awaiting: bool): Parens {
    Parens(|p.outer|, p.outer + [mode.op], awaiting, mode.base, mode.header, mode.swallow)
  }

  /** Nothing is awaited. */
  function At(t: Tally, mode: Mode, p: Place): Score {
    Score(t, Trackers(mode, p, false), CALM.(lambda := mode.lambda), p.braces, mode.open)
  }

  /** A control keyword has been read; its `(` is awaited. */
  function Awaiting(t: Tally, mode: Mode, p: Place): Score {
    Score(t, Trackers(mode, p, true), CALM.(lambda := mode.lambda), p.braces, mode.open)
  }

  /** A body is awaited; after `do` if `isDo`. */
  function Ready(t: Tally, mode: Mode, p: Place, isDo: bool): Score {
    Score(t, Trackers(mode, p, false), CALM.(control := true, isDo := isDo, lambda := mode.lambda), p.braces, mode.open)
  }

  /** After a header. */
  function Headed(t: Tally, mode: Mode, p: Place): Score {
    if Arms(mode) then Ready(t, Resolved(mode), p, false) else At(t, Resolved(mode), p)
  }

  /** Right after `else`. */
  function Armed(t: Tally, mode: Mode, p: Place): Score {
    At(t, mode, p).(pending := CALM.(elseArmed := true, lambda := mode.lambda))
  }

  /** What a `}` leaves behind: the tail of a do-while is awaited after its body. */
  function Behind(t: Tally, mode: Mode, p: Place, isDo: bool): Score {
    At(t, mode, p).(pending := CALM.(doTail := isDo, lambda := mode.lambda))
  }

  lemma StatesShaped(t: Tally, mode: Mode, p: Place)
    ensures Shaped(At(t, mode, p)) && Shaped(Awaiting(t, mode, p)) && Shaped(Headed(t, mode, p))
    ensures Shaped(Armed(t, mode, p))
    ensures forall isDo :: Shaped(Ready(t, mode, p, isDo)) && Shaped(Behind(t, mode, p, isDo))
    ensures Behind(t, mode, p, false) == At(t, mode, p)
  {
  }

  /** The tally stands at the nesting of this place, and an open header lies further out. */
  predicate Sound(t: Tally, mode: Mode, p: Place) {
    && t.nesting == Level(mode, p.f) && t.nesting <= t.maxNesting
    && mode.depth == |p.outer| && (mode.header ==> mode.base < mode.depth)
  }

  function Plus(t: Tally, c: Cost, f: nat): Tally {
    Tally(t.score + c.score, t.increments + c.count, Level(c.mode, f), Max(t.maxNesting, c.deepest))
  }

  lemma PlusThen(t: Tally, a: Cost, b: Cost, f: nat)
    ensures Plus(Plus(t, a, f), b, f) == Plus(t, Then(a, b), f)
  {
  }

  lemma PlusSound(t: Tally, a: Cost, mode: Mode, p: Place)
    requires Sound(t, mode, p) && Spans(a, mode, p.f)
    ensures Sound(Plus(t, a, p.f), a.mode, p)
  {
  }

  lemma HeadSound(t: Tally, h: Cost, mode: Mode, p: Place)
    requires Sound(t, mode, p) && HeadSpans(h, mode, p.f)
    ensures Sound(Plus(t, h, p.f), Resolved(h.mode), p)
  {
  }

  /** The symbols add this cost to the state. */
  predicate Runs(t: Tally, mode: Mode, p: Place, syms: seq<Sym>, c: Cost) {
    Shaped(At(t, mode, p)) && RunSyms(At(t, mode, p), syms) == At(Plus(t, c, p.f), c.mode, p)
  }

  /** The symbols add this cost and end in a header. */
  predicate HeadRuns(t: Tally, mode: Mode, p: Place, syms: seq<Sym>, c: Cost) {
    Shaped(At(t, mode, p)) && RunSyms(At(t, mode, p), syms) == Headed(Plus(t, c, p.f), c.mode, p)
  }

  lemma RunThen(t: Tally, mode: Mode, p: Place, a: Cost, b: Cost, xs: seq<Sym>, ys: seq<Sym>)
    requires Runs(t, mode, p, xs, a) && Runs(Plus(t, a, p.f), a.mode, p, ys, b)
    ensures Runs(t, mode, p, xs + ys, Then(a, b))
  {
    hide RunSyms, At, Plus;
    RunConcat(At(t, mode, p), xs, ys);
    PlusThen(t, a, b, p.f);
  }

  lemma RunNothing(t: Tally, mode: Mode, p: Place)
    requires Sound(t, mode, p)
    ensures Runs(t, mode, p, [], Nothing(mode, Level(mode, p.f)))
  {
    StatesShaped(t, mode, p);
    NothingRuns(At(t, mode, p));
  }

  lemma RunSym(t: Tally, mode: Mode, p: Place, sym: Sym, c: Cost)
    requires Shaped(At(t, mode, p)) && StepSym(At(t, mode, p), sym, false) == At(Plus(t, c, p.f), c.mode, p)
    ensures Runs(t, mode, p, [sym], c)
  {
    hide StepSym, RunSyms, At, Plus;
    RunOne(At(t, mode, p), sym);
  }

  /** One symbol leads to another place, one leads back. */
  lemma RunAround(t: Tally, mode: Mode, p: Place, a: Sym, xs: seq<Sym>, b: Sym,
      t': Tally, mode': Mode, p': Place, c: Cost, d: Cost)
    requires Shaped(At(t, mode, p)) && StepSym(At(t, mode, p), a, false) == At(t', mode', p')
    requires Runs(t', mode', p', xs, c)
    requires Shaped(At(Plus(t', c, p'.f), c.mode, p'))
    requires StepSym(At(Plus(t', c, p'.f), c.mode, p'), b, false) == At(Plus(t, d, p.f), d.mode, p)
    ensures Runs(t, mode, p, [a] + xs + [b], d)
  {
    hide StepSym, RunSyms, At, Plus;
    Surrounded(At(t, mode, p), a, xs, b);
  }

  // ------------------------------------------------------------------ expressions

  lemma IncrementIs(t: Tally)
    ensures Increment(t, false) == t.(score := t.score + 1, increments := t.increments + 1)
    ensures Increment(t, true) == t.(score := t.score + 1 + t.nesting, increments := t.increments + 1)
  {
  }

  /** Setting the innermost tracker. */
  lemma SetTracker(mode: Mode, p: Place, op: Op)
    ensures Trackers(mode, p, false).lastOp[|p.outer|] == mode.op
    ensures SetOp(Trackers(mode, p, false), op) == Trackers(mode.(op := op), p, false)
  {
    assert (p.outer + [mode.op])[|p.outer| := op] == p.outer + [op];
  }

  predicate Leaf(it: Item) {
    it.Atom? || it.Logical? || it.Glued? || it.Negate? || it.Jump?
  }

  /** One item that prints to a single symbol. */
  lemma LeafStep(t: Tally, mode: Mode, p: Place, it: Item)
    requires Sound(t, mode, p) && Leaf(it) && ValidItem(it, mode.depth > 0)
    ensures Runs(t, mode, p, PrintItem(it), ItemCost(it, mode, p.f))
  {
    hide Runs, Sound, At, Plus, StepSym;
    StatesShaped(t, mode, p);
    match it
    case Atom(sym) =>
      AtomStep(t, mode, p, sym);
      RunSym(t, mode, p, sym, ItemCost(it, mode, p.f));
    case Logical(conj, word) =>
      LogicalStep(t, mode, p, conj, word);
      RunSym(t, mode, p, PrintItem(it)[0], ItemCost(it, mode, p.f));
      assert PrintItem(it) == [PrintItem(it)[0]];
    case Glued(conj) =>
      AtomStep(t, mode, p, Unspaced(conj));
      RunSym(t, mode, p, Unspaced(conj), ItemCost(it, mode, p.f));
    case Negate =>
      NegateStep(t, mode, p);
      RunSym(t, mode, p, Bang, ItemCost(it, mode, p.f));
    case Jump(sym) =>
      JumpStep(t, mode, p, sym);
      RunSym(t, mode, p, sym, ItemCost(it, mode, p.f));
  }

  lemma AtomStep(t: Tally, mode: Mode, p: Place, sym: Sym)
    requires Sound(t, mode, p) && (PlainSym(sym) || (mode.depth > 0 && sym.Semicolon?))
    ensures var c := ItemCost(Atom(sym), mode, p.f);
      Shaped(At(t, mode, p)) && StepSym(At(t, mode, p), sym, false) == At(Plus(t, c, p.f), c.mode, p)
  {
    hide ItemsCost, ScopeCost, GroupCost;
  }

  lemma LogicalStep(t: Tally, mode: Mode, p: Place, conj: bool, word: bool)
    requires Sound(t, mode, p)
    ensures var it := Logical(conj, word);
            var c := ItemCost(it, mode, p.f);
      Shaped(At(t, mode, p)) && StepSym(At(t, mode, p), PrintItem(it)[0], false) == At(Plus(t, c, p.f), c.mode, p)
  {
    hide ItemsCost, ScopeCost, GroupCost, SetOp, Increment;
    SetTracker(mode, p, OpOf(conj));
    IncrementIs(t);
  }

  lemma NegateStep(t: Tally, mode: Mode, p: Place)
    requires Sound(t, mode, p)
    ensures var c := ItemCost(Negate, mode, p.f);
      Shaped(At(t, mode, p)) && StepSym(At(t, mode, p), Bang, false) == At(Plus(t, c, p.f), c.mode, p)
  {
    hide ItemsCost, ScopeCost, GroupCost, SetOp;
    SetTracker(mode, p, NoOp);
  }

  lemma JumpStep(t: Tally, mode: Mode, p: Place, sym: Sym)
    requires Sound(t, mode, p) && (sym.Goto? || sym.CoAwait?)
    ensures var c := ItemCost(Jump(sym), mode, p.f);
      Shaped(At(t, mode, p)) && StepSym(At(t, mode, p), sym, false) == At(Plus(t, c, p.f), c.mode, p)
  {
    hide ItemsCost, ScopeCost, GroupCost, Increment;
    IncrementIs(t);
  }

  lemma QuestionStep(t: Tally, mode: Mode, p: Place)
    requires Sound(t, mode, p)
    ensures Runs(t, mode, p, [Question], Step(1 + Level(mode, p.f), mode, p.f))
    ensures Runs(t, mode, p, [COLON], Nothing(mode, Level(mode, p.f)))
  {
    hide RunSyms, Increment;
    IncrementIs(t);
    StatesShaped(t, mode, p);
    RunSym(t, mode, p, Question, Step(1 + Level(mode, p.f), mode, p.f));
    RunSym(t, mode, p, COLON, Nothing(mode, Level(mode, p.f)));
  }

  /** Behind a `(`. */
  function Deep(mode: Mode, p: Place): Place {
    p.(outer := p.outer + [mode.op])
  }

  lemma EnterParen(t: Tally, mode: Mode, p: Place)
    requires Sound(t, mode, p)
    ensures Shaped(At(t, mode, p)) && StepSym(At(t, mode, p), LParen, false) == At(t, Inside(mode), Deep(mode, p))
    ensures Sound(t, Inside(mode), Deep(mode, p))
  {
    var ops := p.outer + [mode.op];
    assert Resize(ops, |p.outer| + 2)[|p.outer| + 1 := NoOp] == ops + [NoOp];
  }

  lemma EnterHeader(t: Tally, mode: Mode, p: Place)
    requires Sound(t, mode, p)
    ensures Shaped(Awaiting(t, mode, p))
    ensures StepSym(Awaiting(t, mode, p), LParen, false) == At(t, InsideHeader(mode), Deep(mode, p))
    ensures Sound(t, InsideHeader(mode), Deep(mode, p))
  {
    var ops := p.outer + [mode.op];
    assert Resize(ops, |p.outer| + 2)[|p.outer| + 1 := NoOp] == ops + [NoOp];
  }

  /** The innermost tracker is dropped. */
  lemma DropTracker(mode: Mode, p: Place, op: Op)
    ensures Resize(Deep(mode, p).outer + [op], |p.outer| + 1) == p.outer + [mode.op]
  {
  }

  /** Leaving a group forgets what the tracker saw inside. */
  lemma LeaveParen(t: Tally, mode: Mode, p: Place, c: Cost)
    requires Sound(t, mode, p) && Spans(c, Inside(mode), p.f)
    ensures var u, q, d := Plus(t, c, p.f), Deep(mode, p), Outside(c, mode);
      Shaped(At(u, c.mode, q)) && StepSym(At(u, c.mode, q), RParen, false) == At(Plus(t, d, p.f), d.mode, p)
  {
    hide Resize;
    DropTracker(mode, p, c.mode.op);
  }

  lemma LeaveHeader(t: Tally, mode: Mode, p: Place, c: Cost)
    requires Sound(t, mode, p) && Spans(c, InsideHeader(mode), p.f)
    ensures var u, q, d := Plus(t, c, p.f), Deep(mode, p), Outside(c, mode);
      Shaped(At(u, c.mode, q)) && StepSym(At(u, c.mode, q), RParen, false) == Headed(Plus(t, d, p.f), d.mode, p)
  {
    hide Resize;
    DropTracker(mode, p, c.mode.op);
  }

  /** Behind a brace that no control statement claims. */
  function Scoped(mode: Mode, p: Place): Place {
    Place(p.outer, p.braces + [BraceFrame(mode.lambda, false)], InBrace(mode, p.f))
  }

  function TallyScoped(t: Tally, mode: Mode): Tally {
    if mode.lambda then Deeper(t) else t
  }

  lemma EnterBrace(t: Tally, mode: Mode, p: Place)
    requires Sound(t, mode, p)
    ensures Shaped(At(t, mode, p))
    ensures StepSym(At(t, mode, p), LBrace, false)
         == At(TallyScoped(t, mode), mode.(lambda := false), Scoped(mode, p))
    ensures Sound(TallyScoped(t, mode), mode.(lambda := false), Scoped(mode, p))
  {
  }

  lemma LeaveBrace(t: Tally, mode: Mode, p: Place, c: Cost)
    requires Sound(t, mode, p) && Spans(c, mode, InBrace(mode, p.f))
    ensures var q := Scoped(mode, p);
            var u, d := Plus(TallyScoped(t, mode), c, q.f), Then(Nothing(mode, Level(mode, p.f)), c);
      Shaped(At(u, c.mode, q)) && StepSym(At(u, c.mode, q), RBrace, false) == At(Plus(t, d, p.f), d.mode, p)
  {
    assert (p.braces + [BraceFrame(mode.lambda, false)])[..|p.braces|] == p.braces;
  }

  lemma EnterSubscript(t: Tally, mode: Mode, p: Place)
    requires Sound(t, mode, p)
    ensures Shaped(At(t, mode, p)) && StepSym(At(t, mode, p), LBracket, false) == At(t, mode.(lambda := true), p)
    ensures Sound(t, mode.(lambda := true), p)
  {
  }

  lemma LeaveSubscript(t: Tally, mode: Mode, p: Place)
    ensures Shaped(At(t, mode, p)) && StepSym(At(t, mode, p), RBRACKET, false) == At(t, mode, p)
  {
  }

  lemma {:induction false} ItemRun(t: Tally, mode: Mode, p: Place, it: Item)
    requires Sound(t, mode, p) && ValidItem(it, mode.depth > 0)
    ensures Runs(t, mode, p, PrintItem(it), ItemCost(it, mode, p.f))
    decreases it, 3
  {
    hide Runs, Sound, ItemsCost, GroupCost, ScopeCost, ValidItems, ValidStmts, PrintItems, PrintHeader, PrintBlock;
    match it
    case Paren(xs) => GroupRun(t, mode, p, xs);
    case Ternary(xs, ys) => TernaryRun(t, mode, p, xs, ys);
    case Braced(xs) => BracedRun(t, mode, p, xs);
    case Subscript(xs) => SubscriptRun(t, mode, p, xs);
    case Lambda(captures, intro, ss) => LambdaRun(t, mode, p, captures, intro, ss);
    case _ => LeafStep(t, mode, p, it);
  }

  lemma {:induction false} GroupRun(t: Tally, mode: Mode, p: Place, xs: seq<Item>)
    requires Sound(t, mode, p) && ValidItems(xs, true)
    ensures Runs(t, mode, p, PrintHeader(xs), GroupCost(xs, mode, p.f))
    decreases xs, 1
  {
    hide Runs, Sound, Spans, At, Plus, StepSym, ItemsCost, PrintItems, ValidItems, Deep, Inside, Outside;
    var c := ItemsCost(xs, Inside(mode), p.f);
    EnterParen(t, mode, p);
    InsideParens(mode, p);
    ItemsRun(t, Inside(mode), Deep(mode, p), xs);
    ItemsSpan(xs, Inside(mode), p.f);
    LeaveParen(t, mode, p, c);
    RunAround(t, mode, p, LParen, PrintItems(xs), RParen, t, Inside(mode), Deep(mode, p), c, Outside(c, mode));
  }

  lemma InsideParens(mode: Mode, p: Place)
    ensures Inside(mode).depth > 0 && InsideHeader(mode).depth > 0 && Deep(mode, p).f == p.f
  {
  }

  lemma {:induction false} BracedRun(t: Tally, mode: Mode, p: Place, xs: seq<Item>)
    requires Sound(t, mode, p) && ValidItems(xs, mode.depth > 0)
    ensures Runs(t, mode, p, PrintItem(Braced(xs)), ItemCost(Braced(xs), mode, p.f))
    decreases xs, 1
  {
    hide Runs, Sound, Spans, ItemsCost, PrintItems, ValidItems, InBrace, Then, TallyScoped;
    var c := ItemsCost(xs, mode.(lambda := false), InBrace(mode, p.f));
    EnterBrace(t, mode, p);
    ItemsRun(TallyScoped(t, mode), mode.(lambda := false), Scoped(mode, p), xs);
    BracedSpans(xs, mode, p.f);
    BraceAround(t, mode, p, PrintItems(xs), c);
  }

  lemma BraceAround(t: Tally, mode: Mode, p: Place, syms: seq<Sym>, c: Cost)
    requires Sound(t, mode, p) && Spans(c, mode, InBrace(mode, p.f))
    requires Runs(TallyScoped(t, mode), mode.(lambda := false), Scoped(mode, p), syms, c)
    ensures Runs(t, mode, p, [LBrace] + syms + [RBrace], Then(Nothing(mode, Level(mode, p.f)), c))
  {
    hide Runs, Sound, Spans, StepSym, At, Plus, InBrace, Then, TallyScoped;
    EnterBrace(t, mode, p);
    LeaveBrace(t, mode, p, c);
    RunAround(t, mode, p, LBrace, syms, RBrace, TallyScoped(t, mode), mode.(lambda := false), Scoped(mode, p), c,
      Then(Nothing(mode, Level(mode, p.f)), c));
  }

  lemma {:induction false} SubscriptRun(t: Tally, mode: Mode, p: Place, xs: seq<Item>)
    requires Sound(t, mode, p) && ValidItems(xs, mode.depth > 0)
    ensures Runs(t, mode, p, PrintBrackets(xs), ItemsCost(xs, mode.(lambda := true), p.f))
    decreases xs, 1
  {
    hide Runs, Sound, StepSym, At, Plus, ItemsCost, PrintItems, ValidItems;
    var c := ItemsCost(xs, mode.(lambda := true), p.f);
    EnterSubscript(t, mode, p);
    ItemsRun(t, mode.(lambda := true), p, xs);
    LeaveSubscript(Plus(t, c, p.f), c.mode, p);
    RunAround(t, mode, p, LBracket, PrintItems(xs), RBRACKET, t, mode.(lambda := true), p, c, c);
  }

  /** A lambda with its body. */
  lemma {:induction false} LambdaRun(
      t: Tally, mode: Mode, p: Place, captures: seq<Item>, intro: seq<Item>, ss: seq<Stmt>)
    requires Sound(t, mode, p)
    requires ValidItems(captures, mode.depth > 0) && ValidItems(intro, mode.depth > 0) && ValidStmts(ss)
    ensures var it := Lambda(captures, intro, ss);
      Runs(t, mode, p, PrintItem(it), ItemCost(it, mode, p.f))
    decreases Lambda(captures, intro, ss), 0
  {
    hide Runs, Sound, Spans, Plus, ItemsCost, ScopeCost, PrintItems, PrintBrackets, PrintBlock, ValidItems, ValidStmts,
      Then;
    var a := ItemsCost(captures, mode.(lambda := true), p.f);
    var b := Then(a, ItemsCost(intro, a.mode, p.f));
    LambdaSpans(captures, intro, ss, mode, p.f);
    SubscriptRun(t, mode, p, captures);
    PlusSound(t, a, mode, p);
    SpansDepth(a, mode, p.f);
    ItemsRun(Plus(t, a, p.f), a.mode, p, intro);
    RunThen(t, mode, p, a, ItemsCost(intro, a.mode, p.f), PrintBrackets(captures), PrintItems(intro));
    PlusSound(t, b, mode, p);
    ScopeRun(Plus(t, b, p.f), b.mode, p, ss);
    RunThen(t, mode, p, b, ScopeCost(ss, b.mode, p.f), PrintBrackets(captures) + PrintItems(intro), PrintBlock(ss));
  }

  lemma SpansDepth(c: Cost, mode: Mode, f: nat)
    requires Spans(c, mode, f)
    ensures c.mode.depth == mode.depth
  {
  }

  /** The rest of a conditional expression, from its `?` on. */
  lemma {:induction false} TernaryRun(t: Tally, mode: Mode, p: Place, xs: seq<Item>, ys: seq<Item>)
    requires Sound(t, mode, p) && ValidItems(xs, mode.depth > 0) && ValidItems(ys, mode.depth > 0)
    ensures Runs(t, mode, p, PrintItem(Ternary(xs, ys)), ItemCost(Ternary(xs, ys), mode, p.f))
    decreases Ternary(xs, ys), 0
  {
    hide Runs, Sound, Spans, Plus, ItemsCost, PrintItems, ValidItems, Then, Step, Level;
    var q := Step(1 + Level(mode, p.f), mode, p.f);
    QuestionStep(t, mode, p);
    StepSpans(1 + Level(mode, p.f), mode, p.f);
    OperandRun(t, mode, p, q, [Question], xs);
    var a := Then(q, ItemsCost(xs, mode, p.f));
    ItemsSpan(xs, mode, p.f);
    SpansThen(q, ItemsCost(xs, mode, p.f), mode, p.f);
    PlusSound(t, a, mode, p);
    SpansDepth(a, mode, p.f);
    ColonRun(Plus(t, a, p.f), a.mode, p, ys);
    RunThen(t, mode, p, a, ItemsCost(ys, a.mode, p.f), [Question] + PrintItems(xs), [COLON] + PrintItems(ys));
  }

  /** Items behind what costs `q`. */
  lemma {:induction false} OperandRun(t: Tally, mode: Mode, p: Place, q: Cost, syms: seq<Sym>, xs: seq<Item>)
    requires Sound(t, mode, p) && ValidItems(xs, mode.depth > 0) && Spans(q, mode, p.f) && Runs(t, mode, p, syms, q)
    ensures Runs(t, mode, p, syms + PrintItems(xs), Then(q, ItemsCost(xs, q.mode, p.f)))
    decreases xs, 1
  {
    hide Runs, Sound, Spans, Plus, ItemsCost, PrintItems, ValidItems, Then;
    PlusSound(t, q, mode, p);
    SpansDepth(q, mode, p.f);
    ItemsRun(Plus(t, q, p.f), q.mode, p, xs);
    RunThen(t, mode, p, q, ItemsCost(xs, q.mode, p.f), syms, PrintItems(xs));
  }

  lemma {:induction false} ColonRun(t: Tally, mode: Mode, p: Place, xs: seq<Item>)
    requires Sound(t, mode, p) && ValidItems(xs, mode.depth > 0)
    ensures Runs(t, mode, p, [COLON] + PrintItems(xs), ItemsCost(xs, mode, p.f))
    decreases xs, 2
  {
    hide Runs, Sound, Spans, ItemsCost, PrintItems, ValidItems, Level;
    var none := Nothing(mode, Level(mode, p.f));
    QuestionStep(t, mode, p);
    StepSpans(0, mode, p.f);
    OperandRun(t, mode, p, none, [COLON], xs);
    ItemsSpan(xs, mode, p.f);
    NothingThen(ItemsCost(xs, mode, p.f), mode, p.f);
  }

  lemma NothingThen(c: Cost, mode: Mode, f: nat)
    requires Spans(c, mode, f)
    ensures Then(Nothing(mode, Level(mode, f)), c) == c
  {
  }

  /** An expression adds its cost and leaves its traces, nothing else. */
  lemma {:induction false} ItemsRun(t: Tally, mode: Mode, p: Place, xs: seq<Item>)
    requires Sound(t, mode, p) && ValidItems(xs, mode.depth > 0)
    ensures Runs(t, mode, p, PrintItems(xs), ItemsCost(xs, mode, p.f))
    decreases xs, 0
  {
    hide Runs, Sound, Spans, Plus, ItemCost, PrintItem, ValidItem, Then, Level;
    if xs == [] {
      RunNothing(t, mode, p);
    } else {
      var a := ItemCost(xs[0], mode, p.f);
      ItemRun(t, mode, p, xs[0]);
      ItemSpans(xs[0], mode, p.f);
      PlusSound(t, a, mode, p);
      SpansDepth(a, mode, p.f);
      ItemsRun(Plus(t, a, p.f), a.mode, p, xs[1..]);
      RunThen(t, mode, p, a, ItemsCost(xs[1..], a.mode, p.f), PrintItem(xs[0]), PrintItems(xs[1..]));
    }
  }

  // ---------------------------------------------------------------------- headers

  /** A header, up to the point where its body is awaited. */
  lemma {:induction false} HeaderRun(t: Tally, mode: Mode, p: Place, xs: seq<Item>)
    requires Sound(t, mode, p) && ValidItems(xs, true)
    ensures var c := HeaderCost(xs, mode, p.f);
      && Shaped(Awaiting(t, mode, p))
      && RunSyms(Awaiting(t, mode, p), PrintHeader(xs)) == Headed(Plus(t, c, p.f), c.mode, p)
    decreases xs, 1
  {
    hide Sound, Spans, At, Plus, StepSym, RunSyms, ItemsCost, PrintItems, ValidItems, Deep, InsideHeader, Outside;
    hide Awaiting, Headed;
    var c := ItemsCost(xs, InsideHeader(mode), p.f);
    EnterHeader(t, mode, p);
    InsideParens(mode, p);
    ItemsRun(t, InsideHeader(mode), Deep(mode, p), xs);
    ItemsSpan(xs, InsideHeader(mode), p.f);
    LeaveHeader(t, mode, p, c);
    Surrounded(Awaiting(t, mode, p), LParen, PrintItems(xs), RParen);
  }

  lemma KeywordStep(t: Tally, mode: Mode, p: Place, kw: Sym)
    requires Sound(t, mode, p) && IsStructural(kw) && !(kw.While? && mode.swallow)
    ensures Shaped(At(t, mode, p))
    ensures StepSym(At(t, mode, p), kw, false)
         == Awaiting(Plus(t, Step(1 + Level(mode, p.f), mode, p.f), p.f), mode, p)
  {
    hide Increment, Punct, LogicalOp, Keyword;
    IncrementIs(t);
    StructuralKeyword(At(t, mode, p), kw);
  }

  lemma StructuralKeyword(st: Score, kw: Sym)
    requires IsStructural(kw) && !IsFree(st, kw)
    ensures IsKeyword(kw) && Keyword(st, kw) == Structural(st)
  {
    hide Increment;
  }

  lemma SwallowedWhile(t: Tally, mode: Mode, p: Place)
    requires mode.swallow && Sound(t, mode, p)
    ensures Runs(t, mode, p, [While], Nothing(mode, Level(mode, p.f)))
  {
    hide RunSyms;
    StatesShaped(t, mode, p);
    RunSym(t, mode, p, While, Nothing(mode, Level(mode, p.f)));
  }

  /** A structural keyword with its header. */
  lemma {:induction false} HeadRun(t: Tally, mode: Mode, p: Place, kw: Sym, xs: seq<Item>)
    requires Sound(t, mode, p) && IsStructural(kw) && !(kw.While? && mode.swallow) && ValidItems(xs, true)
    ensures HeadRuns(t, mode, p, [kw] + PrintHeader(xs), HeadCost(xs, mode, p.f))
    decreases xs, 2
  {
    hide StepSym, RunSyms, HeaderCost, At, Sound, Spans, PrintHeader, ValidItems, Awaiting, Headed, Plus, Step, Level;
    var k := Step(1 + Level(mode, p.f), mode, p.f);
    KeywordStep(t, mode, p, kw);
    StepSpans(1 + Level(mode, p.f), mode, p.f);
    PlusSound(t, k, mode, p);
    HeaderRun(Plus(t, k, p.f), mode, p, xs);
    PlusThen(t, k, HeaderCost(xs, mode, p.f), p.f);
    RunConcat(At(t, mode, p), [kw], PrintHeader(xs));
    RunOne(At(t, mode, p), kw);
  }

  // ----------------------------------------------------------------------- bodies

  lemma OpenBody(t: Tally, mode: Mode, p: Place, isDo: bool)
    requires Sound(t, mode, p)
    ensures var q := Place(p.outer, p.braces + [BraceFrame(true, isDo)], p.f + 1);
      && Shaped(Ready(t, mode, p, isDo))
      && StepSym(Ready(t, mode, p, isDo), LBrace, false) == At(Deeper(t), mode, q)
      && Sound(Deeper(t), mode, q)
  {
  }

  lemma CloseBody(t: Tally, mode: Mode, p: Place, isDo: bool, c: Cost)
    requires Sound(t, mode, p) && c.deepest >= Level(mode, p.f) + 1
    ensures var q := Place(p.outer, p.braces + [BraceFrame(true, isDo)], p.f + 1);
            var u := Plus(Deeper(t), c, p.f + 1);
      && Shaped(At(u, c.mode, q))
      && StepSym(At(u, c.mode, q), RBrace, false) == Behind(Plus(t, c, p.f), c.mode, p, isDo)
  {
    assert (p.braces + [BraceFrame(true, isDo)])[..|p.braces|] == p.braces;
  }

  /** A braceless body opens at its first symbol. */
  lemma BracelessStart(t: Tally, mode: Mode, p: Place, isDo: bool, syms: seq<Sym>)
    requires Sound(t, mode, p) && syms != [] && !syms[0].LBrace?
    ensures var inner := mode.(open := mode.open + 1);
      && Shaped(Ready(t, mode, p, isDo)) && Shaped(At(Deeper(t), inner, p)) && Sound(Deeper(t), inner, p)
      && RunSyms(Ready(t, mode, p, isDo), syms) == RunSyms(At(Deeper(t), inner, p), syms)
  {
    hide Consume;
    var st := At(Deeper(t), mode.(open := mode.open + 1), p);
    assert ResolvePending(Ready(t, mode, p, isDo), syms[0]) == st;
    assert ResolvePending(st, syms[0]) == st;
  }

  lemma BracketFirst(xs: seq<Item>)
    ensures PrintBrackets(xs) != [] && PrintBrackets(xs)[0] == LBracket
  {
    hide PrintItems;
  }

  lemma ItemFirst(it: Item)
    requires ValidItem(it, false) && !it.Braced?
    ensures PrintItem(it) != [] && !PrintItem(it)[0].LBrace? && !PrintItem(it)[0].If?
  {
    hide PrintItems, PrintBlock, ValidItems, ValidStmts;
    match it
    case Lambda(captures, intro, ss) =>
      BracketFirst(captures);
      assert PrintItem(it) == PrintBrackets(captures) + (PrintItems(intro) + PrintBlock(ss));
    case _ =>
  }

  lemma ItemsFirst(xs: seq<Item>)
    requires ValidItems(xs, false) && xs != [] && !xs[0].Braced?
    ensures PrintItems(xs) != [] && !PrintItems(xs)[0].LBrace? && !PrintItems(xs)[0].If?
  {
    hide PrintItem, ValidItem;
    ItemFirst(xs[0]);
    assert PrintItems(xs)[0] == PrintItem(xs[0])[0];
  }

  /** Only a brace starts with `{`, and only a branch with `if`. */
  lemma StmtFirst(s: Stmt)
    requires ValidStmt(s) && !StartsWithBrace(s)
    ensures PrintStmt(s) != [] && !PrintStmt(s)[0].LBrace? && (PrintStmt(s)[0].If? ==> s.Branch?)
  {
    hide PrintHeader, PrintItems, PrintBlock, PrintBody, PrintTail, ValidItems, ValidStmts, ValidBody, ValidTail;
    match s
    case Simple(xs) =>
      if xs != [] {
        ItemsFirst(xs);
        assert PrintStmt(s)[0] == PrintItems(xs)[0];
      } else {
        NoItemsPrint(xs);
      }
    case Scope(xs, ss) =>
      ItemsFirst(xs);
      assert PrintStmt(s)[0] == PrintItems(xs)[0];
    case Control(h, _) => assert PrintStmt(s)[0] == h.keyword;
    case Branch(_, _, _) => assert PrintStmt(s)[0] == If;
    case DoWhile(_, _) => assert PrintStmt(s)[0] == Do;
  }

  lemma NoItemsPrint(xs: seq<Item>)
    requires xs == []
    ensures PrintItems(xs) == []
  {
  }

  /** A braced body that is awaited. */
  lemma {:induction false} BlockRun(t: Tally, mode: Mode, p: Place, ss: seq<Stmt>, isDo: bool)
    requires Sound(t, mode, p) && ValidStmts(ss)
    ensures var c := ArmedCost(Block(ss), mode, p.f);
      && Shaped(Ready(t, mode, p, isDo))
      && RunSyms(Ready(t, mode, p, isDo), PrintBlock(ss)) == Behind(Plus(t, c, p.f), c.mode, p, isDo)
    decreases ss, 1
  {
    hide StepSym, RunSyms, Plus, Deeper, StmtsCost, Sound, Spans, At, Ready, Behind, ValidStmts, PrintStmts;
    var c := StmtsCost(ss, mode, p.f + 1);
    var q := Place(p.outer, p.braces + [BraceFrame(true, isDo)], p.f + 1);
    ArmedSpans(Block(ss), mode, p.f);
    OpenBody(t, mode, p, isDo);
    StmtsRun(Deeper(t), mode, q, ss);
    CloseBody(t, mode, p, isDo, c);
    Surrounded(Ready(t, mode, p, isDo), LBrace, PrintStmts(ss), RBrace);
  }

  lemma DeeperPlus(t: Tally, mode: Mode, f: nat, c: Cost)
    requires t.nesting == Level(mode, f) && c.deepest >= Level(mode, f) + 1
    ensures Plus(Deeper(t), c, f) == Plus(t, c, f)
  {
  }

  /** A braceless body that is awaited. */
  lemma {:induction false} BareRun(t: Tally, mode: Mode, p: Place, s: Stmt, isDo: bool)
    requires Sound(t, mode, p) && ValidStmt(s) && !StartsWithBrace(s)
    ensures var c := ArmedCost(Bare(s), mode, p.f);
      && Shaped(Ready(t, mode, p, isDo))
      && RunSyms(Ready(t, mode, p, isDo), PrintStmt(s)) == At(Plus(t, c, p.f), c.mode, p)
    decreases s, 3
  {
    hide RunSyms, Plus, Deeper, StmtCost, Spans, At, Ready, ValidStmt, PrintStmt, StartsWithBrace;
    var inner := mode.(open := mode.open + 1);
    StmtFirst(s);
    BracelessStart(t, mode, p, isDo, PrintStmt(s));
    StmtRun(Deeper(t), inner, p, s);
    ArmedSpans(Bare(s), mode, p.f);
    DeeperPlus(t, mode, p.f, StmtCost(s, inner, p.f));
  }

  lemma {:induction false} ArmedRun(t: Tally, mode: Mode, p: Place, body: Body)
    requires Sound(t, mode, p) && ValidBody(body)
    ensures var c := ArmedCost(body, mode, p.f);
      && Shaped(Ready(t, mode, p, false))
      && RunSyms(Ready(t, mode, p, false), PrintBody(body)) == At(Plus(t, c, p.f), c.mode, p)
    decreases body, 0
  {
    hide RunSyms, Plus, ArmedCost, Sound, At, Ready, Behind, ValidStmt, ValidStmts, PrintStmt, PrintBlock,
      StartsWithBrace;
    match body
    case Block(ss) =>
      BlockRun(t, mode, p, ss, false);
      var c := ArmedCost(body, mode, p.f);
      StatesShaped(Plus(t, c, p.f), c.mode, p);
    case Bare(s) => BareRun(t, mode, p, s, false);
  }

  /** A plain scope, the body of a lambda, or a body that is not known for one. */
  lemma {:induction false} ScopeRun(t: Tally, mode: Mode, p: Place, ss: seq<Stmt>)
    requires Sound(t, mode, p) && ValidStmts(ss)
    ensures Runs(t, mode, p, PrintBlock(ss), ScopeCost(ss, mode, p.f))
    decreases ss, 1
  {
    hide Runs, Sound, Spans, StmtsCost, PrintStmts, ValidStmts, InBrace, Then, TallyScoped;
    var c := StmtsCost(ss, mode.(lambda := false), InBrace(mode, p.f));
    EnterBrace(t, mode, p);
    StmtsRun(TallyScoped(t, mode), mode.(lambda := false), Scoped(mode, p), ss);
    ScopeSpans(ss, mode, p.f);
    BraceAround(t, mode, p, PrintStmts(ss), c);
  }

  lemma {:induction false} LooseRun(t: Tally, mode: Mode, p: Place, body: Body)
    requires Sound(t, mode, p) && ValidBody(body)
    ensures Runs(t, mode, p, PrintBody(body), LooseCost(body, mode, p.f))
    decreases body, 0
  {
    hide Runs, StmtCost, ScopeCost, Sound, ValidStmt, ValidStmts, PrintStmt, PrintBlock, StartsWithBrace;
    match body
    case Block(ss) => ScopeRun(t, mode, p, ss);
    case Bare(s) => StmtRun(t, mode, p, s);
  }

  /** The body after a header. */
  lemma {:induction false} BodyRun(t: Tally, mode: Mode, p: Place, body: Body)
    requires Sound(t, Resolved(mode), p) && ValidBody(body)
    ensures var c := BodyCost(body, mode, p.f);
      && Shaped(Headed(t, mode, p))
      && RunSyms(Headed(t, mode, p), PrintBody(body)) == At(Plus(t, c, p.f), c.mode, p)
    decreases body, 1
  {
    hide RunSyms, Plus, LooseCost, ArmedCost, At, Ready, ValidBody, PrintBody, Sound, Arms, Resolved;
    if Arms(mode) {
      ArmedRun(t, Resolved(mode), p, body);
    } else {
      LooseRun(t, Resolved(mode), p, body);
    }
  }

  lemma {:induction false} HeadBodyRun(t: Tally, mode: Mode, p: Place, h: Cost, head: seq<Sym>, body: Body)
    requires Sound(t, mode, p) && ValidBody(body) && HeadSpans(h, mode, p.f) && HeadRuns(t, mode, p, head, h)
    ensures Runs(t, mode, p, head + PrintBody(body), Then(h, BodyCost(body, h.mode, p.f)))
    decreases body, 2
  {
    hide RunSyms, At, Headed, BodyCost, ValidBody, PrintBody, Plus, Sound, HeadSpans, Resolved;
    var b := BodyCost(body, h.mode, p.f);
    HeadSound(t, h, mode, p);
    BodyRun(Plus(t, h, p.f), h.mode, p, body);
    RunConcat(At(t, mode, p), head, PrintBody(body));
    PlusThen(t, h, b, p.f);
  }

  // ------------------------------------------------------------------- statements

  lemma EndStep(t: Tally, mode: Mode, p: Place, c: Cost)
    requires Sound(t, mode, p) && Spans(c, mode, p.f)
    ensures Shaped(At(Plus(t, c, p.f), c.mode, p))
    ensures StepSym(At(Plus(t, c, p.f), c.mode, p), Semicolon, false)
         == At(Plus(t, Ended(c), p.f), Ended(c).mode, p)
  {
  }

  /** What the scorer takes for an expression, up to its `;`. */
  lemma RunEnded(t: Tally, mode: Mode, p: Place, syms: seq<Sym>, c: Cost)
    requires Sound(t, mode, p) && Spans(c, mode, p.f) && Runs(t, mode, p, syms, c)
    ensures Runs(t, mode, p, syms + [Semicolon], Ended(c))
  {
    hide StepSym, RunSyms, Plus, Sound, Spans, At, Ended;
    EndStep(t, mode, p, c);
    RunConcat(At(t, mode, p), syms, [Semicolon]);
    RunOne(RunSyms(At(t, mode, p), syms), Semicolon);
  }

  lemma {:induction false} SimpleRun(t: Tally, mode: Mode, p: Place, xs: seq<Item>)
    requires Sound(t, mode, p) && ValidItems(xs, false)
    ensures Runs(t, mode, p, PrintStmt(Simple(xs)), StmtCost(Simple(xs), mode, p.f))
    decreases xs, 1
  {
    hide Runs, Sound, Spans, ItemsCost, PrintItems, ValidItems, Ended;
    ValidAnywhere(xs, mode.depth > 0);
    ItemsRun(t, mode, p, xs);
    ItemsSpan(xs, mode, p.f);
    RunEnded(t, mode, p, PrintItems(xs), ItemsCost(xs, mode, p.f));
  }

  /** Inside parentheses more is allowed. */
  lemma {:induction false} ValidAnywhere(xs: seq<Item>, inside: bool)
    requires ValidItems(xs, false)
    ensures ValidItems(xs, inside)
    decreases xs, 0
  {
    hide ValidStmts;
    if xs != [] {
      ValidAnywhere(xs[1..], inside);
      match xs[0]
      case Ternary(ys, zs) =>
        ValidAnywhere(ys, inside);
        ValidAnywhere(zs, inside);
      case Braced(ys) => ValidAnywhere(ys, inside);
      case Subscript(ys) => ValidAnywhere(ys, inside);
      case Lambda(captures, intro, _) =>
        ValidAnywhere(captures, inside);
        ValidAnywhere(intro, inside);
      case _ =>
    }
  }

  lemma ElseStep(t: Tally, mode: Mode, p: Place)
    requires Sound(t, mode, p)
    ensures Shaped(At(t, mode, p))
    ensures StepSym(At(t, mode, p), Sym.Else, false) == Armed(Plus(t, Step(1, mode, p.f), p.f), mode, p)
  {
    hide Increment;
    IncrementIs(t);
  }

  /** After `else` a body runs as after a header. */
  lemma ElseBody(t: Tally, mode: Mode, p: Place, syms: seq<Sym>)
    requires syms != [] && !syms[0].If?
    ensures Shaped(Armed(t, mode, p)) && Shaped(Ready(t, mode, p, false))
    ensures RunSyms(Armed(t, mode, p), syms) == RunSyms(Ready(t, mode, p, false), syms)
  {
    hide Consume;
    assert ResolvePending(Armed(t, mode, p), syms[0]) == ResolvePending(Ready(t, mode, p, false), syms[0]);
  }

  lemma ElseBodyFirst(body: Body)
    requires ValidBody(body) && FollowsElse(body)
    ensures PrintBody(body) != [] && !PrintBody(body)[0].If?
  {
    hide PrintStmt, PrintStmts, ValidStmt, StartsWithBrace;
    match body
    case Block(ss) => assert PrintBlock(ss)[0] == LBrace;
    case Bare(s) => StmtFirst(s);
  }

  lemma ElseIfStep(t: Tally, mode: Mode, p: Place)
    ensures Shaped(Armed(t, mode, p))
    ensures StepSym(Armed(t, mode, p), If, false) == Awaiting(t, mode, p)
  {
  }

  /** `else if` and its header. */
  lemma {:induction false} ElseIfHead(t: Tally, mode: Mode, p: Place, xs: seq<Item>)
    requires Sound(t, mode, p) && ValidItems(xs, true)
    ensures HeadRuns(t, mode, p, [Sym.Else] + [If] + PrintHeader(xs),
                     Then(Step(1, mode, p.f), HeaderCost(xs, mode, p.f)))
    decreases xs, 2
  {
    hide StepSym, RunSyms, HeaderCost, At, Sound, Spans, PrintHeader, ValidItems, Awaiting, Headed, Plus, Armed, Step;
    var st := At(t, mode, p);
    var e := Step(1, mode, p.f);
    ElseStep(t, mode, p);
    ElseIfStep(Plus(t, e, p.f), mode, p);
    StepSpans(1, mode, p.f);
    PlusSound(t, e, mode, p);
    HeaderRun(Plus(t, e, p.f), mode, p, xs);
    PlusThen(t, e, HeaderCost(xs, mode, p.f), p.f);
    RunConcat(st, [Sym.Else] + [If], PrintHeader(xs));
    RunConcat(st, [Sym.Else], [If]);
    RunOne(st, Sym.Else);
    RunOne(RunSyms(st, [Sym.Else]), If);
  }

  lemma {:induction false} TailRun(t: Tally, mode: Mode, p: Place, tail: Tail)
    requires Sound(t, mode, p) && ValidTail(tail)
    ensures Runs(t, mode, p, PrintTail(tail), TailCost(tail, mode, p.f))
    decreases tail, 0
  {
    hide Runs, HeadRuns, BodyCost, ArmedCost, HeaderCost, ValidBody, PrintBody, PrintHeader, Plus, Sound, ValidItems,
      Spans, HeadSpans;
    hide FollowsElse, TakesElse, Step, Then;
    match tail
    case NoElse => RunNothing(t, mode, p);
    case Else(body) => ElseRun(t, mode, p, body);
    case ElseIf(xs, body, rest) =>
      var h := Then(Step(1, mode, p.f), HeaderCost(xs, mode, p.f));
      var head := [Sym.Else] + [If] + PrintHeader(xs);
      ElseIfHead(t, mode, p, xs);
      StepSpans(1, mode, p.f);
      HeaderSpans(xs, mode, p.f);
      HeadSpansThen(Step(1, mode, p.f), HeaderCost(xs, mode, p.f), mode, p.f);
      HeadBodyRun(t, mode, p, h, head, body);
      HeadThenBody(h, body, mode, p.f);
      var a := Then(h, BodyCost(body, h.mode, p.f));
      PlusSound(t, a, mode, p);
      TailRun(Plus(t, a, p.f), a.mode, p, rest);
      RunThen(t, mode, p, a, TailCost(rest, a.mode, p.f), head + PrintBody(body), PrintTail(rest));
  }

  lemma {:induction false} ElseRun(t: Tally, mode: Mode, p: Place, body: Body)
    requires Sound(t, mode, p) && ValidBody(body) && FollowsElse(body)
    ensures Runs(t, mode, p, [Sym.Else] + PrintBody(body), Then(Step(1, mode, p.f), ArmedCost(body, mode, p.f)))
    decreases body, 1
  {
    hide StepSym, RunSyms, At, Ready, Armed, ArmedCost, ValidBody, PrintBody, Plus, Sound, Spans, FollowsElse, Step;
    var e := Step(1, mode, p.f);
    ElseStep(t, mode, p);
    ElseBodyFirst(body);
    ElseBody(Plus(t, e, p.f), mode, p, PrintBody(body));
    StepSpans(1, mode, p.f);
    PlusSound(t, e, mode, p);
    ArmedRun(Plus(t, e, p.f), mode, p, body);
    PlusThen(t, e, ArmedCost(body, mode, p.f), p.f);
    RunConcat(At(t, mode, p), [Sym.Else], PrintBody(body));
    RunOne(At(t, mode, p), Sym.Else);
  }

  // --------------------------------------------------------------------- do-while

  lemma DoStep(t: Tally, mode: Mode, p: Place)
    requires Sound(t, mode, p)
    ensures Shaped(At(t, mode, p))
    ensures StepSym(At(t, mode, p), Do, false)
         == Ready(Plus(t, Step(1 + Level(mode, p.f), mode, p.f), p.f), mode, p, true)
  {
    hide Increment;
    IncrementIs(t);
  }

  lemma DoTailStep(t: Tally, mode: Mode, p: Place, isDo: bool)
    requires isDo || mode.swallow
    ensures Shaped(Behind(t, mode, p, isDo))
    ensures StepSym(Behind(t, mode, p, isDo), While, false) == At(t, mode.(swallow := true), p)
  {
  }

  /** A tail taken for what it is. */
  lemma {:induction false} SwallowedTailRun(t: Tally, mode: Mode, p: Place, cond: seq<Item>, isDo: bool)
    requires Sound(t, mode, p) && ValidItems(cond, true) && (isDo || mode.swallow)
    ensures var c := DoTailCost(cond, true, mode, p.f);
      && Shaped(Behind(t, mode, p, isDo))
      && RunSyms(Behind(t, mode, p, isDo), [While] + (PrintHeader(cond) + [Semicolon]))
           == At(Plus(t, c, p.f), c.mode, p)
    decreases cond, 2
  {
    hide StepSym, RunSyms, At, Behind, GroupCost, PrintHeader, Plus, Ended, ValidItems, Spans;
    var there := mode.(swallow := true);
    var c := GroupCost(cond, there, p.f);
    DoTailStep(t, mode, p, isDo);
    GroupRun(t, there, p, cond);
    GroupSpans(cond, there, p.f);
    RunEnded(t, there, p, PrintHeader(cond), c);
    RunConcat(Behind(t, mode, p, isDo), [While], PrintHeader(cond) + [Semicolon]);
    RunOne(Behind(t, mode, p, isDo), While);
  }

  /** The `;` behind a header is a body of its own. */
  lemma EmptyStep(t: Tally, mode: Mode, p: Place)
    requires Sound(t, Resolved(mode), p)
    ensures var c := EmptyCost(mode, p.f);
      && Shaped(Headed(t, mode, p))
      && StepSym(Headed(t, mode, p), Semicolon, false) == At(Plus(t, c, p.f), c.mode, p)
  {
  }

  /** A tail taken for a while loop. */
  lemma {:induction false} LoopTailRun(t: Tally, mode: Mode, p: Place, cond: seq<Item>)
    requires Sound(t, mode, p) && ValidItems(cond, true) && !mode.swallow
    ensures Runs(t, mode, p, [While] + PrintHeader(cond) + [Semicolon], DoTailCost(cond, false, mode, p.f))
    decreases cond, 3
  {
    hide StepSym, RunSyms, At, Headed, HeadCost, PrintHeader, Plus, ValidItems, Sound, HeadSpans, EmptyCost, Resolved;
    var h := HeadCost(cond, mode, p.f);
    HeadRun(t, mode, p, While, cond);
    HeadSpan(cond, mode, p.f);
    HeadSound(t, h, mode, p);
    EmptyStep(Plus(t, h, p.f), h.mode, p);
    PlusThen(t, h, EmptyCost(h.mode, p.f), p.f);
    RunConcat(At(t, mode, p), [While] + PrintHeader(cond), [Semicolon]);
    RunOne(RunSyms(At(t, mode, p), [While] + PrintHeader(cond)), Semicolon);
  }

  /** The tail after a braceless body. */
  lemma {:induction false} BareTailRun(t: Tally, mode: Mode, p: Place, cond: seq<Item>)
    requires Sound(t, mode, p) && ValidItems(cond, true)
    ensures Runs(t, mode, p, [While] + PrintHeader(cond) + [Semicolon], DoTailCost(cond, false, mode, p.f))
    decreases cond, 4
  {
    hide RunSyms, At, Behind, PrintHeader, Plus, Sound, ValidItems;
    if mode.swallow {
      StatesShaped(t, mode, p);
      SwallowedTailRun(t, mode, p, cond, false);
      assert [While] + PrintHeader(cond) + [Semicolon] == [While] + (PrintHeader(cond) + [Semicolon]);
    } else {
      LoopTailRun(t, mode, p, cond);
    }
  }

  /** The body of a do-while and its tail. */
  lemma {:induction false} DoBodyRun(t: Tally, mode: Mode, p: Place, body: Body, cond: seq<Item>)
    requires Sound(t, mode, p) && ValidBody(body) && ValidItems(cond, true)
    ensures var a := ArmedCost(body, mode, p.f);
            var c := Then(a, DoTailCost(cond, body.Block?, a.mode, p.f));
      && Shaped(Ready(t, mode, p, true))
      && RunSyms(Ready(t, mode, p, true), PrintBody(body) + ([While] + PrintHeader(cond) + [Semicolon]))
           == At(Plus(t, c, p.f), c.mode, p)
    decreases DoWhile(body, cond), 0
  {
    hide RunSyms, At, Ready, Behind, ArmedCost, DoTailCost, PrintHeader, Plus, Sound, ValidItems, ValidStmt, ValidStmts;
    hide PrintStmt, PrintBlock, StartsWithBrace, Spans;
    var a := ArmedCost(body, mode, p.f);
    var tail := [While] + PrintHeader(cond) + [Semicolon];
    ArmedSpans(body, mode, p.f);
    PlusSound(t, a, mode, p);
    StatesShaped(t, mode, p);
    match body
    case Block(ss) =>
      BlockRun(t, mode, p, ss, true);
      SwallowedTailRun(Plus(t, a, p.f), a.mode, p, cond, true);
      assert tail == [While] + (PrintHeader(cond) + [Semicolon]);
      RunConcat(Ready(t, mode, p, true), PrintBlock(ss), tail);
      PlusThen(t, a, DoTailCost(cond, true, a.mode, p.f), p.f);
    case Bare(s) =>
      BareRun(t, mode, p, s, true);
      BareTailRun(Plus(t, a, p.f), a.mode, p, cond);
      RunConcat(Ready(t, mode, p, true), PrintStmt(s), tail);
      PlusThen(t, a, DoTailCost(cond, false, a.mode, p.f), p.f);
  }

  lemma {:induction false} DoWhileRun(t: Tally, mode: Mode, p: Place, body: Body, cond: seq<Item>)
    requires Sound(t, mode, p) && ValidBody(body) && ValidItems(cond, true)
    ensures var s := DoWhile(body, cond);
      Runs(t, mode, p, PrintStmt(s), StmtCost(s, mode, p.f))
    decreases DoWhile(body, cond), 1
  {
    hide StepSym, RunSyms, At, Ready, ArmedCost, DoTailCost, PrintHeader, PrintBody, Plus, Sound, ValidItems, ValidBody;
    hide Step, Level, Spans;
    var k := Step(1 + Level(mode, p.f), mode, p.f);
    var a := ArmedCost(body, mode, p.f);
    var b := DoTailCost(cond, body.Block?, a.mode, p.f);
    var rest := PrintBody(body) + ([While] + PrintHeader(cond) + [Semicolon]);
    DoStep(t, mode, p);
    StepSpans(1 + Level(mode, p.f), mode, p.f);
    PlusSound(t, k, mode, p);
    DoBodyRun(Plus(t, k, p.f), mode, p, body, cond);
    PlusThen(t, k, Then(a, b), p.f);
    ThenAssociates(k, a, b);
    RunOne(At(t, mode, p), Do);
    RunConcat(At(t, mode, p), [Do], rest);
    assert PrintStmt(DoWhile(body, cond)) == [Do] + rest;
  }

  lemma ThenAssociates(a: Cost, b: Cost, c: Cost)
    ensures Then(Then(a, b), c) == Then(a, Then(b, c))
  {
  }

  // --------------------------------------------------------------- all statements

  /** A while loop that is taken for the tail of a do-while. */
  lemma {:induction false} SwallowedLoopRun(t: Tally, mode: Mode, p: Place, xs: seq<Item>, body: Body)
    requires Sound(t, mode, p) && ValidItems(xs, true) && ValidBody(body) && mode.swallow
    ensures var a := GroupCost(xs, mode, p.f);
      Runs(t, mode, p, [While] + PrintHeader(xs) + PrintBody(body), Then(a, LooseCost(body, a.mode, p.f)))
    decreases Control(Head(While, xs), body), 0
  {
    hide Runs, GroupCost, LooseCost, PrintHeader, PrintBody, Plus, Sound, ValidItems, ValidBody, Spans, Then, Level;
    var none := Nothing(mode, Level(mode, p.f));
    var a := GroupCost(xs, mode, p.f);
    SwallowedWhile(t, mode, p);
    StepSpans(0, mode, p.f);
    PlusSound(t, none, mode, p);
    GroupRun(Plus(t, none, p.f), mode, p, xs);
    RunThen(t, mode, p, none, a, [While], PrintHeader(xs));
    GroupSpans(xs, mode, p.f);
    NothingThen(a, mode, p.f);
    PlusSound(t, a, mode, p);
    LooseRun(Plus(t, a, p.f), a.mode, p, body);
    RunThen(t, mode, p, a, LooseCost(body, a.mode, p.f), [While] + PrintHeader(xs), PrintBody(body));
  }

  lemma {:induction false} ControlRun(t: Tally, mode: Mode, p: Place, h: Head, body: Body)
    requires Sound(t, mode, p) && ValidHead(h) && ValidBody(body)
    ensures var s := Control(h, body);
      Runs(t, mode, p, PrintStmt(s), StmtCost(s, mode, p.f))
    decreases Control(h, body), 1
  {
    hide Runs, HeadRuns, GroupCost, HeadCost, LooseCost, BodyCost, PrintHeader, PrintBody, Sound, ValidItems, ValidBody;
    hide HeadSpans, Then;
    if h.keyword.While? && mode.swallow {
      assert h == Head(While, h.header);
      SwallowedLoopRun(t, mode, p, h.header, body);
    } else {
      HeadRun(t, mode, p, h.keyword, h.header);
      HeadSpan(h.header, mode, p.f);
      HeadBodyRun(t, mode, p, HeadCost(h.header, mode, p.f), [h.keyword] + PrintHeader(h.header), body);
    }
  }

  lemma {:induction false} BranchRun(t: Tally, mode: Mode, p: Place, xs: seq<Item>, body: Body, tail: Tail)
    requires Sound(t, mode, p) && ValidItems(xs, true) && ValidBody(body) && ValidTail(tail)
    ensures var s := Branch(xs, body, tail);
      Runs(t, mode, p, PrintStmt(s), StmtCost(s, mode, p.f))
    decreases Branch(xs, body, tail), 0
  {
    hide Runs, HeadRuns, Plus, Sound, Spans, HeadSpans, PrintHeader, PrintTail, PrintBody, HeadCost, TailCost, BodyCost;
    hide ValidItems, ValidBody, ValidTail, Then;
    var h := HeadCost(xs, mode, p.f);
    var head := [If] + PrintHeader(xs);
    HeadRun(t, mode, p, If, xs);
    HeadSpan(xs, mode, p.f);
    HeadBodyRun(t, mode, p, h, head, body);
    HeadThenBody(h, body, mode, p.f);
    var a := Then(h, BodyCost(body, h.mode, p.f));
    PlusSound(t, a, mode, p);
    TailRun(Plus(t, a, p.f), a.mode, p, tail);
    RunThen(t, mode, p, a, TailCost(tail, a.mode, p.f), head + PrintBody(body), PrintTail(tail));
  }

  /** A scope with what stands before its brace. */
  lemma {:induction false} PrefixedRun(t: Tally, mode: Mode, p: Place, xs: seq<Item>, ss: seq<Stmt>)
    requires Sound(t, mode, p) && ValidItems(xs, false) && ValidStmts(ss)
    ensures var s := Scope(xs, ss);
      Runs(t, mode, p, PrintStmt(s), StmtCost(s, mode, p.f))
    decreases Scope(xs, ss), 0
  {
    hide Runs, Plus, Sound, Spans, ItemsCost, ScopeCost, PrintItems, PrintBlock, ValidItems, ValidStmts, Then;
    var a := ItemsCost(xs, mode, p.f);
    ValidAnywhere(xs, mode.depth > 0);
    ItemsRun(t, mode, p, xs);
    ItemsSpan(xs, mode, p.f);
    PlusSound(t, a, mode, p);
    ScopeRun(Plus(t, a, p.f), a.mode, p, ss);
    RunThen(t, mode, p, a, ScopeCost(ss, a.mode, p.f), PrintItems(xs), PrintBlock(ss));
  }

  lemma {:induction false} StmtRun(t: Tally, mode: Mode, p: Place, s: Stmt)
    requires Sound(t, mode, p) && ValidStmt(s)
    ensures Runs(t, mode, p, PrintStmt(s), StmtCost(s, mode, p.f))
    decreases s, 2
  {
    hide Runs, Sound, ItemsCost, StmtCost, PrintStmt;
    hide ValidItems, ValidStmts, ValidBody, ValidTail, ValidHead, TakesElse;
    match s
    case Simple(xs) => SimpleRun(t, mode, p, xs);
    case Scope(xs, ss) => PrefixedRun(t, mode, p, xs, ss);
    case Control(h, body) => ControlRun(t, mode, p, h, body);
    case Branch(xs, body, tail) => BranchRun(t, mode, p, xs, body, tail);
    case DoWhile(body, cond) => DoWhileRun(t, mode, p, body, cond);
  }

  lemma {:induction false} StmtsRun(t: Tally, mode: Mode, p: Place, ss: seq<Stmt>)
    requires Sound(t, mode, p) && ValidStmts(ss)
    ensures Runs(t, mode, p, PrintStmts(ss), StmtsCost(ss, mode, p.f))
    decreases ss, 0
  {
    hide Runs, Plus, Sound, StmtCost, PrintStmt, ValidStmt, Spans, Then, Level;
    if ss == [] {
      RunNothing(t, mode, p);
    } else {
      var a := StmtCost(ss[0], mode, p.f);
      StmtRun(t, mode, p, ss[0]);
      StmtSpans(ss[0], mode, p.f);
      PlusSound(t, a, mode, p);
      StmtsRun(Plus(t, a, p.f), a.mode, p, ss[1..]);
      RunThen(t, mode, p, a, StmtsCost(ss[1..], a.mode, p.f), PrintStmt(ss[0]), PrintStmts(ss[1..]));
    }
  }
}
