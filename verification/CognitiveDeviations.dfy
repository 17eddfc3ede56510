/** Where the scorer's charge for a tree departs from its Cognitive Complexity, and that on
    these trees it departs nowhere else. */
module CognitiveDeviations {
  import opened Tokens
  import opened CognitiveTree
  import opened CognitiveCost
  import opened CognitiveMetric

  // -------------------------------------------------- counting runs from the left

  function RunsAfter(prev: Mark, ms: seq<Mark>): nat
    decreases |ms|
  {
    if ms == [] then 0 else (if ms[0].Operator? && ms[0] != prev then 1 else 0) + RunsAfter(ms[0], ms[1..])
  }

  function LastMark(prev: Mark, ms: seq<Mark>): Mark {
    if ms == [] then prev else ms[|ms| - 1]
  }

  lemma {:induction false} RunsConcat(prev: Mark, a: seq<Mark>, b: seq<Mark>)
    ensures RunsAfter(prev, a + b) == RunsAfter(prev, a) + RunsAfter(LastMark(prev, a), b)
    decreases |a|
  {
    if a == [] {
      assert a + b == b;
    } else {
      assert (a + b)[1..] == a[1..] + b;
      RunsConcat(a[0], a[1..], b);
    }
  }

  lemma StartsEarlier(rest: seq<Mark>, m: Mark, k: nat)
    requires k < |rest|
    ensures StartsRun(rest + [m], k) == StartsRun(rest, k)
  {
  }

  /** One more mark starts at most one more run. */
  lemma StartsOfLonger(rest: seq<Mark>, m: Mark)
    ensures |RunStarts(rest + [m])| == |RunStarts(rest)| + if StartsRun(rest + [m], |rest|) then 1 else 0
  {
    hide StartsRun;
    var ms := rest + [m];
    forall k: nat | k < |rest|
      ensures k in RunStarts(ms) <==> k in RunStarts(rest)
    {
      StartsEarlier(rest, m, k);
    }
    if StartsRun(ms, |rest|) {
      assert RunStarts(ms) == RunStarts(rest) + {|rest|};
    } else {
      assert RunStarts(ms) == RunStarts(rest);
    }
  }

  /** Maximal runs are counted by their first operators. */
  lemma {:induction false} RunsAreStarts(ms: seq<Mark>)
    ensures |RunStarts(ms)| == RunsAfter(Cut, ms)
  {
    if ms == [] {
      assert RunStarts(ms) == {};
    } else {
      hide RunStarts, RunsAfter;
      var rest, m := ms[..|ms| - 1], ms[|ms| - 1];
      assert ms == rest + [m];
      RunsAreStarts(rest);
      RunsConcat(Cut, rest, [m]);
      StartsOfLonger(rest, m);
      RunsOfOne(LastMark(Cut, rest), m);
    }
  }

  lemma RunsOfOne(prev: Mark, m: Mark)
    ensures RunsAfter(prev, [m]) == if m.Operator? && m != prev then 1 else 0
  {
    assert [m][1..] == [];
  }

  // ------------------------------------------------------------------- departures

  /** What the scorer charges too much or too little.
      `split`: operators that repeat the one before them in their operand sequence although
      the tracker, reset by `!` or changed inside brackets, has forgotten it.
      `merged`: operators that start a run of their operand sequence although the tracker
      still holds the same operator from another one, or from an earlier statement, or
      although they stick to the token before them.
      `awaits`: every `co_await`.
      `less` and `more`: for every structure, the levels that the scorer is short of its
      nesting, or ahead of it. It is short inside conditional operands, where bodies are
      closed early, and in lambda bodies that it takes for plain braces; it is ahead where
      bodies are closed late and in plain braces that it takes for lambda bodies.
      `unseen`: the full price of every while loop that is taken for the tail of a do-while.
      `phantom`: the price charged for every tail of a do-while taken for a loop. */
  datatype Departure = Departure(
    split: nat, merged: nat, awaits: nat, less: nat, more: nat, unseen: nat, phantom: nat)
  {
    function Net(): int {
      split + awaits + more + phantom - merged - less - unseen
    }

    function Plus(other: Departure): Departure {
      Departure(split + other.split, merged + other.merged, awaits + other.awaits, less + other.less,
                more + other.more, unseen + other.unseen, phantom + other.phantom)
    }
  }

  const NONE: Departure := Departure(0, 0, 0, 0, 0, 0, 0)

  /** How far the scorer is above the true nesting `m`. */
  function Gap(mode: Mode, f: nat, m: nat): int {
    m - Level(mode, f)
  }

  /** A structure at the nesting `m`. */
  function Off(mode: Mode, f: nat, m: nat): Departure {
    var gap := Gap(mode, f, m);
    if gap >= 0 then NONE.(less := gap) else NONE.(more := -gap)
  }

  // ------------------------------------------------------------------- expressions

  /** The departures of items that follow the mark `prev` at the nesting `m`, inside `f`
      braces that the scorer counts. */
  function Departs(xs: seq<Item>, mode: Mode, prev: Mark, f: nat, m: nat): Departure
    decreases xs, 0
  {
    if xs == [] then NONE
    else
      ItemDeparts(xs[0], mode, prev, f, m)
        .Plus(Departs(xs[1..], ItemCost(xs[0], mode, f).mode, LastMark(prev, MarkOf(xs[0])), f, m))
  }

  function ItemDeparts(it: Item, mode: Mode, prev: Mark, f: nat, m: nat): Departure
    decreases it, 1
  {
    match it
    case Logical(conj, _) =>
      if mode.op != OpOf(conj) && prev == Operator(conj) then NONE.(split := 1)
      else if mode.op == OpOf(conj) && prev != Operator(conj) then NONE.(merged := 1)
      else NONE
    case Glued(conj) => if prev != Operator(conj) then NONE.(merged := 1) else NONE
    case Ternary(xs, ys) =>
      Off(mode, f, m).Plus(Departs(xs, mode, Cut, f, m + 1))
        .Plus(Departs(ys, ItemsCost(xs, mode, f).mode, Cut, f, m + 1))
    case Jump(sym) => if sym.Goto? then NONE else NONE.(awaits := 1)
    case Paren(xs) => Departs(xs, Inside(mode), Cut, f, m)
    case Braced(xs) => Departs(xs, mode.(lambda := false), Cut, InBrace(mode, f), m)
    case Subscript(xs) => Departs(xs, mode.(lambda := true), Cut, f, m)
    case Lambda(captures, intro, ss) =>
      var a := ItemsCost(captures, mode.(lambda := true), f);
      var b := ItemsCost(intro, a.mode, f);
      Departs(captures, mode.(lambda := true), Cut, f, m).Plus(Departs(intro, a.mode, Cut, f, m))
        .Plus(ScopeDepartures(ss, b.mode, f, m + 1))
    case _ => NONE
  }

  // -------------------------------------------------------------------- statements

  function HeadDepartures(xs: seq<Item>, mode: Mode, f: nat, m: nat): Departure
    decreases xs, 1
  {
    Off(mode, f, m).Plus(Departs(xs, InsideHeader(mode), Cut, f, m))
  }

  function ArmedDepartures(body: Body, mode: Mode, f: nat, m: nat): Departure
    decreases body, 0
  {
    match body
    case Block(ss) => Departures(ss, mode, f + 1, m)
    case Bare(s) => StmtDepartures(s, mode.(open := mode.open + 1), f, m)
  }

  function LooseDepartures(body: Body, mode: Mode, f: nat, m: nat): Departure
    decreases body, 0
  {
    match body
    case Block(ss) => ScopeDepartures(ss, mode, f, m)
    case Bare(s) => StmtDepartures(s, mode, f, m)
  }

  function BodyDepartures(body: Body, mode: Mode, f: nat, m: nat): Departure
    decreases body, 1
  {
    if Arms(mode) then ArmedDepartures(body, Resolved(mode), f, m) else LooseDepartures(body, Resolved(mode), f, m)
  }

  function ScopeDepartures(ss: seq<Stmt>, mode: Mode, f: nat, m: nat): Departure
    decreases ss, 1
  {
    Departures(ss, mode.(lambda := false), InBrace(mode, f), m)
  }

  function StmtDepartures(s: Stmt, mode: Mode, f: nat, m: nat): Departure
    decreases s, 0
  {
    match s
    case Simple(xs) => Departs(xs, mode, Cut, f, m)
    case Scope(xs, ss) => Departs(xs, mode, Cut, f, m).Plus(ScopeDepartures(ss, ItemsCost(xs, mode, f).mode, f, m))
    case Control(h, body) =>
      if h.keyword.While? && mode.swallow then
        NONE.(unseen := 1 + m).Plus(Departs(h.header, Inside(mode), Cut, f, m))
          .Plus(LooseDepartures(body, GroupCost(h.header, mode, f).mode, f, m + 1))
      else
        HeadDepartures(h.header, mode, f, m).Plus(BodyDepartures(body, HeadCost(h.header, mode, f).mode, f, m + 1))
    case Branch(xs, body, tail) =>
      var there := HeadCost(xs, mode, f).mode;
      HeadDepartures(xs, mode, f, m).Plus(BodyDepartures(body, there, f, m + 1))
        .Plus(TailDepartures(tail, BodyCost(body, there, f).mode, f, m))
    case DoWhile(body, cond) =>
      Off(mode, f, m).Plus(ArmedDepartures(body, mode, f, m + 1))
        .Plus(DoTailDepartures(cond, body.Block?, ArmedCost(body, mode, f).mode, f, m))
  }

  function DoTailDepartures(cond: seq<Item>, braced: bool, mode: Mode, f: nat, m: nat): Departure
    decreases cond, 2
  {
    if braced || mode.swallow then Departs(cond, Inside(mode.(swallow := true)), Cut, f, m)
    else NONE.(phantom := 1 + Level(mode, f)).Plus(Departs(cond, InsideHeader(mode), Cut, f, m))
  }

  /** The departures of statements at the nesting `m`, inside `f` braces that the scorer
      counts. */
  function Departures(ss: seq<Stmt>, mode: Mode, f: nat, m: nat): Departure
    decreases ss, 0
  {
    if ss == [] then NONE
    else StmtDepartures(ss[0], mode, f, m).Plus(Departures(ss[1..], StmtCost(ss[0], mode, f).mode, f, m))
  }

  function TailDepartures(tail: Tail, mode: Mode, f: nat, m: nat): Departure
    decreases tail, 0
  {
    match tail
    case NoElse => NONE
    case Else(body) => ArmedDepartures(body, mode, f, m + 1)
    case ElseIf(xs, body, rest) =>
      var there := HeaderCost(xs, mode, f).mode;
      Departs(xs, InsideHeader(mode), Cut, f, m).Plus(BodyDepartures(body, there, f, m + 1))
        .Plus(TailDepartures(rest, BodyCost(body, there, f).mode, f, m))
  }

  // ------------------------------------------------------------------- the theorem

  /** The score is this value but for these departures. */
  predicate Departing(score: int, value: int, d: Departure) {
    score == value + d.Net()
  }

  lemma DepartingThen(a: Cost, b: Cost, v: int, w: int, d: Departure, e: Departure)
    requires Departing(a.score, v, d) && Departing(b.score, w, e)
    ensures Departing(Then(a, b).score, v + w, d.Plus(e))
  {
  }

  lemma NothingDeparts(score: int)
    requires score == 0
    ensures Departing(score, 0, NONE)
  {
  }

  lemma StepDeparts(mode: Mode, f: nat, m: nat)
    ensures Departing(Step(1 + Level(mode, f), mode, f).score, 1 + m, Off(mode, f, m))
    ensures Departing(Step(1, mode, f).score, 1, NONE)
  {
  }

  lemma NonePlus(d: Departure)
    ensures NONE.Plus(d) == d
  {
  }

  /** The charge for items is their runs and values, but for the departures. */
  lemma {:induction false} ItemsDepart(xs: seq<Item>, mode: Mode, f: nat, prev: Mark, m: nat)
    ensures Departing(ItemsCost(xs, mode, f).score, RunsAfter(prev, Marks(xs)) + Within(xs, m),
                      Departs(xs, mode, prev, f, m))
    decreases xs, 0
  {
    hide ItemCost, ItemValue, ItemDeparts, MarkOf, Departing, Departure.Plus, RunsAfter, Then, Level;
    if xs == [] {
      NoRuns(prev);
      NothingDeparts(0);
    } else {
      var x, rest, a := xs[0], xs[1..], ItemCost(xs[0], mode, f);
      var next := LastMark(prev, MarkOf(x));
      ItemDepartsBy(x, mode, f, prev, m);
      ItemsDepart(rest, a.mode, f, next, m);
      RunsConcat(prev, MarkOf(x), Marks(rest));
      DepartingThen(a, ItemsCost(rest, a.mode, f), RunsAfter(prev, MarkOf(x)) + ItemValue(x, m),
        RunsAfter(next, Marks(rest)) + Within(rest, m), ItemDeparts(x, mode, prev, f, m),
        Departs(rest, a.mode, next, f, m));
    }
  }

  lemma NoRuns(prev: Mark)
    ensures RunsAfter(prev, []) == 0
  {
  }

  lemma {:induction false} ItemDepartsBy(it: Item, mode: Mode, f: nat, prev: Mark, m: nat)
    ensures Departing(ItemCost(it, mode, f).score, RunsAfter(prev, MarkOf(it)) + ItemValue(it, m),
                      ItemDeparts(it, mode, prev, f, m))
    decreases it, 2
  {
    hide RunsAfter, ItemsCost, GroupCost, ScopeCost, Expression, Cognitive, Departs, ScopeDepartures, Departing;
    hide Departure.Plus, Off;
    MarkRuns(it, prev);
    match it
    case Ternary(xs, ys) => TernaryDeparts(xs, ys, mode, f, m);
    case Paren(xs) => GroupDeparts(xs, mode, f, m);
    case Braced(xs) => BracedDeparts(xs, mode, f, m);
    case Subscript(xs) => SequenceDeparts(xs, mode.(lambda := true), f, m);
    case Lambda(captures, intro, ss) => LambdaDeparts(captures, intro, ss, mode, f, m);
    case _ => LeafDeparts(it, mode, f, prev, m);
  }

  predicate IsOperator(it: Item) {
    it.Logical? || it.Glued?
  }

  lemma LeafDeparts(it: Item, mode: Mode, f: nat, prev: Mark, m: nat)
    requires it.Atom? || it.Logical? || it.Glued? || it.Negate? || it.Jump?
    ensures Departing(ItemCost(it, mode, f).score,
                      (if IsOperator(it) && prev != Operator(it.conjunction) then 1 else 0) + ItemValue(it, m),
                      ItemDeparts(it, mode, prev, f, m))
  {
    hide ItemCost, ItemValue, ItemDeparts, Departing;
    match it
    case Logical(conj, word) => LogicalDeparts(conj, word, mode, f, prev, m);
    case Glued(conj) => GluedDeparts(conj, mode, f, prev, m);
    case Jump(sym) => JumpDeparts(sym, mode, f, prev, m);
    case _ => SilentDeparts(it, mode, f, prev, m);
  }

  lemma SilentDeparts(it: Item, mode: Mode, f: nat, prev: Mark, m: nat)
    requires it.Atom? || it.Negate?
    ensures Departing(ItemCost(it, mode, f).score, ItemValue(it, m), ItemDeparts(it, mode, prev, f, m))
  {
    hide ItemsCost, GroupCost, ScopeCost, Expression, Cognitive, Departs, ScopeDepartures, Level, Off;
  }

  lemma LogicalDeparts(conj: bool, word: bool, mode: Mode, f: nat, prev: Mark, m: nat)
    ensures var it := Logical(conj, word);
      Departing(ItemCost(it, mode, f).score, (if prev != Operator(conj) then 1 else 0) + ItemValue(it, m),
                ItemDeparts(it, mode, prev, f, m))
  {
    hide ItemsCost, GroupCost, ScopeCost, Expression, Cognitive, Departs, ScopeDepartures, Level, Off, OpOf;
  }

  lemma GluedDeparts(conj: bool, mode: Mode, f: nat, prev: Mark, m: nat)
    ensures var it := Item.Glued(conj);
      Departing(ItemCost(it, mode, f).score, (if prev != Operator(conj) then 1 else 0) + ItemValue(it, m),
                ItemDeparts(it, mode, prev, f, m))
  {
    hide ItemsCost, GroupCost, ScopeCost, Expression, Cognitive, Departs, ScopeDepartures, Level, Off;
  }

  lemma JumpDeparts(sym: Sym, mode: Mode, f: nat, prev: Mark, m: nat)
    ensures var it := Jump(sym);
      Departing(ItemCost(it, mode, f).score, ItemValue(it, m), ItemDeparts(it, mode, prev, f, m))
  {
    hide ItemsCost, GroupCost, ScopeCost, Expression, Cognitive, Departs, ScopeDepartures, Level, Off;
  }

  /** Only a logical operator can start a run. */
  lemma MarkRuns(it: Item, prev: Mark)
    ensures RunsAfter(prev, MarkOf(it)) == if IsOperator(it) && prev != Operator(it.conjunction) then 1 else 0
  {
    if MarkOf(it) != [] {
      RunsOfOne(prev, MarkOf(it)[0]);
      assert MarkOf(it) == [MarkOf(it)[0]];
    }
  }

  /** An operand sequence of its own. */
  lemma {:induction false} SequenceDeparts(xs: seq<Item>, mode: Mode, f: nat, m: nat)
    ensures Departing(ItemsCost(xs, mode, f).score, Expression(xs, m), Departs(xs, mode, Cut, f, m))
    decreases xs, 1
  {
    hide ItemsCost, Departs, RunsAfter, RunStarts, Marks, Within, Departing;
    ItemsDepart(xs, mode, f, Cut, m);
    RunsAreStarts(Marks(xs));
  }

  lemma {:induction false} GroupDeparts(xs: seq<Item>, mode: Mode, f: nat, m: nat)
    ensures Departing(GroupCost(xs, mode, f).score, Expression(xs, m), Departs(xs, Inside(mode), Cut, f, m))
    decreases xs, 2
  {
    hide ItemsCost, Departs, Expression, Departing;
    SequenceDeparts(xs, Inside(mode), f, m);
  }

  lemma {:induction false} HeaderDeparts(xs: seq<Item>, mode: Mode, f: nat, m: nat)
    ensures Departing(HeaderCost(xs, mode, f).score, Expression(xs, m), Departs(xs, InsideHeader(mode), Cut, f, m))
    decreases xs, 2
  {
    hide ItemsCost, Departs, Expression, Departing;
    SequenceDeparts(xs, InsideHeader(mode), f, m);
  }

  lemma {:induction false} BracedDeparts(xs: seq<Item>, mode: Mode, f: nat, m: nat)
    ensures var c := ItemsCost(xs, mode.(lambda := false), InBrace(mode, f));
      Departing(Then(Nothing(mode, Level(mode, f)), c).score, Expression(xs, m),
                Departs(xs, mode.(lambda := false), Cut, InBrace(mode, f), m))
    decreases xs, 2
  {
    hide ItemsCost, Departs, Expression, Departing, InBrace;
    SequenceDeparts(xs, mode.(lambda := false), InBrace(mode, f), m);
  }

  lemma {:induction false} TernaryDeparts(xs: seq<Item>, ys: seq<Item>, mode: Mode, f: nat, m: nat)
    ensures var q, b := Step(1 + Level(mode, f), mode, f), ItemsCost(xs, mode, f);
            var a := Then(q, b);
      Departing(Then(a, ItemsCost(ys, a.mode, f)).score, 1 + m + Expression(xs, m + 1) + Expression(ys, m + 1),
                Off(mode, f, m).Plus(Departs(xs, mode, Cut, f, m + 1)).Plus(Departs(ys, b.mode, Cut, f, m + 1)))
    decreases Ternary(xs, ys), 0
  {
    hide ItemsCost, Departs, Expression, Departing, Off, Departure.Plus, Level;
    var q, b := Step(1 + Level(mode, f), mode, f), ItemsCost(xs, mode, f);
    var d, e := Departs(xs, mode, Cut, f, m + 1), Departs(ys, b.mode, Cut, f, m + 1);
    StepDeparts(mode, f, m);
    SequenceDeparts(xs, mode, f, m + 1);
    DepartingThen(q, b, 1 + m, Expression(xs, m + 1), Off(mode, f, m), d);
    SequenceDeparts(ys, b.mode, f, m + 1);
    DepartingThen(Then(q, b), ItemsCost(ys, b.mode, f), 1 + m + Expression(xs, m + 1), Expression(ys, m + 1),
      Off(mode, f, m).Plus(d), e);
  }

  lemma {:induction false} LambdaDeparts(
      captures: seq<Item>, intro: seq<Item>, ss: seq<Stmt>, mode: Mode, f: nat, m: nat)
    ensures var a := ItemsCost(captures, mode.(lambda := true), f);
            var b := ItemsCost(intro, a.mode, f);
      Departing(Then(Then(a, b), ScopeCost(ss, b.mode, f)).score,
                Expression(captures, m) + Expression(intro, m) + Cognitive(ss, m + 1),
                Departs(captures, mode.(lambda := true), Cut, f, m).Plus(Departs(intro, a.mode, Cut, f, m))
                  .Plus(ScopeDepartures(ss, b.mode, f, m + 1)))
    decreases Lambda(captures, intro, ss), 0
  {
    hide ItemsCost, ScopeCost, Departs, ScopeDepartures, Expression, Cognitive, Departing, Departure.Plus, Then;
    var a := ItemsCost(captures, mode.(lambda := true), f);
    var b := ItemsCost(intro, a.mode, f);
    var d, e := Departs(captures, mode.(lambda := true), Cut, f, m), Departs(intro, a.mode, Cut, f, m);
    SequenceDeparts(captures, mode.(lambda := true), f, m);
    SequenceDeparts(intro, a.mode, f, m);
    DepartingThen(a, b, Expression(captures, m), Expression(intro, m), d, e);
    ScopeDeparts(ss, b.mode, f, m + 1);
    DepartingThen(Then(a, b), ScopeCost(ss, b.mode, f), Expression(captures, m) + Expression(intro, m),
      Cognitive(ss, m + 1), d.Plus(e), ScopeDepartures(ss, b.mode, f, m + 1));
  }

  lemma {:induction false} HeadDepart(xs: seq<Item>, mode: Mode, f: nat, m: nat)
    ensures Departing(HeadCost(xs, mode, f).score, 1 + m + Expression(xs, m), HeadDepartures(xs, mode, f, m))
    decreases xs, 3
  {
    hide HeaderCost, Departs, Expression, Departing, Off, Departure.Plus, Level, Then;
    StepDeparts(mode, f, m);
    HeaderDeparts(xs, mode, f, m);
    DepartingThen(Step(1 + Level(mode, f), mode, f), HeaderCost(xs, mode, f), 1 + m, Expression(xs, m), Off(mode, f, m),
      Departs(xs, InsideHeader(mode), Cut, f, m));
  }

  lemma {:induction false} ArmedDepart(body: Body, mode: Mode, f: nat, m: nat)
    ensures Departing(ArmedCost(body, mode, f).score, CognitiveBody(body, m), ArmedDepartures(body, mode, f, m))
    decreases body, 0
  {
    hide StmtCost, StmtsCost, Cognitive, CognitiveStmt, Departures, StmtDepartures, Departing;
    match body
    case Block(ss) => StmtsDepart(ss, mode, f + 1, m);
    case Bare(s) => StmtDeparts(s, mode.(open := mode.open + 1), f, m);
  }

  lemma {:induction false} ScopeDeparts(ss: seq<Stmt>, mode: Mode, f: nat, m: nat)
    ensures Departing(ScopeCost(ss, mode, f).score, Cognitive(ss, m), ScopeDepartures(ss, mode, f, m))
    decreases ss, 1
  {
    hide StmtsCost, Cognitive, Departures, InBrace, Departing;
    StmtsDepart(ss, mode.(lambda := false), InBrace(mode, f), m);
  }

  lemma {:induction false} LooseDepart(body: Body, mode: Mode, f: nat, m: nat)
    ensures Departing(LooseCost(body, mode, f).score, CognitiveBody(body, m), LooseDepartures(body, mode, f, m))
    decreases body, 0
  {
    hide StmtCost, ScopeCost, Cognitive, CognitiveStmt, ScopeDepartures, StmtDepartures, Departing;
    match body
    case Block(ss) => ScopeDeparts(ss, mode, f, m);
    case Bare(s) => StmtDeparts(s, mode, f, m);
  }

  lemma {:induction false} BodyDepart(body: Body, mode: Mode, f: nat, m: nat)
    ensures Departing(BodyCost(body, mode, f).score, CognitiveBody(body, m), BodyDepartures(body, mode, f, m))
    decreases body, 1
  {
    hide LooseCost, ArmedCost, CognitiveBody, LooseDepartures, ArmedDepartures, Departing;
    if Arms(mode) {
      ArmedDepart(body, Resolved(mode), f, m);
    } else {
      LooseDepart(body, Resolved(mode), f, m);
    }
  }

  /** A header with its departures, and the body behind it. */
  lemma {:induction false} HeadBodyDepart(h: Cost, body: Body, f: nat, m: nat, v: int, d: Departure)
    requires Departing(h.score, v, d)
    ensures Departing(Then(h, BodyCost(body, h.mode, f)).score, v + CognitiveBody(body, m),
                      d.Plus(BodyDepartures(body, h.mode, f, m)))
    decreases body, 2
  {
    hide BodyCost, CognitiveBody, BodyDepartures, Departing, Departure.Plus, Then;
    BodyDepart(body, h.mode, f, m);
    DepartingThen(h, BodyCost(body, h.mode, f), v, CognitiveBody(body, m), d, BodyDepartures(body, h.mode, f, m));
  }

  lemma {:induction false} StmtDeparts(s: Stmt, mode: Mode, f: nat, m: nat)
    ensures Departing(StmtCost(s, mode, f).score, CognitiveStmt(s, m), StmtDepartures(s, mode, f, m))
    decreases s, 2
  {
    hide Departing, StmtCost, CognitiveStmt, StmtDepartures;
    match s
    case Simple(xs) => SimpleDeparts(xs, mode, f, m);
    case Scope(xs, ss) => PrefixedDeparts(xs, ss, mode, f, m);
    case Control(h, body) => ControlDeparts(h, body, mode, f, m);
    case Branch(xs, body, tail) => BranchDeparts(xs, body, tail, mode, f, m);
    case DoWhile(body, cond) => DoWhileDeparts(body, cond, mode, f, m);
  }

  lemma EndedScore(c: Cost)
    ensures Ended(c).score == c.score
  {
  }

  lemma {:induction false} SimpleDeparts(xs: seq<Item>, mode: Mode, f: nat, m: nat)
    ensures var s := Simple(xs);
      Departing(StmtCost(s, mode, f).score, CognitiveStmt(s, m), StmtDepartures(s, mode, f, m))
    decreases xs, 2
  {
    hide ItemsCost, Departs, Expression, Departing, Ended;
    SequenceDeparts(xs, mode, f, m);
    EndedScore(ItemsCost(xs, mode, f));
  }

  lemma {:induction false} PrefixedDeparts(xs: seq<Item>, ss: seq<Stmt>, mode: Mode, f: nat, m: nat)
    ensures var s := Scope(xs, ss);
      Departing(StmtCost(s, mode, f).score, CognitiveStmt(s, m), StmtDepartures(s, mode, f, m))
    decreases Scope(xs, ss), 0
  {
    hide ItemsCost, Expression, Departs, ScopeCost, ScopeDepartures, Cognitive, Departing, Departure.Plus, Then;
    var a := ItemsCost(xs, mode, f);
    SequenceDeparts(xs, mode, f, m);
    ScopeDeparts(ss, a.mode, f, m);
    DepartingThen(a, ScopeCost(ss, a.mode, f), Expression(xs, m), Cognitive(ss, m), Departs(xs, mode, Cut, f, m),
      ScopeDepartures(ss, a.mode, f, m));
  }

  lemma {:induction false} ControlDeparts(h: Head, body: Body, mode: Mode, f: nat, m: nat)
    ensures var s := Control(h, body);
      Departing(StmtCost(s, mode, f).score, CognitiveStmt(s, m), StmtDepartures(s, mode, f, m))
    decreases Control(h, body), 1
  {
    hide HeadCost, BodyCost, GroupCost, LooseCost, CognitiveBody, Expression, HeadDepartures, BodyDepartures, Departs,
      LooseDepartures;
    hide Departing, Departure.Plus, Then;
    if h.keyword.While? && mode.swallow {
      assert h == Head(While, h.header);
      UnseenDeparts(h.header, body, mode, f, m);
    } else {
      HeadDepart(h.header, mode, f, m);
      HeadBodyDepart(HeadCost(h.header, mode, f), body, f, m + 1, 1 + m + Expression(h.header, m),
        HeadDepartures(h.header, mode, f, m));
    }
  }

  lemma UnseenNet(n: nat)
    ensures Departing(0, n, NONE.(unseen := n))
  {
  }

  lemma {:induction false} UnseenDeparts(xs: seq<Item>, body: Body, mode: Mode, f: nat, m: nat)
    ensures var a := GroupCost(xs, mode, f);
      Departing(Then(a, LooseCost(body, a.mode, f)).score, 1 + m + Expression(xs, m) + CognitiveBody(body, m + 1),
                NONE.(unseen := 1 + m).Plus(Departs(xs, Inside(mode), Cut, f, m))
                  .Plus(LooseDepartures(body, a.mode, f, m + 1)))
    decreases Control(Head(While, xs), body), 0
  {
    hide CognitiveBody, Expression, GroupCost, Departs, LooseCost, LooseDepartures, Departing, Departure.Plus, Then;
    var a, none := GroupCost(xs, mode, f), Nothing(mode, Level(mode, f));
    var d := Departs(xs, Inside(mode), Cut, f, m);
    UnseenNet(1 + m);
    GroupDeparts(xs, mode, f, m);
    DepartingThen(none, a, 1 + m, Expression(xs, m), NONE.(unseen := 1 + m), d);
    NothingScore(a, mode, Level(mode, f));
    LooseDepart(body, a.mode, f, m + 1);
    DepartingThen(a, LooseCost(body, a.mode, f), 1 + m + Expression(xs, m), CognitiveBody(body, m + 1),
      NONE.(unseen := 1 + m).Plus(d), LooseDepartures(body, a.mode, f, m + 1));
  }

  lemma NothingScore(c: Cost, mode: Mode, n: int)
    ensures Then(Nothing(mode, n), c).score == c.score
  {
  }

  lemma {:induction false} BranchDeparts(xs: seq<Item>, body: Body, tail: Tail, mode: Mode, f: nat, m: nat)
    ensures var s := Branch(xs, body, tail);
      Departing(StmtCost(s, mode, f).score, CognitiveStmt(s, m), StmtDepartures(s, mode, f, m))
    decreases Branch(xs, body, tail), 0
  {
    hide HeadCost, BodyCost, CognitiveBody, Expression, HeadDepartures, BodyDepartures, TailCost, CognitiveTail,
      TailDepartures;
    hide Departing, Departure.Plus;
    var h := HeadCost(xs, mode, f);
    var a := Then(h, BodyCost(body, h.mode, f));
    var d, v := HeadDepartures(xs, mode, f, m), 1 + m + Expression(xs, m);
    HeadDepart(xs, mode, f, m);
    HeadBodyDepart(h, body, f, m + 1, v, d);
    TailDeparts(tail, a.mode, f, m);
    DepartingThen(a, TailCost(tail, a.mode, f), v + CognitiveBody(body, m + 1), CognitiveTail(tail, m),
      d.Plus(BodyDepartures(body, h.mode, f, m + 1)), TailDepartures(tail, a.mode, f, m));
  }

  lemma {:induction false} DoWhileDeparts(body: Body, cond: seq<Item>, mode: Mode, f: nat, m: nat)
    ensures var s := DoWhile(body, cond);
      Departing(StmtCost(s, mode, f).score, CognitiveStmt(s, m), StmtDepartures(s, mode, f, m))
    decreases DoWhile(body, cond), 0
  {
    hide ArmedCost, CognitiveBody, Expression, ArmedDepartures, DoTailCost, DoTailDepartures, Departing, Departure.Plus,
      Off, Level;
    var k, b := Step(1 + Level(mode, f), mode, f), ArmedCost(body, mode, f);
    var d, e := Off(mode, f, m), ArmedDepartures(body, mode, f, m + 1);
    StepDeparts(mode, f, m);
    ArmedDepart(body, mode, f, m + 1);
    DepartingThen(k, b, 1 + m, CognitiveBody(body, m + 1), d, e);
    DoTailDeparts(cond, body.Block?, b.mode, f, m);
    DepartingThen(Then(k, b), DoTailCost(cond, body.Block?, b.mode, f), 1 + m + CognitiveBody(body, m + 1),
      Expression(cond, m), d.Plus(e), DoTailDepartures(cond, body.Block?, b.mode, f, m));
  }

  lemma PhantomNet(n: nat)
    ensures Departing(n, 0, NONE.(phantom := n))
  {
  }

  lemma EmptyScore(mode: Mode, f: nat)
    ensures EmptyCost(mode, f).score == 0
  {
  }

  lemma {:induction false} DoTailDeparts(cond: seq<Item>, braced: bool, mode: Mode, f: nat, m: nat)
    ensures Departing(DoTailCost(cond, braced, mode, f).score, Expression(cond, m),
                      DoTailDepartures(cond, braced, mode, f, m))
    decreases cond, 3
  {
    hide GroupCost, HeaderCost, Expression, Departs, Departing, Departure.Plus, Ended, EmptyCost, Level;
    if braced || mode.swallow {
      GroupDeparts(cond, mode.(swallow := true), f, m);
      EndedScore(GroupCost(cond, mode.(swallow := true), f));
    } else {
      var k, h := Step(1 + Level(mode, f), mode, f), HeaderCost(cond, mode, f);
      HeaderDeparts(cond, mode, f, m);
      PhantomNet(1 + Level(mode, f));
      DepartingThen(k, h, 0, Expression(cond, m), NONE.(phantom := 1 + Level(mode, f)),
        Departs(cond, InsideHeader(mode), Cut, f, m));
      EmptyScore(HeadCost(cond, mode, f).mode, f);
    }
  }

  /** The charge for statements is their Cognitive Complexity, but for the departures. */
  lemma {:induction false} StmtsDepart(ss: seq<Stmt>, mode: Mode, f: nat, m: nat)
    ensures Departing(StmtsCost(ss, mode, f).score, Cognitive(ss, m), Departures(ss, mode, f, m))
    decreases ss, 0
  {
    hide StmtCost, CognitiveStmt, StmtDepartures, Then, Level, Departing, Departure.Plus;
    if ss == [] {
      NothingDeparts(0);
    } else {
      var a := StmtCost(ss[0], mode, f);
      StmtDeparts(ss[0], mode, f, m);
      StmtsDepart(ss[1..], a.mode, f, m);
      DepartingThen(a, StmtsCost(ss[1..], a.mode, f), CognitiveStmt(ss[0], m), Cognitive(ss[1..], m),
        StmtDepartures(ss[0], mode, f, m), Departures(ss[1..], a.mode, f, m));
    }
  }

  lemma {:induction false} TailDeparts(tail: Tail, mode: Mode, f: nat, m: nat)
    ensures Departing(TailCost(tail, mode, f).score, CognitiveTail(tail, m), TailDepartures(tail, mode, f, m))
    decreases tail, 1
  {
    hide TailCost, CognitiveTail, TailDepartures, Departing;
    match tail
    case NoElse => NoTailDeparts(tail, mode, f, m);
    case Else(body) => ElseDeparts(body, mode, f, m);
    case ElseIf(xs, body, rest) => ElseIfDeparts(xs, body, rest, mode, f, m);
  }

  lemma NoTailDeparts(tail: Tail, mode: Mode, f: nat, m: nat)
    requires tail == NoElse
    ensures Departing(TailCost(tail, mode, f).score, CognitiveTail(tail, m), TailDepartures(tail, mode, f, m))
  {
  }

  lemma {:induction false} ElseDeparts(body: Body, mode: Mode, f: nat, m: nat)
    ensures var tail := Tail.Else(body);
      Departing(TailCost(tail, mode, f).score, CognitiveTail(tail, m), TailDepartures(tail, mode, f, m))
    decreases body, 1
  {
    hide ArmedCost, CognitiveBody, ArmedDepartures, Then, Departing, Departure.Plus, Off;
    var d := ArmedDepartures(body, mode, f, m + 1);
    StepDeparts(mode, f, m);
    ArmedDepart(body, mode, f, m + 1);
    DepartingThen(Step(1, mode, f), ArmedCost(body, mode, f), 1, CognitiveBody(body, m + 1), NONE, d);
    NonePlus(d);
  }

  lemma {:induction false} ElseIfDeparts(xs: seq<Item>, body: Body, rest: Tail, mode: Mode, f: nat, m: nat)
    ensures var tail := ElseIf(xs, body, rest);
      Departing(TailCost(tail, mode, f).score, CognitiveTail(tail, m), TailDepartures(tail, mode, f, m))
    decreases ElseIf(xs, body, rest), 0
  {
    hide HeaderCost, Expression, Departs, BodyCost, CognitiveBody, BodyDepartures, Departing, Departure.Plus, Off;
    hide TailCost, CognitiveTail, TailDepartures;
    var e, c, g := Step(1, mode, f), HeaderCost(xs, mode, f), Departs(xs, InsideHeader(mode), Cut, f, m);
    var h, v := Then(e, c), 1 + Expression(xs, m);
    var a := Then(h, BodyCost(body, h.mode, f));
    StepDeparts(mode, f, m);
    HeaderDeparts(xs, mode, f, m);
    DepartingThen(e, c, 1, Expression(xs, m), NONE, g);
    NonePlus(g);
    HeadBodyDepart(h, body, f, m + 1, v, g);
    TailDeparts(rest, a.mode, f, m);
    DepartingThen(a, TailCost(rest, a.mode, f), v + CognitiveBody(body, m + 1), CognitiveTail(rest, m),
      g.Plus(BodyDepartures(body, h.mode, f, m + 1)), TailDepartures(rest, a.mode, f, m));
    ElseIfUnfolds(xs, body, rest, mode, f, m);
  }

  lemma ElseIfUnfolds(xs: seq<Item>, body: Body, rest: Tail, mode: Mode, f: nat, m: nat)
    ensures var tail, h := ElseIf(xs, body, rest), Then(Step(1, mode, f), HeaderCost(xs, mode, f));
            var a := Then(h, BodyCost(body, h.mode, f));
      && TailCost(tail, mode, f) == Then(a, TailCost(rest, a.mode, f))
      && CognitiveTail(tail, m) == 1 + Expression(xs, m) + CognitiveBody(body, m + 1) + CognitiveTail(rest, m)
      && TailDepartures(tail, mode, f, m)
         == Departs(xs, InsideHeader(mode), Cut, f, m).Plus(BodyDepartures(body, h.mode, f, m + 1))
              .Plus(TailDepartures(rest, a.mode, f, m))
  {
    hide HeaderCost, Expression, Departs, BodyCost, CognitiveBody, BodyDepartures, Departure.Plus;
  }
}
