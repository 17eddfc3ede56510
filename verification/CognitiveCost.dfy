/** What the scorer charges for a tree, by recursion, with what it remembers between tokens
    as an explicit argument and result. */
module CognitiveCost {
  import opened Tokens
  import opened ScoreMachine
  import opened CognitiveTree

  /** What the scorer remembers: the operator tracker of the open parentheses, the number of
      braceless bodies it holds open, whether a `[` makes it take the next `{` for a lambda
      body, whether the tail of a do-while makes it swallow the next header, the number of
      open parentheses, and the last header: the number of parentheses around it, and whether
      its `)` is still awaited. */
  datatype Mode = Mode(op: Op, open: nat, lambda: bool, swallow: bool, depth: nat, base: nat, header: bool)

  /** Score, number of increments, what is remembered afterwards, deepest nesting reached. */
  datatype Cost = Cost(score: int, count: int, mode: Mode, deepest: int)

  function Nothing(mode: Mode, n: int): Cost {
    Cost(0, 0, mode, n)
  }

  /** First `a`, then `b`. */
  function Then(a: Cost, b: Cost): Cost {
    Cost(a.score + b.score, a.count + b.count, b.mode, Max(a.deepest, b.deepest))
  }

  function OpOf(conjunction: bool): Op {
    if conjunction then AndOp else OrOp
  }

  /** The nesting level that the scorer is at: `f` braces opened as control or lambda bodies,
      and its braceless bodies. */
  function Level(mode: Mode, f: nat): nat {
    f + mode.open
  }

  /** Behind a `(`: parentheses have a tracker of their own. */
  function Inside(mode: Mode): Mode {
    mode.(op := NoOp, depth := mode.depth + 1)
  }

  /** Behind the `(` of a header. */
  function InsideHeader(mode: Mode): Mode {
    Inside(mode).(base := mode.depth, header := true)
  }

  /** `c` was charged in parentheses; behind the `)` the tracker is the one from before. */
  function Outside(c: Cost, mode: Mode): Cost {
    c.(mode := c.mode.(op := mode.op, depth := mode.depth))
  }

  /** Behind a `{` that no control statement claims. */
  function InBrace(mode: Mode, f: nat): nat {
    if mode.lambda then f + 1 else f
  }

  function Step(score: int, mode: Mode, f: nat): Cost {
    Cost(score, 1, mode, Level(mode, f))
  }

  // ------------------------------------------------------------------- expressions

  function ItemCost(it: Item, mode: Mode, f: nat): Cost
    decreases it, 1
  {
    var n := Level(mode, f);
    match it
    case Atom(sym) => Nothing(if sym.Equals? then mode.(lambda := false) else mode, n)
    case Logical(conj, _) =>
      if mode.op == OpOf(conj) then Nothing(mode, n) else Step(1, mode.(op := OpOf(conj)), f)
    case Glued(_) => Nothing(mode, n)
    case Negate => Nothing(mode.(op := NoOp), n)
    case Ternary(xs, ys) =>
      var a := Then(Step(1 + n, mode, f), ItemsCost(xs, mode, f));
      Then(a, ItemsCost(ys, a.mode, f))
    case Jump(_) => Step(1, mode, f)
    case Paren(xs) => GroupCost(xs, mode, f)
    case Braced(xs) => Then(Nothing(mode, n), ItemsCost(xs, mode.(lambda := false), InBrace(mode, f)))
    case Subscript(xs) => ItemsCost(xs, mode.(lambda := true), f)
    case Lambda(captures, intro, ss) =>
      var a := ItemsCost(captures, mode.(lambda := true), f);
      var b := Then(a, ItemsCost(intro, a.mode, f));
      Then(b, ScopeCost(ss, b.mode, f))
  }

  function ItemsCost(xs: seq<Item>, mode: Mode, f: nat): Cost
    decreases xs, 0
  {
    if xs == [] then Nothing(mode, Level(mode, f))
    else
      var a := ItemCost(xs[0], mode, f);
      Then(a, ItemsCost(xs[1..], a.mode, f))
  }

  function GroupCost(xs: seq<Item>, mode: Mode, f: nat): Cost
    decreases xs, 1
  {
    Outside(ItemsCost(xs, Inside(mode), f), mode)
  }

  function HeaderCost(xs: seq<Item>, mode: Mode, f: nat): Cost
    decreases xs, 1
  {
    Outside(ItemsCost(xs, InsideHeader(mode), f), mode)
  }

  // -------------------------------------------------------------------- statements

  /** A structural keyword and its header: 1 plus the nesting level, plus the header. */
  function HeadCost(xs: seq<Item>, mode: Mode, f: nat): Cost
    decreases xs, 2
  {
    Then(Step(1 + Level(mode, f), mode, f), HeaderCost(xs, mode, f))
  }

  /** A `;` outside parentheses closes all braceless bodies. */
  function Ended(c: Cost): Cost {
    if c.mode.depth > 0 then c else c.(mode := c.mode.(open := 0, lambda := false))
  }

  /** A body that the scorer awaits. */
  function ArmedCost(body: Body, mode: Mode, f: nat): Cost
    decreases body, 0
  {
    match body
    case Block(ss) => StmtsCost(ss, mode, f + 1)
    case Bare(s) => StmtCost(s, mode.(open := mode.open + 1), f)
  }

  /** A body that it does not know for one. */
  function LooseCost(body: Body, mode: Mode, f: nat): Cost
    decreases body, 0
  {
    match body
    case Block(ss) => ScopeCost(ss, mode, f)
    case Bare(s) => StmtCost(s, mode, f)
  }

  /** A header makes the scorer await a body, unless a do-while is remembered, or another
      header in a lambda inside this one has ended it. */
  predicate Arms(mode: Mode) {
    mode.header && !mode.swallow
  }

  function Resolved(mode: Mode): Mode {
    if mode.header then mode.(header := false, swallow := false) else mode
  }

  /** The body after a header. */
  function BodyCost(body: Body, mode: Mode, f: nat): Cost
    decreases body, 1
  {
    if Arms(mode) then ArmedCost(body, Resolved(mode), f) else LooseCost(body, Resolved(mode), f)
  }

  /** A `;` after a header. */
  function EmptyCost(mode: Mode, f: nat): Cost {
    var there := if Arms(mode) then Resolved(mode).(open := mode.open + 1) else Resolved(mode);
    Ended(Nothing(there, Level(there, f)))
  }

  function ScopeCost(ss: seq<Stmt>, mode: Mode, f: nat): Cost
    decreases ss, 1
  {
    Then(Nothing(mode, Level(mode, f)), StmtsCost(ss, mode.(lambda := false), InBrace(mode, f)))
  }

  function StmtCost(s: Stmt, mode: Mode, f: nat): Cost
    decreases s, 0
  {
    match s
    case Simple(xs) => Ended(ItemsCost(xs, mode, f))
    case Scope(xs, ss) =>
      var a := ItemsCost(xs, mode, f);
      Then(a, ScopeCost(ss, a.mode, f))
    case Control(h, body) =>
      if h.keyword.While? && mode.swallow then
        var a := GroupCost(h.header, mode, f);
        Then(a, LooseCost(body, a.mode, f))
      else
        var a := HeadCost(h.header, mode, f);
        Then(a, BodyCost(body, a.mode, f))
    case Branch(xs, body, tail) =>
      var h := HeadCost(xs, mode, f);
      var a := Then(h, BodyCost(body, h.mode, f));
      Then(a, TailCost(tail, a.mode, f))
    case DoWhile(body, cond) =>
      var a := Then(Step(1 + Level(mode, f), mode, f), ArmedCost(body, mode, f));
      Then(a, DoTailCost(cond, body.Block?, a.mode, f))
  }

  /** The tail of a do-while: taken for what it is after a braced body, or while another one
      is remembered; for a while loop with an empty body otherwise. */
  function DoTailCost(cond: seq<Item>, braced: bool, mode: Mode, f: nat): Cost
    decreases cond, 3
  {
    if braced || mode.swallow then Ended(GroupCost(cond, mode.(swallow := true), f))
    else
      var h := HeadCost(cond, mode, f);
      Then(h, EmptyCost(h.mode, f))
  }

  function StmtsCost(ss: seq<Stmt>, mode: Mode, f: nat): Cost
    decreases ss, 0
  {
    if ss == [] then Nothing(mode, Level(mode, f))
    else
      var a := StmtCost(ss[0], mode, f);
      Then(a, StmtsCost(ss[1..], a.mode, f))
  }

  /** An `else` costs 1, whatever the nesting level; the `if` of an `else if` is free. */
  function TailCost(tail: Tail, mode: Mode, f: nat): Cost
    decreases tail, 0
  {
    match tail
    case NoElse => Nothing(mode, Level(mode, f))
    case Else(body) => Then(Step(1, mode, f), ArmedCost(body, mode, f))
    case ElseIf(xs, body, rest) =>
      var h := Then(Step(1, mode, f), HeaderCost(xs, mode, f));
      var a := Then(h, BodyCost(body, h.mode, f));
      Then(a, TailCost(rest, a.mode, f))
  }
}
