/** Cognitive Complexity as its definition (Campbell, 2018) assigns it to a statement tree,
    without any reference to the scorer. */
module CognitiveMetric {
  import opened Tokens
  import opened CognitiveTree

  // ------------------------------------------------------ runs of logical operators

  /** What matters for runs in a list of items: its logical operators, and the places where
      one operand sequence ends and the next begins. */
  datatype Mark = Operator(conjunction: bool) | Cut

  /** `,`, `;` and `:` separate operand sequences. */
  predicate Separates(sym: Sym) {
    sym == Semicolon || sym == COMMA || sym == COLON
  }

  function MarkOf(it: Item): seq<Mark> {
    match it
    case Logical(conj, _) => [Operator(conj)]
    case Glued(conj) => [Operator(conj)]
    case Atom(sym) => if Separates(sym) then [Cut] else []
    case Ternary(_, _) => [Cut]
    case _ => []
  }

  /** Negations and parenthesised operands leave no mark: they interrupt no run. */
  function Marks(xs: seq<Item>): seq<Mark> {
    if xs == [] then [] else MarkOf(xs[0]) + Marks(xs[1..])
  }

  /** A maximal run of like operators starts here. */
  predicate StartsRun(ms: seq<Mark>, k: nat)
    requires k < |ms|
  {
    ms[k].Operator? && (k == 0 || ms[k - 1] != ms[k])
  }

  function RunStarts(ms: seq<Mark>): set<nat> {
    set k: nat | k < |ms| && StartsRun(ms, k)
  }

  // ------------------------------------------------------------------- expressions

  /** One for every run of like operators, and what the items hold. */
  function Expression(xs: seq<Item>, n: int): int
    decreases xs, 1
  {
    |RunStarts(Marks(xs))| + Within(xs, n)
  }

  function Within(xs: seq<Item>, n: int): int
    decreases xs, 0
  {
    if xs == [] then 0 else ItemValue(xs[0], n) + Within(xs[1..], n)
  }

  /** A conditional expression is a structure: 1 plus the nesting level, and its two
      operands lie one level deeper. A `goto` costs 1. The body of a lambda lies one level
      deeper, at no cost of its own. */
  function ItemValue(it: Item, n: int): int
    decreases it, 2
  {
    match it
    case Ternary(xs, ys) => 1 + n + Expression(xs, n + 1) + Expression(ys, n + 1)
    case Jump(sym) => if sym.Goto? then 1 else 0
    case Paren(xs) => Expression(xs, n)
    case Braced(xs) => Expression(xs, n)
    case Subscript(xs) => Expression(xs, n)
    case Lambda(captures, intro, ss) => Expression(captures, n) + Expression(intro, n) + Cognitive(ss, n + 1)
    case _ => 0
  }

  // -------------------------------------------------------------------- statements

  /** 1 plus the nesting level for each structure, 1 for each else or else-if; bodies lie
      one level deeper. */
  function Cognitive(ss: seq<Stmt>, n: int): int
    decreases ss, 0
  {
    if ss == [] then 0 else CognitiveStmt(ss[0], n) + Cognitive(ss[1..], n)
  }

  function CognitiveStmt(s: Stmt, n: int): int
    decreases s, 0
  {
    match s
    case Simple(xs) => Expression(xs, n)
    case Scope(xs, ss) => Expression(xs, n) + Cognitive(ss, n)
    case Control(h, body) => 1 + n + Expression(h.header, n) + CognitiveBody(body, n + 1)
    case Branch(xs, body, tail) => 1 + n + Expression(xs, n) + CognitiveBody(body, n + 1) + CognitiveTail(tail, n)
    case DoWhile(body, cond) => 1 + n + CognitiveBody(body, n + 1) + Expression(cond, n)
  }

  function CognitiveBody(body: Body, n: int): int
    decreases body, 0
  {
    match body
    case Block(ss) => Cognitive(ss, n)
    case Bare(s) => CognitiveStmt(s, n)
  }

  function CognitiveTail(tail: Tail, n: int): int
    decreases tail, 0
  {
    match tail
    case NoElse => 0
    case Else(body) => 1 + CognitiveBody(body, n + 1)
    case ElseIf(xs, body, rest) => 1 + Expression(xs, n) + CognitiveBody(body, n + 1) + CognitiveTail(rest, n)
  }
}
