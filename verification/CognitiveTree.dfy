/** Statement trees and the tokens they print to. */
module CognitiveTree {
  import opened Tokens

  /** Pieces of an expression or simple statement. */
  datatype Item =
    | Atom(sym: Sym)                           // identifier, literal, operator, case label ...
    | Logical(conjunction: bool, word: bool)   // `&&`, `||`, `and`, `or`
    | Glued(conjunction: bool)                 // `&&`, `||` stuck to the token before
    | Negate                                   // `!`
    | Ternary(yes: seq<Item>, no: seq<Item>)   // ? yes : no, after its condition
    | Jump(sym: Sym)                           // `goto`, `co_await`
    | Paren(inner: seq<Item>)
    | Braced(inner: seq<Item>)                 // initialiser list
    | Subscript(inner: seq<Item>)              // [ ... ]
    | Lambda(captures: seq<Item>, intro: seq<Item>, stmts: seq<Stmt>)   // [ ... ] (...) { ... }

  datatype Head = Head(keyword: Sym, header: seq<Item>)

  datatype Stmt =
    | Simple(items: seq<Item>)                                 // items ;
    | Scope(prefix: seq<Item>, stmts: seq<Stmt>)               // { ... }, try { ... }, label: { ... }
    | Control(head: Head, body: Body)                          // for (...) body
    | Branch(header: seq<Item>, body: Body, tail: Tail)        // if (...) body tail
    | DoWhile(body: Body, cond: seq<Item>)                     // do body while (...) ;

  datatype Body =
    | Block(stmts: seq<Stmt>)                                  // { ... }
    | Bare(stmt: Stmt)                                         // a statement without braces

  datatype Tail =
    | NoElse
    | Else(body: Body)
    | ElseIf(header: seq<Item>, body: Body, tail: Tail)

  const COLON: Sym := Other(":")
  const COMMA: Sym := Other(",")
  const RBRACKET: Sym := Other("]")

  predicate PlainSym(sym: Sym) {
    sym.Other? || sym.Case? || sym.Default? || sym.Equals? || sym.Hash? || sym.Backslash?
  }

  /** A `;` is an item only inside parentheses (the header of a for). */
  predicate ValidItem(it: Item, inside: bool)
    decreases it, 1
  {
    match it
    case Atom(sym) => PlainSym(sym) || (inside && sym.Semicolon?)
    case Jump(sym) => sym.Goto? || sym.CoAwait?
    case Ternary(xs, ys) => ValidItems(xs, inside) && ValidItems(ys, inside)
    case Paren(xs) => ValidItems(xs, true)
    case Braced(xs) => ValidItems(xs, inside)
    case Subscript(xs) => ValidItems(xs, inside)
    case Lambda(captures, intro, ss) => ValidItems(captures, inside) && ValidItems(intro, inside) && ValidStmts(ss)
    case _ => true
  }

  predicate ValidItems(xs: seq<Item>, inside: bool)
    decreases xs, 0
  {
    xs == [] || (ValidItem(xs[0], inside) && ValidItems(xs[1..], inside))
  }

  predicate ValidHead(h: Head)
    decreases h, 0
  {
    h.keyword in {For, While, Switch, Catch} && ValidItems(h.header, true)
  }

  predicate StartsBraced(xs: seq<Item>) {
    xs != [] && xs[0].Braced?
  }

  /** The statement starts with a `{`. */
  predicate StartsWithBrace(s: Stmt) {
    match s
    case Simple(xs) => StartsBraced(xs)
    case Scope(xs, _) => xs == [] || StartsBraced(xs)
    case _ => false
  }

  /** An `else` after this belongs to no `if` inside it. */
  predicate Complete(s: Stmt)
    decreases s, 0
  {
    match s
    case Control(_, body) => TakesElse(body)
    case Branch(_, _, tail) => tail != NoElse && CompleteTail(tail)
    case _ => true
  }

  predicate TakesElse(body: Body)
    decreases body, 0
  {
    body.Bare? ==> Complete(body.stmt)
  }

  predicate CompleteTail(tail: Tail)
    decreases tail, 0
  {
    match tail
    case NoElse => true
    case Else(body) => TakesElse(body)
    case ElseIf(_, _, rest) => rest != NoElse && CompleteTail(rest)
  }

  /** After `else`, a body that starts with `if` would make an `else if`. */
  predicate FollowsElse(body: Body) {
    body.Bare? ==> !body.stmt.Branch?
  }

  predicate ValidBody(body: Body)
    decreases body, 0
  {
    match body
    case Block(ss) => ValidStmts(ss)
    case Bare(s) => ValidStmt(s) && !StartsWithBrace(s)
  }

  predicate ValidStmt(s: Stmt)
    decreases s, 0
  {
    match s
    case Simple(xs) => ValidItems(xs, false)
    case Scope(xs, ss) => ValidItems(xs, false) && ValidStmts(ss)
    case Control(h, body) => ValidHead(h) && ValidBody(body)
    case Branch(xs, body, tail) =>
      ValidItems(xs, true) && ValidBody(body) && ValidTail(tail) && (tail != NoElse ==> TakesElse(body))
    case DoWhile(body, cond) => ValidBody(body) && ValidItems(cond, true)
  }

  predicate ValidStmts(ss: seq<Stmt>)
    decreases ss, 0
  {
    ss == [] || (ValidStmt(ss[0]) && ValidStmts(ss[1..]))
  }

  predicate ValidTail(tail: Tail)
    decreases tail, 0
  {
    match tail
    case NoElse => true
    case Else(body) => ValidBody(body) && FollowsElse(body)
    case ElseIf(xs, body, rest) =>
      ValidItems(xs, true) && ValidBody(body) && ValidTail(rest) && (rest != NoElse ==> TakesElse(body))
  }

  // --------------------------------------------------------------------- printing

  /** What the scorer takes for part of a type, as in `T&&`. */
  function Unspaced(conjunction: bool): Sym {
    Other(if conjunction then "&&" else "||")
  }

  function PrintItem(it: Item): seq<Sym>
    decreases it, 1
  {
    match it
    case Atom(sym) => [sym]
    case Logical(conj, word) => [if conj then if word then WordAnd else AndAnd else if word then WordOr else OrOr]
    case Glued(conj) => [Unspaced(conj)]
    case Negate => [Bang]
    case Ternary(xs, ys) => [Question] + PrintItems(xs) + ([COLON] + PrintItems(ys))
    case Jump(sym) => [sym]
    case Paren(xs) => PrintHeader(xs)
    case Braced(xs) => [LBrace] + PrintItems(xs) + [RBrace]
    case Subscript(xs) => PrintBrackets(xs)
    case Lambda(captures, intro, ss) => PrintBrackets(captures) + PrintItems(intro) + PrintBlock(ss)
  }

  function PrintBrackets(xs: seq<Item>): seq<Sym>
    decreases xs, 1
  {
    [LBracket] + PrintItems(xs) + [RBRACKET]
  }

  function PrintItems(xs: seq<Item>): seq<Sym>
    decreases xs, 0
  {
    if xs == [] then [] else PrintItem(xs[0]) + PrintItems(xs[1..])
  }

  function PrintHeader(xs: seq<Item>): seq<Sym>
    decreases xs, 1
  {
    [LParen] + PrintItems(xs) + [RParen]
  }

  function PrintBlock(ss: seq<Stmt>): seq<Sym>
    decreases ss, 1
  {
    [LBrace] + PrintStmts(ss) + [RBrace]
  }

  function PrintBody(body: Body): seq<Sym>
    decreases body, 0
  {
    match body
    case Block(ss) => PrintBlock(ss)
    case Bare(s) => PrintStmt(s)
  }

  function PrintStmt(s: Stmt): seq<Sym>
    decreases s, 0
  {
    match s
    case Simple(xs) => PrintItems(xs) + [Semicolon]
    case Scope(xs, ss) => PrintItems(xs) + PrintBlock(ss)
    case Control(h, body) => [h.keyword] + PrintHeader(h.header) + PrintBody(body)
    case Branch(xs, body, tail) => [If] + PrintHeader(xs) + PrintBody(body) + PrintTail(tail)
    case DoWhile(body, cond) => [Do] + PrintBody(body) + [While] + PrintHeader(cond) + [Semicolon]
  }

  function PrintStmts(ss: seq<Stmt>): seq<Sym>
    decreases ss, 0
  {
    if ss == [] then [] else PrintStmt(ss[0]) + PrintStmts(ss[1..])
  }

  function PrintTail(tail: Tail): seq<Sym>
    decreases tail, 0
  {
    match tail
    case NoElse => []
    case Else(body) => [Sym.Else] + PrintBody(body)
    case ElseIf(xs, body, rest) => [Sym.Else] + [If] + PrintHeader(xs) + PrintBody(body) + PrintTail(rest)
  }
}
