/** Tokens as the lexer delivers them. */
module Tokens {

  /** The normalised symbols the scanners tell apart; all others keep their text
      (identifiers arrive as `Other("id")`, literals as `Other("lit")`). */
  datatype Sym =
    | If | For | While | Switch | Catch | Case | Default | Do | Else | Goto | CoAwait
    | AndAnd | OrOr | WordAnd | WordOr | Question | Bang
    | LParen | RParen | LBracket | LBrace | RBrace | Equals | Semicolon | Hash | Backslash
    | Other(text: string)

  function Spelling(sym: Sym): string {
    match sym
    case If => "if"
    case For => "for"
    case While => "while"
    case Switch => "switch"
    case Catch => "catch"
    case Case => "case"
    case Default => "default"
    case Do => "do"
    case Else => "else"
    case Goto => "goto"
    case CoAwait => "co_await"
    case AndAnd => "&&"
    case OrOr => "||"
    case WordAnd => "and"
    case WordOr => "or"
    case Question => "?"
    case Bang => "!"
    case LParen => "("
    case RParen => ")"
    case LBracket => "["
    case LBrace => "{"
    case RBrace => "}"
    case Equals => "="
    case Semicolon => ";"
    case Hash => "#"
    case Backslash => "\\"
    case Other(text) => text
  }

  /** The symbol of a text. */
  function SymOf(text: string): Sym {
    match text
    case "if" => If
    case "for" => For
    case "while" => While
    case "switch" => Switch
    case "catch" => Catch
    case "case" => Case
    case "default" => Default
    case "do" => Do
    case "else" => Else
    case "goto" => Goto
    case "co_await" => CoAwait
    case "&&" => AndAnd
    case "||" => OrOr
    case "and" => WordAnd
    case "or" => WordOr
    case "?" => Question
    case "!" => Bang
    case "(" => LParen
    case ")" => RParen
    case "[" => LBracket
    case "{" => LBrace
    case "}" => RBrace
    case "=" => Equals
    case ";" => Semicolon
    case "#" => Hash
    case "\\" => Backslash
    case _ => Other(text)
  }

  /** Every text is the spelling of its symbol. */
  lemma SpellingOfSymbol(text: string)
    ensures Spelling(SymOf(text)) == text
  {
  }

  /** The keywords of control structures with a header. */
  predicate IsStructural(sym: Sym) {
    sym.If? || sym.For? || sym.While? || sym.Switch? || sym.Catch?
  }

  /** Symbol, 1-based source line, original spelling where the symbol is a placeholder
      (else empty), byte offset. */
  datatype Token = Token(sym: Sym, line: int, raw: string, off: int) {
    function Text(): string {
      if raw == "" then Spelling(sym) else raw
    }
  }
}
