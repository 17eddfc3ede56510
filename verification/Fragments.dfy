/** Fragments of source files, as the duplication scanner compares them. */
module Fragments {

  datatype Fragment = Fragment(
    file: string,
    startLine: int,
    endLine: int,
    tokenCount: nat,
    statementCount: nat,
    bag: map<string, nat>,   // normalised token -> count
    toks: seq<string>,       // ordered normalised tokens
    diversity: real,
    nested: bool,            // a block inside another emitted fragment
    boundary: bool)          // a synthetic span, not a whole body

  /** Two spans of one file that overlap or abut; unset coordinates never do. */
  predicate SameFileOverlapOrAdjacent(a: Fragment, b: Fragment) {
    && a.file == b.file && a.startLine > 0 && b.startLine > 0
    && (|| (a.startLine <= b.endLine && b.startLine <= a.endLine)
        || a.endLine + 1 == b.startLine || b.endLine + 1 == a.startLine)
  }
}
