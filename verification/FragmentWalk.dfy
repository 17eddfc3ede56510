/** The brace-nested walk that cuts a file into fragments. */
module FragmentWalk {
  import opened Tokens
  import opened BraceMatching
  import opened StatementRuns

  // -------------------------------------------------------------- callable bodies

  predicate IsQualifier(sym: Sym) {
    || sym == AndAnd
    || (sym.Other? && sym.text in ["const", "noexcept", "override", "final", "volatile", "mutable", "&"])
  }

  predicate IsControlKeyword(sym: Sym) {
    sym == If || sym == For || sym == While || sym == Switch || sym == Catch
  }

  /** Only member-function qualifiers separate the brace from the last `)` before it. */
  predicate Callable(t: seq<Token>, brace: nat)
    requires brace <= |t|
  {
    exists k: nat :: k < brace && t[k].sym == RParen && forall m: nat :: k < m < brace ==> IsQualifier(t[m].sym)
  }

  method OpensCallableBody(t: seq<Token>, brace: nat) returns (r: bool)
    requires brace <= |t|
    ensures r == Callable(t, brace)
  {
    hide IsQualifier;
    var k := brace;
    while k > 0
      invariant 0 <= k <= brace
      invariant forall m: nat :: k <= m < brace ==> IsQualifier(t[m].sym) && t[m].sym != RParen
    {
      k := k - 1;
      if t[k].sym == RParen {
        return true;
      }
      if !IsQualifier(t[k].sym) {
        return false;
      }
    }
    return false;
  }

  /** Closing minus opening parentheses in [k, j). */
  function ParenDebt(t: seq<Token>, k: nat, j: nat): int
    requires j <= |t|
    decreases j - k
  {
    if k >= j then 0
    else (if t[k].sym == RParen then 1 else if t[k].sym == LParen then -1 else 0) + ParenDebt(t, k + 1, j)
  }

  /** The `(` at `k` pairs with the `)` right before `brace`. */
  predicate OpensHeader(t: seq<Token>, k: nat, brace: nat)
    requires brace <= |t|
  {
    && k < brace && t[k].sym == LParen && ParenDebt(t, k, brace) == 0
    && forall m: nat :: k < m < brace ==> ParenDebt(t, m, brace) > 0
  }

  /** The header in front of the brace belongs to a control statement. */
  predicate ControlBody(t: seq<Token>, brace: nat)
    requires brace <= |t|
  {
    exists k: nat :: 0 < k < brace && OpensHeader(t, k, brace) && IsControlKeyword(t[k - 1].sym)
  }

  method IsControlBody(t: seq<Token>, brace: nat) returns (r: bool)
    requires brace <= |t|
    ensures r == ControlBody(t, brace)
  {
    hide IsControlKeyword;
    if brace == 0 || t[brace - 1].sym != RParen {
      NoHeader(t, brace);
      return false;
    }
    var depth := 0;
    var k := brace;
    while k > 0
      invariant 0 <= k <= brace && depth == ParenDebt(t, k, brace)
      invariant k < brace ==> depth > 0
      invariant forall m: nat :: k <= m < brace ==> ParenDebt(t, m, brace) > 0
    {
      k := k - 1;
      if t[k].sym == RParen {
        depth := depth + 1;
      } else if t[k].sym == LParen {
        depth := depth - 1;
        if depth == 0 {
          OneHeader(t, k, brace);
          return k > 0 && IsControlKeyword(t[k - 1].sym);
        }
      }
    }
    return false;
  }

  lemma NoHeader(t: seq<Token>, brace: nat)
    requires brace <= |t| && (brace == 0 || t[brace - 1].sym != RParen)
    ensures forall k: nat :: !OpensHeader(t, k, brace)
  {
    forall k: nat
      ensures !OpensHeader(t, k, brace)
    {
      if brace > 0 {
        assert ParenDebt(t, brace - 1, brace) <= 0;
      }
    }
  }

  lemma OneHeader(t: seq<Token>, k: nat, brace: nat)
    requires brace <= |t| && OpensHeader(t, k, brace)
    ensures forall m: nat :: OpensHeader(t, m, brace) ==> m == k
  {
    hide ParenDebt;
  }

  // ------------------------------------------------------------------ the recursion

  predicate InLimits(lim: Limits, size: int) {
    lim.minTokens <= size <= lim.maxTokens
  }

  /** The fragments of [from, to), enclosing ones first: what the walk must emit. */
  ghost function Walk(t: seq<Token>, match_: seq<int>, lim: Limits, from: nat, to: nat, inside: bool): seq<Span>
    requires Forwards(t, match_) && to <= |t|
    decreases |t| - from
  {
    if from >= to then []
    else if !OpensBlock(t, match_, from, to) then Walk(t, match_, lim, from + 1, to, inside)
    else
      var j := match_[from];
      Block(t, match_, lim, from, j, inside)
        + Walk(t, match_, lim, from + 1, j, inside || Emitted(t, match_, lim, from))
        + Walk(t, match_, lim, j + 1, to, inside)
  }

  /** What the block from brace `i` to brace `j` itself contributes. */
  ghost function Block(t: seq<Token>, match_: seq<int>, lim: Limits, i: nat, j: nat, inside: bool): seq<Span>
    requires Forwards(t, match_) && i < j < |t|
  {
    if !Callable(t, i) then []
    else if j - i - 1 > lim.maxTokens && !ControlBody(t, i) then RunsOf(t, match_, lim, i + 1, j)
    else if InLimits(lim, j - i - 1) then [Span(i + 1, j, inside, false)] + BoundaryRuns(lim, i + 1, j)
    else []
  }

  /** The block opened at `i` is a callable body within the limits. */
  ghost predicate Emitted(t: seq<Token>, match_: seq<int>, lim: Limits, i: nat)
    requires |match_| == |t| && i < |t|
  {
    t[i].sym == LBrace && match_[i] > i && Callable(t, i) && InLimits(lim, match_[i] - i - 1)
  }

  // ------------------------------------------------------------------ the work stack

  datatype Range = Range(from: nat, to: nat, inside: bool)

  ghost predicate Sane(t: seq<Token>, work: seq<Range>) {
    forall k: nat :: k < |work| ==> work[k].from <= work[k].to <= |t|
  }

  /** What the queued ranges still owe, last pushed first. */
  ghost function Owed(t: seq<Token>, match_: seq<int>, lim: Limits, work: seq<Range>): seq<Span>
    requires Forwards(t, match_) && Sane(t, work)
  {
    if work == [] then []
    else
      var n := |work| - 1;
      Walk(t, match_, lim, work[n].from, work[n].to, work[n].inside) + Owed(t, match_, lim, work[..n])
  }

  ghost function Effort(work: seq<Range>): nat {
    if work == [] then 0
    else
      var n := |work| - 1;
      (if work[n].from <= work[n].to then work[n].to - work[n].from + 1 else 0) + Effort(work[..n])
  }

  /** The collector: the tokens of one file, and the fragments found so far. */
  class Collector {
    const t: seq<Token>
    const match_: seq<int>
    const lim: Limits
    var out: seq<Span>

    constructor (t: seq<Token>, match_: seq<int>, lim: Limits)
      ensures this.t == t && this.match_ == match_ && this.lim == lim && out == []
    {
      this.t, this.match_, this.lim := t, match_, lim;
      out := [];
    }

    method EmitBodyAndDescend(i: nat, j: nat, range: Range, work0: seq<Range>) returns (work: seq<Range>)
      requires Forwards(t, match_) && i < j < range.to <= |t|
      modifies this`out
      ensures out == old(out) + [Span(i + 1, j, range.inside, false)] + BoundaryRuns(lim, i + 1, j)
      ensures work == work0 + [Range(j + 1, range.to, range.inside), Range(i + 1, j, true)]
    {
      out := out + [Span(i + 1, j, range.inside, false)];
      var runs := EmitBoundaryRuns(lim, i + 1, j);
      out := out + runs;
      work := work0 + [Range(j + 1, range.to, range.inside)];
      work := work + [Range(i + 1, j, true)];
    }

    /** The first block of the range, or its end. */
    method FirstBlock(range: Range) returns (i: nat)
      requires Forwards(t, match_) && range.from <= range.to <= |t|
      ensures range.from <= i <= range.to && (i < range.to ==> OpensBlock(t, match_, i, range.to))
      ensures Walk(t, match_, lim, range.from, range.to, range.inside)
           == Walk(t, match_, lim, i, range.to, range.inside)
    {
      hide Block, Emitted;
      i := range.from;
      while i < range.to && !(t[i].sym == LBrace && 0 <= match_[i] < range.to)
        invariant range.from <= i <= range.to
        invariant Walk(t, match_, lim, range.from, range.to, range.inside)
               == Walk(t, match_, lim, i, range.to, range.inside)
      {
        i := i + 1;
      }
    }

    /** Emits what the block contributes, and queues its inside and what follows it. */
    method EmitBlock(i: nat, j: nat, range: Range, work0: seq<Range>) returns (work: seq<Range>)
      requires Forwards(t, match_) && i < j < range.to <= |t| && t[i].sym == LBrace && match_[i] == j
      modifies this`out
      ensures out == old(out) + Block(t, match_, lim, i, j, range.inside)
      ensures work == work0 + [Range(j + 1, range.to, range.inside),
                               Range(i + 1, j, range.inside || Emitted(t, match_, lim, i))]
    {
      hide Callable, ControlBody, RunsOf, BoundaryRuns;
      var body := j - i - 1;
      var fnBody := OpensCallableBody(t, i);
      var control := IsControlBody(t, i);
      if fnBody && body > lim.maxTokens && !control {
        var runs := EmitStatementRuns(t, match_, lim, i + 1, j);
        out := out + runs;
      }
      if fnBody && lim.minTokens <= body <= lim.maxTokens {
        work := EmitBodyAndDescend(i, j, range, work0);
        return;
      }
      work := work0 + [Range(j + 1, range.to, range.inside)];
      work := work + [Range(i + 1, j, range.inside)];
    }

    /** Emits up to the first block and queues the rest of the range. */
    method ScanRange(range: Range, work0: seq<Range>) returns (work: seq<Range>)
      requires Forwards(t, match_) && range.from <= range.to <= |t| && Sane(t, work0)
      modifies this`out
      ensures Sane(t, work)
      ensures out + Owed(t, match_, lim, work)
           == old(out) + Walk(t, match_, lim, range.from, range.to, range.inside) + Owed(t, match_, lim, work0)
      ensures Effort(work) < Effort(work0) + (range.to - range.from + 1)
    {
      hide Block, Emitted, Walk, Owed, Effort;
      var i := FirstBlock(range);
      WalkStep(t, match_, lim, i, range.to, range.inside);
      if i == range.to {
        work := work0;
        return;
      }
      var j: nat := match_[i];
      work := EmitBlock(i, j, range, work0);
      TwoMore(t, match_, lim, work0, Range(j + 1, range.to, range.inside),
        Range(i + 1, j, range.inside || Emitted(t, match_, lim, i)));
    }

    /** The explicit stack gives the fragments of the recursion, in the same order. */
    method Collect(lo: nat, hi: nat)
      requires Forwards(t, match_) && lo <= hi <= |t|
      modifies this`out
      ensures out == old(out) + Walk(t, match_, lim, lo, hi, false)
    {
      hide Walk, Owed, Effort;
      var work := [Range(lo, hi, false)];
      OneLess(t, match_, lim, work);
      NothingOwed(t, match_, lim);
      while work != []
        invariant Sane(t, work)
        invariant out + Owed(t, match_, lim, work) == old(out) + Walk(t, match_, lim, lo, hi, false)
        decreases Effort(work)
      {
        var range := work[|work| - 1];
        var rest := work[..|work| - 1];
        OneLess(t, match_, lim, work);
        work := ScanRange(range, rest);
      }
    }
  }

  lemma WalkStep(t: seq<Token>, match_: seq<int>, lim: Limits, i: nat, to: nat, inside: bool)
    requires Forwards(t, match_) && i <= to <= |t| && (i < to ==> OpensBlock(t, match_, i, to))
    ensures i == to ==> Walk(t, match_, lim, i, to, inside) == []
    ensures i < to ==>
      Walk(t, match_, lim, i, to, inside)
        == Block(t, match_, lim, i, match_[i], inside)
           + Walk(t, match_, lim, i + 1, match_[i], inside || Emitted(t, match_, lim, i))
           + Walk(t, match_, lim, match_[i] + 1, to, inside)
  {
    hide Block, Emitted;
  }

  lemma TwoMore(t: seq<Token>, match_: seq<int>, lim: Limits, work: seq<Range>, a: Range, b: Range)
    requires Forwards(t, match_) && Sane(t, work) && a.from <= a.to <= |t| && b.from <= b.to <= |t|
    ensures Sane(t, work + [a] + [b]) && work + [a] + [b] == work + [a, b]
    ensures Owed(t, match_, lim, work + [a, b])
         == Walk(t, match_, lim, b.from, b.to, b.inside) + Walk(t, match_, lim, a.from, a.to, a.inside)
            + Owed(t, match_, lim, work)
    ensures Effort(work + [a, b]) == Effort(work) + (a.to - a.from + 1) + (b.to - b.from + 1)
  {
    hide Walk;
    var one := work + [a];
    var two := work + [a, b];
    assert two[..|work| + 1] == one && one[..|work|] == work;
  }

  lemma OneLess(t: seq<Token>, match_: seq<int>, lim: Limits, work: seq<Range>)
    requires Forwards(t, match_) && Sane(t, work) && work != []
    ensures var range, rest := work[|work| - 1], work[..|work| - 1];
      && Owed(t, match_, lim, work)
         == Walk(t, match_, lim, range.from, range.to, range.inside) + Owed(t, match_, lim, rest)
      && Effort(work) == range.to - range.from + 1 + Effort(rest)
  {
    hide Walk;
  }

  lemma NothingOwed(t: seq<Token>, match_: seq<int>, lim: Limits)
    requires Forwards(t, match_)
    ensures Owed(t, match_, lim, []) == []
  {
  }

  lemma NothingToWalk(t: seq<Token>, match_: seq<int>, lim: Limits)
    requires t == [] && Forwards(t, match_)
    ensures Walk(t, match_, lim, 0, |t|, false) == []
  {
  }

  /** All fragments of a file: the whole stream is one range. */
  method ExtractFragments(t: seq<Token>, lim: Limits) returns (spans: seq<Span>)
    ensures exists match_: seq<int> ::
      IsBraceMatch(t, match_) && Forwards(t, match_) && spans == Walk(t, match_, lim, 0, |t|, false)
  {
    hide IsBraceMatch, Forwards, Walk;
    var braces := MatchBraces(t);
    MatchForwards(t, braces[..]);
    if t == [] {
      spans := [];
      NothingToWalk(t, braces[..], lim);
      return;
    }
    var collector := new Collector(t, braces[..], lim);
    collector.Collect(0, |t|);
    spans := collector.out;
    assert spans == Walk(t, braces[..], lim, 0, |t|, false);
  }
}
