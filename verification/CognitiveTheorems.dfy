/** The score that the machine gives to the tokens of a statement tree, and when it is
    the Cognitive Complexity of the tree. */
module CognitiveTheorems {
  import opened Tokens
  import opened ScoreMachine
  import opened CognitiveTree
  import opened CognitiveCost
  import opened CognitiveMetric
  import opened CognitiveRefinement
  import opened CognitiveDeviations
  import opened CognitivePlain

  // ------------------------------------------------------------- from symbols to tokens

  /** What the scorer sees in a token: an `&&` or `||` that sticks to the token before it is
      no operator to it. */
  function Seen(toks: seq<Token>, k: nat): Sym
    requires k < |toks|
  {
    if (toks[k].sym.AndAnd? || toks[k].sym.OrOr?) && GluedAt(toks, k) then Unspaced(toks[k].sym.AndAnd?)
    else toks[k].sym
  }

  /** The tokens spell these symbols. */
  ghost predicate Spells(toks: seq<Token>, syms: seq<Sym>) {
    |toks| == |syms| && forall k: nat :: k < |toks| ==> Seen(toks, k) == syms[k]
  }

  lemma SeenStep(st: Score, toks: seq<Token>, k: nat)
    requires Shaped(st) && k < |toks|
    ensures StepSym(st, toks[k].sym, GluedAt(toks, k)) == StepSym(st, Seen(toks, k), false)
  {
    hide IsGlued;
  }

  lemma {:induction false} TokensRun(st: Score, toks: seq<Token>, syms: seq<Sym>, k: nat)
    requires Shaped(st) && Spells(toks, syms) && k <= |toks|
    ensures RunFrom(st, toks, k) == RunSyms(st, syms[k..])
    decreases |toks| - k
  {
    hide StepSym, GluedAt, Seen;
    if k < |toks| {
      SeenStep(st, toks, k);
      TokensRun(StepSym(st, toks[k].sym, GluedAt(toks, k)), toks, syms, k + 1);
      assert syms[k..][0] == Seen(toks, k) && syms[k..][1..] == syms[k + 1..];
    }
  }

  /** Nothing remembered. */
  const START: Mode := Mode(NoOp, 0, false, false, 0, 0, false)

  /** Outside all parentheses and braces. */
  const GROUND: Place := Place([], [], 0)

  /** Running the machine over the tokens of a tree gives its cost: score, number of
      increments, deepest nesting, and what is remembered; and all braces and parentheses
      are closed. */
  lemma MachineComputesCost(ss: seq<Stmt>, toks: seq<Token>)
    requires ValidStmts(ss) && Spells(toks, PrintStmts(ss))
    ensures var c := StmtsCost(ss, START, 0);
      RunFrom(Initial(), toks, 0) == At(Tally(c.score, c.count, c.mode.open, c.deepest), c.mode, GROUND)
  {
    hide StepSym, RunFrom, RunSyms, Spells, ValidStmts, StmtsCost, PrintStmts;
    var st := Initial();
    assert Shaped(st) && st == At(Tally(0, 0, 0, 0), START, GROUND);
    TokensRun(st, toks, PrintStmts(ss), 0);
    assert PrintStmts(ss)[0..] == PrintStmts(ss);
    StmtsRun(Tally(0, 0, 0, 0), START, GROUND, ss);
    StmtsSpan(ss, START, 0);
  }

  // -------------------------------------------------------------------- theorems

  /** On the trees of `CognitiveTree` the machine's score is their Cognitive Complexity but
      for the departures: more for every run split, every `co_await`, every level that the
      scorer is ahead of the nesting of a structure and every do-while tail taken for a loop;
      less for every run merged, every level that it is short of the nesting of a structure
      and every loop taken for a do-while tail. So it is the Cognitive Complexity iff these
      balance. */
  lemma MachineScore(ss: seq<Stmt>, toks: seq<Token>)
    requires ValidStmts(ss) && Spells(toks, PrintStmts(ss))
    ensures var d, score := Departures(ss, START, 0, 0), RunFrom(Initial(), toks, 0).tally.score;
            var over, under := d.split + d.awaits + d.more + d.phantom, d.merged + d.less + d.unseen;
      && score == Cognitive(ss, 0) + over - under
      && (score == Cognitive(ss, 0) <==> over == under)
  {
    hide RunFrom, Spells, ValidStmts, StmtsCost, Departures, Cognitive;
    MachineComputesCost(ss, toks);
    StmtsDepart(ss, START, 0, 0);
  }

  /** On plain code the machine computes the Cognitive Complexity. */
  lemma MachineIsCognitive(ss: seq<Stmt>, toks: seq<Token>)
    requires ValidStmts(ss) && PlainStmts(ss, true) && Spells(toks, PrintStmts(ss))
    ensures RunFrom(Initial(), toks, 0).tally.score == Cognitive(ss, 0)
  {
    hide RunFrom, Spells, ValidStmts, PlainStmts, Departures, Cognitive, StmtsCost, SomeOperate;
    MachineScore(ss, toks);
    PlainStmtsDepartNowhere(ss, START, 0, true);
  }
}
