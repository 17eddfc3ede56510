/** Pairing the braces of a token stream. */
module BraceMatching {
  import opened Tokens

  function Delta(sym: Sym): int {
    if sym == LBrace then 1 else if sym == RBrace then -1 else 0
  }

  /** Opening minus closing braces in [i, j). */
  function Level(t: seq<Token>, i: nat, j: nat): int
    requires j <= |t|
  {
    if i >= j then 0 else Level(t, i, j - 1) + Delta(t[j - 1].sym)
  }

  /** No closing brace in [i, j) lacks its opening brace there. */
  ghost predicate NeverUnder(t: seq<Token>, i: nat, j: nat)
    requires j <= |t|
  {
    forall k: nat :: i <= k <= j ==> Level(t, i, k) >= 0
  }

  /** The brace at `j` closes the one at `i`: everything between is balanced. */
  ghost predicate Closes(t: seq<Token>, i: nat, j: nat) {
    && i < j < |t| && t[i].sym == LBrace && t[j].sym == RBrace
    && Level(t, i + 1, j) == 0 && NeverUnder(t, i + 1, j)
  }

  lemma {:induction false} LevelSplits(t: seq<Token>, i: nat, k: nat, j: nat)
    requires i <= k <= j <= |t|
    ensures Level(t, i, j) == Level(t, i, k) + Level(t, k, j)
    decreases j
  {
    if k < j {
      LevelSplits(t, i, k, j - 1);
    }
  }

  lemma LevelAcrossOpen(t: seq<Token>, i: nat, k: nat, j: nat)
    requires i <= k < j <= |t| && t[k].sym == LBrace
    ensures Level(t, i, j) == Level(t, i, k) + 1 + Level(t, k + 1, j)
  {
    LevelSplits(t, i, k, j);
    LevelSplits(t, k, k + 1, j);
    assert Level(t, k, k + 1) == 1;
  }

  lemma DipsAtClose(t: seq<Token>, i: nat, j: nat)
    requires Closes(t, i, j)
    ensures Level(t, i + 1, j + 1) == -1
  {
  }

  /** A brace has one partner. */
  lemma PartnerUnique(t: seq<Token>, i: nat, j: nat, k: nat, m: nat)
    requires Closes(t, i, j) && Closes(t, k, m)
    ensures i == k <==> j == m
  {
    DipsAtClose(t, i, j);
    DipsAtClose(t, k, m);
    if i < k < j {
      LevelAcrossOpen(t, i + 1, k, j);
    }
    if k < i < m {
      LevelAcrossOpen(t, k + 1, i, m);
    }
  }

  /** Brace pairs nest: what opens inside a pair closes inside it. */
  lemma PairsNest(t: seq<Token>, i: nat, j: nat, k: nat, m: nat)
    requires Closes(t, i, j) && Closes(t, k, m) && i < k < j
    ensures m < j
  {
    PartnerUnique(t, i, j, k, m);
    LevelAcrossOpen(t, i + 1, k, j);
    assert Level(t, i + 1, k) >= 0;
  }

  const UNMATCHED: int := -1

  /** Each brace names its partner; everything else names none. */
  ghost predicate IsBraceMatch(t: seq<Token>, match_: seq<int>) {
    && |match_| == |t|
    && (forall i: nat :: i < |t| ==> match_[i] == UNMATCHED || (0 <= match_[i] < |t| && match_[i] != i))
    && (forall i: nat, j: nat :: i < j < |t| ==> (match_[i] == j <==> Closes(t, i, j)))
    && (forall i: nat, j: nat :: i < j < |t| ==> (match_[j] == i <==> Closes(t, i, j)))
  }

  /** The open braces still waiting before position `n`, innermost last. */
  ghost predicate Waiting(t: seq<Token>, stack: seq<nat>, n: nat)
    requires n <= |t|
  {
    && (forall k: nat :: k < |stack| ==> stack[k] < n && t[stack[k]].sym == LBrace)
    && (forall k: nat, l: nat :: k < l < |stack| ==> stack[k] < stack[l])
    && (forall k: nat :: k < |stack| ==>
          Level(t, stack[k] + 1, n) == |stack| - 1 - k && NeverUnder(t, stack[k] + 1, n))
  }

  /** The pairs among the first `n` tokens are recorded, and no others. */
  ghost predicate Recorded(t: seq<Token>, match_: seq<int>, stack: seq<nat>, n: nat) {
    && |match_| == |t| && n <= |t|
    && (forall i: nat :: i < |t| ==> match_[i] == UNMATCHED || 0 <= match_[i] < n)
    && (forall i: nat :: n <= i < |t| ==> match_[i] == UNMATCHED)
    && (forall i: nat :: i < n && match_[i] >= 0 && t[i].sym == LBrace ==> Closes(t, i, match_[i]))
    && (forall i: nat :: i < n && match_[i] >= 0 && t[i].sym != LBrace ==> Closes(t, match_[i], i))
    && (forall i: nat :: i < n && match_[i] >= 0 ==> match_[match_[i]] == i)
    && (forall i: nat :: i < n && t[i].sym == LBrace ==> (match_[i] == UNMATCHED <==> i in stack))
  }

  lemma StillWaiting(t: seq<Token>, stack: seq<nat>, n: nat)
    requires n < |t| && Waiting(t, stack, n)
    ensures t[n].sym == LBrace ==> Waiting(t, stack + [n], n + 1)
    ensures t[n].sym == RBrace && stack != [] ==>
      Waiting(t, stack[..|stack| - 1], n + 1) && Closes(t, stack[|stack| - 1], n)
    ensures t[n].sym != LBrace && (t[n].sym != RBrace || stack == []) ==> Waiting(t, stack, n + 1)
  {
  }

  /** A brace that is no longer waiting closed earlier; a waiting one has not closed. */
  lemma WaitingIsOpen(t: seq<Token>, stack: seq<nat>, n: nat, i: nat, j: nat)
    requires n <= |t| && Waiting(t, stack, n) && i in stack && j < n
    ensures !Closes(t, i, j)
  {
    var k: nat :| k < |stack| && stack[k] == i;
    assert Closes(t, i, j) ==> Level(t, i + 1, j + 1) == -1;
  }

  lemma WaitingBelow(t: seq<Token>, stack: seq<nat>, n: nat)
    requires n <= |t| && Waiting(t, stack, n) && stack != []
    ensures stack[|stack| - 1] < n
  {
  }

  lemma NothingRecorded(t: seq<Token>, match_: seq<int>)
    requires |match_| == |t| && forall i: nat :: i < |t| ==> match_[i] == UNMATCHED
    ensures Waiting(t, [], 0) && Recorded(t, match_, [], 0)
  {
  }

  method MatchBraces(t: seq<Token>) returns (match_: array<int>)
    ensures fresh(match_) && IsBraceMatch(t, match_[..])
  {
    hide Closes, Waiting, Recorded, IsBraceMatch, Level, NeverUnder;
    match_ := new int[|t|](i => UNMATCHED);
    NothingRecorded(t, match_[..]);
    var stack: seq<nat> := [];
    var i := 0;
    while i < |t|
      invariant i <= |t| && match_.Length == |t|
      invariant Waiting(t, stack, i)
      invariant Recorded(t, match_[..], stack, i)
    {
      ghost var before := match_[..];
      assert |before| == |t|;
      StillWaiting(t, stack, i);
      if t[i].sym == LBrace {
        stack := stack + [i];
        Opened(t, before, stack[..|stack| - 1], i);
      } else if t[i].sym == RBrace && stack != [] {
        var open := stack[|stack| - 1];
        WaitingBelow(t, stack, i);
        ghost var waiting := stack;
        stack := stack[..|stack| - 1];
        match_[open] := i;
        match_[i] := open;
        assert match_[..] == before[open := i][i := open];
        Closed(t, before, waiting, i);
      } else {
        Passed(t, before, stack, i);
      }
      i := i + 1;
    }
    AllRecorded(t, match_[..], stack);
  }

  lemma Opened(t: seq<Token>, match_: seq<int>, stack: seq<nat>, n: nat)
    requires Recorded(t, match_, stack, n) && n < |t| && t[n].sym == LBrace
    ensures Recorded(t, match_, stack + [n], n + 1)
  {
    hide Closes;
  }

  lemma Passed(t: seq<Token>, match_: seq<int>, stack: seq<nat>, n: nat)
    requires Recorded(t, match_, stack, n) && n < |t| && t[n].sym != LBrace
    ensures Recorded(t, match_, stack, n + 1)
  {
    hide Closes;
  }

  lemma Closed(t: seq<Token>, match_: seq<int>, stack: seq<nat>, n: nat)
    requires Recorded(t, match_, stack, n) && Waiting(t, stack, n) && n < |t| && stack != []
    requires t[n].sym == RBrace && Closes(t, stack[|stack| - 1], n)
    ensures Recorded(t, match_[stack[|stack| - 1] := n][n := stack[|stack| - 1]], stack[..|stack| - 1], n + 1)
  {
    hide Closes, Level, NeverUnder;
    var open := stack[|stack| - 1];
    var rest := stack[..|stack| - 1];
    assert stack == rest + [open];
    assert open !in rest;
    var after := match_[open := n][n := open];
    assert match_[open] == UNMATCHED;
    forall i: nat | i < n + 1 && after[i] >= 0
      ensures after[after[i]] == i
    {
      assert i != n && i != open ==> match_[match_[i]] == i;
    }
  }

  lemma AllRecorded(t: seq<Token>, match_: seq<int>, stack: seq<nat>)
    requires Recorded(t, match_, stack, |t|) && Waiting(t, stack, |t|)
    ensures IsBraceMatch(t, match_)
  {
    hide Level, NeverUnder, Waiting;
    forall i: nat, j: nat | i < j < |t|
      ensures match_[i] == j <==> Closes(t, i, j)
      ensures match_[j] == i <==> Closes(t, i, j)
    {
      RecordedPair(t, match_, stack, i, j);
    }
  }

  lemma RecordedPair(t: seq<Token>, match_: seq<int>, stack: seq<nat>, i: nat, j: nat)
    requires Recorded(t, match_, stack, |t|) && Waiting(t, stack, |t|) && i < j < |t|
    ensures match_[i] == j <==> Closes(t, i, j)
    ensures match_[j] == i <==> Closes(t, i, j)
  {
    hide Level, NeverUnder, Waiting;
    if Closes(t, i, j) {
      if i in stack {
        WaitingIsOpen(t, stack, |t|, i, j);
      }
      PartnerUnique(t, i, j, i, match_[i]);
    }
  }
}
