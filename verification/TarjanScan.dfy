/** Looking at a successor that is already visited keeps the search invariant. */
module TarjanScan {
  import opened Digraphs
  import opened TarjanSpec

  /** The top frame passes over its next successor `w`. */
  function Pass(s: Search, w: nat): Search
    requires |s.callStack| > 0 && Sized(s, |s.indexOf|) && Top(s).node < |s.indexOf|
  {
    if s.Held(w) then LowerTo(Advance(s), Top(s).node, Num(s, w)) else Advance(s)
  }

  ghost predicate Passable(g: Digraph, s: Search, w: nat) {
    && |s.callStack| > 0
    && g.Node(Top(s).node)
    && Top(s).succIndex < |g.succ[Top(s).node]|
    && w == g.succ[Top(s).node][Top(s).succIndex]
    && s.Visited(w)
  }

  /** What `t` has become after the top frame of `s` has passed over `w`. */
  ghost predicate Passed(g: Digraph, s: Search, t: Search, w: nat) {
    && Passable(g, s, w)
    && SameNumbers(s, t) && SameHeld(s, t)
    && |t.callStack| == |s.callStack|
    && Top(t) == Frame(Top(s).node, Top(s).succIndex + 1)
    && (forall k: nat :: k < |s.callStack| ==> FrameNode(t, k) == FrameNode(s, k))
    && (forall k: nat :: k + 1 < |s.callStack| ==> t.callStack[k] == s.callStack[k])
    && (forall x: nat :: x != Top(s).node ==> Low(t, x) == Low(s, x))
    && Low(t, Top(s).node) <= Low(s, Top(s).node)
    && (Low(t, Top(s).node) == Low(s, Top(s).node) || (s.Held(w) && Low(t, Top(s).node) == Num(s, w)))
    && (s.Held(w) ==> Low(t, Top(s).node) <= Num(s, w))
  }

  lemma PassStep(g: Digraph, s: Search, w: nat)
    requires Sized(s, |g.succ|) && Passable(g, s, w)
    ensures Sized(Pass(s, w), |g.succ|)
    ensures Passed(g, s, Pass(s, w), w)
  {
  }

  lemma PassFrames(g: Digraph, s: Search, t: Search, w: nat)
    requires Passed(g, s, t, w) && FramesOk(g, s)
    ensures FramesOk(g, t)
  {
    assert FramesHeld(g, t);
    assert FramesRise(t);
  }

  lemma PassReaches(g: Digraph, s: Search, t: Search, w: nat)
    requires Passed(g, s, t, w) && ReachesDown(g, s) && ReachesUp(g, s)
    ensures ReachesDown(g, t) && ReachesUp(g, t)
  {
    hide Reaches;
    forall k: nat, u: nat | Owns(t, k, u)
      ensures Reaches(g, u, FrameNode(t, k))
    {
      assert Owns(s, k, u);
    }
  }

  lemma PassLowReal(g: Digraph, s: Search, t: Search, w: nat)
    requires Passed(g, s, t, w) && FramesHeld(g, s) && FramesRise(s) && LowReal(g, s)
    ensures LowReal(g, t)
  {
    hide Reaches;
    var top := |s.callStack| - 1;
    forall k: nat | k < |t.callStack|
      ensures Low(t, FrameNode(t, k)) <= Num(t, FrameNode(t, k))
      ensures exists x: nat :: LowWitness(g, t, FrameNode(t, k), Low(t, FrameNode(t, k)), x)
    {
      var x: nat :| LowWitness(g, s, FrameNode(s, k), Low(s, FrameNode(s, k)), x);
      if k == top && Low(t, FrameNode(t, k)) != Low(s, FrameNode(s, k)) {
        ReachesEdge(g, FrameNode(s, k), w);
        assert LowWitness(g, t, FrameNode(t, k), Low(t, FrameNode(t, k)), w);
      } else {
        assert k == top || Num(s, FrameNode(s, k)) < Num(s, FrameNode(s, top));
        assert LowWitness(g, t, FrameNode(t, k), Low(t, FrameNode(t, k)), x);
      }
    }
  }

  lemma PassLowBound(g: Digraph, s: Search, t: Search, w: nat, k: nat, u: nat, i: nat)
    requires Passed(g, s, t, w) && FramesHeld(g, s) && FramesRise(s) && LowBounds(g, s)
    requires Scanned(g, t, k, u, i)
    ensures Covered(t, FrameNode(t, k), g.succ[u][i])
  {
    assert Owns(s, k, u);
    if Scanned(g, s, k, u, i) {
      assert Covered(s, FrameNode(s, k), g.succ[u][i]);
    } else {
      assert k == |s.callStack| - 1 && u == Top(s).node && g.succ[u][i] == w;
    }
  }

  lemma PassLinks(g: Digraph, s: Search, t: Search, w: nat)
    requires Passed(g, s, t, w) && FramesOk(g, s) && LinksOk(g, s)
    ensures LinksOk(g, t)
  {
    hide Passed, FramesHeld, FramesRise, FramesLowest, LowReal, ReachesDown, ReachesUp, Covered;
    PassReaches(g, s, t, w);
    PassLowReal(g, s, t, w);
    forall k: nat, u: nat, i: nat | Scanned(g, t, k, u, i)
      ensures Covered(t, FrameNode(t, k), g.succ[u][i])
    {
      PassLowBound(g, s, t, w, k, u, i);
    }
  }

  lemma PassRest(g: Digraph, s: Search, t: Search, w: nat)
    requires Passed(g, s, t, w) && NumbersOk(s) && StackOk(s) && EmittedClosed(g, s) && Components(g, s)
    ensures NumbersOk(t) && StackOk(t) && EmittedClosed(g, t) && Components(g, t)
  {
    assert forall v: nat :: t.Emitted(v) <==> s.Emitted(v);
    assert VisitedSet(t) == VisitedSet(s);
  }

  lemma PassKeeps(g: Digraph, s: Search, w: nat)
    requires Inv(g, s) && Passable(g, s, w)
    ensures Inv(g, Pass(s, w))
  {
    hide NumbersOk, StackOk, FramesOk, LinksOk, EmittedClosed, Components, Passed;
    PassStep(g, s, w);
    var t := Pass(s, w);
    PassFrames(g, s, t, w);
    PassLinks(g, s, t, w);
    PassRest(g, s, t, w);
  }
}
