/** Opening a node, as a root or as a successor of the top frame, keeps the
    search invariant. */
module TarjanEnter {
  import opened Digraphs
  import opened TarjanSpec

  function Enter(s: Search, v: nat): Search
    requires Sized(s, |s.indexOf|) && v < |s.indexOf|
  {
    Open(PushFrame(if s.callStack == [] then s else Advance(s), v), v)
  }

  /** `v` is the unvisited node to open next: a root, or the top frame's next successor. */
  ghost predicate Enterable(g: Digraph, s: Search, v: nat) {
    && g.Node(v) && !s.Visited(v)
    && (s.callStack != [] ==>
          && g.Node(Top(s).node)
          && Top(s).succIndex < |g.succ[Top(s).node]|
          && v == g.succ[Top(s).node][Top(s).succIndex])
  }

  /** What `t` has become after opening `v` in `s`. */
  ghost predicate Entered(g: Digraph, s: Search, t: Search, v: nat) {
    && g.Node(v) && !s.Visited(v) && !s.Held(v)
    && (forall u: nat :: t.Visited(u) <==> s.Visited(u) || u == v)
    && (forall u: nat :: t.Held(u) <==> s.Held(u) || u == v)
    && (forall u: nat :: u != v ==> Num(t, u) == Num(s, u) && Low(t, u) == Low(s, u))
    && Num(t, v) == s.nextIndex && Low(t, v) == s.nextIndex
    && t.nextIndex == s.nextIndex + 1
    && t.componentStack == s.componentStack + [v]
    && t.result == s.result
    && |t.callStack| == |s.callStack| + 1
    && t.callStack[|s.callStack|] == Frame(v, 0)
    && (forall k: nat :: k < |s.callStack| ==> FrameNode(t, k) == FrameNode(s, k))
    && (forall k: nat :: k + 1 < |s.callStack| ==> t.callStack[k] == s.callStack[k])
    && (|s.callStack| > 0 ==>
          var u := Top(s).node;
          && g.Node(u) && Top(s).succIndex < |g.succ[u]| && v == g.succ[u][Top(s).succIndex]
          && t.callStack[|s.callStack| - 1].succIndex == Top(s).succIndex + 1)
  }

  lemma EnterStep(g: Digraph, s: Search, v: nat)
    requires Sized(s, |g.succ|) && |g.succ| <= MAX_NODES && Counted(s) && HeldVisited(s) && Enterable(g, s, v)
    ensures Sized(Enter(s, v), |g.succ|)
    ensures s.nextIndex < |g.succ|
    ensures Entered(g, s, Enter(s, v), v)
  {
    RoomLeft(g, s, v);
  }

  /** A numbered search with an unvisited node has not used up the numbers. */
  lemma RoomLeft(g: Digraph, s: Search, v: nat)
    requires Sized(s, |g.succ|) && Counted(s) && g.Node(v) && !s.Visited(v)
    ensures s.nextIndex < |g.succ|
  {
    NodeCount(|g.succ|);
    assert VisitedSet(s) + {v} <= Below(|g.succ|);
    CardinalityLe(VisitedSet(s) + {v}, Below(|g.succ|));
  }

  ghost function Below(n: nat): set<nat> {
    if n == 0 then {} else Below(n - 1) + {n - 1}
  }

  lemma {:induction false} NodeCount(n: nat)
    ensures |Below(n)| == n
    ensures forall u: nat :: u in Below(n) <==> u < n
  {
    if n > 0 {
      NodeCount(n - 1);
    }
  }

  lemma {:induction false} CardinalityLe(a: set<nat>, b: set<nat>)
    requires a <= b
    ensures |a| <= |b|
  {
    if a != {} {
      var x :| x in a;
      CardinalityLe(a - {x}, b - {x});
    }
  }

  lemma EnterNumbers(g: Digraph, s: Search, t: Search, v: nat)
    requires Entered(g, s, t, v) && NumbersOk(s)
    requires |s.indexOf| == |t.indexOf| == |g.succ|
    ensures NumbersOk(t)
  {
    assert VisitedSet(t) == VisitedSet(s) + {v};
  }

  lemma EnterStacked(g: Digraph, s: Search, t: Search, v: nat)
    requires Entered(g, s, t, v) && Numbered(s) && StackOk(s)
    ensures StackOk(t)
  {
    forall p: nat, q: nat | p < q < |t.componentStack|
      ensures Num(t, t.componentStack[p]) < Num(t, t.componentStack[q])
    {
      assert s.componentStack[p] in s.componentStack;
    }
  }

  lemma EnterFramesHeld(g: Digraph, s: Search, t: Search, v: nat)
    requires Entered(g, s, t, v) && FramesHeld(g, s)
    ensures FramesHeld(g, t)
  {
  }

  lemma EnterFramesRise(g: Digraph, s: Search, t: Search, v: nat)
    requires Entered(g, s, t, v) && Numbered(s) && HeldVisited(s) && FramesHeld(g, s) && FramesRise(s)
    ensures FramesRise(t)
  {
  }

  lemma EnterFramesLowest(g: Digraph, s: Search, t: Search, v: nat)
    requires Entered(g, s, t, v) && Numbered(s) && HeldVisited(s) && FramesHeld(g, s) && FramesLowest(s)
    ensures FramesLowest(t)
  {
  }

  lemma EnterDown(g: Digraph, s: Search, t: Search, v: nat, k: nat, u: nat)
    requires Entered(g, s, t, v) && Numbered(s) && HeldVisited(s) && FramesHeld(g, s) && FramesRise(s)
    requires ReachesDown(g, s)
    requires k < |t.callStack| && t.Held(u) && Num(t, FrameNode(t, k)) <= Num(t, u)
    ensures Reaches(g, FrameNode(t, k), u)
  {
    hide Reaches;
    var top := |s.callStack| - 1;
    if k == top + 1 {
      ReachesSelf(g, v);
    } else if u == v {
      assert k == top || Num(s, FrameNode(s, k)) < Num(s, FrameNode(s, top));
      assert Reaches(g, FrameNode(s, k), FrameNode(s, top));
      ReachesEdge(g, FrameNode(s, top), v);
      ReachesTrans(g, FrameNode(s, k), FrameNode(s, top), v);
    }
  }

  lemma EnterUp(g: Digraph, s: Search, t: Search, v: nat, k: nat, u: nat)
    requires Entered(g, s, t, v) && Numbered(s) && HeldVisited(s) && FramesHeld(g, s) && ReachesUp(g, s)
    requires Owns(t, k, u)
    ensures Reaches(g, u, FrameNode(t, k))
  {
    hide Reaches;
    if k == |s.callStack| {
      ReachesSelf(g, v);
    } else {
      assert Owns(s, k, u);
    }
  }

  lemma EnterLowReal(g: Digraph, s: Search, t: Search, v: nat)
    requires Entered(g, s, t, v) && FramesHeld(g, s) && LowReal(g, s)
    ensures LowReal(g, t)
  {
    hide Reaches;
    forall k: nat | k < |t.callStack|
      ensures Low(t, FrameNode(t, k)) <= Num(t, FrameNode(t, k))
      ensures exists x: nat :: LowWitness(g, t, FrameNode(t, k), Low(t, FrameNode(t, k)), x)
    {
      if k == |s.callStack| {
        ReachesSelf(g, v);
        assert LowWitness(g, t, v, Low(t, v), v);
      } else {
        var x: nat :| LowWitness(g, s, FrameNode(s, k), Low(s, FrameNode(s, k)), x);
        assert LowWitness(g, t, FrameNode(t, k), Low(t, FrameNode(t, k)), x);
      }
    }
  }

  lemma EnterLowBound(g: Digraph, s: Search, t: Search, v: nat, k: nat, u: nat, i: nat)
    requires Entered(g, s, t, v) && Numbered(s) && HeldVisited(s) && FramesHeld(g, s)
    requires LowReal(g, s) && LowBounds(g, s)
    requires Scanned(g, t, k, u, i)
    ensures Covered(t, FrameNode(t, k), g.succ[u][i])
  {
    hide Reaches, LowWitness;
    if k < |s.callStack| {
      assert Owns(s, k, u);
      if u == FrameNode(s, k) && i >= s.callStack[k].succIndex {
        assert k == |s.callStack| - 1 && g.succ[u][i] == v;
        assert Low(s, u) <= Num(s, u) < s.nextIndex;
      } else {
        assert Scanned(g, s, k, u, i);
        assert Covered(s, FrameNode(s, k), g.succ[u][i]);
      }
    }
  }

  lemma EnterEmitted(g: Digraph, s: Search, t: Search, v: nat)
    requires Entered(g, s, t, v) && EmittedClosed(g, s) && Components(g, s)
    ensures EmittedClosed(g, t) && Components(g, t)
  {
    assert forall u: nat :: t.Emitted(u) <==> s.Emitted(u);
  }

  lemma EnterLinks(g: Digraph, s: Search, t: Search, v: nat)
    requires Entered(g, s, t, v) && NumbersOk(s) && StackOk(s) && FramesOk(g, s) && LinksOk(g, s)
    ensures LinksOk(g, t)
  {
    hide Entered, Counted, Numbered, Distinct, HeldVisited, HeldStacked, StackRises;
    hide FramesHeld, FramesRise, FramesLowest, LowReal, Covered, Reaches, Owns;
    forall k: nat, u: nat | k < |t.callStack| && t.Held(u) && Num(t, FrameNode(t, k)) <= Num(t, u)
      ensures Reaches(g, FrameNode(t, k), u)
    {
      EnterDown(g, s, t, v, k, u);
    }
    forall k: nat, u: nat | Owns(t, k, u)
      ensures Reaches(g, u, FrameNode(t, k))
    {
      EnterUp(g, s, t, v, k, u);
    }
    EnterLowReal(g, s, t, v);
    forall k: nat, u: nat, i: nat | Scanned(g, t, k, u, i)
      ensures Covered(t, FrameNode(t, k), g.succ[u][i])
    {
      EnterLowBound(g, s, t, v, k, u, i);
    }
  }

  lemma EnterKeeps(g: Digraph, s: Search, v: nat)
    requires Inv(g, s) && Enterable(g, s, v)
    ensures Inv(g, Enter(s, v))
  {
    hide Counted, Numbered, Distinct, HeldVisited, HeldStacked, StackRises;
    hide FramesHeld, FramesRise, FramesLowest, LinksOk, EmittedClosed, Components;
    EnterStep(g, s, v);
    var t := Enter(s, v);
    EnterAll(g, s, t, v);
  }

  lemma EnterAll(g: Digraph, s: Search, t: Search, v: nat)
    requires Inv(g, s) && Entered(g, s, t, v) && Sized(t, |g.succ|)
    ensures Inv(g, t)
  {
    hide Entered, Counted, Numbered, Distinct, HeldVisited, HeldStacked, StackRises;
    hide FramesHeld, FramesRise, FramesLowest, LinksOk, EmittedClosed, Components;
    EnterNumbers(g, s, t, v);
    EnterStacked(g, s, t, v);
    EnterFramesHeld(g, s, t, v);
    EnterFramesRise(g, s, t, v);
    EnterFramesLowest(g, s, t, v);
    EnterLinks(g, s, t, v);
    EnterEmitted(g, s, t, v);
  }
}
