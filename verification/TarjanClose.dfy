/** Closing the top frame keeps the search invariant, whether its segment of the
    component stack goes to the parent frame or is emitted as a component. */
module TarjanClose {
  import opened Digraphs
  import opened TarjanSpec

  /** The top frame has looked at all its successors. */
  ghost predicate Closable(g: Digraph, s: Search) {
    && |s.callStack| > 0
    && g.Node(Top(s).node)
    && Top(s).succIndex == |g.succ[Top(s).node]|
  }

  function PopAndLower(s: Search, low: nat): Search
    requires |s.callStack| > 0 && (|s.callStack| > 1 ==> FrameNode(s, |s.callStack| - 2) < |s.lowlinkOf|)
  {
    if |s.callStack| > 1 then LowerTo(PopFrame(s), FrameNode(s, |s.callStack| - 2), low) else PopFrame(s)
  }

  ghost predicate SameFrames(s: Search, t: Search) {
    && |t.callStack| == |s.callStack| - 1
    && (forall k: nat :: k < |t.callStack| ==> t.callStack[k] == s.callStack[k])
    && (forall k: nat :: k < |t.callStack| ==> FrameNode(t, k) == FrameNode(s, k))
  }

  /** Every held node has an owner. */
  lemma {:induction false} OwnerExists(g: Digraph, s: Search, u: nat, k: nat) returns (o: nat)
    requires k < |s.callStack| && s.Held(u) && Num(s, FrameNode(s, 0)) <= Num(s, u)
    requires k + 1 < |s.callStack| ==> Num(s, u) < Num(s, FrameNode(s, k + 1))
    ensures Owns(s, o, u) && o <= k
  {
    if Num(s, FrameNode(s, k)) <= Num(s, u) {
      o := k;
    } else {
      o := OwnerExists(g, s, u, k - 1);
    }
  }

  // ------------------------------------------------ the segment goes to the parent

  ghost predicate Merged(g: Digraph, s: Search, t: Search) {
    && Closable(g, s) && |s.callStack| >= 2
    && SameFrames(s, t)
    && SameNumbers(s, t) && SameHeld(s, t)
    && Low(s, Top(s).node) < Num(s, Top(s).node)
    && (forall x: nat :: x != Top(t).node ==> Low(t, x) == Low(s, x))
    && Low(t, Top(t).node) == Min(Low(s, Top(t).node), Low(s, Top(s).node))
  }

  /** A frame whose low link lies below its own number has a parent frame. */
  lemma MergeHasParent(g: Digraph, s: Search)
    requires FramesOk(g, s) && LowReal(g, s) && |s.callStack| > 0
    requires Low(s, Top(s).node) != Num(s, Top(s).node)
    ensures |s.callStack| >= 2 && Low(s, Top(s).node) < Num(s, Top(s).node)
  {
    hide Reaches;
    var k := |s.callStack| - 1;
    assert Top(s).node == FrameNode(s, k);
    var x: nat :| LowWitness(g, s, FrameNode(s, k), Low(s, FrameNode(s, k)), x);
  }

  lemma MergeStep(g: Digraph, s: Search)
    requires Sized(s, |g.succ|) && Closable(g, s) && FramesOk(g, s) && LowReal(g, s)
    requires Low(s, Top(s).node) != Num(s, Top(s).node)
    ensures |s.callStack| >= 2 && FrameNode(s, |s.callStack| - 2) < |s.lowlinkOf|
    ensures Sized(PopAndLower(s, Low(s, Top(s).node)), |g.succ|)
    ensures Merged(g, s, PopAndLower(s, Low(s, Top(s).node)))
  {
    MergeHasParent(g, s);
    assert g.Node(FrameNode(s, |s.callStack| - 2));
  }

  lemma MergeFrames(g: Digraph, s: Search, t: Search)
    requires Merged(g, s, t) && FramesOk(g, s)
    ensures FramesOk(g, t)
  {
    assert FramesHeld(g, t) by {
      forall k: nat | k < |t.callStack|
        ensures t.Held(FrameNode(t, k)) && g.Node(FrameNode(t, k))
        ensures t.callStack[k].succIndex <= |g.succ[FrameNode(t, k)]|
      {
        assert s.Held(FrameNode(s, k));
      }
    }
    assert FramesRise(t);
    assert FramesLowest(t);
  }

  lemma MergeDown(g: Digraph, s: Search, t: Search)
    requires Merged(g, s, t) && ReachesDown(g, s)
    ensures ReachesDown(g, t)
  {
    hide Reaches;
  }

  /** The closing node reaches its parent frame, through the node its low link names. */
  lemma MergeBack(g: Digraph, s: Search, t: Search)
    requires Merged(g, s, t) && FramesOk(g, s) && ReachesDown(g, s) && ReachesUp(g, s) && LowReal(g, s)
    ensures Reaches(g, Top(s).node, Top(t).node)
  {
    hide Reaches, ReachesDown, ReachesUp, FramesHeld;
    var m := |s.callStack| - 1;
    var x: nat :| LowWitness(g, s, FrameNode(s, m), Low(s, FrameNode(s, m)), x);
    var o := OwnerExists(g, s, x, m);
    assert o != m;
    OwnerChain(g, s, o, m - 1, x);
    ReachesTrans(g, FrameNode(s, m), x, FrameNode(s, m - 1));
  }

  /** What a frame owns reaches the nodes of the frames above it. */
  lemma OwnerChain(g: Digraph, s: Search, o: nat, k: nat, x: nat)
    requires FramesHeld(g, s) && FramesRise(s) && ReachesDown(g, s) && ReachesUp(g, s)
    requires Owns(s, o, x) && o <= k < |s.callStack|
    ensures Reaches(g, x, FrameNode(s, k))
  {
    hide Reaches;
    assert o == k || Num(s, FrameNode(s, o)) < Num(s, FrameNode(s, k));
    assert s.Held(FrameNode(s, k));
    ReachesTrans(g, x, FrameNode(s, o), FrameNode(s, k));
  }

  lemma MergeUp(g: Digraph, s: Search, t: Search, k: nat, u: nat)
    requires Merged(g, s, t) && FramesOk(g, s) && ReachesDown(g, s) && ReachesUp(g, s) && LowReal(g, s)
    requires Owns(t, k, u)
    ensures Reaches(g, u, FrameNode(t, k))
  {
    hide Reaches, LowReal, ReachesDown, FramesOk;
    if !Owns(s, k, u) {
      var m := |s.callStack| - 1;
      assert k == m - 1 && Owns(s, m, u);
      MergeBack(g, s, t);
      ReachesTrans(g, u, FrameNode(s, m), FrameNode(s, m - 1));
    }
  }

  lemma MergeLowReal(g: Digraph, s: Search, t: Search)
    requires Merged(g, s, t) && FramesOk(g, s) && ReachesDown(g, s) && LowReal(g, s)
    ensures LowReal(g, t)
  {
    hide Reaches, Merged, FramesOk, ReachesDown, LowReal, LowRealAt, Low, Num;
    forall k: nat | k < |t.callStack|
      ensures LowRealAt(g, t, k)
    {
      MergeLowRealAt(g, s, t, k);
    }
    LowRealFrom(g, t);
  }

  ghost predicate LowRealAt(g: Digraph, s: Search, k: nat)
    requires k < |s.callStack|
  {
    && Low(s, FrameNode(s, k)) <= Num(s, FrameNode(s, k))
    && exists x: nat :: LowWitness(g, s, FrameNode(s, k), Low(s, FrameNode(s, k)), x)
  }

  lemma LowRealFrom(g: Digraph, t: Search)
    requires forall k: nat :: k < |t.callStack| ==> LowRealAt(g, t, k)
    ensures LowReal(g, t)
  {
    hide Reaches, Low, Num, LowWitness, FrameNode;
    forall k: nat | k < |t.callStack|
      ensures Low(t, FrameNode(t, k)) <= Num(t, FrameNode(t, k))
      ensures exists x: nat :: LowWitness(g, t, FrameNode(t, k), Low(t, FrameNode(t, k)), x)
    {
      assert LowRealAt(g, t, k);
    }
  }

  lemma MergeLowRealAt(g: Digraph, s: Search, t: Search, k: nat)
    requires Merged(g, s, t) && FramesOk(g, s) && ReachesDown(g, s) && LowReal(g, s) && k < |t.callStack|
    ensures LowRealAt(g, t, k)
  {
    hide Reaches;
    var m := |s.callStack| - 1;
    var x: nat :| LowWitness(g, s, FrameNode(s, k), Low(s, FrameNode(s, k)), x);
    if Low(t, FrameNode(t, k)) == Low(s, FrameNode(s, k)) {
      assert LowWitness(g, t, FrameNode(t, k), Low(t, FrameNode(t, k)), x);
    } else {
      assert FrameNode(t, k) == FrameNode(s, m - 1);
      var y: nat :| LowWitness(g, s, FrameNode(s, m), Low(s, FrameNode(s, m)), y);
      assert Num(s, FrameNode(s, m - 1)) < Num(s, FrameNode(s, m));
      assert Reaches(g, FrameNode(s, m - 1), FrameNode(s, m));
      ReachesTrans(g, FrameNode(s, m - 1), FrameNode(s, m), y);
      assert LowWitness(g, t, FrameNode(t, k), Low(t, FrameNode(t, k)), y);
    }
  }

  lemma MergeLowBound(g: Digraph, s: Search, t: Search, k: nat, u: nat, i: nat)
    requires Merged(g, s, t) && FramesRise(s) && LowBounds(g, s)
    requires Scanned(g, t, k, u, i)
    ensures Covered(t, FrameNode(t, k), g.succ[u][i])
  {
    var m := |s.callStack| - 1;
    if Owns(s, k, u) {
      assert Scanned(g, s, k, u, i);
      assert Covered(s, FrameNode(s, k), g.succ[u][i]);
    } else {
      assert k == m - 1 && Scanned(g, s, m, u, i);
      assert Covered(s, FrameNode(s, m), g.succ[u][i]);
    }
  }

  lemma MergeLinks(g: Digraph, s: Search, t: Search)
    requires Merged(g, s, t) && FramesOk(g, s) && LinksOk(g, s)
    ensures LinksOk(g, t)
  {
    hide Merged, FramesHeld, FramesRise, FramesLowest, LowReal, ReachesDown, Covered, Reaches, Owns;
    MergeDown(g, s, t);
    forall k: nat, u: nat | Owns(t, k, u)
      ensures Reaches(g, u, FrameNode(t, k))
    {
      MergeUp(g, s, t, k, u);
    }
    MergeLowReal(g, s, t);
    forall k: nat, u: nat, i: nat | Scanned(g, t, k, u, i)
      ensures Covered(t, FrameNode(t, k), g.succ[u][i])
    {
      MergeLowBound(g, s, t, k, u, i);
    }
  }

  lemma MergeRest(g: Digraph, s: Search, t: Search)
    requires Merged(g, s, t) && NumbersOk(s) && StackOk(s) && EmittedClosed(g, s) && Components(g, s)
    ensures NumbersOk(t) && StackOk(t) && EmittedClosed(g, t) && Components(g, t)
  {
    assert forall v: nat :: t.Emitted(v) <==> s.Emitted(v);
    assert VisitedSet(t) == VisitedSet(s);
  }

  lemma MergeKeeps(g: Digraph, s: Search)
    requires Inv(g, s) && Closable(g, s) && Low(s, Top(s).node) != Num(s, Top(s).node)
    ensures |s.callStack| >= 2 && FrameNode(s, |s.callStack| - 2) < |s.lowlinkOf|
    ensures Inv(g, PopAndLower(s, Low(s, Top(s).node)))
  {
    hide NumbersOk, StackOk, FramesOk, ReachesDown, ReachesUp, LowReal, LowBounds, EmittedClosed, Components, Merged;
    MergeStep(g, s);
    var t := PopAndLower(s, Low(s, Top(s).node));
    MergeFrames(g, s, t);
    MergeLinks(g, s, t);
    MergeRest(g, s, t);
  }

  // -------------------------------------------------------- the segment is emitted

  /** What `t` has become after the segment from `v` up left `s` as component `c`. */
  ghost predicate Split(g: Digraph, s: Search, t: Search, v: nat, c: seq<nat>) {
    && Closable(g, s) && v == Top(s).node && Low(s, v) == Num(s, v)
    && SameFrames(s, t)
    && SameNumbers(s, t)
    && t.result == s.result + [c]
    && |c| > 0
    && (forall u: nat :: u in c <==> s.Held(u) && Num(s, v) <= Num(s, u))
    && (forall i: nat, j: nat :: i < j < |c| ==> c[i] != c[j])
    && (forall u: nat :: t.Held(u) <==> s.Held(u) && Num(s, u) < Num(s, v))
    && (forall k: nat :: k < |t.callStack| ==> Low(t, FrameNode(t, k)) == Low(s, FrameNode(s, k)))
    && |t.componentStack| <= |s.componentStack|
    && t.componentStack == s.componentStack[..|t.componentStack|]
    && (forall u: nat :: u in t.componentStack <==> t.Held(u))
  }

  function Cut(s: Search, p: nat): Search
    requires |s.callStack| > 0 && (|s.callStack| > 1 ==> FrameNode(s, |s.callStack| - 2) < |s.lowlinkOf|)
    requires p <= |s.componentStack|
  {
    PopAndLower(Emit(s, p), Low(s, Top(s).node))
  }

  lemma InReversed(st: seq<nat>, p: nat, u: nat)
    requires p <= |st|
    ensures u in Reversed(st[p..]) <==> exists i: nat :: p <= i < |st| && st[i] == u
    ensures u in st[..p] <==> exists i: nat :: i < p && st[i] == u
  {
    var c := Reversed(st[p..]);
    if u in c {
      var i :| 0 <= i < |c| && c[i] == u;
      assert u == st[|st| - 1 - i];
    }
    if i: nat :| p <= i < |st| && st[i] == u {
      assert c[|st| - 1 - i] == u;
    }
    if i: nat :| i < p && st[i] == u {
      assert st[..p][i] == u;
    }
  }

  lemma CutMember(s: Search, p: nat, u: nat)
    requires HeldStacked(s) && StackRises(s) && p < |s.componentStack|
    ensures u in Reversed(s.componentStack[p..]) <==> s.Held(u) && Num(s, s.componentStack[p]) <= Num(s, u)
    ensures u in s.componentStack[..p] <==> s.Held(u) && Num(s, u) < Num(s, s.componentStack[p])
  {
    hide Num, Reversed;
    var st := s.componentStack;
    InReversed(st, p, u);
    if s.Held(u) {
      var i: nat :| i < |st| && st[i] == u;
      assert i < p ==> Num(s, st[i]) < Num(s, st[p]);
      assert p < i ==> Num(s, st[p]) < Num(s, st[i]);
    }
  }

  lemma CutMembers(s: Search, p: nat)
    requires HeldStacked(s) && StackRises(s) && p < |s.componentStack|
    ensures var v := s.componentStack[p]; var c := Reversed(s.componentStack[p..]);
      && (forall u: nat :: u in c <==> s.Held(u) && Num(s, v) <= Num(s, u))
      && (forall i: nat, j: nat :: i < j < |c| ==> c[i] != c[j])
    ensures forall u: nat :: u in s.componentStack[..p] <==> s.Held(u) && Num(s, u) < Num(s, s.componentStack[p])
  {
    var st := s.componentStack;
    var c := Reversed(st[p..]);
    forall u: nat
      ensures u in c <==> s.Held(u) && Num(s, st[p]) <= Num(s, u)
      ensures u in st[..p] <==> s.Held(u) && Num(s, u) < Num(s, st[p])
    {
      CutMember(s, p, u);
    }
    forall i: nat, j: nat | i < j < |c|
      ensures c[i] != c[j]
    {
      assert Num(s, st[|st| - 1 - j]) < Num(s, st[|st| - 1 - i]);
    }
  }

  lemma CutStep(g: Digraph, s: Search, p: nat)
    requires Sized(s, |g.succ|) && Closable(g, s) && StackOk(s) && FramesOk(g, s) && LowReal(g, s)
    requires Low(s, Top(s).node) == Num(s, Top(s).node)
    requires p < |s.componentStack| && s.componentStack[p] == Top(s).node
    ensures |s.callStack| > 1 ==> FrameNode(s, |s.callStack| - 2) < |s.lowlinkOf|
    ensures Sized(Cut(s, p), |g.succ|)
    ensures Split(g, s, Cut(s, p), Top(s).node, Reversed(s.componentStack[p..]))
  {
    hide LowReal, HeldVisited, HeldStacked, StackRises, FramesLowest, Reaches;
    assert |s.callStack| > 1 ==> g.Node(FrameNode(s, |s.callStack| - 2));
    CutMembers(s, p);
    var t := Cut(s, p);
    CutHeld(s, p);
    CutLows(g, s, p);
  }

  lemma CutHeld(s: Search, p: nat)
    requires HeldStacked(s) && StackRises(s)
    requires p < |s.componentStack|
    ensures forall u: nat :: Emit(s, p).Held(u) <==> s.Held(u) && Num(s, u) < Num(s, s.componentStack[p])
  {
    CutMembers(s, p);
    var t := Emit(s, p);
    forall u: nat
      ensures t.Held(u) <==> s.Held(u) && Num(s, u) < Num(s, s.componentStack[p])
    {
      var seg := s.componentStack[p..];
      assert u in seg <==> u in Reversed(seg) by {
        if u in seg {
          var i :| 0 <= i < |seg| && seg[i] == u;
          assert Reversed(seg)[|seg| - 1 - i] == u;
        }
      }
    }
  }

  lemma CutLows(g: Digraph, s: Search, p: nat)
    requires Sized(s, |g.succ|) && Closable(g, s) && FramesOk(g, s) && LowReal(g, s)
    requires Low(s, Top(s).node) == Num(s, Top(s).node)
    requires p <= |s.componentStack|
    requires |s.callStack| > 1 ==> FrameNode(s, |s.callStack| - 2) < |s.lowlinkOf|
    ensures forall k: nat :: k < |s.callStack| - 1 ==>
      Low(Cut(s, p), FrameNode(Cut(s, p), k)) == Low(s, FrameNode(s, k))
  {
    hide LowWitness;
    var m := |s.callStack| - 1;
    if m > 0 {
      assert Low(s, FrameNode(s, m - 1)) <= Num(s, FrameNode(s, m - 1)) < Num(s, FrameNode(s, m));
    }
  }

  lemma SplitFrames(g: Digraph, s: Search, t: Search, v: nat, c: seq<nat>)
    requires Split(g, s, t, v, c) && FramesOk(g, s)
    ensures FramesHeld(g, t) && FramesRise(t)
  {
    var m := |s.callStack| - 1;
    assert v == FrameNode(s, m);
    forall k: nat | k < |t.callStack|
      ensures t.Held(FrameNode(t, k)) && g.Node(FrameNode(t, k))
      ensures t.callStack[k].succIndex <= |g.succ[FrameNode(t, k)]|
    {
      assert s.Held(FrameNode(s, k));
      assert Num(s, FrameNode(s, k)) < Num(s, FrameNode(s, m));
    }
  }

  lemma SplitLowest(g: Digraph, s: Search, t: Search, v: nat, c: seq<nat>)
    requires Split(g, s, t, v, c) && FramesLowest(s)
    ensures FramesLowest(t)
  {
    var m := |s.callStack| - 1;
    assert v == FrameNode(s, m);
  }

  lemma SplitOwns(g: Digraph, s: Search, t: Search, v: nat, c: seq<nat>, k: nat, u: nat)
    requires Split(g, s, t, v, c) && Owns(t, k, u)
    ensures Owns(s, k, u)
  {
    var m := |s.callStack| - 1;
    assert v == FrameNode(s, m);
  }

  lemma SplitReaches(g: Digraph, s: Search, t: Search, v: nat, c: seq<nat>)
    requires Split(g, s, t, v, c) && ReachesDown(g, s) && ReachesUp(g, s)
    ensures ReachesDown(g, t) && ReachesUp(g, t)
  {
    hide Reaches;
    forall k: nat, u: nat | Owns(t, k, u)
      ensures Reaches(g, u, FrameNode(t, k))
    {
      SplitOwns(g, s, t, v, c, k, u);
    }
  }

  lemma SplitLowReal(g: Digraph, s: Search, t: Search, v: nat, c: seq<nat>)
    requires Split(g, s, t, v, c) && FramesRise(s) && LowReal(g, s)
    ensures LowReal(g, t)
  {
    hide Reaches;
    var m := |s.callStack| - 1;
    forall k: nat | k < |t.callStack|
      ensures Low(t, FrameNode(t, k)) <= Num(t, FrameNode(t, k))
      ensures exists x: nat :: LowWitness(g, t, FrameNode(t, k), Low(t, FrameNode(t, k)), x)
    {
      var x: nat :| LowWitness(g, s, FrameNode(s, k), Low(s, FrameNode(s, k)), x);
      assert Num(s, FrameNode(s, k)) < Num(s, FrameNode(s, m));
      assert LowWitness(g, t, FrameNode(t, k), Low(t, FrameNode(t, k)), x);
    }
  }

  lemma SplitLowBound(g: Digraph, s: Search, t: Search, v: nat, c: seq<nat>, k: nat, u: nat, i: nat)
    requires Split(g, s, t, v, c) && LowBounds(g, s)
    requires Scanned(g, t, k, u, i)
    ensures Covered(t, FrameNode(t, k), g.succ[u][i])
  {
    SplitOwns(g, s, t, v, c, k, u);
    assert Scanned(g, s, k, u, i);
    assert Covered(s, FrameNode(s, k), g.succ[u][i]);
  }

  lemma SplitLinks(g: Digraph, s: Search, t: Search, v: nat, c: seq<nat>)
    requires Split(g, s, t, v, c) && FramesOk(g, s) && LinksOk(g, s)
    ensures LinksOk(g, t)
  {
    hide Split, FramesHeld, FramesRise, FramesLowest, LowReal, ReachesDown, ReachesUp, Covered;
    SplitReaches(g, s, t, v, c);
    SplitLowReal(g, s, t, v, c);
    forall k: nat, u: nat, i: nat | Scanned(g, t, k, u, i)
      ensures Covered(t, FrameNode(t, k), g.succ[u][i])
    {
      SplitLowBound(g, s, t, v, c, k, u, i);
    }
  }

  lemma SplitNumbers(g: Digraph, s: Search, t: Search, v: nat, c: seq<nat>)
    requires Split(g, s, t, v, c) && NumbersOk(s) && StackOk(s)
    ensures NumbersOk(t) && StackOk(t)
  {
    assert VisitedSet(t) == VisitedSet(s);
  }

  /** No edge leaves the emitted nodes together with the new component. */
  lemma SplitClosed(g: Digraph, s: Search, t: Search, v: nat, c: seq<nat>)
    requires g.Valid() && Split(g, s, t, v, c) && LowBounds(g, s) && EmittedClosed(g, s) && HeldVisited(s)
    ensures EmittedClosed(g, t)
  {
    var m := |s.callStack| - 1;
    forall u: nat, w: nat | t.Emitted(u) && g.Edge(u, w)
      ensures t.Emitted(w)
    {
      if s.Held(u) {
        var i: nat :| i < |g.succ[u]| && g.succ[u][i] == w;
        assert Scanned(g, s, m, u, i);
        assert Covered(s, FrameNode(s, m), w);
      } else {
        assert s.Emitted(u);
      }
    }
  }

  /** The new component is a full class of mutual reachability. */
  lemma SplitIsScc(g: Digraph, s: Search, t: Search, v: nat, c: seq<nat>)
    requires g.Valid() && Sized(s, |g.succ|) && Split(g, s, t, v, c) && HeldVisited(s)
    requires ReachesDown(g, s) && ReachesUp(g, s) && EmittedClosed(g, s) && EmittedClosed(g, t)
    ensures IsScc(g, c)
  {
    hide Reaches, EmittedClosed;
    var m := |s.callStack| - 1;
    forall i: nat | i < |c|
      ensures g.Node(c[i])
    {
      assert c[i] in c;
    }
    forall u: nat, w: nat | u in c
      ensures w in c <==> Mutual(g, u, w)
    {
      assert v == FrameNode(s, m);
      if w in c {
        assert Owns(s, m, u) && Owns(s, m, w);
        ReachesTrans(g, u, v, w);
        ReachesTrans(g, w, v, u);
      } else if Mutual(g, u, w) {
        EmittedStays(g, t, u, w);
        assert s.Emitted(w);
        EmittedStays(g, s, w, u);
      }
    }
  }

  lemma EmittedStays(g: Digraph, s: Search, u: nat, w: nat)
    requires EmittedClosed(g, s) && s.Emitted(u) && Reaches(g, u, w)
    ensures s.Emitted(w)
  {
    hide Reaches;
    var e := iset x: nat | s.Emitted(x);
    ReachesStaysInClosed(g, e, u, w);
  }

  lemma SplitComponents(g: Digraph, s: Search, t: Search, v: nat, c: seq<nat>)
    requires Split(g, s, t, v, c) && HeldVisited(s) && Components(g, s) && IsScc(g, c)
    ensures Components(g, t)
  {
    hide IsScc;
    var r := |s.result|;
    assert t.result[r] == c;
    assert forall u: nat :: t.Emitted(u) <==> s.Emitted(u) || u in c;
    forall i: nat, u: nat | i < |t.result| && u in t.result[i]
      ensures t.Emitted(u) && (i < r ==> u !in c)
    {
      if i < r {
        assert t.result[i] == s.result[i];
        assert s.Emitted(u);
      }
    }
    forall u: nat | t.Emitted(u)
      ensures exists i: nat :: i < |t.result| && u in t.result[i]
    {
      if s.Emitted(u) {
        var i: nat :| i < |s.result| && u in s.result[i];
        assert u in t.result[i];
      } else {
        assert u in t.result[r];
      }
    }
  }

  lemma CutKeeps(g: Digraph, s: Search, p: nat)
    requires Inv(g, s) && Closable(g, s) && Low(s, Top(s).node) == Num(s, Top(s).node)
    requires p < |s.componentStack| && s.componentStack[p] == Top(s).node
    ensures |s.callStack| > 1 ==> FrameNode(s, |s.callStack| - 2) < |s.lowlinkOf|
    ensures Inv(g, Cut(s, p))
  {
    hide NumbersOk, HeldStacked, HeldVisited, StackRises, FramesHeld, FramesRise, FramesLowest;
    hide ReachesDown, ReachesUp, LowReal, LowBounds, EmittedClosed, Components, Split, IsScc;
    CutStep(g, s, p);
    var t, v, c := Cut(s, p), Top(s).node, Reversed(s.componentStack[p..]);
    SplitFrames(g, s, t, v, c);
    SplitLowest(g, s, t, v, c);
    SplitLinks(g, s, t, v, c);
    SplitNumbers(g, s, t, v, c);
    SplitClosed(g, s, t, v, c);
    SplitIsScc(g, s, t, v, c);
    SplitComponents(g, s, t, v, c);
  }
}
