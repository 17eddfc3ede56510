/** The iterative strongly-connected-components search, with its explicit call
    stack, and the component list it returns. */
module Tarjan {
  import opened Digraphs
  import opened TarjanSpec
  import opened TarjanEnter
  import opened TarjanScan
  import opened TarjanClose
  import opened SccPartition

  class TarjanState {
    var indexOf: seq<nat>
    var lowlinkOf: seq<nat>
    var onStack: seq<bool>
    var componentStack: seq<nat>
    var callStack: seq<Frame>
    var nextIndex: nat
    var result: seq<seq<nat>>

    ghost function Model(): Search
      reads this
    {
      Search(indexOf, lowlinkOf, onStack, componentStack, callStack, nextIndex, result)
    }

    constructor (n: nat)
      ensures Model() == Start(n)
    {
      indexOf := seq(n, _ => UNVISITED);
      lowlinkOf := seq(n, _ => 0);
      onStack := seq(n, _ => false);
      componentStack := [];
      callStack := [];
      nextIndex := 0;
      result := [];
    }

    method OpenNode(v: nat)
      requires Sized(Model(), |indexOf|) && v < |indexOf|
      modifies this
      ensures Model() == Open(old(Model()), v)
    {
      indexOf := indexOf[v := nextIndex];
      lowlinkOf := lowlinkOf[v := nextIndex];
      nextIndex := nextIndex + 1;
      componentStack := componentStack + [v];
      onStack := onStack[v := true];
    }

    /** Pops the component stack down to and including `v`. */
    method EmitComponent(v: nat) returns (ghost p: nat)
      requires HeldStacked(Model()) && StackRises(Model()) && v in componentStack
      modifies this
      ensures p < |old(componentStack)| && old(componentStack)[p] == v
      ensures Model() == Emit(old(Model()), p)
    {
      hide HeldStacked, StackRises, Reversed, Release;
      p :| p < |componentStack| && componentStack[p] == v;
      var comp := [];
      ghost var s := Model();
      ghost var st := componentStack;
      NothingReleased(onStack, st);
      while true
        invariant p < |componentStack| <= |st| && componentStack == st[..|componentStack|]
        invariant comp == Reversed(st[|componentStack|..])
        invariant onStack == Release(s.onStack, st[|componentStack|..])
        invariant indexOf == s.indexOf && lowlinkOf == s.lowlinkOf
        invariant callStack == s.callStack && nextIndex == s.nextIndex && result == s.result
        decreases |componentStack|
      {
        var w := componentStack[|componentStack| - 1];
        ghost var k := |componentStack| - 1;
        StackedInRange(s, k);
        OneMore(s.onStack, st, k);
        componentStack := componentStack[..|componentStack| - 1];
        onStack := onStack[w := false];
        comp := comp + [w];
        if w == v {
          StackOnce(s, k, p);
          break;
        }
      }
      result := result + [comp];
    }

    method CloseNode(g: Digraph, v: nat)
      requires Inv(g, Model()) && Closable(g, Model()) && v == Top(Model()).node
      modifies this
      ensures Inv(g, Model())
      ensures |callStack| == |old(callStack)| - 1
      ensures indexOf == old(indexOf) && nextIndex == old(nextIndex)
    {
      hide Inv, HeldStacked, StackRises;
      ghost var s := Model();
      ClosingHeld(g, s);
      ghost var p := 0;
      if lowlinkOf[v] == indexOf[v] {
        p := EmitComponent(v);
        CutKeeps(g, s, p);
      } else {
        MergeKeeps(g, s);
      }
      callStack := callStack[..|callStack| - 1];
      if |callStack| > 0 {
        var parent := callStack[|callStack| - 1].node;
        lowlinkOf := lowlinkOf[parent := Min(lowlinkOf[parent], lowlinkOf[v])];
      }
      assert Model() == if Low(s, v) == Num(s, v) then Cut(s, p) else PopAndLower(s, Low(s, v));
    }

    /** Advances the top frame to its next unvisited successor, pushing a frame for
        it, or past its last successor. */
    method StepIntoSuccessor(g: Digraph) returns (descended: bool, ghost mid: Search)
      requires Inv(g, Model()) && |callStack| > 0
      modifies this
      ensures Inv(g, mid) && |mid.callStack| == |old(callStack)| && Top(mid).node == old(Top(Model()).node)
      ensures mid.indexOf == old(indexOf) && mid.nextIndex == old(nextIndex)
      ensures descended ==> exists w: nat :: Enterable(g, mid, w) && Model() == PushFrame(Advance(mid), w)
      ensures !descended ==> Model() == mid && Closable(g, mid)
    {
      hide Inv, Passable, Enterable;
      var k := |callStack| - 1;
      var u := callStack[k].node;
      FrameInRange(g, Model(), k);
      while callStack[k].succIndex < |g.succ[u]|
        invariant |callStack| == k + 1 == |old(callStack)| && callStack[k].node == u
        invariant Inv(g, Model())
        invariant indexOf == old(indexOf) && nextIndex == old(nextIndex)
        decreases |g.succ[u]| - callStack[k].succIndex
      {
        ghost var s := Model();
        mid := s;
        NextInRange(g, s);
        var w := g.succ[u][callStack[k].succIndex];
        callStack := callStack[k := callStack[k].(succIndex := callStack[k].succIndex + 1)];
        if indexOf[w] == UNVISITED {
          callStack := callStack + [Frame(w, 0)];
          assert Enterable(g, mid, w) && Model() == PushFrame(Advance(mid), w);
          return true, mid;
        }
        if onStack[w] {
          lowlinkOf := lowlinkOf[u := Min(lowlinkOf[u], indexOf[w])];
        }
        assert Model() == Pass(s, w);
        PassKeeps(g, s, w);
      }
      mid := Model();
      FrameInRange(g, mid, k);
      return false, mid;
    }

    method RunTarjanFrom(g: Digraph, root: nat)
      requires Inv(g, Model()) && callStack == [] && g.Node(root) && !Model().Visited(root)
      modifies this
      ensures Inv(g, Model()) && callStack == []
      ensures Model().Visited(root)
      ensures forall v: nat :: old(Model().Visited(v)) ==> Model().Visited(v)
    {
      hide Inv;
      ghost var s0 := Model();
      RootInRange(g, s0, root);
      callStack := callStack + [Frame(root, 0)];
      OpenNode(root);
      assert Model() == Enter(s0, root);
      EnterKeeps(g, s0, root);
      EnterVisits(g, s0, root);
      CountBound(g, Model());
      while callStack != []
        invariant Inv(g, Model())
        invariant Model().Visited(root)
        invariant forall v: nat :: s0.Visited(v) ==> Model().Visited(v)
        invariant nextIndex <= |g.succ|
        decreases |g.succ| - nextIndex, |callStack|
      {
        var v := callStack[|callStack| - 1].node;
        ghost var before := Model();
        var descended, mid := StepIntoSuccessor(g);
        assert forall v: nat :: before.Visited(v) <==> mid.Visited(v);
        if descended {
          ghost var w: nat :| Enterable(g, mid, w) && Model() == PushFrame(Advance(mid), w);
          assert callStack[|callStack| - 1].node == w;
          EnterVisits(g, mid, w);
          OpenNode(callStack[|callStack| - 1].node);
          assert Model() == Enter(mid, w);
          EnterKeeps(g, mid, w);
          CountBound(g, Model());
        } else {
          CloseNode(g, v);
        }
      }
    }
  }

  lemma NothingReleased(held: seq<bool>, st: seq<nat>)
    ensures Release(held, st[|st|..]) == held
    ensures Reversed(st[|st|..]) == []
  {
  }

  lemma StackedInRange(s: Search, k: nat)
    requires HeldStacked(s) && k < |s.componentStack|
    ensures s.componentStack[k] < |s.onStack|
  {
    assert s.Held(s.componentStack[k]);
  }

  lemma OneMore(held: seq<bool>, st: seq<nat>, k: nat)
    requires k < |st| && st[k] < |held|
    ensures |Release(held, st[k + 1..])| == |held|
    ensures Release(held, st[k..]) == Release(held, st[k + 1..])[st[k] := false]
    ensures Reversed(st[k..]) == Reversed(st[k + 1..]) + [st[k]]
  {
    assert st[k..] == [st[k]] + st[k + 1..];
  }

  lemma StackOnce(s: Search, i: nat, j: nat)
    requires StackRises(s) && i < |s.componentStack| && j < |s.componentStack|
    requires s.componentStack[i] == s.componentStack[j]
    ensures i == j
  {
  }

  lemma ClosingHeld(g: Digraph, s: Search)
    requires Inv(g, s) && |s.callStack| > 0
    ensures g.Node(Top(s).node) && Sized(s, |g.succ|) && Top(s).node in s.componentStack
    ensures HeldStacked(s) && StackRises(s)
    ensures |s.callStack| > 1 ==> g.Node(FrameNode(s, |s.callStack| - 2))
    ensures Low(s, Top(s).node) == s.lowlinkOf[Top(s).node] && Num(s, Top(s).node) == s.indexOf[Top(s).node]
  {
    hide LinksOk, Components, EmittedClosed, NumbersOk;
    FrameInRange(g, s, |s.callStack| - 1);
    assert s.Held(FrameNode(s, |s.callStack| - 1));
    if |s.callStack| > 1 {
      FrameInRange(g, s, |s.callStack| - 2);
    }
  }

  lemma FrameInRange(g: Digraph, s: Search, k: nat)
    requires Inv(g, s) && k < |s.callStack|
    ensures g.Node(FrameNode(s, k)) && Sized(s, |g.succ|) && s.callStack[k].succIndex <= |g.succ[FrameNode(s, k)]|
  {
    hide LinksOk, Components, EmittedClosed, NumbersOk, StackOk;
  }

  lemma RootInRange(g: Digraph, s: Search, root: nat)
    requires Inv(g, s) && s.callStack == [] && g.Node(root) && !s.Visited(root)
    ensures Sized(s, |g.succ|) && Enterable(g, s, root)
  {
    hide LinksOk, Components, EmittedClosed, NumbersOk, StackOk, FramesOk;
  }

  lemma NextInRange(g: Digraph, s: Search)
    requires Inv(g, s) && |s.callStack| > 0 && g.Node(Top(s).node)
    requires Top(s).succIndex < |g.succ[Top(s).node]|
    ensures Sized(s, |g.succ|)
    ensures var w := g.succ[Top(s).node][Top(s).succIndex];
      g.Node(w) && (s.Visited(w) ==> Passable(g, s, w)) && (!s.Visited(w) ==> Enterable(g, s, w))
  {
    hide LinksOk, Components, EmittedClosed, NumbersOk, StackOk, FramesOk;
  }

  lemma EnterVisits(g: Digraph, s: Search, v: nat)
    requires Inv(g, s) && Enterable(g, s, v)
    ensures Sized(s, |g.succ|) && g.Node(v)
    ensures Enter(s, v).Visited(v)
    ensures forall u: nat :: s.Visited(u) ==> Enter(s, v).Visited(u)
    ensures Enter(s, v).nextIndex == s.nextIndex + 1
  {
    hide LinksOk, Components, EmittedClosed, FramesOk;
    EnterStep(g, s, v);
  }

  lemma CountBound(g: Digraph, s: Search)
    requires Inv(g, s)
    ensures s.nextIndex <= |g.succ|
  {
    hide LinksOk, Components, EmittedClosed, FramesOk, StackOk;
    NodeCount(|g.succ|);
    CardinalityLe(VisitedSet(s), Below(|g.succ|));
  }

  lemma StartInv(g: Digraph)
    requires g.Valid()
    ensures Inv(g, Start(|g.succ|))
  {
    var s := Start(|g.succ|);
    assert VisitedSet(s) == {};
  }

  /** When every node is visited and no frame is left, the components are a partition. */
  lemma FinishedPartition(g: Digraph, s: Search)
    requires Inv(g, s) && s.callStack == []
    requires forall v: nat :: g.Node(v) ==> s.Visited(v)
    ensures IsPartition(g, s.result)
  {
    hide LinksOk, EmittedClosed, NumbersOk, StackOk, IsScc;
    forall v: nat | g.Node(v)
      ensures exists c: nat :: c < |s.result| && v in s.result[c]
    {
      assert s.Emitted(v);
    }
  }

  /** The components of every valid graph: the classes of mutual reachability, each
      sorted, ordered by least member. */
  method ComputeScc(g: Digraph) returns (comps: seq<seq<nat>>)
    requires g.Valid()
    ensures IsSccList(g, comps)
  {
    hide LinksOk, EmittedClosed, NumbersOk, StackOk, Components, IsScc, IsPartition, Canonical, SortComps;
    var n := |g.succ|;
    var st := new TarjanState(n);
    StartInv(g);
    var i := 0;
    while i < n
      invariant i <= n && Inv(g, st.Model()) && st.callStack == []
      invariant forall v: nat :: v < i ==> st.Model().Visited(v)
    {
      assert |st.indexOf| == n;
      if st.indexOf[i] == UNVISITED {
        st.RunTarjanFrom(g, i);
      }
      i := i + 1;
    }
    FinishedPartition(g, st.Model());
    SortedPartition(g, st.result);
    comps := SortComps(st.result);
  }
}
