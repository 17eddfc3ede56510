/** The working state of the iterative component search, the transitions it
    makes, and the invariant that every transition keeps. */
module TarjanSpec {
  import opened Digraphs

  const UNVISITED: nat := MAX_NODES

  datatype Frame = Frame(node: nat, succIndex: nat)

  datatype Search = Search(
    indexOf: seq<nat>,
    lowlinkOf: seq<nat>,
    onStack: seq<bool>,
    componentStack: seq<nat>,
    callStack: seq<Frame>,
    nextIndex: nat,
    result: seq<seq<nat>>)
  {
    predicate Visited(v: nat) {
      v < |indexOf| && indexOf[v] != UNVISITED
    }

    predicate Held(v: nat) {
      v < |onStack| && onStack[v]
    }

    ghost predicate Emitted(v: nat) {
      Visited(v) && !Held(v)
    }
  }

  function Min(a: nat, b: nat): nat {
    if a < b then a else b
  }

  function Start(n: nat): Search {
    Search(seq(n, _ => UNVISITED), seq(n, _ => 0), seq(n, _ => false), [], [], 0, [])
  }

  // ---------------------------------------------------------------- transitions

  predicate Sized(s: Search, n: nat) {
    |s.indexOf| == |s.lowlinkOf| == |s.onStack| == n
  }

  function Open(s: Search, v: nat): Search
    requires Sized(s, |s.indexOf|) && v < |s.indexOf|
  {
    s.(indexOf := s.indexOf[v := s.nextIndex],
       lowlinkOf := s.lowlinkOf[v := s.nextIndex],
       nextIndex := s.nextIndex + 1,
       componentStack := s.componentStack + [v],
       onStack := s.onStack[v := true])
  }

  function PushFrame(s: Search, v: nat): Search {
    s.(callStack := s.callStack + [Frame(v, 0)])
  }

  function Top(s: Search): Frame
    requires |s.callStack| > 0
  {
    s.callStack[|s.callStack| - 1]
  }

  /** The top frame takes its next successor. */
  function Advance(s: Search): Search
    requires |s.callStack| > 0
  {
    var k := |s.callStack| - 1;
    s.(callStack := s.callStack[k := s.callStack[k].(succIndex := s.callStack[k].succIndex + 1)])
  }

  function LowerTo(s: Search, v: nat, x: nat): Search
    requires v < |s.lowlinkOf|
  {
    s.(lowlinkOf := s.lowlinkOf[v := Min(s.lowlinkOf[v], x)])
  }

  function Release(held: seq<bool>, gone: seq<nat>): (r: seq<bool>)
    ensures |r| == |held|
    ensures forall v: nat :: v < |held| ==> (r[v] <==> held[v] && v !in gone)
  {
    seq(|held|, v requires 0 <= v < |held| => held[v] && v !in gone)
  }

  function Reversed(s: seq<nat>): (r: seq<nat>)
    ensures |r| == |s|
    ensures forall i :: 0 <= i < |s| ==> r[i] == s[|s| - 1 - i]
  {
    seq(|s|, i requires 0 <= i < |s| => s[|s| - 1 - i])
  }

  /** Cut the component stack at position `p`: what lies above is a component. */
  function Emit(s: Search, p: nat): Search
    requires p <= |s.componentStack|
  {
    s.(componentStack := s.componentStack[..p],
       onStack := Release(s.onStack, s.componentStack[p..]),
       result := s.result + [Reversed(s.componentStack[p..])])
  }

  function PopFrame(s: Search): Search
    requires |s.callStack| > 0
  {
    s.(callStack := s.callStack[..|s.callStack| - 1])
  }

  // ------------------------------------------------------------------ invariant

  ghost function VisitedSet(s: Search): set<nat> {
    set v: nat | v < |s.indexOf| && s.Visited(v)
  }

  /** The number of a node (0 outside the graph, which the invariant excludes). */
  function Num(s: Search, v: nat): nat {
    if v < |s.indexOf| then s.indexOf[v] else 0
  }

  function Low(s: Search, v: nat): nat {
    if v < |s.lowlinkOf| then s.lowlinkOf[v] else 0
  }

  /** The node of frame `k` (0 if there is no such frame). */
  function FrameNode(s: Search, k: nat): nat {
    if k < |s.callStack| then s.callStack[k].node else 0
  }

  /** Visited nodes carry distinct numbers below `nextIndex`, which counts them. */
  ghost predicate Counted(s: Search) {
    s.nextIndex == |VisitedSet(s)|
  }

  ghost predicate Numbered(s: Search) {
    forall v: nat :: s.Visited(v) ==> Num(s, v) < s.nextIndex
  }

  ghost predicate Distinct(s: Search) {
    forall u: nat, v: nat :: s.Visited(u) && s.Visited(v) && Num(s, u) == Num(s, v) ==> u == v
  }

  /** The component stack holds the flagged nodes in increasing order of number. */
  ghost predicate HeldVisited(s: Search) {
    forall v: nat :: s.Held(v) ==> s.Visited(v)
  }

  ghost predicate HeldStacked(s: Search) {
    forall v: nat :: s.Held(v) <==> v in s.componentStack
  }

  ghost predicate StackRises(s: Search) {
    forall p: nat, q: nat :: p < q < |s.componentStack|
      ==> Num(s, s.componentStack[p]) < Num(s, s.componentStack[q])
  }

  /** The frames form a path of the graph through the component stack. */
  ghost predicate FramesHeld(g: Digraph, s: Search) {
    forall k: nat :: k < |s.callStack|
      ==> s.Held(FrameNode(s, k)) && g.Node(FrameNode(s, k))
          && s.callStack[k].succIndex <= |g.succ[FrameNode(s, k)]|
  }

  ghost predicate FramesRise(s: Search) {
    forall j: nat, k: nat :: j < k < |s.callStack| ==> Num(s, FrameNode(s, j)) < Num(s, FrameNode(s, k))
  }

  ghost predicate FramesLowest(s: Search) {
    forall v: nat :: s.Held(v) ==> |s.callStack| > 0 && Num(s, FrameNode(s, 0)) <= Num(s, v)
  }

  /** Frame `k` owns the held nodes numbered from its own up to the next frame's. */
  ghost predicate Owns(s: Search, k: nat, u: nat) {
    && k < |s.callStack|
    && s.Held(u)
    && Num(s, FrameNode(s, k)) <= Num(s, u)
    && (k + 1 < |s.callStack| ==> Num(s, u) < Num(s, FrameNode(s, k + 1)))
  }

  /** A frame's node reaches everything held above it. */
  ghost predicate ReachesDown(g: Digraph, s: Search) {
    forall k: nat, u: nat :: k < |s.callStack| && s.Held(u) && Num(s, FrameNode(s, k)) <= Num(s, u)
      ==> Reaches(g, FrameNode(s, k), u)
  }

  /** What a frame owns reaches the frame's node. */
  ghost predicate ReachesUp(g: Digraph, s: Search) {
    forall k: nat, u: nat :: Owns(s, k, u) ==> Reaches(g, u, FrameNode(s, k))
  }

  /** `x` is a held node with number `low` that `v` reaches. */
  ghost predicate LowWitness(g: Digraph, s: Search, v: nat, low: nat, x: nat) {
    s.Held(x) && Num(s, x) == low && Reaches(g, v, x)
  }

  /** Every frame's low link is the number of a held node it reaches. */
  ghost predicate LowReal(g: Digraph, s: Search) {
    forall k: nat :: k < |s.callStack| ==>
      && Low(s, FrameNode(s, k)) <= Num(s, FrameNode(s, k))
      && exists x: nat :: LowWitness(g, s, FrameNode(s, k), Low(s, FrameNode(s, k)), x)
  }

  /** Whether edge number `i` out of `u`, owned by frame `k`, has been looked at. */
  ghost predicate Scanned(g: Digraph, s: Search, k: nat, u: nat, i: nat) {
    && Owns(s, k, u) && u < |g.succ| && i < |g.succ[u]|
    && (u == FrameNode(s, k) ==> i < s.callStack[k].succIndex)
  }

  /** Every scanned edge ends in a visited node, and if that one is still held,
      the owner's low link is at or below it. */
  ghost predicate LowBounds(g: Digraph, s: Search) {
    forall k: nat, u: nat, i: nat :: Scanned(g, s, k, u, i) ==> Covered(s, FrameNode(s, k), g.succ[u][i])
  }

  ghost predicate Covered(s: Search, v: nat, w: nat) {
    s.Visited(w) && (s.Held(w) ==> Low(s, v) <= Num(s, w))
  }

  /** No edge leaves the emitted nodes. */
  ghost predicate EmittedClosed(g: Digraph, s: Search) {
    forall u: nat, v: nat :: s.Emitted(u) && g.Edge(u, v) ==> s.Emitted(v)
  }

  /** A full class of mutual reachability, without repetition. */
  ghost predicate IsScc(g: Digraph, c: seq<nat>) {
    && |c| > 0
    && (forall i: nat :: i < |c| ==> g.Node(c[i]))
    && (forall i: nat, j: nat :: i < j < |c| ==> c[i] != c[j])
    && (forall u: nat, v: nat :: u in c ==> (v in c <==> Mutual(g, u, v)))
  }

  /** The emitted nodes are exactly the members of the emitted components. */
  ghost predicate Components(g: Digraph, s: Search) {
    && (forall c: nat :: c < |s.result| ==> IsScc(g, s.result[c]))
    && (forall c: nat, v: nat :: c < |s.result| && v in s.result[c] ==> s.Emitted(v))
    && (forall v: nat :: s.Emitted(v) ==> exists c: nat :: c < |s.result| && v in s.result[c])
    && (forall c: nat, d: nat, v: nat :: c < d < |s.result| && v in s.result[c] ==> v !in s.result[d])
  }

  /** The two states number the same nodes alike. */
  ghost predicate SameNumbers(s: Search, t: Search) {
    && t.nextIndex == s.nextIndex
    && t.indexOf == s.indexOf
    && (forall x: nat :: (t.Visited(x) <==> s.Visited(x)) && Num(t, x) == Num(s, x))
  }

  ghost predicate SameHeld(s: Search, t: Search) {
    && t.componentStack == s.componentStack
    && t.result == s.result
    && (forall x: nat :: t.Held(x) <==> s.Held(x))
  }

  ghost predicate NumbersOk(s: Search) {
    Counted(s) && Numbered(s) && Distinct(s)
  }

  ghost predicate StackOk(s: Search) {
    HeldVisited(s) && HeldStacked(s) && StackRises(s)
  }

  ghost predicate FramesOk(g: Digraph, s: Search) {
    FramesHeld(g, s) && FramesRise(s) && FramesLowest(s)
  }

  ghost predicate LinksOk(g: Digraph, s: Search) {
    ReachesDown(g, s) && ReachesUp(g, s) && LowReal(g, s) && LowBounds(g, s)
  }

  ghost predicate Inv(g: Digraph, s: Search) {
    && g.Valid()
    && Sized(s, |g.succ|)
    && NumbersOk(s)
    && StackOk(s)
    && FramesOk(g, s)
    && LinksOk(g, s)
    && EmittedClosed(g, s)
    && Components(g, s)
  }
}
