/** The include-cycle rule: for every cyclic component, a depth-first search that
    backtracks completely looks for a cycle through its least node. */
module CycleWitness {
  import opened Digraphs
  import opened TarjanSpec
  import opened SccPartition
  import opened IncludeGraph
  import opened Wrappers
  import opened Violations
  import Tarjan

  // ------------------------------------------------------- the search as a function

  /** The nodes the search passes from `cur` before it meets `target`, if it does. */
  function Find(g: Digraph, members: set<nat>, target: nat, vis: set<nat>, cur: nat): Option<seq<nat>>
    requires cur in members
    decreases members - vis, 1, 0
  {
    if cur == target then Some([])
    else if cur in vis then None
    else
      match FindAmong(g, members, target, vis + {cur}, cur, 0)
      case Some(q) => Some([cur] + q)
      case None => None
  }

  /** The first success among the successors of `u` from number `i` on. */
  function FindAmong(g: Digraph, members: set<nat>, target: nat, vis: set<nat>, u: nat, i: nat): Option<seq<nat>>
    decreases members - vis, 2, if u < |g.succ| && i < |g.succ[u]| then |g.succ[u]| - i else 0
  {
    if u >= |g.succ| || i >= |g.succ[u]| then None
    else
      var next := g.succ[u][i];
      if next !in members then FindAmong(g, members, target, vis, u, i + 1)
      else
        match Find(g, members, target, vis, next)
        case Some(q) => Some(q)
        case None => FindAmong(g, members, target, vis, u, i + 1)
  }

  class CycleFinder {
    const g: Digraph
    const members: set<nat>
    const target: nat
    var vis: set<nat>
    var path: seq<nat>

    constructor (g: Digraph, members: set<nat>, target: nat)
      ensures this.g == g && this.members == members && this.target == target
      ensures vis == {} && path == []
    {
      this.g, this.members, this.target := g, members, target;
      vis, path := {}, [];
    }

    /** Extends `path` to the target, or leaves everything as it was. */
    method Dfs(cur: nat) returns (found: bool)
      requires cur in members
      modifies this
      decreases members - vis
      ensures found <==> Find(g, members, target, old(vis), cur).Some?
      ensures found ==> path == old(path) + Find(g, members, target, old(vis), cur).value
      ensures !found ==> path == old(path) && vis == old(vis)
    {
      if cur == target {
        assert path == path + [];
        return true;
      }
      if cur in vis {
        return false;
      }
      ghost var vis0, path0 := vis, path;
      vis := vis + {cur};
      path := path + [cur];
      var i := 0;
      while cur < |g.succ| && i < |g.succ[cur]|
        invariant cur < |g.succ| ==> i <= |g.succ[cur]|
        invariant vis == vis0 + {cur} && path == path0 + [cur]
        invariant FindAmong(g, members, target, vis, cur, 0) == FindAmong(g, members, target, vis, cur, i)
        decreases if cur < |g.succ| then |g.succ[cur]| - i else 0
      {
        var next := g.succ[cur][i];
        if next in members {
          var ok := Dfs(next);
          if ok {
            assert path == path0 + ([cur] + Find(g, members, target, vis0 + {cur}, next).value);
            return true;
          }
        }
        i := i + 1;
      }
      path := path[..|path| - 1];
      vis := vis - {cur};
      return false;
    }
  }

  // ------------------------------------------------------------- what it searches for

  /** `p` runs from `cur` to `target` inside `members`, and before its end it avoids `vis`. */
  ghost predicate Avoids(g: Digraph, members: set<nat>, target: nat, vis: set<nat>, cur: nat, p: seq<nat>) {
    && Joins(g, p, cur, target)
    && (forall i: nat :: i < |p| ==> p[i] in members)
    && (forall i: nat :: i < |p| - 1 ==> p[i] !in vis)
  }

  ghost predicate ReachesAvoiding(g: Digraph, members: set<nat>, target: nat, vis: set<nat>, cur: nat) {
    exists p :: Avoids(g, members, target, vis, cur, p)
  }

  /** A simple path that meets the target only at its end. */
  ghost predicate SimpleTo(g: Digraph, members: set<nat>, target: nat, vis: set<nat>, cur: nat, q: seq<nat>) {
    && Avoids(g, members, target, vis, cur, q + [target])
    && target !in q
    && NoRepeats(q)
  }

  /** What the search returns is a simple path that avoids the visited nodes. */
  lemma {:induction false} FindIsSimple(g: Digraph, members: set<nat>, target: nat, vis: set<nat>, cur: nat)
    requires cur in members && Find(g, members, target, vis, cur).Some?
    ensures SimpleTo(g, members, target, vis, cur, Find(g, members, target, vis, cur).value)
    decreases members - vis, 1, 0
  {
    if cur == target {
      assert [] + [target] == [cur];
    } else {
      var q := FindAmong(g, members, target, vis + {cur}, cur, 0).value;
      var next := FindAmongIsSimple(g, members, target, vis + {cur}, cur, 0);
      Prepend(g, members, target, vis, cur, next, q);
    }
  }

  lemma {:induction false} FindAmongIsSimple(g: Digraph, members: set<nat>, target: nat, vis: set<nat>, u: nat, i: nat)
    returns (next: nat)
    requires FindAmong(g, members, target, vis, u, i).Some?
    ensures g.Edge(u, next) && next in members
    ensures SimpleTo(g, members, target, vis, next, FindAmong(g, members, target, vis, u, i).value)
    decreases members - vis, 2, if u < |g.succ| && i < |g.succ[u]| then |g.succ[u]| - i else 0
  {
    next := g.succ[u][i];
    if next in members && Find(g, members, target, vis, next).Some? {
      FindIsSimple(g, members, target, vis, next);
    } else {
      next := FindAmongIsSimple(g, members, target, vis, u, i + 1);
    }
  }

  lemma Prepend(g: Digraph, members: set<nat>, target: nat, vis: set<nat>, cur: nat, next: nat, q: seq<nat>)
    requires cur in members && cur != target && cur !in vis && g.Edge(cur, next)
    requires SimpleTo(g, members, target, vis + {cur}, next, q)
    ensures SimpleTo(g, members, target, vis, cur, [cur] + q)
  {
    var r := q + [target];
    var p := [cur] + q + [target];
    assert p == [cur] + r;
    forall i: nat | i < |p|
      ensures p[i] in members
      ensures i < |p| - 1 ==> p[i] !in vis && g.Edge(p[i], p[i + 1])
    {
      if i > 0 {
        assert p[i] == r[i - 1];
      }
    }
    forall i: nat | i < |q|
      ensures q[i] != cur
    {
      assert r[i] == q[i];
    }
  }

  /** The search finds a path whenever there is one. */
  lemma {:induction false} FindComplete(g: Digraph, members: set<nat>, target: nat, vis: set<nat>, cur: nat,
      p: seq<nat>)
    requires Avoids(g, members, target, vis, cur, p) && cur in members
    ensures Find(g, members, target, vis, cur).Some?
    decreases members - vis, 1, 0
  {
    if cur != target {
      assert p[0] == cur;
      var k := LastOf(p, cur);
      var r := p[k + 1..];
      AfterLast(g, members, target, vis, cur, p, k);
      var i: nat :| i < |g.succ[cur]| && g.succ[cur][i] == r[0];
      FindAmongComplete(g, members, target, vis + {cur}, cur, 0, i, r);
    }
  }

  lemma {:induction false} FindAmongComplete(
      g: Digraph, members: set<nat>, target: nat, vis: set<nat>, u: nat, i: nat, k: nat, p: seq<nat>)
    requires u < |g.succ| && i <= k < |g.succ[u]| && g.succ[u][k] in members
    requires Avoids(g, members, target, vis, g.succ[u][k], p)
    ensures FindAmong(g, members, target, vis, u, i).Some?
    decreases members - vis, 2, |g.succ[u]| - i
  {
    if i == k {
      FindComplete(g, members, target, vis, g.succ[u][k], p);
    } else {
      FindAmongComplete(g, members, target, vis, u, i + 1, k, p);
    }
  }

  lemma {:induction false} LastOf(p: seq<nat>, x: nat) returns (k: nat)
    requires x in p
    ensures k < |p| && p[k] == x && forall i: nat :: k < i < |p| ==> p[i] != x
  {
    var m := |p| - 1;
    if p[m] == x {
      k := m;
    } else {
      assert p == p[..m] + [p[m]];
      k := LastOf(p[..m], x);
    }
  }

  lemma AfterLast(g: Digraph, members: set<nat>, target: nat, vis: set<nat>, cur: nat, p: seq<nat>, k: nat)
    requires Avoids(g, members, target, vis, cur, p) && cur != target
    requires k < |p| && p[k] == cur && forall i: nat :: k < i < |p| ==> p[i] != cur
    ensures k + 1 < |p| && g.Edge(cur, p[k + 1]) && p[k + 1] in members
    ensures Avoids(g, members, target, vis + {cur}, p[k + 1], p[k + 1..])
  {
    var r := p[k + 1..];
    forall i: nat | i < |r|
      ensures r[i] in members
      ensures i < |r| - 1 ==> r[i] !in vis + {cur} && g.Edge(r[i], r[i + 1])
    {
      assert r[i] == p[i + k + 1];
      if i < |r| - 1 {
        assert g.Edge(p[i + k + 1], p[(i + k + 1) + 1]);
      }
    }
  }

  /** The search succeeds exactly if the target can be reached inside `members` while
      avoiding the visited nodes. */
  lemma FindIff(g: Digraph, members: set<nat>, target: nat, vis: set<nat>, cur: nat)
    requires cur in members
    ensures Find(g, members, target, vis, cur).Some? <==> ReachesAvoiding(g, members, target, vis, cur)
  {
    if Find(g, members, target, vis, cur).Some? {
      FindIsSimple(g, members, target, vis, cur);
    }
    if ReachesAvoiding(g, members, target, vis, cur) {
      var p :| Avoids(g, members, target, vis, cur, p);
      FindComplete(g, members, target, vis, cur, p);
    }
  }

  // ------------------------------------------------------------ cycles of a component

  /** `start`, then `path`, then back to `start`, is a simple cycle inside `members`. */
  ghost predicate IsCycle(g: Digraph, members: set<nat>, start: nat, path: seq<nat>) {
    && start in members && start !in path && NoRepeats(path)
    && (forall i: nat :: i < |path| ==> path[i] in members)
    && IsPath(g, [start] + path + [start])
  }

  /** The cycle the rule shows: the first success among the successors of `start`. */
  function FirstCycle(g: Digraph, members: set<nat>, start: nat): Option<seq<nat>> {
    FindAmong(g, members, start, {}, start, 0)
  }

  lemma FirstCycleIsCycle(g: Digraph, members: set<nat>, start: nat)
    requires start in members && FirstCycle(g, members, start).Some?
    ensures IsCycle(g, members, start, FirstCycle(g, members, start).value)
  {
    var q := FirstCycle(g, members, start).value;
    var next := FindAmongIsSimple(g, members, start, {}, start, 0);
    var r := q + [start];
    var p := [start] + q + [start];
    assert p == [start] + r;
    forall i | 0 <= i < |p| - 1
      ensures g.Edge(p[i], p[i + 1])
    {
      if i > 0 {
        assert p[i] == r[i - 1] && p[i + 1] == r[i - 1 + 1];
      }
    }
    forall i: nat | i < |q|
      ensures q[i] in members
    {
      assert r[i] == q[i];
    }
  }

  ghost function Members(scc: seq<nat>): set<nat> {
    set v | v in scc
  }

  /** Inside a component, every node reaches every other without leaving it. */
  lemma SccPath(g: Digraph, scc: seq<nat>, u: nat, v: nat) returns (p: seq<nat>)
    requires IsScc(g, scc) && u in scc && v in scc
    ensures Avoids(g, Members(scc), v, {}, u, p)
  {
    assert Mutual(g, u, v);
    p :| Joins(g, p, u, v);
    forall i: nat | i < |p|
      ensures p[i] in Members(scc)
    {
      var a, b := p[..i + 1], p[i..];
      forall k | 0 <= k < |b| - 1
        ensures g.Edge(b[k], b[k + 1])
      {
        assert g.Edge(p[k + i], p[(k + i) + 1]);
      }
      assert Joins(g, a, u, p[i]);
      assert Joins(g, b, p[i], v);
      ReachesTrans(g, p[i], v, u);
    }
  }

  /** Every successor of a node inside its component closes a cycle, so the search stops
      at the first of them. */
  lemma FirstSuccessorCloses(g: Digraph, scc: seq<nat>, start: nat, i: nat)
    requires IsScc(g, scc) && start in scc
    requires i < |g.succ[start]| && g.succ[start][i] in scc
    requires forall k: nat :: k < i ==> g.succ[start][k] !in scc
    ensures var c := FirstCycle(g, Members(scc), start);
      c.Some? && (if g.succ[start][i] == start then c.value == [] else |c.value| > 0 && c.value[0] == g.succ[start][i])
  {
    var j: nat :| j < |scc| && scc[j] == start;
    assert g.Node(scc[j]);
    hide IsScc;
    SkipOutside(g, scc, start, 0, i);
    var next := g.succ[start][i];
    var p := SccPath(g, scc, next, start);
    FindComplete(g, Members(scc), start, {}, next, p);
  }

  lemma {:induction false} SkipOutside(g: Digraph, scc: seq<nat>, start: nat, k: nat, i: nat)
    requires start < |g.succ| && k <= i < |g.succ[start]|
    requires forall j: nat :: j < i ==> g.succ[start][j] !in scc
    ensures FindAmong(g, Members(scc), start, {}, start, k) == FindAmong(g, Members(scc), start, {}, start, i)
    decreases i - k
  {
    if k < i {
      SkipOutside(g, scc, start, k + 1, i);
    }
  }

  lemma {:induction false} FirstInside(g: Digraph, scc: seq<nat>, start: nat, i: nat) returns (k: nat)
    requires start < |g.succ| && i < |g.succ[start]| && g.succ[start][i] in scc
    ensures k <= i && g.succ[start][k] in scc && forall j: nat :: j < k ==> g.succ[start][j] !in scc
  {
    if j: nat :| j < i && g.succ[start][j] in scc {
      k := FirstInside(g, scc, start, j);
    } else {
      k := i;
    }
  }

  /** Every component of two or more nodes has a cycle through each of its nodes, and
      the search finds one; it is never empty unless the node includes itself. */
  lemma EverySccHasWitness(g: Digraph, scc: seq<nat>, start: nat)
    requires g.Valid() && IsScc(g, scc) && |scc| >= 2 && start in scc
    ensures var c := FirstCycle(g, Members(scc), start);
      && c.Some? && IsCycle(g, Members(scc), start, c.value)
      && (c.value == [] ==> g.Edge(start, start))
  {
    assert scc[0] != scc[1];
    var v := if scc[0] == start then scc[1] else scc[0];
    assert Mutual(g, start, v);
    var p :| Joins(g, p, start, v);
    assert g.Edge(p[0], p[0 + 1]);
    var w := SccPath(g, scc, start, v);
    assert g.Edge(w[0], w[0 + 1]) && w[1] in Members(scc);
    var i: nat :| i < |g.succ[start]| && g.succ[start][i] == w[1];
    hide IsScc;
    var k := FirstInside(g, scc, start, i);
    FirstSuccessorCloses(g, scc, start, k);
    FirstCycleIsCycle(g, Members(scc), start);
  }

  // --------------------------------------------------------------------- the rule

  function IsConditional(g: PathGraph, u: nat, v: nat): bool {
    (u, v) in g.conditional
  }

  /** Every edge of the cycle is conditional; an empty path counts as not conditional. */
  ghost predicate AllConditional(g: PathGraph, start: nat, path: seq<nat>) {
    path != [] && var p := [start] + path + [start];
      forall i: nat :: i < |p| - 1 ==> IsConditional(g, p[i], p[i + 1])
  }

  method AllEdgesConditional(g: PathGraph, start: nat, path: seq<nat>) returns (all: bool)
    ensures all <==> AllConditional(g, start, path)
  {
    if path == [] {
      return false;
    }
    ghost var p := [start] + path + [start];
    if !IsConditional(g, start, path[0]) {
      assert p[0] == start && p[0 + 1] == path[0];
      return false;
    }
    var i := 0;
    while i + 1 < |path|
      invariant i < |path|
      invariant forall k: nat :: k < i + 1 ==> IsConditional(g, p[k], p[k + 1])
    {
      assert p[i + 1] == path[i] && p[(i + 1) + 1] == path[i + 1];
      if !IsConditional(g, path[i], path[i + 1]) {
        return false;
      }
      i := i + 1;
    }
    assert p[|path|] == path[|path| - 1] && p[|path| + 1] == start;
    all := IsConditional(g, path[|path| - 1], start);
  }

  /** The three UTF-8 bytes of the arrow, one character a byte. */
  const ARROW: string := " \U{e2}\U{86}\U{92} "

  function Arrows(g: PathGraph, path: seq<nat>): string {
    if path == [] then "" else Arrows(g, path[..|path| - 1]) + ARROW + g.PathOf(path[|path| - 1])
  }

  function CycleMessage(g: PathGraph, path: seq<nat>, start: nat): string {
    "cycle: " + g.PathOf(start) + Arrows(g, path) + ARROW + g.PathOf(start)
  }

  method BuildCycleMessage(g: PathGraph, path: seq<nat>, start: nat) returns (s: string)
    ensures s == CycleMessage(g, path, start)
  {
    s := "cycle: " + g.PathOf(start);
    ghost var head := s;
    var i := 0;
    assert s == head + Arrows(g, []);
    while i < |path|
      invariant i <= |path| && s == head + Arrows(g, path[..i])
    {
      assert path[..i + 1][..i] == path[..i];
      s := s + ARROW + g.PathOf(path[i]);
      assert s == head + Arrows(g, path[..i + 1]);
      i := i + 1;
    }
    assert path[..i] == path;
    s := s + ARROW + g.PathOf(start);
  }

  /** A two-file split of one component (`foo.h` with `foo.inl`), judged on the paths. */
  predicate InlineSplit(split: (string, string) -> bool, g: PathGraph, scc: seq<nat>) {
    |scc| == 2 && split(g.PathOf(scc[0]), g.PathOf(scc[1]))
  }

  /** The violations of the components before number `k`. */
  ghost function Findings(split: (string, string) -> bool, g: PathGraph, sccs: seq<seq<nat>>, k: nat): seq<Violation>
    requires k <= |sccs|
  {
    if k == 0 then [] else Findings(split, g, sccs, k - 1) + Finding(split, g, sccs[k - 1])
  }

  /** The violation of one component, if it has one. */
  ghost function Finding(split: (string, string) -> bool, g: PathGraph, scc: seq<nat>): seq<Violation> {
    if |scc| < 2 || InlineSplit(split, g, scc) then []
    else
      var c := FirstCycle(g.graph, Members(scc), scc[0]);
      if c.None? || AllConditional(g, scc[0], c.value) then []
      else [Violation("SF.9", g.PathOf(scc[0]), 0, CycleMessage(g, c.value, scc[0]))]
  }

  method CheckScc(split: (string, string) -> bool, g: PathGraph, scc: seq<nat>) returns (found: seq<Violation>)
    requires g.Valid() && IsScc(g.graph, scc)
    ensures found == Finding(split, g, scc)
  {
    hide IsScc;
    if |scc| < 2 || InlineSplit(split, g, scc) {
      return [];
    }
    StartInRange(g.graph, scc);
    var members := set v | v in scc;
    var start := scc[0];
    EverySccHasWitness(g.graph, scc, start);
    var finder := new CycleFinder(g.graph, members, start);
    var i := 0;
    var done := false;
    while i < |g.graph.succ[start]| && !done
      invariant i <= |g.graph.succ[start]|
      invariant finder.members == members && finder.g == g.graph && finder.target == start
      invariant !done ==> finder.vis == {} && finder.path == []
      invariant !done ==> FirstCycle(g.graph, members, start) == FindAmong(g.graph, members, start, {}, start, i)
      invariant done ==> Some(finder.path) == FirstCycle(g.graph, members, start)
      decreases |g.graph.succ[start]| - i, !done
    {
      if g.graph.succ[start][i] in members {
        done := finder.Dfs(g.graph.succ[start][i]);
        assert done ==> finder.path == Find(g.graph, members, start, {}, g.graph.succ[start][i]).value;
      }
      if !done {
        i := i + 1;
      }
    }
    var all := AllEdgesConditional(g, start, finder.path);
    if all {
      return [];
    }
    var message := BuildCycleMessage(g, finder.path, start);
    found := [Violation("SF.9", g.PathOf(start), 0, message)];
  }

  lemma StartInRange(g: Digraph, scc: seq<nat>)
    requires IsScc(g, scc)
    ensures scc != [] && scc[0] < |g.succ|
  {
    assert g.Node(scc[0]);
  }

  method Check(split: (string, string) -> bool, g: PathGraph) returns (result: seq<Violation>)
    requires g.Valid()
    ensures exists sccs: seq<seq<nat>> :: IsSccList(g.graph, sccs) && result == Findings(split, g, sccs, |sccs|)
  {
    hide IsScc, Canonical, Disjoint, Finding;
    var comps := Tarjan.ComputeScc(g.graph);
    result := [];
    var i := 0;
    while i < |comps|
      invariant i <= |comps| && result == Findings(split, g, comps, i)
    {
      var found := CheckScc(split, g, comps[i]);
      result := result + found;
      i := i + 1;
    }
    assert IsSccList(g.graph, comps) && result == Findings(split, g, comps, |comps|);
  }

  /** If the first edge from the least node into its component is unconditional, the
      component is reported, whatever its other edges are. */
  lemma UnconditionalFirstEdgeReported(split: (string, string) -> bool, g: PathGraph, scc: seq<nat>, i: nat)
    requires g.Valid() && IsScc(g.graph, scc) && |scc| >= 2 && !InlineSplit(split, g, scc)
    requires i < |g.graph.succ[scc[0]]| && g.graph.succ[scc[0]][i] in scc
    requires forall k: nat :: k < i ==> g.graph.succ[scc[0]][k] !in scc
    requires !IsConditional(g, scc[0], g.graph.succ[scc[0]][i])
    ensures |Finding(split, g, scc)| == 1
  {
    hide IsScc;
    FirstSuccessorCloses(g.graph, scc, scc[0], i);
    var c := FirstCycle(g.graph, Members(scc), scc[0]).value;
    var p := [scc[0]] + c + [scc[0]];
    if c != [] {
      assert p[0] == scc[0] && p[0 + 1] == g.graph.succ[scc[0]][i];
    }
  }

  lemma NoSelfEdge(g: PathGraph, scc: seq<nat>)
    requires scc != []
    requires forall u: nat, v: nat :: u in scc && v in scc && g.graph.Edge(u, v) ==> u != v && IsConditional(g, u, v)
    ensures !g.graph.Edge(scc[0], scc[0])
  {
  }

  /** A component all of whose inner edges are conditional is never reported, unless its
      least node includes itself first. */
  lemma AllConditionalSilent(split: (string, string) -> bool, g: PathGraph, scc: seq<nat>)
    requires g.Valid() && IsScc(g.graph, scc) && |scc| >= 2
    requires forall u: nat, v: nat :: u in scc && v in scc && g.graph.Edge(u, v) ==> u != v && IsConditional(g, u, v)
    ensures Finding(split, g, scc) == []
  {
    EverySccHasWitness(g.graph, scc, scc[0]);
    hide IsScc;
    NoSelfEdge(g, scc);
    var c := FirstCycle(g.graph, Members(scc), scc[0]).value;
    var p := [scc[0]] + c + [scc[0]];
    forall i: nat | i < |p|
      ensures p[i] in scc
    {
      if 0 < i < |p| - 1 {
        assert p[i] == c[i - 1];
      }
    }
    forall i: nat | i < |p| - 1
      ensures IsConditional(g, p[i], p[i + 1])
    {
      assert g.graph.Edge(p[i], p[i + 1]);
    }
  }
}
