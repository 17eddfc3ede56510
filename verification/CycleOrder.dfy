/** Which cycle of a component the include-cycle rule judges: the one that comes first when
    cycles through the least file are ordered by the order of the include lists. */
module CycleOrder {
  import opened Digraphs
  import opened TarjanSpec
  import opened SccPartition
  import opened IncludeGraph
  import opened CycleWitness
  import opened Wrappers
  import opened Violations

  // ------------------------------------------------------------------------- order

  /** `u` includes `v` before it includes `w` (if it includes `w` at all). */
  ghost predicate Earlier(g: Digraph, u: nat, v: nat, w: nat) {
    u < |g.succ| && exists i: nat :: i < |g.succ[u]| && g.succ[u][i] == v && w !in g.succ[u][..i + 1]
  }

  /** The paths are equal, or where they part the first takes the earlier successor. */
  ghost predicate Precedes(g: Digraph, p: seq<nat>, q: seq<nat>) {
    p == q || exists d: nat :: PartsEarlier(g, p, q, d)
  }

  ghost predicate PartsEarlier(g: Digraph, p: seq<nat>, q: seq<nat>, d: nat) {
    0 < d < |p| && d < |q| && p[..d] == q[..d] && Earlier(g, p[d - 1], p[d], q[d])
  }

  function Around(start: nat, path: seq<nat>): seq<nat> {
    [start] + path + [start]
  }

  /** The first simple cycle through `start` inside `members`. */
  ghost predicate IsFirstCycle(g: Digraph, members: set<nat>, start: nat, path: seq<nat>) {
    && IsCycle(g, members, start, path)
    && forall other :: IsCycle(g, members, start, other) ==> Precedes(g, Around(start, path), Around(start, other))
  }

  lemma Prefix(s: seq<nat>, n: nat)
    requires n <= |s|
    ensures forall j: nat :: j < n ==> s[..n][j] == s[j] && s[j] in s[..n]
  {
    assert forall j: nat :: j < n ==> s[..n][j] == s[j];
  }

  lemma NotInPrefix(s: seq<nat>, n: nat, j: nat)
    requires n <= |s| && j < |s| && s[j] !in s[..n]
    ensures j >= n
  {
    Prefix(s, n);
  }

  lemma EarlierOnce(g: Digraph, u: nat, v: nat, w: nat)
    requires Earlier(g, u, v, w)
    ensures v != w && !Earlier(g, u, w, v)
  {
    var s := g.succ[u];
    var i: nat :| i < |s| && s[i] == v && w !in s[..i + 1];
    assert s[..i + 1][i] == v;
    forall j: nat | j < |s| && s[j] == w
      ensures v in s[..j + 1]
    {
      NotInPrefix(s, i + 1, j);
      assert s[..j + 1][i] == v;
    }
  }

  lemma PartOnce(p: seq<nat>, q: seq<nat>, d: nat, e: nat)
    requires d < |p| && d < |q| && e < |p| && e < |q|
    requires p[..d] == q[..d] && p[d] != q[d] && p[..e] == q[..e] && p[e] != q[e]
    ensures d == e
  {
    Prefix(p, d);
    Prefix(q, d);
    Prefix(p, e);
    Prefix(q, e);
  }

  lemma NotBothEarlier(g: Digraph, p: seq<nat>, q: seq<nat>, d: nat, e: nat)
    requires PartsEarlier(g, p, q, d)
    ensures !PartsEarlier(g, q, p, e)
  {
    hide Earlier;
    EarlierOnce(g, p[d - 1], p[d], q[d]);
    assert p[..d][d - 1] == p[d - 1] && q[..d][d - 1] == q[d - 1];
    if 0 < e < |q| && e < |p| && q[..e] == p[..e] && q[e] != p[e] {
      PartOnce(p, q, d, e);
    } else if 0 < e < |q| && e < |p| && Earlier(g, q[e - 1], q[e], p[e]) {
      EarlierOnce(g, q[e - 1], q[e], p[e]);
    }
  }

  lemma PrecedesOnce(g: Digraph, p: seq<nat>, q: seq<nat>)
    requires Precedes(g, p, q) && p != q
    ensures !Precedes(g, q, p)
  {
    hide PartsEarlier;
    var d: nat :| PartsEarlier(g, p, q, d);
    forall e: nat
      ensures !PartsEarlier(g, q, p, e)
    {
      NotBothEarlier(g, p, q, d, e);
    }
  }

  /** There is at most one first cycle. */
  lemma FirstCycleUnique(g: Digraph, members: set<nat>, start: nat, a: seq<nat>, b: seq<nat>)
    requires IsFirstCycle(g, members, start, a) && IsFirstCycle(g, members, start, b)
    ensures a == b
  {
    hide IsCycle, Precedes;
    assert Around(start, a)[1..|a| + 1] == a && Around(start, b)[1..|b| + 1] == b;
    assert |Around(start, a)| == |a| + 2 && |Around(start, b)| == |b| + 2;
    if Around(start, a) != Around(start, b) {
      PrecedesOnce(g, Around(start, a), Around(start, b));
    }
  }

  lemma PrependPrecedes(g: Digraph, u: nat, p: seq<nat>, q: seq<nat>)
    requires Precedes(g, p, q)
    ensures Precedes(g, [u] + p, [u] + q)
  {
    hide Earlier;
    if p != q {
      var d: nat :| PartsEarlier(g, p, q, d);
      var n := d + 1;
      assert ([u] + p)[..n] == [u] + p[..d] && ([u] + q)[..n] == [u] + q[..d];
      assert PartsEarlier(g, [u] + p, [u] + q, n);
    }
  }

  // ---------------------------------------------------- the search takes the first

  /** Of all simple paths to the target, the search returns the first. */
  lemma {:induction false} FindIsFirst(
      g: Digraph, members: set<nat>, target: nat, vis: set<nat>, cur: nat, r: seq<nat>)
    requires cur in members && SimpleTo(g, members, target, vis, cur, r)
    ensures var f := Find(g, members, target, vis, cur);
      f.Some? && Precedes(g, f.value + [target], r + [target])
    decreases members - vis, 1, 0
  {
    FindComplete(g, members, target, vis, cur, r + [target]);
    assert (r + [target])[0] == cur;
    if cur == target {
      HeadStays(r, target);
    } else {
      var rest := r[1..];
      assert r == [cur] + rest;
      TailIsSimple(g, members, target, vis, cur, rest);
      var next := (rest + [target])[0];
      var k := FirstPlace(g, cur, next);
      FindAmongIsFirst(g, members, target, vis + {cur}, cur, 0, k, rest);
      var q := FindAmong(g, members, target, vis + {cur}, cur, 0).value;
      assert [cur] + (q + [target]) == ([cur] + q) + [target];
      assert [cur] + (rest + [target]) == r + [target];
    }
  }

  lemma HeadStays(r: seq<nat>, x: nat)
    ensures r != [] ==> r[0] == (r + [x])[0] && r[0] in r
  {
  }

  lemma TailIsSimple(g: Digraph, members: set<nat>, target: nat, vis: set<nat>, cur: nat, rest: seq<nat>)
    requires cur != target && SimpleTo(g, members, target, vis, cur, [cur] + rest)
    ensures var next := (rest + [target])[0];
      cur !in vis && g.Edge(cur, next) && SimpleTo(g, members, target, vis + {cur}, next, rest)
  {
    var p, r := [cur] + rest + [target], rest + [target];
    assert p == [cur] + r;
    assert g.Edge(p[0], p[0 + 1]);
    assert p[0] == cur;
    forall i: nat | i < |r|
      ensures r[i] in members
    {
      var j := i + 1;
      assert p[j] == r[i];
    }
    forall i: nat | i < |r| - 1
      ensures r[i] !in vis + {cur} && g.Edge(r[i], r[i + 1])
    {
      var j := i + 1;
      assert p[j] == r[i] && p[j + 1] == r[i + 1];
      assert r[i] == rest[i] && ([cur] + rest)[j] == rest[i] && ([cur] + rest)[0] == cur;
      assert g.Edge(p[j], p[j + 1]);
      assert p[j] !in vis;
    }
    assert forall i: nat :: i < |rest| ==> rest[i] == ([cur] + rest)[i + 1];
  }

  lemma FirstPlace(g: Digraph, u: nat, v: nat) returns (k: nat)
    requires g.Edge(u, v)
    ensures k < |g.succ[u]| && g.succ[u][k] == v && v !in g.succ[u][..k]
  {
    var i: nat :| i < |g.succ[u]| && g.succ[u][i] == v;
    k := FirstAtMost(g.succ[u], v, i);
  }

  lemma {:induction false} FirstAtMost(s: seq<nat>, v: nat, i: nat) returns (k: nat)
    requires i < |s| && s[i] == v
    ensures k <= i && s[k] == v && v !in s[..k]
  {
    if v in s[..i] {
      var j: nat :| j < i && s[..i][j] == v;
      k := FirstAtMost(s, v, j);
    } else {
      k := i;
    }
  }

  lemma {:induction false} FindAmongIsFirst(
      g: Digraph, members: set<nat>, target: nat, vis: set<nat>, u: nat, i: nat, k: nat, r: seq<nat>)
    requires u < |g.succ| && i <= k < |g.succ[u]| && g.succ[u][k] !in g.succ[u][..k]
    requires g.succ[u][k] in members && SimpleTo(g, members, target, vis, g.succ[u][k], r)
    ensures var f := FindAmong(g, members, target, vis, u, i);
      f.Some? && Precedes(g, [u] + (f.value + [target]), [u] + (r + [target]))
    decreases members - vis, 2, |g.succ[u]| - i
  {
    var next := g.succ[u][i];
    if i == k {
      FindIsFirst(g, members, target, vis, next, r);
      PrependPrecedes(g, u, Find(g, members, target, vis, next).value + [target], r + [target]);
    } else if next in members && Find(g, members, target, vis, next).Some? {
      var q := Find(g, members, target, vis, next).value;
      FindIsSimple(g, members, target, vis, next);
      PartAtOnce(g, u, i, k, q + [target], r + [target]);
    } else {
      FindAmongIsFirst(g, members, target, vis, u, i + 1, k, r);
    }
  }

  lemma PartAtOnce(g: Digraph, u: nat, i: nat, k: nat, p: seq<nat>, q: seq<nat>)
    requires u < |g.succ| && i < k < |g.succ[u]| && g.succ[u][k] !in g.succ[u][..k]
    requires p != [] && q != [] && p[0] == g.succ[u][i] && q[0] == g.succ[u][k]
    ensures Precedes(g, [u] + p, [u] + q)
  {
    var a, b := [u] + p, [u] + q;
    var one := 1;
    assert g.succ[u][k] !in g.succ[u][..i + 1] by {
      assert forall x :: x in g.succ[u][..i + 1] ==> x in g.succ[u][..k];
    }
    assert Earlier(g, u, p[0], q[0]);
    assert a[..one] == [u] && b[..one] == [u] && a[one] == p[0] && b[one] == q[0];
    assert PartsEarlier(g, a, b, one);
  }

  lemma CycleIsSimple(g: Digraph, members: set<nat>, start: nat, path: seq<nat>)
    requires IsCycle(g, members, start, path)
    ensures var next := (path + [start])[0];
      g.Edge(start, next) && next in members && SimpleTo(g, members, start, {}, next, path)
  {
    var p, r := Around(start, path), path + [start];
    assert p == [start] + r;
    assert g.Edge(p[0], p[0 + 1]);
    forall i | 0 <= i < |r| - 1
      ensures g.Edge(r[i], r[i + 1])
    {
      var j := i + 1;
      assert p[j] == r[i] && p[j + 1] == r[i + 1];
      assert g.Edge(p[j], p[j + 1]);
    }
  }

  /** The cycle that the rule's search stops at is the first one, and it stops at none only
      if there is none. */
  lemma FirstCycleIsFirst(g: Digraph, members: set<nat>, start: nat)
    requires start in members
    ensures var c := FirstCycle(g, members, start);
      && (c.Some? ==> IsFirstCycle(g, members, start, c.value))
      && (c.None? ==> forall path :: !IsCycle(g, members, start, path))
  {
    hide IsCycle, Precedes, SimpleTo;
    var c := FirstCycle(g, members, start);
    if c.Some? {
      FirstCycleIsCycle(g, members, start);
    }
    forall other | IsCycle(g, members, start, other)
      ensures c.Some? && Precedes(g, Around(start, c.value), Around(start, other))
    {
      CycleIsSimple(g, members, start, other);
      var k := FirstPlace(g, start, (other + [start])[0]);
      FindAmongIsFirst(g, members, start, {}, start, 0, k, other);
      assert [start] + (c.value + [start]) == Around(start, c.value);
      assert [start] + (other + [start]) == Around(start, other);
    }
  }

  // ---------------------------------------------------------------------- the rule

  /** Every edge along the nodes is marked conditional. */
  ghost predicate Marked(conditional: set<(nat, nat)>, p: seq<nat>) {
    forall i: nat :: i < |p| - 1 ==> (p[i], p[i + 1]) in conditional
  }

  /** A component of two or more files that is no inline split has a first cycle through its
      least file; it is reported, by that cycle, exactly if the cycle is a self-include or has
      an unconditional edge. */
  lemma ReportedIff(split: (string, string) -> bool, g: PathGraph, scc: seq<nat>) returns (path: seq<nat>)
    requires g.Valid() && IsScc(g.graph, scc) && |scc| >= 2
    requires |scc| > 2 || !split(g.PathOf(scc[0]), g.PathOf(scc[1]))
    ensures IsFirstCycle(g.graph, Members(scc), scc[0], path)
    ensures Finding(split, g, scc)
         == if path != [] && Marked(g.conditional, [scc[0]] + path + [scc[0]]) then []
            else [Violation("SF.9", g.PathOf(scc[0]), 0, CycleMessage(g, path, scc[0]))]
  {
    hide IsScc, IsFirstCycle;
    FirstIsIn(scc, g.graph);
    EverySccHasWitness(g.graph, scc, scc[0]);
    FirstCycleIsFirst(g.graph, Members(scc), scc[0]);
    path := FirstCycle(g.graph, Members(scc), scc[0]).value;
    var p := [scc[0]] + path + [scc[0]];
    assert Marked(g.conditional, p) <==> forall i: nat :: i < |p| - 1 ==> IsConditional(g, p[i], p[i + 1]);
  }

  /** Two files that an inline split explains, and single files, are never reported. */
  lemma SplitIsSilent(split: (string, string) -> bool, g: PathGraph, scc: seq<nat>)
    requires |scc| < 2 || (|scc| == 2 && split(g.PathOf(scc[0]), g.PathOf(scc[1])))
    ensures Finding(split, g, scc) == []
  {
    hide Members, FirstCycle, AllConditional;
  }

  /** The message of a cycle of two files; the arrow is U+2192 in UTF-8. */
  lemma MessageOfTwo(g: PathGraph, u: nat, v: nat)
    ensures CycleMessage(g, [v], u)
         == "cycle: " + g.PathOf(u) + " \U{e2}\U{86}\U{92} " + g.PathOf(v) + " \U{e2}\U{86}\U{92} " + g.PathOf(u)
  {
    assert [v][..|[v]| - 1] == [];
    assert Arrows(g, [v]) == "" + ARROW + g.PathOf(v);
  }

  lemma FirstIsIn(scc: seq<nat>, g: Digraph)
    requires IsScc(g, scc)
    ensures scc != [] && scc[0] in Members(scc)
  {
  }

  /** Because only the first cycle is judged, an unconditional cycle can stay silent: node 0
      includes 1 conditionally and 2 unconditionally, and both include it back the same way.
      The three files are the only component, and the check reports nothing. Listing the
      successors of 0 in the other order reports the component. */
  lemma UnconditionalCycleCanHide(a: seq<seq<nat>>, b: seq<seq<nat>>)
    requires var (g, h) := (TwoLoops(1, 2), TwoLoops(2, 1));
      IsSccList(g.graph, a) && IsSccList(h.graph, b)
    ensures var (g, h) := (TwoLoops(1, 2), TwoLoops(2, 1));
      && g.Valid() && h.Valid() && SameEdges(g.graph, h.graph)
      && a == [[0, 1, 2]] && b == a
      && IsCycle(g.graph, {0, 1, 2}, 0, [2]) && !IsConditional(g, 0, 2) && !IsConditional(g, 2, 0)
      && Findings((p, q) => false, g, a, |a|) == []
      && |Findings((p, q) => false, h, b, |b|)| == 1
  {
    hide IsSccList, IsScc, IsCycle, Finding;
    var g, h := TwoLoops(1, 2), TwoLoops(2, 1);
    assert SubEdges(g.graph, h.graph) && SubEdges(h.graph, g.graph);
    TwoLoopsComponents(g.graph);
    TwoLoopsComponents(h.graph);
    SccListUnique(g.graph, g.graph, a, [[0, 1, 2]]);
    SccListUnique(h.graph, h.graph, b, [[0, 1, 2]]);
    HiddenCycle(g.graph);
    SilentFinding(g);
    LoudFinding(h);
    OneFinding(g, [0, 1, 2]);
    OneFinding(h, [0, 1, 2]);
  }

  /** File 0 includes `x` and `y`, which include it back; the loop through 1 is conditional. */
  function TwoLoops(x: nat, y: nat): PathGraph {
    PathGraph(["a", "b", "c"], Digraph([[x, y], [0], [0]]), {(0, 1), (1, 0)})
  }

  lemma OneFinding(g: PathGraph, scc: seq<nat>)
    ensures Findings((p, q) => false, g, [scc], 1) == Finding((p, q) => false, g, scc)
  {
    hide Finding;
    var zero := 0;
    assert Findings((p, q) => false, g, [scc], zero) == [];
  }

  lemma TwoLoopsComponents(g: Digraph)
    requires |g.succ| == 3 && (g.succ[0] == [1, 2] || g.succ[0] == [2, 1]) && g.succ[1] == [0] && g.succ[2] == [0]
    ensures IsSccList(g, [[0, 1, 2]])
  {
    hide Reaches;
    forall v: nat | g.Node(v)
      ensures Reaches(g, 0, v) && Reaches(g, v, 0)
    {
      ReachesSelf(g, 0);
      if v != 0 {
        assert v == 1 || v == 2;
        assert g.Edge(0, v) && g.Edge(v, 0);
        ReachesEdge(g, 0, v);
        ReachesEdge(g, v, 0);
      }
    }
    forall u: nat, v: nat | u in [0, 1, 2]
      ensures v in [0, 1, 2] <==> Mutual(g, u, v)
    {
      if v in [0, 1, 2] {
        ReachesTrans(g, u, 0, v);
        ReachesTrans(g, v, 0, u);
      } else if Reaches(g, u, v) {
        var nodes := iset x: nat | g.Node(x);
        ReachesStaysInClosed(g, nodes, u, v);
      }
    }
    assert IsScc(g, [0, 1, 2]);
    assert [[0, 1, 2]][0] == [0, 1, 2];
  }

  lemma HiddenCycle(g: Digraph)
    requires g == Digraph([[1, 2], [0], [0]])
    ensures IsCycle(g, {0, 1, 2}, 0, [2])
  {
    var p := [0] + [2] + [0];
    assert p == [0, 2, 0];
    assert g.Edge(0, 2) && g.Edge(2, 0);
  }

  lemma SilentFinding(g: PathGraph)
    requires g.graph == Digraph([[1, 2], [0], [0]]) && (0, 1) in g.conditional && (1, 0) in g.conditional
    ensures Finding((p, q) => false, g, [0, 1, 2]) == []
  {
    assert Members([0, 1, 2]) == {0, 1, 2};
    FindsOne(g.graph, {0, 1, 2}, 1);
    var p := [0] + [1] + [0];
    assert p == [0, 1, 0];
    assert AllConditional(g, 0, [1]);
  }

  lemma LoudFinding(g: PathGraph)
    requires g.graph == Digraph([[2, 1], [0], [0]]) && (0, 2) !in g.conditional
    ensures |Finding((p, q) => false, g, [0, 1, 2])| == 1
  {
    assert Members([0, 1, 2]) == {0, 1, 2};
    FindsOne(g.graph, {0, 1, 2}, 2);
    var p := [0] + [2] + [0];
    assert p == [0, 2, 0] && !IsConditional(g, p[0], p[0 + 1]);
    assert !AllConditional(g, 0, [2]);
  }

  lemma FindsOne(g: Digraph, ms: set<nat>, x: nat)
    requires ms == {0, 1, 2} && (x == 1 || x == 2)
    requires |g.succ| == 3 && |g.succ[0]| == 2 && g.succ[0][0] == x && g.succ[x] == [0]
    ensures FirstCycle(g, ms, 0) == Some([x])
  {
    assert Find(g, ms, 0, {} + {x}, 0) == Some([]);
    assert FindAmong(g, ms, 0, {} + {x}, x, 0) == Some([]);
    assert [x] + [] == [x];
    assert Find(g, ms, 0, {}, x) == Some([x]);
  }
}
