/** Include depth: the longest chain of ever deeper, cycle-free dependencies that
    starts at a file, computed over the condensation of the include graph. */
module IncludeDepths {
  import opened Digraphs
  import opened TarjanSpec
  import opened SccPartition
  import opened Condensation
  import Tarjan

  // -------------------------------------------------------------- specification

  /** Each node reaches the next, and no way leads back. */
  ghost predicate Descending(g: Digraph, c: seq<nat>) {
    && |c| > 0
    && (forall i: nat :: i < |c| ==> g.Node(c[i]))
    && (forall i: nat :: 0 < i < |c| ==> Below(g, c[i - 1], c[i]))
  }

  ghost predicate Below(g: Digraph, u: nat, v: nat) {
    Reaches(g, u, v) && !Reaches(g, v, u)
  }

  ghost predicate DescendingFrom(g: Digraph, c: seq<nat>, v: nat) {
    Descending(g, c) && c[0] == v
  }

  /** The longest descending chain from `v` has `d` steps. */
  ghost predicate IsIncludeDepth(g: Digraph, v: nat, d: nat) {
    && (exists c :: DescendingFrom(g, c, v) && |c| == d + 1)
    && (forall c :: DescendingFrom(g, c, v) ==> |c| <= d + 1)
  }

  lemma IncludeDepthUnique(g: Digraph, v: nat, d: nat, e: nat)
    requires IsIncludeDepth(g, v, d) && IsIncludeDepth(g, v, e)
    ensures d == e
  {
    var c :| DescendingFrom(g, c, v) && |c| == d + 1;
    var b :| DescendingFrom(g, b, v) && |b| == e + 1;
  }

  // --------------------------------------------------------------- condensation

  /** `toScc` sends each node to the component that holds it. */
  ghost predicate Indexes(g: Digraph, comps: seq<seq<nat>>, toScc: seq<nat>) {
    && |toScc| == |g.succ|
    && (forall v: nat :: g.Node(v) ==> toScc[v] < |comps| && v in comps[toScc[v]])
  }

  ghost predicate CrossEdge(g: Digraph, toScc: seq<nat>, u: nat, v: nat, i: nat, j: nat) {
    && |toScc| == |g.succ| && g.Node(i) && g.Node(j)
    && g.Edge(i, j) && toScc[i] == u && toScc[j] == v && u != v
  }

  ghost predicate IsCondensation(g: Digraph, n: nat, toScc: seq<nat>, cond: Condensed) {
    && |cond| == n
    && (forall u: nat, v: nat :: u < n ==> (v in cond[u] <==> exists i: nat, j: nat :: CrossEdge(g, toScc, u, v, i, j)))
  }

  ghost predicate Setting(g: Digraph, comps: seq<seq<nat>>, toScc: seq<nat>, cond: Condensed) {
    && g.Valid() && IsPartition(g, comps) && Indexes(g, comps, toScc)
    && IsCondensation(g, |comps|, toScc, cond) && |cond| == |comps|
  }

  lemma NodeOfScc(g: Digraph, comps: seq<seq<nat>>, toScc: seq<nat>, c: nat, v: nat)
    requires IsPartition(g, comps) && Indexes(g, comps, toScc) && c < |comps| && v in comps[c]
    ensures g.Node(v) && toScc[v] == c
  {
    hide Mutual;
    assert IsScc(g, comps[c]);
    var i: nat :| i < |comps[c]| && comps[c][i] == v;
    assert g.Node(comps[c][i]);
    SameBlock(comps, c, toScc[v], v);
  }

  lemma SameSccMutual(g: Digraph, comps: seq<seq<nat>>, toScc: seq<nat>, u: nat, v: nat)
    requires IsPartition(g, comps) && Indexes(g, comps, toScc) && g.Node(u) && g.Node(v)
    ensures toScc[u] == toScc[v] <==> Mutual(g, u, v)
  {
    hide Mutual, IsPartition;
    SameClassSameIndex(g, comps, toScc[u], toScc[v], u, v);
  }

  lemma CondInRange(g: Digraph, comps: seq<seq<nat>>, toScc: seq<nat>, cond: Condensed)
    requires Setting(g, comps, toScc, cond)
    ensures InRange(cond)
  {
    hide IsPartition;
    forall u: nat, v: nat | u < |cond| && v in cond[u]
      ensures v < |cond|
    {
      var i: nat, j: nat :| CrossEdge(g, toScc, u, v, i, j);
    }
  }

  /** One condensation step is strict descent in the graph, for any representatives. */
  lemma CondStep(g: Digraph, comps: seq<seq<nat>>, toScc: seq<nat>, cond: Condensed, u: nat, v: nat)
    requires Setting(g, comps, toScc, cond) && g.Node(u) && g.Node(v)
    requires toScc[v] in cond[toScc[u]]
    ensures Reaches(g, u, v) && toScc[u] != toScc[v]
  {
    hide IsPartition, Reaches;
    var i: nat, j: nat :| CrossEdge(g, toScc, toScc[u], toScc[v], i, j);
    SameSccMutual(g, comps, toScc, u, i);
    SameSccMutual(g, comps, toScc, j, v);
    ReachesEdge(g, i, j);
    ReachesTrans(g, u, i, j);
    ReachesTrans(g, u, j, v);
  }

  lemma ReachesNotSameBelow(g: Digraph, comps: seq<seq<nat>>, toScc: seq<nat>, u: nat, v: nat)
    requires IsPartition(g, comps) && Indexes(g, comps, toScc) && g.Node(u) && g.Node(v)
    requires Reaches(g, u, v) && toScc[u] != toScc[v]
    ensures Below(g, u, v)
  {
    hide IsPartition, Reaches;
    SameSccMutual(g, comps, toScc, u, v);
  }

  function Representative(comps: seq<seq<nat>>, c: nat): nat {
    if c < |comps| && |comps[c]| > 0 then comps[c][0] else 0
  }

  lemma RepresentativeIn(g: Digraph, comps: seq<seq<nat>>, toScc: seq<nat>, c: nat)
    requires IsPartition(g, comps) && Indexes(g, comps, toScc) && c < |comps|
    ensures g.Node(Representative(comps, c)) && toScc[Representative(comps, c)] == c
  {
    hide Mutual;
    assert IsScc(g, comps[c]);
    NodeOfScc(g, comps, toScc, c, comps[c][0]);
  }

  /** Along a walk of the condensation the first component reaches each later one. */
  lemma {:induction false} WalkReaches(g: Digraph, comps: seq<seq<nat>>, toScc: seq<nat>, cond: Condensed,
      p: seq<nat>, k: nat)
    requires Setting(g, comps, toScc, cond) && Walk(cond, p) && k < |p|
    ensures Reaches(g, Representative(comps, p[0]), Representative(comps, p[k]))
  {
    hide IsPartition, Reaches, IsCondensation;
    RepresentativeIn(g, comps, toScc, p[k]);
    if k == 0 {
      ReachesSelf(g, Representative(comps, p[0]));
    } else {
      WalkReaches(g, comps, toScc, cond, p, k - 1);
      RepresentativeIn(g, comps, toScc, p[k - 1]);
      CondStep(g, comps, toScc, cond, Representative(comps, p[k - 1]), Representative(comps, p[k]));
      ReachesTrans(g, Representative(comps, p[0]), Representative(comps, p[k - 1]), Representative(comps, p[k]));
    }
  }

  /** Contracting the components leaves no cycle. */
  lemma CondAcyclic(g: Digraph, comps: seq<seq<nat>>, toScc: seq<nat>, cond: Condensed)
    requires Setting(g, comps, toScc, cond)
    ensures Acyclic(cond)
  {
    forall p | Walk(cond, p) && |p| > 1
      ensures p[0] != p[|p| - 1]
    {
      NoReturn(g, comps, toScc, cond, p);
    }
  }

  lemma NoReturn(g: Digraph, comps: seq<seq<nat>>, toScc: seq<nat>, cond: Condensed, p: seq<nat>)
    requires Setting(g, comps, toScc, cond) && Walk(cond, p) && |p| > 1
    ensures p[0] != p[|p| - 1]
  {
    hide IsPartition, Reaches, IsCondensation;
    var m := |p| - 2;
    var a, b := Representative(comps, p[m]), Representative(comps, p[m + 1]);
    RepresentativeIn(g, comps, toScc, p[m]);
    RepresentativeIn(g, comps, toScc, p[m + 1]);
    CondStep(g, comps, toScc, cond, a, b);
    WalkReaches(g, comps, toScc, cond, p, m);
    ReachesNotSameBelow(g, comps, toScc, a, b);
  }

  /** A walk of the condensation gives a descending chain of the same length. */
  lemma WalkToChain(g: Digraph, comps: seq<seq<nat>>, toScc: seq<nat>, cond: Condensed, p: seq<nat>, v: nat)
    returns (c: seq<nat>)
    requires Setting(g, comps, toScc, cond) && Walk(cond, p) && g.Node(v) && p[0] == toScc[v]
    ensures DescendingFrom(g, c, v) && |c| == |p|
  {
    hide IsPartition, Reaches, IsCondensation;
    c := seq(|p|, i requires 0 <= i < |p| => if i == 0 then v else Representative(comps, p[i]));
    forall i: nat | i < |c|
      ensures g.Node(c[i]) && toScc[c[i]] == p[i]
    {
      RepresentativeIn(g, comps, toScc, p[i]);
    }
    forall i: nat | 0 < i < |c|
      ensures Below(g, c[i - 1], c[i])
    {
      assert toScc[c[i - 1]] == p[i - 1] && toScc[c[i]] == p[i];
      CondStep(g, comps, toScc, cond, c[i - 1], c[i]);
      ReachesNotSameBelow(g, comps, toScc, c[i - 1], c[i]);
    }
  }

  /** A path of the graph projects to a walk of the condensation. */
  lemma {:induction false} PathToWalk(g: Digraph, comps: seq<seq<nat>>, toScc: seq<nat>, cond: Condensed,
      p: seq<nat>, k: nat)
    returns (w: seq<nat>)
    requires Setting(g, comps, toScc, cond) && IsPath(g, p) && g.Node(p[0]) && k < |p|
    ensures g.Node(p[k])
    ensures Walk(cond, w) && w[0] == toScc[p[0]] && w[|w| - 1] == toScc[p[k]]
  {
    hide IsPartition, Reaches;
    if k == 0 {
      w := [toScc[p[0]]];
    } else {
      w := PathToWalk(g, comps, toScc, cond, p, k - 1);
      assert g.Edge(p[k - 1], p[k - 1 + 1]);
      var a, b := toScc[p[k - 1]], toScc[p[k]];
      if a != b {
        assert CrossEdge(g, toScc, a, b, p[k - 1], p[k]);
        w := w + [b];
      }
    }
  }

  /** Strict descent is a walk of at least one step. */
  lemma BelowToWalk(g: Digraph, comps: seq<seq<nat>>, toScc: seq<nat>, cond: Condensed, u: nat, v: nat)
    returns (w: seq<nat>)
    requires Setting(g, comps, toScc, cond) && g.Node(u) && g.Node(v) && Below(g, u, v)
    ensures Walk(cond, w) && w[0] == toScc[u] && w[|w| - 1] == toScc[v] && |w| > 1
  {
    var p :| Joins(g, p, u, v);
    w := PathToWalk(g, comps, toScc, cond, p, |p| - 1);
    hide IsPartition, Reaches, IsCondensation;
    SameSccMutual(g, comps, toScc, u, v);
  }

  /** A descending chain gives a walk at least as long. */
  lemma {:induction false} ChainToWalk(g: Digraph, comps: seq<seq<nat>>, toScc: seq<nat>, cond: Condensed, c: seq<nat>)
    returns (w: seq<nat>)
    requires Setting(g, comps, toScc, cond) && Descending(g, c)
    ensures Walk(cond, w) && w[0] == toScc[c[0]] && |w| >= |c|
  {
    hide IsPartition, Below, IsCondensation;
    if |c| == 1 {
      w := [toScc[c[0]]];
    } else {
      var d := c[1..];
      forall i: nat | 0 < i < |d|
        ensures Below(g, d[i - 1], d[i])
      {
        assert Below(g, c[(i + 1) - 1], c[i + 1]);
      }
      var tail := ChainToWalk(g, comps, toScc, cond, d);
      assert Below(g, c[1 - 1], c[1]);
      var head := BelowToWalk(g, comps, toScc, cond, c[0], c[1]);
      w := JoinWalks(cond, head, tail);
    }
  }

  lemma JoinWalks(cond: Condensed, p: seq<nat>, q: seq<nat>) returns (w: seq<nat>)
    requires Walk(cond, p) && Walk(cond, q) && p[|p| - 1] == q[0]
    ensures Walk(cond, w) && w[0] == p[0] && |w| == |p| + |q| - 1
  {
    w := p + q[1..];
    forall i: nat | i < |w|
      ensures w[i] < |cond|
    {
      if i >= |p| {
        assert w[i] == q[i - |p| + 1];
      }
    }
    forall i: nat | 0 < i < |w|
      ensures w[i] in cond[w[i - 1]]
    {
      if i >= |p| {
        var k := i - |p| + 1;
        assert w[i] == q[k] && w[i - 1] == q[k - 1];
      }
    }
  }

  /** The depth of a node's component in the condensation is its include depth. */
  lemma DepthTransfers(g: Digraph, comps: seq<seq<nat>>, toScc: seq<nat>, cond: Condensed, v: nat, d: nat)
    requires Setting(g, comps, toScc, cond) && g.Node(v) && IsDepth(cond, toScc[v], d)
    ensures IsIncludeDepth(g, v, d)
  {
    hide IsPartition, IsCondensation, Descending, Walk;
    var p :| WalkFrom(cond, p, toScc[v]) && |p| == d + 1;
    var c := WalkToChain(g, comps, toScc, cond, p, v);
    forall b | DescendingFrom(g, b, v)
      ensures |b| <= d + 1
    {
      var w := ChainToWalk(g, comps, toScc, cond, b);
      assert WalkFrom(cond, w, toScc[v]);
    }
  }

  // ----------------------------------------------------------------- algorithms

  /** The component of each node. */
  method IndexNodes(g: Digraph, comps: seq<seq<nat>>) returns (toScc: seq<nat>)
    requires g.Valid() && IsPartition(g, comps)
    ensures Indexes(g, comps, toScc)
  {
    hide IsPartition;
    toScc := seq(|g.succ|, _ => 0);
    ghost var seen: set<nat> := {};
    var si := 0;
    while si < |comps|
      invariant si <= |comps| && |toScc| == |g.succ|
      invariant forall v: nat :: v in seen ==> v < |toScc| && toScc[v] < |comps| && v in comps[toScc[v]]
      invariant forall c: nat, v: nat :: c < si && v in comps[c] ==> v in seen
    {
      var k := 0;
      SccNodes(g, comps, si);
      while k < |comps[si]|
        invariant k <= |comps[si]| && |toScc| == |g.succ|
        invariant forall v: nat :: v in seen ==> v < |toScc| && toScc[v] < |comps| && v in comps[toScc[v]]
        invariant forall c: nat, v: nat :: c < si && v in comps[c] ==> v in seen
        invariant forall v: nat :: v in comps[si][..k] ==> v in seen
      {
        toScc := toScc[comps[si][k] := si];
        seen := seen + {comps[si][k]};
        k := k + 1;
      }
      si := si + 1;
    }
    AllSeen(g, comps, seen);
  }

  lemma SccNodes(g: Digraph, comps: seq<seq<nat>>, c: nat)
    requires IsPartition(g, comps) && c < |comps|
    ensures forall k: nat :: k < |comps[c]| ==> comps[c][k] < |g.succ|
  {
    hide Mutual;
    assert IsScc(g, comps[c]);
    forall k: nat | k < |comps[c]|
      ensures comps[c][k] < |g.succ|
    {
      assert g.Node(comps[c][k]);
    }
  }

  lemma AllSeen(g: Digraph, comps: seq<seq<nat>>, seen: set<nat>)
    requires IsPartition(g, comps)
    requires forall c: nat, v: nat :: c < |comps| && v in comps[c] ==> v in seen
    ensures forall v: nat :: g.Node(v) ==> v in seen
  {
    hide IsScc, Disjoint;
  }

  /** The edges between different components. */
  method BuildCondensation(g: Digraph, n: nat, toScc: seq<nat>) returns (cond: Condensed)
    requires g.Valid() && |toScc| == |g.succ| && forall v: nat :: v < |toScc| ==> toScc[v] < n
    ensures IsCondensation(g, n, toScc, cond)
  {
    cond := seq(n, _ => {});
    var i := 0;
    while i < |g.succ|
      invariant i <= |g.succ| && |cond| == n
      invariant forall u: nat, v: nat :: u < n ==> (v in cond[u] <==> CrossBefore(g, toScc, u, v, i, 0))
    {
      var k := 0;
      while k < |g.succ[i]|
        invariant k <= |g.succ[i]| && |cond| == n
        invariant forall u: nat, v: nat :: u < n ==> (v in cond[u] <==> CrossBefore(g, toScc, u, v, i, k))
      {
        var u, v := toScc[i], toScc[g.succ[i][k]];
        ghost var was := cond;
        if u != v {
          cond := cond[u := cond[u] + {v}];
        }
        forall a: nat, b: nat | a < n
          ensures b in cond[a] <==> CrossBefore(g, toScc, a, b, i, k + 1)
        {
          assert b in was[a] <==> CrossBefore(g, toScc, a, b, i, k);
          CrossOneMore(g, toScc, a, b, i, k);
        }
        k := k + 1;
      }
      forall a: nat, b: nat | a < n
        ensures b in cond[a] <==> CrossBefore(g, toScc, a, b, i + 1, 0)
      {
        CrossNextNode(g, toScc, a, b, i);
      }
      i := i + 1;
    }
    forall u: nat, v: nat | u < n
      ensures v in cond[u] <==> exists a: nat, b: nat :: CrossEdge(g, toScc, u, v, a, b)
    {
      CrossAll(g, toScc, u, v);
    }
  }

  ghost predicate CrossAt(g: Digraph, toScc: seq<nat>, u: nat, v: nat, a: nat, b: nat) {
    && |toScc| == |g.succ| && a < |g.succ| && b < |g.succ[a]| && g.succ[a][b] < |toScc|
    && toScc[a] == u && toScc[g.succ[a][b]] == v && u != v
  }

  /** A cross edge at a list position before `(i, k)`. */
  ghost predicate CrossBefore(g: Digraph, toScc: seq<nat>, u: nat, v: nat, i: nat, k: nat) {
    exists a: nat, b: nat :: (a < i || (a == i && b < k)) && CrossAt(g, toScc, u, v, a, b)
  }

  lemma CrossOneMore(g: Digraph, toScc: seq<nat>, u: nat, v: nat, i: nat, k: nat)
    ensures CrossBefore(g, toScc, u, v, i, k + 1)
        <==> CrossBefore(g, toScc, u, v, i, k) || CrossAt(g, toScc, u, v, i, k)
  {
  }

  lemma CrossNextNode(g: Digraph, toScc: seq<nat>, u: nat, v: nat, i: nat)
    requires i < |g.succ|
    ensures CrossBefore(g, toScc, u, v, i + 1, 0) <==> CrossBefore(g, toScc, u, v, i, |g.succ[i]|)
  {
  }

  lemma CrossAll(g: Digraph, toScc: seq<nat>, u: nat, v: nat)
    requires g.Valid() && |toScc| == |g.succ|
    ensures CrossBefore(g, toScc, u, v, |g.succ|, 0) <==> exists a: nat, b: nat :: CrossEdge(g, toScc, u, v, a, b)
  {
    if CrossBefore(g, toScc, u, v, |g.succ|, 0) {
      var a: nat, b: nat :| (a < |g.succ| || (a == |g.succ| && b < 0)) && CrossAt(g, toScc, u, v, a, b);
      assert g.succ[a][b] in g.succ[a];
      assert CrossEdge(g, toScc, u, v, a, g.succ[a][b]);
    }
    if exists a: nat, b: nat :: CrossEdge(g, toScc, u, v, a, b) {
      var a: nat, j: nat :| CrossEdge(g, toScc, u, v, a, j);
      var b: nat :| b < |g.succ[a]| && g.succ[a][b] == j;
      assert CrossAt(g, toScc, u, v, a, b);
    }
  }

  /** The include depth of every node. */
  method ComputeIncludeDepths(g: Digraph) returns (result: seq<nat>)
    requires g.Valid()
    ensures |result| == |g.succ|
    ensures forall v: nat :: v < |g.succ| ==> IsIncludeDepth(g, v, result[v])
  {
    hide IsPartition, Canonical, Acyclic, InRange, IsDepth, IsCondensation, IsIncludeDepth;
    var comps := Tarjan.ComputeScc(g);
    var toScc := IndexNodes(g, comps);
    assert forall v: nat :: v < |toScc| ==> g.Node(v);
    var cond := BuildCondensation(g, |comps|, toScc);
    CondAcyclic(g, comps, toScc, cond);
    CondInRange(g, comps, toScc, cond);
    var depth := ComputeSccDepths(cond);
    SameLength(g, |comps|, toScc, cond);
    result := seq(|g.succ|, i requires 0 <= i < |g.succ| => depth[toScc[i]]);
    forall v: nat | v < |g.succ|
      ensures IsIncludeDepth(g, v, result[v])
    {
      DepthTransfers(g, comps, toScc, cond, v, result[v]);
    }
  }

  lemma SameLength(g: Digraph, n: nat, toScc: seq<nat>, cond: Condensed)
    requires IsCondensation(g, n, toScc, cond)
    ensures |cond| == n
  {
  }
}
