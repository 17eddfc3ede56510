/** What a list of strongly connected components must be, and that it is unique. */
module SccPartition {
  import opened Digraphs
  import opened Sorting
  import opened TarjanSpec

  /** All classes of mutual reachability, each once, in any order. */
  ghost predicate IsPartition(g: Digraph, comps: seq<seq<nat>>) {
    && (forall c: nat :: c < |comps| ==> IsScc(g, comps[c]))
    && (forall v: nat :: g.Node(v) ==> exists c: nat :: c < |comps| && v in comps[c])
    && Disjoint(comps)
  }

  ghost predicate Disjoint(s: seq<seq<nat>>) {
    forall c: nat, d: nat, v: nat :: c < d < |s| && v in s[c] ==> v !in s[d]
  }

  lemma SameBlock(s: seq<seq<nat>>, c: nat, d: nat, v: nat)
    requires Disjoint(s) && c < |s| && d < |s| && v in s[c] && v in s[d]
    ensures c == d
  {
  }

  /** Each component is sorted, and the components are ordered by least member. */
  ghost predicate Canonical(comps: seq<seq<nat>>) {
    && (forall c: nat :: c < |comps| ==> |comps[c]| > 0 && StrictlyIncreasing(comps[c]))
    && (forall c: nat, d: nat :: c < d < |comps| ==> comps[c][0] < comps[d][0])
  }

  ghost predicate IsSccList(g: Digraph, comps: seq<seq<nat>>) {
    IsPartition(g, comps) && Canonical(comps)
  }

  function Fronts(comps: seq<seq<nat>>): seq<nat>
    requires forall c: nat :: c < |comps| ==> |comps[c]| > 0
  {
    seq(|comps|, i requires 0 <= i < |comps| => comps[i][0])
  }

  /** The graphs have the same nodes and the same edges; list order and repetition may differ. */
  ghost predicate SameEdges(g: Digraph, h: Digraph) {
    |g.succ| == |h.succ| && SubEdges(g, h) && SubEdges(h, g)
  }

  lemma SameMutual(g: Digraph, h: Digraph, u: nat, v: nat)
    requires SameEdges(g, h) && Mutual(g, u, v)
    ensures Mutual(h, u, v)
  {
    ReachesMonotone(g, h, u, v);
    ReachesMonotone(g, h, v, u);
  }

  lemma SameMutualAll(g: Digraph, h: Digraph)
    requires SameEdges(g, h)
    ensures forall u: nat, v: nat :: Mutual(g, u, v) <==> Mutual(h, u, v)
  {
    hide Mutual, SameEdges;
    forall u: nat, v: nat
      ensures Mutual(g, u, v) <==> Mutual(h, u, v)
    {
      if Mutual(g, u, v) {
        SameMutual(g, h, u, v);
      }
      if Mutual(h, u, v) {
        assert SameEdges(h, g) by { SameEdgesFlip(g, h); }
        SameMutual(h, g, u, v);
      }
    }
  }

  lemma SameEdgesFlip(g: Digraph, h: Digraph)
    requires SameEdges(g, h)
    ensures SameEdges(h, g)
  {
  }

  /** Members of one component are never mutually reachable with members of another. */
  lemma SameClassSameIndex(g: Digraph, comps: seq<seq<nat>>, c: nat, d: nat, u: nat, v: nat)
    requires IsPartition(g, comps) && c < |comps| && d < |comps| && u in comps[c] && v in comps[d]
    ensures Mutual(g, u, v) <==> c == d
  {
    hide Mutual;
    assert v in comps[c] <==> Mutual(g, u, v) by {
      assert IsScc(g, comps[c]);
    }
    if v in comps[c] {
      SameBlock(comps, c, d, v);
    }
  }

  /** Every component of one list is a component of the other. */
  lemma FrontsAgree(g: Digraph, h: Digraph, a: seq<seq<nat>>, b: seq<seq<nat>>, c: nat) returns (d: nat)
    requires SameEdges(g, h) && IsSccList(g, a) && IsSccList(h, b) && c < |a|
    ensures d < |b| && b[d] == a[c]
  {
    hide Mutual, SameEdges, Disjoint;
    var v := a[c][0];
    assert IsScc(g, a[c]) && v in a[c];
    SameNode(g, h, v);
    d :| d < |b| && v in b[d];
    SameClass(g, h, a[c], b[d], v);
  }

  lemma SameClass(g: Digraph, h: Digraph, x: seq<nat>, y: seq<nat>, v: nat)
    requires SameEdges(g, h) && IsScc(g, x) && IsScc(h, y) && v in x && v in y
    requires StrictlyIncreasing(x) && StrictlyIncreasing(y)
    ensures x == y
  {
    SameMutualAll(g, h);
    hide Mutual, SameEdges, StrictlyIncreasing;
    IncreasingUnique(x, y);
  }

  lemma SameNode(g: Digraph, h: Digraph, v: nat)
    requires SameEdges(g, h) && g.Node(v)
    ensures h.Node(v)
  {
  }

  /** The component list depends only on the edge relation: not on the order of the
      adjacency lists, nor on the order in which the search happened to run. */
  lemma SccListUnique(g: Digraph, h: Digraph, a: seq<seq<nat>>, b: seq<seq<nat>>)
    requires SameEdges(g, h) && IsSccList(g, a) && IsSccList(h, b)
    ensures a == b
  {
    hide IsPartition, SameEdges;
    var fa, fb := Fronts(a), Fronts(b);
    forall x | x in fa
      ensures x in fb
    {
      var c: nat :| c < |fa| && fa[c] == x;
      var d := FrontsAgree(g, h, a, b, c);
      assert fb[d] == x;
    }
    forall x | x in fb
      ensures x in fa
    {
      var c: nat :| c < |fb| && fb[c] == x;
      SameEdgesFlip(g, h);
      var d := FrontsAgree(h, g, b, a, c);
      assert fa[d] == x;
    }
    IncreasingUnique(fa, fb);
    forall i: nat | i < |a|
      ensures a[i] == b[i]
    {
      var d := FrontsAgree(g, h, a, b, i);
      assert fa[i] == fb[i] && fb[d] == fa[i];
    }
  }

  // ---------------------------------------------------------------- sorting them

  predicate FrontLess(a: seq<nat>, b: seq<nat>) {
    (if |a| > 0 then a[0] else 0) < (if |b| > 0 then b[0] else 0)
  }

  /** Sort each component, then the components by their first members. */
  function SortComps(s: seq<seq<nat>>): seq<seq<nat>> {
    SortBy(FrontLess, SortEach(s))
  }

  function SortEach(s: seq<seq<nat>>): (r: seq<seq<nat>>)
    ensures |r| == |s| && forall i: nat :: i < |s| ==> r[i] == Sort(s[i])
  {
    seq(|s|, i requires 0 <= i < |s| => Sort(s[i]))
  }

  /** Distinct, disjoint, non-empty sequences. */
  ghost predicate Blocks(s: seq<seq<nat>>) {
    && (forall c: nat :: c < |s| ==> |s[c]| > 0)
    && (forall c: nat, i: nat, j: nat :: c < |s| && i < j < |s[c]| ==> s[c][i] != s[c][j])
    && Disjoint(s)
  }

  ghost predicate SortedForm(s: seq<seq<nat>>, x: seq<nat>) {
    exists i: nat :: i < |s| && x == Sort(s[i])
  }

  lemma SortCompsKeeps(s: seq<seq<nat>>)
    requires Blocks(s)
    ensures Canonical(SortComps(s))
    ensures forall x :: x in SortComps(s) <==> SortedForm(s, x)
  {
    hide Sort;
    var t := SortEach(s);
    forall c: nat | c < |s|
      ensures |t[c]| > 0 && StrictlyIncreasing(t[c]) && t[c][0] in s[c]
    {
      SortKeeps(s[c]);
      assert t[c][0] in t[c];
    }
    assert Separated(FrontLess, t);
    SortRises(FrontLess, t);
    SortMembers(FrontLess, t);
    assert forall x :: x in t <==> SortedForm(s, x);
    var r := SortBy(FrontLess, t);
    forall c: nat | c < |r|
      ensures |r[c]| > 0 && StrictlyIncreasing(r[c])
    {
      assert r[c] in r;
    }
    assert forall c: nat, d: nat :: c < d < |r| ==> FrontLess(r[c], r[d]);
  }

  /** Sorting turns a partition into the canonical list of components. */
  lemma SortedPartition(g: Digraph, comps: seq<seq<nat>>)
    requires IsPartition(g, comps)
    ensures IsSccList(g, SortComps(comps))
  {
    hide IsScc, Canonical, SortedForm, Blocks, Disjoint;
    PartitionBlocks(g, comps);
    SortCompsKeeps(comps);
    var r := SortComps(comps);
    forall c: nat | c < |r|
      ensures IsScc(g, r[c])
    {
      var i := SortedFrom(comps, r, c);
      SortedScc(g, comps[i]);
    }
    forall v: nat | g.Node(v)
      ensures exists c: nat :: c < |r| && v in r[c]
    {
      var i: nat :| i < |comps| && v in comps[i];
      var c := SortedInto(g, comps, r, i);
    }
    SortedAllDisjoint(comps, r);
  }

  lemma PartitionBlocks(g: Digraph, comps: seq<seq<nat>>)
    requires IsPartition(g, comps)
    ensures Blocks(comps)
  {
    hide Mutual;
    forall c: nat | c < |comps|
      ensures |comps[c]| > 0
      ensures forall i: nat, j: nat :: i < j < |comps[c]| ==> comps[c][i] != comps[c][j]
    {
      assert IsScc(g, comps[c]);
    }
  }

  lemma SortedInto(g: Digraph, comps: seq<seq<nat>>, r: seq<seq<nat>>, i: nat) returns (c: nat)
    requires forall x :: x in r <==> SortedForm(comps, x)
    requires i < |comps| && IsScc(g, comps[i])
    ensures c < |r| && (forall v :: v in comps[i] ==> v in r[c])
  {
    hide Mutual;
    SortKeeps(comps[i]);
    assert SortedForm(comps, Sort(comps[i]));
    c :| c < |r| && r[c] == Sort(comps[i]);
  }

  lemma SortedAllDisjoint(comps: seq<seq<nat>>, r: seq<seq<nat>>)
    requires Blocks(comps) && Canonical(r)
    requires forall x :: x in r <==> SortedForm(comps, x)
    ensures Disjoint(r)
  {
    hide Blocks, Canonical, SortedForm;
    forall c: nat, d: nat, v: nat | c < d < |r| && v in r[c]
      ensures v !in r[d]
    {
      SortedDisjoint(comps, r, c, d, v);
    }
  }

  lemma SortedFrom(comps: seq<seq<nat>>, r: seq<seq<nat>>, c: nat) returns (i: nat)
    requires forall x :: x in r <==> SortedForm(comps, x)
    requires c < |r|
    ensures i < |comps| && r[c] == Sort(comps[i])
  {
    assert r[c] in r;
    i :| i < |comps| && r[c] == Sort(comps[i]);
  }

  lemma SortedScc(g: Digraph, c: seq<nat>)
    requires IsScc(g, c)
    ensures IsScc(g, Sort(c))
  {
    hide Mutual;
    SortKeeps(c);
    var r := Sort(c);
    forall i: nat | i < |r|
      ensures g.Node(r[i])
    {
      assert r[i] in r;
      var j: nat :| j < |c| && c[j] == r[i];
    }
  }

  lemma SortedDisjoint(comps: seq<seq<nat>>, r: seq<seq<nat>>, c: nat, d: nat, v: nat)
    requires Blocks(comps) && Canonical(r)
    requires forall x :: x in r <==> SortedForm(comps, x)
    requires c < d < |r| && v in r[c]
    ensures v !in r[d]
  {
    var i := SortedFrom(comps, r, c);
    var j := SortedFrom(comps, r, d);
    SortKeeps(comps[i]);
    SortKeeps(comps[j]);
    assert i != j;
    if v in r[d] {
      SameBlock(comps, i, j, v);
    }
  }
}
