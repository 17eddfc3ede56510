/** Longest paths in an acyclic condensation, found with an explicit work stack. */
module Condensation {

  /** One set of successor components for every component. */
  type Condensed = seq<set<nat>>

  ghost predicate InRange(cond: Condensed) {
    forall u: nat, v: nat :: u < |cond| && v in cond[u] ==> v < |cond|
  }

  ghost predicate Walk(cond: Condensed, p: seq<nat>) {
    && |p| > 0
    && (forall i: nat :: i < |p| ==> p[i] < |cond|)
    && (forall i: nat :: 0 < i < |p| ==> p[i] in cond[p[i - 1]])
  }

  ghost predicate WalkFrom(cond: Condensed, p: seq<nat>, u: nat) {
    Walk(cond, p) && p[0] == u
  }

  ghost predicate Acyclic(cond: Condensed) {
    forall p :: Walk(cond, p) && |p| > 1 ==> p[0] != p[|p| - 1]
  }

  /** `v` can be walked to from `u` in at least one step. */
  ghost predicate StrictlyBelow(cond: Condensed, u: nat, v: nat) {
    exists p :: Walk(cond, p) && |p| > 1 && p[0] == u && p[|p| - 1] == v
  }

  /** The longest walk from `u` has `d` steps. */
  ghost predicate IsDepth(cond: Condensed, u: nat, d: nat) {
    && (exists p :: WalkFrom(cond, p, u) && |p| == d + 1)
    && (forall p :: WalkFrom(cond, p, u) ==> |p| <= d + 1)
  }

  lemma StepBelow(cond: Condensed, u: nat, v: nat)
    requires InRange(cond) && u < |cond| && v in cond[u]
    ensures StrictlyBelow(cond, u, v)
  {
    var p := [u, v];
    assert Walk(cond, p);
  }

  lemma BelowStep(cond: Condensed, u: nat, v: nat, w: nat)
    requires InRange(cond) && StrictlyBelow(cond, u, v) && v < |cond| && w in cond[v]
    ensures StrictlyBelow(cond, u, w)
  {
    var p :| Walk(cond, p) && |p| > 1 && p[0] == u && p[|p| - 1] == v;
    var q := p + [w];
    assert Walk(cond, q);
  }

  lemma NotBelowSelf(cond: Condensed, u: nat)
    requires Acyclic(cond)
    ensures !StrictlyBelow(cond, u, u)
  {
  }

  lemma SecondStep(cond: Condensed, p: seq<nat>)
    requires Walk(cond, p) && |p| > 1
    ensures p[1] in cond[p[0]]
  {
  }

  /** A component with no successors has depth 0. */
  lemma LeafDepth(cond: Condensed, u: nat)
    requires u < |cond| && cond[u] == {}
    ensures IsDepth(cond, u, 0)
  {
    assert WalkFrom(cond, [u], u);
    forall p | WalkFrom(cond, p, u)
      ensures |p| <= 1
    {
      if |p| > 1 {
        SecondStep(cond, p);
      }
    }
  }

  /** `d` is one more than the largest depth among the successors of `u`. */
  lemma InnerDepth(cond: Condensed, depth: seq<nat>, u: nat, d: nat, best: nat)
    requires InRange(cond) && |depth| == |cond| && u < |cond|
    requires forall v: nat :: v in cond[u] ==> IsDepth(cond, v, depth[v]) && depth[v] + 1 <= d
    requires best in cond[u] && d == depth[best] + 1
    ensures IsDepth(cond, u, d)
  {
    assert IsDepth(cond, best, depth[best]);
    var q :| WalkFrom(cond, q, best) && |q| == depth[best] + 1;
    var p := [u] + q;
    assert WalkFrom(cond, p, u);
    forall r | WalkFrom(cond, r, u)
      ensures |r| <= d + 1
    {
      if |r| > 1 {
        var v := r[1];
        assert v in cond[r[1 - 1]];
        var tail := r[1..];
        assert forall i: nat :: 0 < i < |tail| ==> tail[i] == r[i + 1];
        assert WalkFrom(cond, tail, v);
        assert IsDepth(cond, v, depth[v]);
      }
    }
  }

  // ------------------------------------------------------------- the work stack

  ghost predicate Settled(cond: Condensed, depth: seq<nat>, done: seq<bool>) {
    && InRange(cond) && |depth| == |done| == |cond|
    && (forall u: nat :: u < |cond| && done[u] ==> IsDepth(cond, u, depth[u]))
    && (forall u: nat :: u < |cond| && !done[u] ==> depth[u] == 0)
  }

  /** `pos` remembers, for each component expanded and not yet done, the place in the
      stack where it waits; what lies above it is strictly below it in the condensation,
      and all its pending successors are there. */
  ghost predicate Waiting(cond: Condensed, done: seq<bool>, stack: seq<nat>, pos: map<nat, nat>) {
    && |done| == |cond|
    && (forall q: nat :: q < |stack| ==> stack[q] < |cond|)
    && (forall u: nat :: u in pos ==> pos[u] < |stack| && stack[pos[u]] == u && u < |done| && !done[u])
    && (forall u: nat, q: nat :: u in pos && pos[u] < q < |stack| ==> StrictlyBelow(cond, u, stack[q]))
    && (forall u: nat, v: nat :: u in pos && v in cond[u] && v < |done| && !done[v] ==> Above(stack, pos[u], v))
  }

  ghost predicate Above(stack: seq<nat>, p: nat, v: nat) {
    exists q: nat :: p < q < |stack| && stack[q] == v
  }

  /** Components not yet expanded and not yet done. */
  ghost function Unseen(cond: Condensed, done: seq<bool>, pos: map<nat, nat>): set<nat> {
    set u: nat | u < |cond| && u < |done| && !done[u] && u !in pos
  }

  ghost function Pending(done: seq<bool>): set<nat> {
    set u: nat | u < |done| && !done[u]
  }

  /** Dropping a finished top entry keeps the bookkeeping. */
  lemma DropDone(cond: Condensed, done: seq<bool>, stack: seq<nat>, pos: map<nat, nat>)
    requires Waiting(cond, done, stack, pos) && |stack| > 0
    requires stack[|stack| - 1] < |done| && done[stack[|stack| - 1]]
    ensures Waiting(cond, done, stack[..|stack| - 1], pos)
  {
    hide StrictlyBelow;
    var t := stack[..|stack| - 1];
    forall u: nat, v: nat | u in pos && v in cond[u] && v < |done| && !done[v]
      ensures Above(t, pos[u], v)
    {
      assert Above(stack, pos[u], v);
      var q: nat :| pos[u] < q < |stack| && stack[q] == v;
      assert t[q] == v;
    }
  }

  /** An expanded component that is back on top has no pending successor left. */
  lemma BackOnTop(cond: Condensed, done: seq<bool>, stack: seq<nat>, pos: map<nat, nat>, v: nat)
    requires Acyclic(cond) && InRange(cond) && Waiting(cond, done, stack, pos) && |stack| > 0
    requires stack[|stack| - 1] in pos && v in cond[stack[|stack| - 1]]
    ensures done[v]
  {
    var top := |stack| - 1;
    var u := stack[top];
    NotBelowSelf(cond, u);
    assert pos[u] == top;
    assert !done[v] ==> Above(stack, pos[u], v);
  }

  /** Expanding a fresh top entry pushes its pending successors above it. */
  lemma Expand(cond: Condensed, done: seq<bool>, stack: seq<nat>, pos: map<nat, nat>, pushed: seq<nat>)
    requires InRange(cond) && Waiting(cond, done, stack, pos) && |stack| > 0
    requires !done[stack[|stack| - 1]] && stack[|stack| - 1] !in pos
    requires forall v :: v in pushed <==> v in cond[stack[|stack| - 1]] && !done[v]
    ensures Waiting(cond, done, stack + pushed, pos[stack[|stack| - 1] := |stack| - 1])
  {
    hide StrictlyBelow;
    var top := |stack| - 1;
    var u := stack[top];
    var t, pos' := stack + pushed, pos[u := top];
    forall q: nat | q < |t|
      ensures t[q] < |cond|
      ensures q > top ==> t[q] in cond[u]
    {
      if q > top {
        assert t[q] == pushed[q - |stack|] && t[q] in pushed;
      }
    }
    forall x: nat, q: nat | x in pos' && pos'[x] < q < |t|
      ensures StrictlyBelow(cond, x, t[q])
    {
      if q > top {
        if x == u {
          StepBelow(cond, u, t[q]);
        } else {
          assert StrictlyBelow(cond, x, stack[top]);
          BelowStep(cond, x, u, t[q]);
        }
      }
    }
    forall x: nat, v: nat | x in pos' && v in cond[x] && v < |done| && !done[v]
      ensures Above(t, pos'[x], v)
    {
      if x == u {
        assert v in pushed;
        var i: nat :| i < |pushed| && pushed[i] == v;
        assert t[|stack| + i] == v;
      } else {
        assert Above(stack, pos[x], v);
        var q: nat :| pos[x] < q < |stack| && stack[q] == v;
        assert t[q] == v;
      }
    }
  }

  /** Finishing the top entry takes it out of the bookkeeping. */
  lemma Finish(cond: Condensed, done: seq<bool>, stack: seq<nat>, pos: map<nat, nat>)
    requires Acyclic(cond) && Waiting(cond, done, stack, pos) && |stack| > 0
    requires !done[stack[|stack| - 1]]
    ensures Waiting(cond, done[stack[|stack| - 1] := true], stack[..|stack| - 1], pos - {stack[|stack| - 1]})
  {
    var top := |stack| - 1;
    var u := stack[top];
    var t, done', pos' := stack[..top], done[u := true], pos - {u};
    hide StrictlyBelow, Acyclic;
    forall x: nat | x in pos'
      ensures pos'[x] < |t| && t[pos'[x]] == x && !done'[x]
    {
      assert x in pos && x != u && stack[pos[x]] == x;
    }
    forall x: nat, v: nat | x in pos' && v in cond[x] && v < |done'| && !done'[v]
      ensures Above(t, pos'[x], v)
    {
      AboveStays(stack, u, pos[x], v);
    }
  }

  lemma AboveStays(stack: seq<nat>, u: nat, p: nat, v: nat)
    requires |stack| > 0 && u == stack[|stack| - 1] && v != u && Above(stack, p, v)
    ensures Above(stack[..|stack| - 1], p, v)
  {
    var t := stack[..|stack| - 1];
    var q: nat :| p < q < |stack| && stack[q] == v;
    assert t[q] == v;
  }

  /** Visits the pending successors of `u` in some order. */
  method PushPending(succs: set<nat>, done: array<bool>) returns (pushed: seq<nat>, ready: bool)
    requires forall v :: v in succs ==> v < done.Length
    ensures forall v :: v in pushed <==> v in succs && !done[v]
    ensures ready <==> forall v :: v in succs ==> done[v]
  {
    pushed, ready := [], true;
    var rest := succs;
    while rest != {}
      invariant rest <= succs
      invariant forall v :: v in pushed <==> v in succs && v !in rest && !done[v]
      invariant ready <==> forall v :: v in succs && v !in rest ==> done[v]
      decreases rest
    {
      var v :| v in rest;
      rest := rest - {v};
      if !done[v] {
        pushed, ready := pushed + [v], false;
      }
    }
  }

  /** One more than the largest successor depth, 0 without successors. */
  method DepthAbove(succs: set<nat>, depth: array<nat>) returns (d: nat, ghost best: nat)
    requires forall v :: v in succs ==> v < depth.Length
    ensures forall v :: v in succs ==> depth[v] + 1 <= d
    ensures succs == {} ==> d == 0
    ensures succs != {} ==> best in succs && d == depth[best] + 1
  {
    d, best := 0, 0;
    var rest := succs;
    while rest != {}
      invariant rest <= succs
      invariant forall v :: v in succs && v !in rest ==> depth[v] + 1 <= d
      invariant rest == succs ==> d == 0
      invariant rest != succs ==> best in succs && d == depth[best] + 1
      decreases rest
    {
      var v :| v in rest;
      rest := rest - {v};
      if d < depth[v] + 1 {
        d, best := depth[v] + 1, v;
      }
    }
  }

  /** Settles the depths of everything reachable from `root`. The stack may hold a
      component many times, yet each one is expanded at most once. */
  method ResolveDepthFrom(root: nat, cond: Condensed, depth: array<nat>, done: array<bool>)
    requires Acyclic(cond) && Settled(cond, depth[..], done[..]) && root < |cond|
    modifies depth, done
    ensures Settled(cond, depth[..], done[..]) && done[root]
    ensures forall u: nat :: u < |cond| && old(done[u]) ==> done[u]
  {
    hide Acyclic, StrictlyBelow, IsDepth, Waiting;
    var stack := [root];
    ghost var pos: map<nat, nat> := map[];
    StartWaiting(cond, done[..], root);
    while stack != []
      invariant Settled(cond, depth[..], done[..])
      invariant Waiting(cond, done[..], stack, pos)
      invariant stack != [] ==> stack[0] == root
      invariant stack == [] ==> done[root]
      invariant forall u: nat :: u < |cond| && old(done[u]) ==> done[u]
      decreases Unseen(cond, done[..], pos), Pending(done[..]), |stack|
    {
      ghost var was := done[..];
      TopInRange(cond, was, stack, pos);
      var u := stack[|stack| - 1];
      if done[u] {
        DropDone(cond, was, stack, pos);
        stack := stack[..|stack| - 1];
        continue;
      }
      var pushed, ready := PushPending(cond[u], done);
      if !ready {
        if u in pos {
          forall v | v in cond[u]
            ensures done[v]
          {
            BackOnTop(cond, was, stack, pos, v);
          }
        }
        Expand(cond, was, stack, pos, pushed);
        ghost var unseen := Unseen(cond, was, pos);
        pos := pos[u := |stack| - 1];
        assert Unseen(cond, was, pos) == unseen - {u} && u in unseen;
        stack := stack + pushed;
        continue;
      }
      var d, best := DepthAbove(cond[u], depth);
      ghost var deep := depth[..];
      SettleOne(cond, deep, was, u, d, best);
      Finish(cond, was, stack, pos);
      Shrinks(cond, was, pos, u);
      depth[u] := d;
      done[u] := true;
      assert depth[..] == deep[u := d] && done[..] == was[u := true];
      pos := pos - {u};
      stack := stack[..|stack| - 1];
    }
  }

  /** Recording the depth of a component whose successors are all done. */
  lemma SettleOne(cond: Condensed, depth: seq<nat>, done: seq<bool>, u: nat, d: nat, best: nat)
    requires Settled(cond, depth, done) && u < |cond| && !done[u]
    requires forall v :: v in cond[u] ==> done[v] && depth[v] + 1 <= d
    requires cond[u] == {} ==> d == 0
    requires cond[u] != {} ==> best in cond[u] && d == depth[best] + 1
    ensures Settled(cond, depth[u := d], done[u := true])
  {
    hide IsDepth;
    if cond[u] == {} {
      LeafDepth(cond, u);
    } else {
      InnerDepth(cond, depth, u, d, best);
    }
  }

  lemma Shrinks(cond: Condensed, done: seq<bool>, pos: map<nat, nat>, u: nat)
    requires |done| == |cond| && u < |done| && !done[u]
    ensures Unseen(cond, done[u := true], pos - {u}) <= Unseen(cond, done, pos)
    ensures Pending(done[u := true]) < Pending(done)
  {
    assert u in Pending(done);
  }

  lemma StartWaiting(cond: Condensed, done: seq<bool>, root: nat)
    requires |done| == |cond| && root < |cond|
    ensures Waiting(cond, done, [root], map[])
  {
  }

  lemma TopInRange(cond: Condensed, done: seq<bool>, stack: seq<nat>, pos: map<nat, nat>)
    requires Waiting(cond, done, stack, pos) && stack != []
    ensures stack[|stack| - 1] < |cond| == |done|
  {
  }

  /** The depth of every component of an acyclic condensation. */
  method ComputeSccDepths(cond: Condensed) returns (result: seq<nat>)
    requires Acyclic(cond) && InRange(cond)
    ensures |result| == |cond|
    ensures forall u: nat :: u < |cond| ==> IsDepth(cond, u, result[u])
  {
    hide Acyclic, IsDepth;
    var depth := new nat[|cond|](_ => 0);
    var done := new bool[|cond|](_ => false);
    var root := 0;
    while root < |cond|
      invariant root <= |cond|
      invariant Settled(cond, depth[..], done[..])
      invariant forall u: nat :: u < root ==> done[u]
    {
      if !done[root] {
        ResolveDepthFrom(root, cond, depth, done);
      }
      root := root + 1;
    }
    result := depth[..];
  }
}
