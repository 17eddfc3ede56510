/** Order-aware similarity: the longest common subsequence, computed with two rows. */
module Similarity {
  import opened Subsequences

  ghost predicate Common<T>(c: seq<T>, a: seq<T>, b: seq<T>) {
    IsSub(c, a) && IsSub(c, b)
  }

  /** `n` is the length of the longest common subsequence. */
  ghost predicate IsLcsLength<T(!new)>(a: seq<T>, b: seq<T>, n: nat) {
    && (exists c :: Common(c, a, b) && |c| == n)
    && (forall c :: Common(c, a, b) ==> |c| <= n)
  }

  function MaxNat(x: nat, y: nat): nat {
    if x < y then y else x
  }

  /** The entry of the full table for these two prefixes. */
  function Lcs<T(==)>(a: seq<T>, b: seq<T>): nat
    decreases |a| + |b|
  {
    if a == [] || b == [] then 0
    else if a[|a| - 1] == b[|b| - 1] then Lcs(a[..|a| - 1], b[..|b| - 1]) + 1
    else MaxNat(Lcs(a[..|a| - 1], b), Lcs(a, b[..|b| - 1]))
  }

  /** What a subsequence does with the last element. */
  lemma {:induction false} SubLast<T>(c: seq<T>, a: seq<T>, x: T)
    requires IsSub(c, a + [x])
    ensures IsSub(c, a) || (c != [] && c[|c| - 1] == x && IsSub(c[..|c| - 1], a))
    decreases |a|
  {
    var d := a + [x];
    if c != [] {
      if a == [] {
        assert d[1..] == [];
        if c[0] == d[0] {
          assert c[1..] == [];
          assert c[..|c| - 1] == [];
        }
      } else {
        assert d[1..] == a[1..] + [x] && d[0] == a[0];
        if c[0] == a[0] {
          SubLast(c[1..], a[1..], x);
          if !IsSub(c[1..], a[1..]) {
            var e := c[..|c| - 1];
            assert e[0] == c[0] && e[1..] == c[1..][..|c[1..]| - 1];
          }
        } else {
          SubLast(c, a[1..], x);
          if !IsSub(c, a[1..]) {
            SubSkip(c[..|c| - 1], a[1..], a[0]);
            assert [a[0]] + a[1..] == a;
          }
        }
      }
    }
  }

  lemma InitIsSub<T>(c: seq<T>, a: seq<T>)
    requires c != [] && IsSub(c, a)
    ensures IsSub(c[..|c| - 1], a)
  {
    var e := c[..|c| - 1];
    SubSelf(e);
    SubMore(e, e, [c[|c| - 1]]);
    assert e + [c[|c| - 1]] == c;
    SubTrans(e, c, a);
  }

  /** No common subsequence is longer than the table entry. */
  lemma {:induction false} LcsBounds<T>(c: seq<T>, a: seq<T>, b: seq<T>)
    requires Common(c, a, b)
    ensures |c| <= Lcs(a, b)
    decreases |a| + |b|
  {
    hide IsSub;
    if a == [] || b == [] {
      SubShorter(c, a);
      SubShorter(c, b);
    } else {
      var a', x := a[..|a| - 1], a[|a| - 1];
      var b', y := b[..|b| - 1], b[|b| - 1];
      assert a == a' + [x] && b == b' + [y];
      SubLast(c, a', x);
      SubLast(c, b', y);
      if x == y {
        if IsSub(c, a') && IsSub(c, b') {
          LcsBounds(c, a', b');
        } else {
          if IsSub(c, a') {
            InitIsSub(c, a');
          }
          if IsSub(c, b') {
            InitIsSub(c, b');
          }
          LcsBounds(c[..|c| - 1], a', b');
        }
      } else if IsSub(c, a') {
        LcsBounds(c, a', b);
      } else {
        LcsBounds(c, a, b');
      }
    }
  }

  /** Some common subsequence is as long as the table entry. */
  lemma {:induction false} LcsWitness<T>(a: seq<T>, b: seq<T>) returns (c: seq<T>)
    ensures Common(c, a, b) && |c| == Lcs(a, b)
    decreases |a| + |b|
  {
    if a == [] || b == [] {
      c := [];
    } else {
      var a', x := a[..|a| - 1], a[|a| - 1];
      var b', y := b[..|b| - 1], b[|b| - 1];
      assert a == a' + [x] && b == b' + [y];
      if x == y {
        var d := LcsWitness(a', b');
        SubSelf([x]);
        SubConcat(d, a', [x], [x]);
        SubConcat(d, b', [x], [x]);
        c := d + [x];
      } else if Lcs(a', b) >= Lcs(a, b') {
        c := LcsWitness(a', b);
        SubMore(c, a', [x]);
      } else {
        c := LcsWitness(a, b');
        SubMore(c, b', [y]);
      }
    }
  }

  /** The table entry is the length of the longest common subsequence. */
  lemma LcsIsLongest<T(!new)>(a: seq<T>, b: seq<T>)
    ensures IsLcsLength(a, b, Lcs(a, b))
  {
    hide IsSub, Lcs;
    var c := LcsWitness(a, b);
    forall d | Common(d, a, b)
      ensures |d| <= Lcs(a, b)
    {
      LcsBounds(d, a, b);
    }
  }

  lemma {:induction false} LcsSymmetric<T>(a: seq<T>, b: seq<T>)
    ensures Lcs(a, b) == Lcs(b, a)
  {
    hide IsSub, Lcs;
    var c := LcsWitness(a, b);
    LcsBounds(c, b, a);
    var d := LcsWitness(b, a);
    LcsBounds(d, a, b);
  }

  /** The entry of the table in row `i` and column `j`. */
  function Entry<T(==)>(a: seq<T>, b: seq<T>, i: nat, j: nat): nat
    requires i <= |a| && j <= |b|
  {
    Lcs(a[..i], b[..j])
  }

  lemma EntryStep<T>(a: seq<T>, b: seq<T>, i: nat, j: nat)
    requires i <= |a| && j <= |b|
    ensures Entry(a, b, i, j)
         == if i == 0 || j == 0 then 0
            else if a[i - 1] == b[j - 1] then Entry(a, b, i - 1, j - 1) + 1
            else MaxNat(Entry(a, b, i - 1, j), Entry(a, b, i, j - 1))
  {
    if i > 0 && j > 0 {
      assert a[..i][..i - 1] == a[..i - 1] && b[..j][..j - 1] == b[..j - 1];
    }
  }

  lemma LastEntry<T>(a: seq<T>, b: seq<T>)
    ensures Entry(a, b, |a|, |b|) == Lcs(a, b)
  {
    hide Lcs;
    assert a[..|a|] == a && b[..|b|] == b;
  }

  /** Two rows suffice: the method keeps the row before and the row being filled. */
  method LcsLength<T(==)>(a: seq<T>, b: seq<T>) returns (n: nat)
    ensures n == Lcs(a, b)
  {
    hide Lcs, Entry;
    var prev := new nat[|b| + 1](_ => 0);
    var cur := new nat[|b| + 1](_ => 0);
    forall j: nat | j <= |b|
      ensures Entry(a, b, 0, j) == 0
    {
      EntryStep(a, b, 0, j);
    }
    var i := 1;
    while i <= |a|
      invariant 1 <= i <= |a| + 1
      invariant prev != cur && prev.Length == cur.Length == |b| + 1
      invariant fresh(prev) && fresh(cur)
      invariant cur[0] == 0
      invariant forall j: nat :: j <= |b| ==> prev[j] == Entry(a, b, i - 1, j)
    {
      EntryStep(a, b, i, 0);
      var j := 1;
      while j <= |b|
        invariant 1 <= j <= |b| + 1
        invariant cur[0] == 0
        invariant forall k: nat :: k <= |b| ==> prev[k] == Entry(a, b, i - 1, k)
        invariant forall k: nat :: k < j ==> cur[k] == Entry(a, b, i, k)
      {
        EntryStep(a, b, i, j);
        cur[j] := if a[i - 1] == b[j - 1] then prev[j - 1] + 1 else MaxNat(prev[j], cur[j - 1]);
        j := j + 1;
      }
      EntryStep(a, b, i - 1, 0);
      prev, cur := cur, prev;
      i := i + 1;
    }
    LastEntry(a, b);
    n := prev[|b|];
  }

  /** Twice the longest common subsequence over the total length. */
  function Ratio<T(==)>(a: seq<T>, b: seq<T>): real {
    if |a| + |b| > 0 then (2 * Lcs(a, b)) as real / (|a| + |b|) as real else 0.0
  }

  method LcsRatio<T(==)>(a: seq<T>, b: seq<T>) returns (r: real)
    ensures r == Ratio(a, b)
  {
    var lcs := LcsLength(a, b);
    var lenSum := |a| + |b|;
    r := if lenSum > 0 then (2 * lcs) as real / lenSum as real else 0.0;
  }

  lemma LcsShort<T>(a: seq<T>, b: seq<T>)
    ensures Lcs(a, b) <= |a| && Lcs(a, b) <= |b|
    ensures Lcs(a, b) == |a| == |b| ==> a == b
    ensures a == b ==> Lcs(a, b) == |a|
  {
    hide IsSub, Lcs;
    var c := LcsWitness(a, b);
    SubShorter(c, a);
    SubShorter(c, b);
    if a == b {
      SubSelf(a);
      LcsBounds(a, a, b);
    }
  }

  /** The ratio lies between 0 and 1, and is 1 exactly for two equal, non-empty sequences. */
  lemma RatioIsOneIffEqual<T>(a: seq<T>, b: seq<T>)
    ensures 0.0 <= Ratio(a, b) <= 1.0
    ensures Ratio(a, b) == 1.0 <==> a == b && a != []
    ensures Ratio(a, b) == Ratio(b, a)
  {
    hide Lcs;
    LcsShort(a, b);
    LcsSymmetric(a, b);
    var n, l := |a| + |b|, 2 * Lcs(a, b);
    if n > 0 {
      DivideBounds(l as real, n as real);
    }
  }

  lemma DivideBounds(x: real, y: real)
    requires 0.0 <= x <= y && y > 0.0
    ensures 0.0 <= x / y <= 1.0
    ensures x / y == 1.0 <==> x == y
  {
  }
}
