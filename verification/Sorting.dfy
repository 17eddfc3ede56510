/** Stable sorting by a strict weak order. The library sort is modelled by
    insertion; the callers rely only on the order and on the elements kept. */
module Sorting {

  ghost predicate StrictWeak<T(!new)>(lt: (T, T) -> bool) {
    && (forall x :: !lt(x, x))
    && (forall x, y, z :: lt(x, y) && lt(y, z) ==> lt(x, z))
    && (forall x, y, z :: lt(x, z) ==> lt(x, y) || lt(y, z))
  }

  /** No later element is smaller than an earlier one. */
  ghost predicate OrderedBy<T>(lt: (T, T) -> bool, s: seq<T>) {
    forall i: nat, j: nat :: i < j < |s| ==> !lt(s[j], s[i])
  }

  /** Every earlier element is smaller than every later one. */
  ghost predicate RisesBy<T>(lt: (T, T) -> bool, s: seq<T>) {
    forall i: nat, j: nat :: i < j < |s| ==> lt(s[i], s[j])
  }

  /** Any two elements at different places are told apart by the order. */
  ghost predicate Separated<T>(lt: (T, T) -> bool, s: seq<T>) {
    forall i: nat, j: nat :: i < j < |s| ==> lt(s[i], s[j]) || lt(s[j], s[i])
  }

  function InsertBy<T>(lt: (T, T) -> bool, x: T, s: seq<T>): seq<T> {
    if s == [] then [x]
    else if !lt(s[0], x) then [x] + s
    else [s[0]] + InsertBy(lt, x, s[1..])
  }

  function SortBy<T>(lt: (T, T) -> bool, s: seq<T>): seq<T> {
    if s == [] then [] else InsertBy(lt, s[0], SortBy(lt, s[1..]))
  }

  lemma {:induction false} InsertElements<T>(lt: (T, T) -> bool, x: T, s: seq<T>)
    ensures multiset(InsertBy(lt, x, s)) == multiset(s) + multiset{x}
  {
    if s != [] {
      assert s == [s[0]] + s[1..];
      if lt(s[0], x) {
        InsertElements(lt, x, s[1..]);
      }
    }
  }

  /** Sorting keeps the elements, with their multiplicities. */
  lemma {:induction false} SortElements<T>(lt: (T, T) -> bool, s: seq<T>)
    ensures multiset(SortBy(lt, s)) == multiset(s)
  {
    if s != [] {
      assert s == [s[0]] + s[1..];
      SortElements(lt, s[1..]);
      InsertElements(lt, s[0], SortBy(lt, s[1..]));
    }
  }

  lemma SortMembers<T>(lt: (T, T) -> bool, s: seq<T>)
    ensures |SortBy(lt, s)| == |s|
    ensures forall x :: x in SortBy(lt, s) <==> x in s
  {
    SortElements(lt, s);
    var r := SortBy(lt, s);
    assert |multiset(r)| == |r| && |multiset(s)| == |s|;
    forall x
      ensures x in r <==> x in s
    {
      assert x in r <==> x in multiset(r);
    }
  }

  lemma {:induction false} InsertOrdered<T(!new)>(lt: (T, T) -> bool, x: T, s: seq<T>)
    requires StrictWeak(lt) && OrderedBy(lt, s)
    ensures OrderedBy(lt, InsertBy(lt, x, s))
  {
    var r := InsertBy(lt, x, s);
    if s != [] {
      var t := s[1..];
      if !lt(s[0], x) {
        forall j: nat | 0 < j < |r|
          ensures !lt(r[j], x)
        {
          assert r[j] == s[j - 1];
        }
      } else {
        InsertOrdered(lt, x, t);
        InsertElements(lt, x, t);
        var q := InsertBy(lt, x, t);
        forall j: nat | j < |q|
          ensures !lt(q[j], s[0])
        {
          assert q[j] in multiset(q);
          if q[j] != x {
            var i: nat :| i < |t| && t[i] == q[j];
            assert t[i] == s[i + 1];
          }
        }
        assert r == [s[0]] + q;
      }
    }
  }

  lemma {:induction false} SortOrdered<T(!new)>(lt: (T, T) -> bool, s: seq<T>)
    requires StrictWeak(lt)
    ensures OrderedBy(lt, SortBy(lt, s))
  {
    if s != [] {
      SortOrdered(lt, s[1..]);
      InsertOrdered(lt, s[0], SortBy(lt, s[1..]));
    }
  }

  /** An element put in place among separated, rising ones keeps them rising. */
  lemma {:induction false} InsertRises<T(!new)>(lt: (T, T) -> bool, x: T, s: seq<T>)
    requires StrictWeak(lt) && RisesBy(lt, s)
    requires forall i: nat :: i < |s| ==> lt(x, s[i]) || lt(s[i], x)
    ensures RisesBy(lt, InsertBy(lt, x, s))
  {
    var r := InsertBy(lt, x, s);
    if s != [] {
      var t := s[1..];
      if !lt(s[0], x) {
        forall j: nat | 0 < j < |r|
          ensures lt(x, r[j])
        {
          assert r[j] == s[j - 1];
          assert lt(x, s[0]);
        }
      } else {
        assert forall i: nat :: i < |t| ==> t[i] == s[i + 1];
        InsertRises(lt, x, t);
        InsertElements(lt, x, t);
        var q := InsertBy(lt, x, t);
        forall j: nat | j < |q|
          ensures lt(s[0], q[j])
        {
          assert q[j] in multiset(q);
          if q[j] != x {
            var i: nat :| i < |t| && t[i] == q[j];
          }
        }
        assert r == [s[0]] + q;
      }
    }
  }

  /** Sorting separated elements gives a strictly rising sequence. */
  lemma {:induction false} SortRises<T(!new)>(lt: (T, T) -> bool, s: seq<T>)
    requires StrictWeak(lt) && Separated(lt, s)
    ensures RisesBy(lt, SortBy(lt, s))
  {
    if s != [] {
      var t := s[1..];
      assert Separated(lt, t) by {
        forall i: nat, j: nat | i < j < |t|
          ensures lt(t[i], t[j]) || lt(t[j], t[i])
        {
          assert t[i] == s[i + 1] && t[j] == s[j + 1];
        }
      }
      SortRises(lt, t);
      SortMembers(lt, t);
      var r := SortBy(lt, t);
      forall i: nat | i < |r|
        ensures lt(s[0], r[i]) || lt(r[i], s[0])
      {
        assert r[i] in t;
        var k: nat :| k < |t| && t[k] == r[i];
        assert t[k] == s[k + 1];
      }
      InsertRises(lt, s[0], r);
    }
  }

  /** A strictly rising sequence is determined by its elements. */
  lemma {:induction false} RisesUnique<T(!new)>(lt: (T, T) -> bool, a: seq<T>, b: seq<T>)
    requires StrictWeak(lt) && RisesBy(lt, a) && RisesBy(lt, b)
    requires forall x :: x in a <==> x in b
    ensures a == b
  {
    assert a != [] ==> a[0] in b;
    assert b != [] ==> b[0] in a;
    if a != [] && b != [] {
      assert a == [a[0]] + a[1..] && b == [b[0]] + b[1..];
      assert a[0] == b[0];
      forall x
        ensures x in a[1..] <==> x in b[1..]
      {
        assert x in a <==> x in b;
        assert x in a[1..] ==> lt(a[0], x);
        assert x in b[1..] ==> lt(b[0], x);
      }
      RisesUnique(lt, a[1..], b[1..]);
    }
  }

  // ------------------------------------------------------------------- filtering

  function Filter<T(!new)>(keep: T -> bool, s: seq<T>): (r: seq<T>)
    ensures forall x :: x in r <==> x in s && keep(x)
  {
    if s == [] then []
    else if keep(s[0]) then [s[0]] + Filter(keep, s[1..])
    else Filter(keep, s[1..])
  }

  lemma {:induction false} FilterConcat<T(!new)>(keep: T -> bool, a: seq<T>, b: seq<T>)
    ensures Filter(keep, a + b) == Filter(keep, a) + Filter(keep, b)
  {
    if a == [] {
      assert a + b == b;
    } else {
      assert (a + b)[1..] == a[1..] + b;
      FilterConcat(keep, a[1..], b);
    }
  }

  /** One element more. */
  lemma FilterNext<T(!new)>(keep: T -> bool, s: seq<T>, i: nat)
    requires i < |s|
    ensures Filter(keep, s[..i + 1]) == Filter(keep, s[..i]) + if keep(s[i]) then [s[i]] else []
  {
    assert s[..i + 1] == s[..i] + [s[i]];
    FilterConcat(keep, s[..i], [s[i]]);
    assert [s[i]][1..] == [];
  }

  lemma {:induction false} FilterAll<T(!new)>(keep: T -> bool, s: seq<T>)
    requires forall x :: x in s ==> keep(x)
    ensures Filter(keep, s) == s
  {
    if s != [] {
      FilterAll(keep, s[1..]);
    }
  }

  lemma {:induction false} FilterNone<T(!new)>(keep: T -> bool, s: seq<T>)
    requires forall x :: x in s ==> !keep(x)
    ensures Filter(keep, s) == []
  {
    if s != [] {
      FilterNone(keep, s[1..]);
    }
  }

  lemma {:induction false} FilterSame<T(!new)>(p: T -> bool, q: T -> bool, s: seq<T>)
    requires forall x :: x in s ==> p(x) == q(x)
    ensures Filter(p, s) == Filter(q, s)
  {
    if s != [] {
      FilterSame(p, q, s[1..]);
    }
  }

  /** Filtering twice is filtering by both, in either order. */
  lemma {:induction false} FilterSwap<T(!new)>(p: T -> bool, q: T -> bool, s: seq<T>)
    ensures Filter(p, Filter(q, s)) == Filter(q, Filter(p, s))
  {
    if s != [] {
      FilterSwap(p, q, s[1..]);
    }
  }

  lemma {:induction false} InsertFilter<T(!new)>(lt: (T, T) -> bool, keep: T -> bool, x: T, s: seq<T>)
    requires StrictWeak(lt) && OrderedBy(lt, s)
    ensures Filter(keep, InsertBy(lt, x, s))
         == if keep(x) then InsertBy(lt, x, Filter(keep, s)) else Filter(keep, s)
  {
    if s != [] {
      if lt(s[0], x) {
        InsertFilter(lt, keep, x, s[1..]);
      } else {
        var f := Filter(keep, s);
        if f != [] {
          assert f[0] in s;
          var i: nat :| i < |s| && s[i] == f[0];
          assert !lt(f[0], x);
        }
        assert ([x] + s)[1..] == s;
      }
    }
  }

  /** Stable sorting commutes with filtering. */
  lemma {:induction false} SortFilter<T(!new)>(lt: (T, T) -> bool, keep: T -> bool, s: seq<T>)
    requires StrictWeak(lt)
    ensures Filter(keep, SortBy(lt, s)) == SortBy(lt, Filter(keep, s))
  {
    if s != [] {
      SortFilter(lt, keep, s[1..]);
      SortOrdered(lt, s[1..]);
      InsertFilter(lt, keep, s[0], SortBy(lt, s[1..]));
    }
  }

  // ---------------------------------------------------------------- node numbers

  predicate Less(a: nat, b: nat) {
    a < b
  }

  ghost predicate StrictlyIncreasing(s: seq<nat>) {
    forall i: nat, j: nat :: i < j < |s| ==> s[i] < s[j]
  }

  function Sort(s: seq<nat>): seq<nat> {
    SortBy(Less, s)
  }

  /** Sorting distinct numbers gives the increasing sequence of the same numbers. */
  lemma SortKeeps(s: seq<nat>)
    requires forall i: nat, j: nat :: i < j < |s| ==> s[i] != s[j]
    ensures StrictlyIncreasing(Sort(s))
    ensures forall y :: y in Sort(s) <==> y in s
    ensures |Sort(s)| == |s|
  {
    SortRises(Less, s);
    SortMembers(Less, s);
  }

  lemma IncreasingUnique(a: seq<nat>, b: seq<nat>)
    requires StrictlyIncreasing(a) && StrictlyIncreasing(b)
    requires forall x :: x in a <==> x in b
    ensures a == b
  {
    RisesUnique(Less, a, b);
  }

  /** A set that gains one number, or none. */
  lemma GrowsByOne(s: set<nat>, t: set<nat>, i: nat, grows: bool)
    requires i !in s && forall k: nat :: k in t <==> k in s || (k == i && grows)
    ensures |t| == |s| + if grows then 1 else 0
  {
    if grows {
      assert t == s + {i};
    } else {
      assert t == s;
    }
  }
}
