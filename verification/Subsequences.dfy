/** Subsequences: what is left after deleting elements. */
module Subsequences {

  predicate IsSub<T(==)>(a: seq<T>, b: seq<T>) {
    if a == [] then true
    else if b == [] then false
    else if a[0] == b[0] then IsSub(a[1..], b[1..])
    else IsSub(a, b[1..])
  }

  lemma {:induction false} SubSelf<T>(a: seq<T>)
    ensures IsSub(a, a)
  {
    if a != [] {
      SubSelf(a[1..]);
    }
  }

  /** Deleting the first element of the subsequence. */
  lemma {:induction false} SubTail<T>(a: seq<T>, b: seq<T>)
    requires IsSub(a, b) && a != []
    ensures IsSub(a[1..], b)
    decreases |b|, 0
  {
    if a[0] == b[0] {
      SubSkip(a[1..], b[1..], b[0]);
      assert b == [b[0]] + b[1..];
    } else {
      SubTail(a, b[1..]);
      SubSkip(a[1..], b[1..], b[0]);
      assert b == [b[0]] + b[1..];
    }
  }

  /** A further element in front of the longer sequence. */
  lemma {:induction false} SubSkip<T>(a: seq<T>, b: seq<T>, x: T)
    requires IsSub(a, b)
    ensures IsSub(a, [x] + b)
    decreases |b|, 1
  {
    assert ([x] + b)[1..] == b;
    if a != [] && a[0] == x {
      SubTail(a, b);
    }
  }

  lemma {:induction false} SubConcat<T>(a: seq<T>, b: seq<T>, c: seq<T>, d: seq<T>)
    requires IsSub(a, b) && IsSub(c, d)
    ensures IsSub(a + c, b + d)
    decreases |b|
  {
    if b == [] {
      assert a + c == c && b + d == d;
    } else {
      assert (b + d)[1..] == b[1..] + d;
      if a == [] {
        assert a + c == c;
        SubConcat([], b[1..], c, d);
        assert [] + c == c;
        SubSkip(c, b[1..] + d, b[0]);
        assert [b[0]] + (b[1..] + d) == b + d;
      } else if a[0] == b[0] {
        SubConcat(a[1..], b[1..], c, d);
        assert (a + c)[1..] == a[1..] + c;
      } else {
        SubConcat(a, b[1..], c, d);
      }
    }
  }

  lemma SubMore<T>(a: seq<T>, b: seq<T>, c: seq<T>)
    requires IsSub(a, b)
    ensures IsSub(a, b + c) && IsSub(a, c + b)
  {
    SubConcat(a, b, [], c);
    assert a + [] == a;
    SubConcat([], c, a, b);
    assert [] + a == a;
  }

  lemma {:induction false} SubTrans<T>(a: seq<T>, b: seq<T>, c: seq<T>)
    requires IsSub(a, b) && IsSub(b, c)
    ensures IsSub(a, c)
    decreases |c|
  {
    if a != [] {
      if b[0] == c[0] {
        if a[0] == b[0] {
          SubTrans(a[1..], b[1..], c[1..]);
        } else {
          SubTrans(a, b[1..], c[1..]);
        }
      } else {
        SubTrans(a, b, c[1..]);
        if a[0] == c[0] {
          SubTail(a, c[1..]);
        }
      }
    }
  }

  lemma {:induction false} SubShorter<T>(a: seq<T>, b: seq<T>)
    requires IsSub(a, b)
    ensures |a| <= |b|
    ensures |a| == |b| ==> a == b
    decreases |b|
  {
    if a != [] {
      if a[0] == b[0] {
        SubShorter(a[1..], b[1..]);
        assert a == [a[0]] + a[1..] && b == [b[0]] + b[1..];
      } else {
        SubShorter(a, b[1..]);
      }
    }
  }
}
