/** Similarity of two token bags: what they share over what they hold together. */
module Jaccard {
  import S = Similarity

  type Bag = map<string, nat>

  function CountIn(bag: Bag, k: string): nat {
    if k in bag then bag[k] else 0
  }

  function Smaller(x: nat, y: nat): nat {
    if x <= y then x else y
  }

  function Larger(x: nat, y: nat): nat {
    if x <= y then y else x
  }

  function Weight(idf: map<string, real>, k: string): real {
    if k in idf then idf[k] else 1.0
  }

  function Scaled(w: real, n: nat): real {
    w * n as real
  }

  function SharedAt(a: Bag, b: Bag, idf: map<string, real>, k: string): real {
    Scaled(Weight(idf, k), Smaller(CountIn(a, k), CountIn(b, k)))
  }

  function TotalAt(a: Bag, b: Bag, idf: map<string, real>, k: string): real {
    Scaled(Weight(idf, k), Larger(CountIn(a, k), CountIn(b, k)))
  }

  ghost function Sum(f: string -> real, keys: set<string>): real {
    if keys == {} then 0.0
    else
      var k :| k in keys;
      f(k) + Sum(f, keys - {k})
  }

  lemma {:induction false} SumWithout(f: string -> real, keys: set<string>, k: string)
    requires k in keys
    ensures Sum(f, keys) == f(k) + Sum(f, keys - {k})
  {
    var l :| l in keys && Sum(f, keys) == f(l) + Sum(f, keys - {l});
    if l != k {
      SumWithout(f, keys - {l}, k);
      SumWithout(f, keys - {k}, l);
      assert keys - {l} - {k} == keys - {k} - {l};
    }
  }

  ghost function Shared(a: Bag, b: Bag, idf: map<string, real>): real {
    Sum(k => SharedAt(a, b, idf, k), a.Keys + b.Keys)
  }

  ghost function Total(a: Bag, b: Bag, idf: map<string, real>): real {
    Sum(k => TotalAt(a, b, idf, k), a.Keys + b.Keys)
  }

  ghost function Similarity(a: Bag, b: Bag, idf: map<string, real>): real {
    if Total(a, b, idf) > 0.0 then Shared(a, b, idf) / Total(a, b, idf) else 0.0
  }

  /** The plain measure counts in integers and is the one without weights. */
  method PlainJaccard(a: Bag, b: Bag) returns (r: real)
    ensures r == Similarity(a, b, map[])
  {
    var num, den := 0, 0;
    ghost var shared, total := k => SharedAt(a, b, map[], k), k => TotalAt(a, b, map[], k);
    var keys := a.Keys + b.Keys;
    var todo := keys;
    while todo != {}
      invariant num as real + Sum(shared, todo) == Sum(shared, keys)
      invariant den as real + Sum(total, todo) == Sum(total, keys)
    {
      var k :| k in todo;
      SumWithout(shared, todo, k);
      SumWithout(total, todo, k);
      num := num + Smaller(CountIn(a, k), CountIn(b, k));
      den := den + Larger(CountIn(a, k), CountIn(b, k));
      todo := todo - {k};
    }
    r := if den > 0 then num as real / den as real else 0.0;
  }

  method WeightedJaccard(a: Bag, b: Bag, idf: map<string, real>) returns (r: real)
    ensures r == Similarity(a, b, idf)
  {
    hide SharedAt, TotalAt;
    var num, den := 0.0, 0.0;
    ghost var shared, total := k => SharedAt(a, b, idf, k), k => TotalAt(a, b, idf, k);
    var keys := a.Keys + b.Keys;
    var todo := keys;
    while todo != {}
      invariant num + Sum(shared, todo) == Sum(shared, keys)
      invariant den + Sum(total, todo) == Sum(total, keys)
    {
      var k :| k in todo;
      SumWithout(shared, todo, k);
      SumWithout(total, todo, k);
      num := num + SharedAt(a, b, idf, k);
      den := den + TotalAt(a, b, idf, k);
      todo := todo - {k};
    }
    r := if den > 0.0 then num / den else 0.0;
  }

  // -------------------------------------------------------------------- properties

  /** Weights are logarithms of N/d with d <= N: 0 for a token that every body contains. */
  ghost predicate Weighs(idf: map<string, real>) {
    forall k :: k in idf ==> idf[k] >= 0.0
  }

  lemma {:induction false} SumBounds(f: string -> real, g: string -> real, keys: set<string>)
    requires forall k :: k in keys ==> 0.0 <= f(k) <= g(k)
    ensures 0.0 <= Sum(f, keys) <= Sum(g, keys)
    ensures Sum(f, keys) == Sum(g, keys) <==> forall k :: k in keys ==> f(k) == g(k)
    ensures Sum(g, keys) == 0.0 <==> forall k :: k in keys ==> g(k) == 0.0
  {
    if keys != {} {
      var k :| k in keys;
      SumBounds(f, g, keys - {k});
      SumWithout(f, keys, k);
      SumWithout(g, keys, k);
    }
  }

  lemma {:induction false} SumSame(f: string -> real, g: string -> real, keys: set<string>)
    requires forall k :: k in keys ==> f(k) == g(k)
    ensures Sum(f, keys) == Sum(g, keys)
  {
    if keys != {} {
      var k :| k in keys;
      SumSame(f, g, keys - {k});
      SumWithout(f, keys, k);
      SumWithout(g, keys, k);
    }
  }

  lemma SymmetricAt(a: Bag, b: Bag, idf: map<string, real>, k: string)
    ensures SharedAt(a, b, idf, k) == SharedAt(b, a, idf, k) && TotalAt(a, b, idf, k) == TotalAt(b, a, idf, k)
  {
    hide Weight;
  }

  lemma SimilaritySymmetric(a: Bag, b: Bag, idf: map<string, real>)
    ensures Similarity(a, b, idf) == Similarity(b, a, idf)
  {
    hide SharedAt, TotalAt, Sum;
    var keys := a.Keys + b.Keys;
    assert b.Keys + a.Keys == keys;
    forall k | k in keys
      ensures SharedAt(a, b, idf, k) == SharedAt(b, a, idf, k) && TotalAt(a, b, idf, k) == TotalAt(b, a, idf, k)
    {
      SymmetricAt(a, b, idf, k);
    }
    SumSame(k => SharedAt(a, b, idf, k), k => SharedAt(b, a, idf, k), keys);
    SumSame(k => TotalAt(a, b, idf, k), k => TotalAt(b, a, idf, k), keys);
  }

  /** The bags agree on every token that carries weight. */
  ghost predicate SameCounts(a: Bag, b: Bag, idf: map<string, real>) {
    forall k :: k in a.Keys + b.Keys && Weight(idf, k) > 0.0 ==> CountIn(a, k) == CountIn(b, k)
  }

  ghost predicate HoldsWeight(a: Bag, b: Bag, idf: map<string, real>) {
    exists k :: k in a.Keys + b.Keys && Weight(idf, k) > 0.0 && Larger(CountIn(a, k), CountIn(b, k)) > 0
  }

  lemma AtBounds(a: Bag, b: Bag, idf: map<string, real>, k: string)
    requires Weight(idf, k) >= 0.0
    ensures 0.0 <= SharedAt(a, b, idf, k) <= TotalAt(a, b, idf, k)
    ensures SharedAt(a, b, idf, k) == TotalAt(a, b, idf, k)
       <==> (Weight(idf, k) > 0.0 ==> CountIn(a, k) == CountIn(b, k))
    ensures TotalAt(a, b, idf, k) == 0.0
       <==> (Weight(idf, k) > 0.0 ==> Larger(CountIn(a, k), CountIn(b, k)) == 0)
  {
    hide Weight, CountIn, Scaled;
    ScaledBounds(Weight(idf, k), Smaller(CountIn(a, k), CountIn(b, k)), Larger(CountIn(a, k), CountIn(b, k)));
  }

  lemma ScaledBounds(w: real, x: nat, y: nat)
    requires w >= 0.0 && x <= y
    ensures 0.0 <= Scaled(w, x) <= Scaled(w, y)
    ensures Scaled(w, x) == Scaled(w, y) <==> (w > 0.0 ==> x == y)
    ensures Scaled(w, y) == 0.0 <==> (w > 0.0 ==> y == 0)
  {
    assert Scaled(w, x) == w * x as real && Scaled(w, y) == w * y as real;
    if w > 0.0 {
      Scale(w, x as real, y as real);
      Scale(w, 0.0, y as real);
      Scale(w, 0.0, x as real);
    }
  }

  lemma Scale(w: real, x: real, y: real)
    requires w > 0.0 && x <= y
    ensures w * x <= w * y && (w * x == w * y <==> x == y)
  {
    assert w * (y - x) >= 0.0;
    if x < y {
      assert w * (y - x) > 0.0;
    }
  }

  /** The similarity lies between 0 and 1, and is 1 exactly for bags that agree on every
      token of positive weight and hold some such token. */
  lemma SimilarityIsOneIffSame(a: Bag, b: Bag, idf: map<string, real>)
    requires Weighs(idf)
    ensures 0.0 <= Similarity(a, b, idf) <= 1.0
    ensures Similarity(a, b, idf) == 1.0 <==> SameCounts(a, b, idf) && HoldsWeight(a, b, idf)
  {
    hide SharedAt, TotalAt, Sum;
    var keys := a.Keys + b.Keys;
    var f, g := k => SharedAt(a, b, idf, k), k => TotalAt(a, b, idf, k);
    forall k | k in keys
      ensures 0.0 <= f(k) <= g(k)
      ensures f(k) == g(k) <==> (Weight(idf, k) > 0.0 ==> CountIn(a, k) == CountIn(b, k))
      ensures g(k) == 0.0 <==> (Weight(idf, k) > 0.0 ==> Larger(CountIn(a, k), CountIn(b, k)) == 0)
    {
      AtBounds(a, b, idf, k);
    }
    SumBounds(f, g, keys);
    if Total(a, b, idf) > 0.0 {
      S.DivideBounds(Shared(a, b, idf), Total(a, b, idf));
    }
  }

  /** What a further token adds: its weight times the smaller of its two counts to what the
      bags share, times the larger to what they hold together. A token without an entry weighs 1,
      and one that a bag does not hold counts 0 there. */
  lemma OneMoreToken(a: Bag, b: Bag, idf: map<string, real>, k: string, m: nat, n: nat)
    requires k !in a && k !in b
    ensures var w := if k in idf then idf[k] else 1.0;
      && Shared(a[k := m], b[k := n], idf) == Shared(a, b, idf) + w * (if m <= n then m else n) as real
      && Total(a[k := m], b[k := n], idf) == Total(a, b, idf) + w * (if m <= n then n else m) as real
    ensures var w := if k in idf then idf[k] else 1.0;
      && Shared(a[k := m], b, idf) == Shared(a, b, idf)
      && Total(a[k := m], b, idf) == Total(a, b, idf) + w * m as real
  {
    hide Shared, Total, SharedAt, TotalAt;
    TokenAdds(a, b, idf, a[k := m], b[k := n], k);
    AtIs(a[k := m], b[k := n], idf, k, m, n);
    TokenAdds(a, b, idf, a[k := m], b, k);
    AtIs(a[k := m], b, idf, k, m, 0);
  }

  lemma AtIs(a: Bag, b: Bag, idf: map<string, real>, k: string, m: nat, n: nat)
    requires CountIn(a, k) == m && CountIn(b, k) == n
    ensures SharedAt(a, b, idf, k) == (if k in idf then idf[k] else 1.0) * (if m <= n then m else n) as real
    ensures TotalAt(a, b, idf, k) == (if k in idf then idf[k] else 1.0) * (if m <= n then n else m) as real
    ensures n == 0 ==> SharedAt(a, b, idf, k) == 0.0
  {
    if n == 0 {
      assert Scaled(Weight(idf, k), 0) == 0.0;
    }
  }

  lemma TokenAdds(a: Bag, b: Bag, idf: map<string, real>, a': Bag, b': Bag, k: string)
    requires k !in a && k !in b && a'.Keys + b'.Keys == a.Keys + b.Keys + {k}
    requires forall l :: l in a.Keys + b.Keys ==> CountIn(a', l) == CountIn(a, l) && CountIn(b', l) == CountIn(b, l)
    ensures Shared(a', b', idf) == Shared(a, b, idf) + SharedAt(a', b', idf, k)
    ensures Total(a', b', idf) == Total(a, b, idf) + TotalAt(a', b', idf, k)
  {
    hide Sum, CountIn, Scaled, Weight;
    var keys, more := a.Keys + b.Keys, a'.Keys + b'.Keys;
    assert more - {k} == keys;
    SumWithout(l => SharedAt(a', b', idf, l), more, k);
    SumWithout(l => TotalAt(a', b', idf, l), more, k);
    SumSame(l => SharedAt(a', b', idf, l), l => SharedAt(a, b, idf, l), keys);
    SumSame(l => TotalAt(a', b', idf, l), l => TotalAt(a, b, idf, l), keys);
  }
}
