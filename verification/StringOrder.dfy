/** The lexicographic order that `std::string` comparison uses. */
module StringOrder {
  import opened Sorting

  predicate StringLess(a: string, b: string) {
    if b == "" then false
    else if a == "" then true
    else a[0] < b[0] || (a[0] == b[0] && StringLess(a[1..], b[1..]))
  }

  /** The first character in which they differ decides, and a proper prefix comes first. */
  lemma {:induction false} FirstDifferenceDecides(a: string, b: string, k: nat)
    requires k <= |a| && k <= |b| && a[..k] == b[..k]
    ensures k < |a| && k < |b| && a[k] != b[k] ==> (StringLess(a, b) <==> a[k] < b[k])
    ensures k == |a| ==> (StringLess(a, b) <==> |a| < |b|)
    ensures k == |b| ==> !StringLess(a, b)
    decreases k
  {
    if k > 0 {
      assert a[..k][0] == a[0] && b[..k][0] == b[0];
      assert a[1..][..k - 1] == a[..k][1..] && b[1..][..k - 1] == b[..k][1..];
      FirstDifferenceDecides(a[1..], b[1..], k - 1);
    }
  }

  lemma {:induction false} Irreflexive(a: string)
    ensures !StringLess(a, a)
  {
    if a != "" {
      Irreflexive(a[1..]);
    }
  }

  lemma {:induction false} Trichotomy(a: string, b: string)
    ensures StringLess(a, b) || a == b || StringLess(b, a)
  {
    if a != "" && b != "" && a[0] == b[0] {
      Trichotomy(a[1..], b[1..]);
      assert a == [a[0]] + a[1..] && b == [b[0]] + b[1..];
    }
  }

  lemma {:induction false} Transitive(a: string, b: string, c: string)
    requires StringLess(a, b) && StringLess(b, c)
    ensures StringLess(a, c)
  {
    if a != "" && a[0] == b[0] && b[0] == c[0] {
      Transitive(a[1..], b[1..], c[1..]);
    }
  }

  lemma StringLessOrder()
    ensures StrictWeak(StringLess)
  {
    hide StringLess;
    forall a: string
      ensures !StringLess(a, a)
    {
      Irreflexive(a);
    }
    forall a: string, b: string, c: string | StringLess(a, b) && StringLess(b, c)
      ensures StringLess(a, c)
    {
      Transitive(a, b, c);
    }
    forall a: string, b: string, c: string | StringLess(a, c)
      ensures StringLess(a, b) || StringLess(b, c)
    {
      Trichotomy(a, b);
      if StringLess(b, a) {
        Transitive(b, a, c);
      }
    }
  }
}
