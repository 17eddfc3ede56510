/** The order in which lists of edges are kept: by source, then by target. */
module EdgeOrder {
  import opened Sorting

  type EdgeRef = (nat, nat)

  predicate EdgeLess(a: EdgeRef, b: EdgeRef) {
    a.0 < b.0 || (a.0 == b.0 && a.1 < b.1)
  }

  lemma EdgeLessOrder()
    ensures StrictWeak(EdgeLess)
  {
  }

  /** A list of edges in this order goes by source, and for one source by target. */
  lemma RisingEdges(es: seq<EdgeRef>)
    ensures RisesBy(EdgeLess, es)
       <==> forall i: nat, j: nat :: i < j < |es| ==>
              es[i].0 < es[j].0 || (es[i].0 == es[j].0 && es[i].1 < es[j].1)
  {
    assert forall i: nat, j: nat :: i < j < |es| ==>
      (EdgeLess(es[i], es[j]) <==> es[i].0 < es[j].0 || (es[i].0 == es[j].0 && es[i].1 < es[j].1));
  }
}
