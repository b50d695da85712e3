/** Sums over an insertion-ordered dictionary. */
module Sums {
  import opened Prelude

  type Id = nat

  predicate Distinct(order: seq<Id>) {
    forall i, j :: 0 <= i < j < |order| ==> order[i] != order[j]
  }

  /** `order` lists the keys of `entries`, each once. */
  predicate Orders<R>(order: seq<Id>, entries: map<Id, R>) {
    && Distinct(order)
    && (forall i :: 0 <= i < |order| ==> order[i] in entries)
    && (forall id :: id in entries ==> id in order)
  }

  /** The sum of `weight` over the entries named in `order`. */
  ghost function Sum<R>(order: seq<Id>, entries: map<Id, R>, weight: (Id, R) -> real): real {
    if order == [] then 0.0
    else
      var id := order[|order| - 1];
      Sum(order[..|order| - 1], entries, weight) + (if id in entries then weight(id, entries[id]) else 0.0)
  }

  lemma {:induction false} SumFrame<R>(order: seq<Id>, a: map<Id, R>, b: map<Id, R>, weight: (Id, R) -> real)
    requires forall id :: id in order ==> (id in a <==> id in b) && (id in a ==> weight(id, a[id]) == weight(id, b[id]))
    ensures Sum(order, a, weight) == Sum(order, b, weight)
  {
    if order != [] {
      SumFrame(order[..|order| - 1], a, b, weight);
    }
  }

  /** Replacing one entry shifts the sum by the difference of the two weights. */
  lemma {:induction false} SumUpdate<R>(order: seq<Id>, entries: map<Id, R>, id: Id, r: R, weight: (Id, R) -> real)
    requires Distinct(order) && id in order && id in entries
    ensures Sum(order, entries[id := r], weight) == Sum(order, entries, weight) - weight(id, entries[id]) + weight(id, r)
  {
    var n := |order| - 1;
    if order[n] == id {
      SumFrame(order[..n], entries, entries[id := r], weight);
    } else {
      SumUpdate(order[..n], entries, id, r, weight);
    }
  }

  lemma SumAppend<R>(order: seq<Id>, entries: map<Id, R>, id: Id, r: R, weight: (Id, R) -> real)
    requires id !in order
    ensures Sum(order + [id], entries[id := r], weight) == Sum(order, entries, weight) + weight(id, r)
  {
    assert (order + [id])[..|order|] == order;
    SumFrame(order, entries, entries[id := r], weight);
  }

  /** Pointwise order is kept by sums. */
  lemma {:induction false} SumMonotone<R>(order: seq<Id>, entries: map<Id, R>, v: (Id, R) -> real, w: (Id, R) -> real)
    requires forall id :: id in order && id in entries ==> v(id, entries[id]) <= w(id, entries[id])
    ensures Sum(order, entries, v) <= Sum(order, entries, w)
  {
    if order != [] {
      SumMonotone(order[..|order| - 1], entries, v, w);
    }
  }

  /** Nothing, or more than the tolerance. */
  predicate Grained(x: real) {
    x == 0.0 || x > EPSILON
  }

  lemma {:induction false} SumGrained<R>(order: seq<Id>, entries: map<Id, R>, weight: (Id, R) -> real)
    requires forall id :: id in order && id in entries ==> Grained(weight(id, entries[id]))
    ensures Grained(Sum(order, entries, weight))
  {
    if order != [] {
      SumGrained(order[..|order| - 1], entries, weight);
    }
  }

  lemma {:induction false} SumNonNegative<R>(order: seq<Id>, entries: map<Id, R>, weight: (Id, R) -> real)
    requires forall id :: id in order && id in entries ==> weight(id, entries[id]) >= 0.0
    ensures Sum(order, entries, weight) >= 0.0
  {
    if order != [] {
      SumNonNegative(order[..|order| - 1], entries, weight);
    }
  }

  /** How many entries satisfy `p`. */
  ghost function CountIf<R>(order: seq<Id>, entries: map<Id, R>, p: (Id, R) -> bool): nat {
    if order == [] then 0
    else
      var id := order[|order| - 1];
      CountIf(order[..|order| - 1], entries, p) + (if id in entries && p(id, entries[id]) then 1 else 0)
  }

  /** If every counted entry weighs at least one, the count is bounded by the sum. */
  lemma {:induction false} CountBoundedBySum<R>(order: seq<Id>, entries: map<Id, R>, p: (Id, R) -> bool, w: (Id, R) -> real)
    requires forall id :: id in order && id in entries ==>
      w(id, entries[id]) >= if p(id, entries[id]) then 1.0 else 0.0
    ensures CountIf(order, entries, p) as real <= Sum(order, entries, w)
  {
    if order != [] {
      CountBoundedBySum(order[..|order| - 1], entries, p, w);
    }
  }
}
