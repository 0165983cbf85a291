/**
 * A weighted edge between two objects, ordered by weight
 * (3-deliberative/src/template/Edge.java). Weights are distance units.
 */
module Edges {

  /** The constructor stores both endpoints and the weight unchanged. */
  datatype Edge<T> = Edge(a: T, b: T, weight: nat)

  /** `compareTo`: negative, zero or positive as x's weight is below, equal to or above y's. */
  function CompareTo<T>(x: Edge<T>, y: Edge<T>): (r: int)
    ensures r == -1 <==> x.weight < y.weight
    ensures r == 1 <==> x.weight > y.weight
    ensures r == 0 <==> x.weight == y.weight
  {
    if x.weight < y.weight then -1
    else if x.weight > y.weight then 1
    else 0
  }

  /** The order is transitive, so a priority queue of edges is well defined. */
  lemma CompareTransitive<T>(x: Edge<T>, y: Edge<T>, z: Edge<T>)
    ensures CompareTo(x, y) <= 0 && CompareTo(y, z) <= 0 ==> CompareTo(x, z) <= 0
  {
  }

  /** The total weight of a list of edges. */
  function Weight<T>(es: seq<Edge<T>>): nat
  {
    if es == [] then 0 else Weight(es[..|es| - 1]) + es[|es| - 1].weight
  }

  lemma WeightAppend<T>(es: seq<Edge<T>>, e: Edge<T>)
    ensures Weight(es + [e]) == Weight(es) + e.weight
  {
    assert (es + [e])[..|es|] == es;
  }
}
