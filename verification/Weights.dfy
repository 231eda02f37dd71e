/** Sums over the entries of a map, which no order of visiting them changes. */
module Weights {
  ghost function Weigh<V>(m: map<string, V>, weight: (string, V) -> nat): nat {
    if m == map[] then 0 else var k :| k in m; weight(k, m[k]) + Weigh(m - {k}, weight)
  }

  lemma {:induction false} WeighWithout<V>(m: map<string, V>, k: string, weight: (string, V) -> nat)
    requires k in m
    ensures Weigh(m, weight) == weight(k, m[k]) + Weigh(m - {k}, weight)
    decreases m
  {
    var first :| first in m && Weigh(m, weight) == weight(first, m[first]) + Weigh(m - {first}, weight);
    if first != k {
      WeighWithout(m - {first}, k, weight);
      WeighWithout(m - {k}, first, weight);
      assert m - {first} - {k} == m - {k} - {first};
    }
  }
}
