/** How many entries of a map have a property. */
module Counting {
  ghost function Matching<K, V>(m: map<K, V>, p: (K, V) -> bool): set<K> { set k <- m | p(k, m[k]) }

  ghost function Count<K, V>(m: map<K, V>, p: (K, V) -> bool): nat { |Matching(m, p)| }

  function One(b: bool): nat { if b then 1 else 0 }

  lemma OneMore<K>(others: set<K>, k: K)
    requires k !in others
    ensures |others + {k}| == |others| + 1 && others + {} == others
  {
  }

  lemma CountWithout<K, V>(m: map<K, V>, k: K, p: (K, V) -> bool)
    requires k in m
    ensures Count(m, p) == Count(m - {k}, p) + One(p(k, m[k]))
  {
    var all, others := Matching(m, p), Matching(m - {k}, p);
    assert all == others + if p(k, m[k]) then {k} else {};
    OneMore(others, k);
  }

  /** Giving a key another value changes the count by that key alone. */
  lemma CountWith<K, V>(m: map<K, V>, k: K, v: V, p: (K, V) -> bool)
    ensures Count(m[k := v], p) + One(k in m && p(k, m[k])) == Count(m, p) + One(p(k, v))
  {
    CountWithout(m[k := v], k, p);
    assert m[k := v] - {k} == m - {k};
    if k in m {
      CountWithout(m, k, p);
    } else {
      assert m - {k} == m;
    }
  }

  lemma CountNone<K, V>(m: map<K, V>, p: (K, V) -> bool)
    ensures Count(m, p) == 0 <==> forall k <- m :: !p(k, m[k])
  {
    if k :| k in m && p(k, m[k]) {
      assert k in Matching(m, p);
    } else {
      assert Matching(m, p) == {};
    }
  }
}
