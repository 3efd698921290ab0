/** Sums over finite maps: the unbounded totals that the bounded loops are compared with. */
module Sums {

  ghost function Sum<K>(m: map<K, int>): int
    decreases m.Keys
  {
    if m == map[] then 0
    else
      var k :| k in m.Keys;
      assert (m - {k}).Keys < m.Keys;
      m[k] + Sum(m - {k})
  }

  /** The sum does not depend on the order in which the entries are taken. */
  lemma {:induction false} SumTake<K>(m: map<K, int>, k: K)
    requires k in m
    ensures Sum(m) == m[k] + Sum(m - {k})
    decreases m.Keys
  {
    var first :| first in m.Keys && Sum(m) == m[first] + Sum(m - {first});
    if first != k {
      assert (m - {first}).Keys < m.Keys && (m - {k}).Keys < m.Keys;
      SumTake(m - {first}, k);
      SumTake(m - {k}, first);
      assert m - {first} - {k} == m - {k} - {first};
    }
  }

  /** Storing a value under a key replaces that key's share of the sum. */
  lemma SumStore<K>(m: map<K, int>, k: K, v: int)
    ensures Sum(m[k := v]) == Sum(m) - (if k in m then m[k] else 0) + v
  {
    var stored := m[k := v];
    SumTake(stored, k);
    if k in m {
      SumTake(m, k);
      assert stored - {k} == m - {k};
    } else {
      assert stored - {k} == m;
    }
  }

  lemma {:induction false} SumNonNegative<K>(m: map<K, int>)
    requires forall k :: k in m ==> m[k] >= 0
    ensures Sum(m) >= 0
    decreases m.Keys
  {
    if m != map[] {
      var k :| k in m.Keys;
      SumTake(m, k);
      assert (m - {k}).Keys < m.Keys;
      SumNonNegative(m - {k});
    }
  }
}
