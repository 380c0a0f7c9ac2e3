/** Sums over maps: the measure by which whatever is in flight comes to an end. */
module MapTotals {
  /** The sum of a rank over all entries. */
  ghost function Total<V(!new)>(m: map<nat, V>, rank: V -> nat): nat
    decreases |m|
  {
    if m == map[] then 0
    else
      var k :| k in m;
      assert |m - {k}| < |m| by { Smaller(m, k); }
      rank(m[k]) + Total(m - {k}, rank)
  }

  lemma Smaller<V>(m: map<nat, V>, k: nat)
    requires k in m
    ensures |m - {k}| < |m|
  {
    assert (m - {k}).Keys == m.Keys - {k};
  }

  /** Any entry can be taken out first. */
  lemma {:induction false} TotalOut<V(!new)>(m: map<nat, V>, rank: V -> nat, k: nat)
    requires k in m
    ensures Total(m, rank) == rank(m[k]) + Total(m - {k}, rank)
    decreases |m|
  {
    var first :| first in m && Total(m, rank) == rank(m[first]) + Total(m - {first}, rank);
    if first != k {
      Smaller(m, first);
      Smaller(m, k);
      TotalOut(m - {first}, rank, k);
      TotalOut(m - {k}, rank, first);
      assert m - {first} - {k} == m - {k} - {first};
    }
  }

  /** Lowering or removing one entry lowers the sum. */
  lemma TotalFalls<V(!new)>(m: map<nat, V>, next: map<nat, V>, rank: V -> nat, k: nat)
    requires k in m && (k in next ==> rank(next[k]) < rank(m[k])) && (k !in next ==> rank(m[k]) > 0)
    requires next - {k} == m - {k}
    ensures Total(next, rank) < Total(m, rank)
  {
    TotalOut(m, rank, k);
    if k in next { TotalOut(next, rank, k); } else { assert next - {k} == next; }
  }
}
