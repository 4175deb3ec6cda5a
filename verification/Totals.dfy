/** Sums over the values of a map, whatever order they are visited in. */
module Totals {
  ghost function Total<K(!new)>(m: map<K, nat>): nat
    decreases |m.Keys|
  {
    if m == map[] then 0
    else
      var k :| k in m;
      assert |(m - {k}).Keys| < |m.Keys| by { Shrinks(m, k); }
      m[k] + Total(m - {k})
  }

  lemma Shrinks<K, V>(m: map<K, V>, k: K)
    requires k in m
    ensures |(m - {k}).Keys| == |m.Keys| - 1
  {
    assert (m - {k}).Keys == m.Keys - {k};
  }

  lemma {:induction false} TotalRemove<K(!new)>(m: map<K, nat>, k: K)
    requires k in m
    ensures Total(m) == m[k] + Total(m - {k})
    decreases |m.Keys|
  {
    assert m != map[];
    var first :| first in m && Total(m) == m[first] + Total(m - {first});
    if first != k {
      Shrinks(m, first);
      Shrinks(m, k);
      TotalRemove(m - {first}, k);
      TotalRemove(m - {k}, first);
      assert m - {first} - {k} == m - {k} - {first};
    }
  }

  lemma TotalUpdate<K(!new)>(m: map<K, nat>, k: K, v: nat)
    ensures Total(m[k := v]) == Total(m) - (if k in m then m[k] else 0) + v
  {
    TotalRemove(m[k := v], k);
    if k in m {
      TotalRemove(m, k);
      assert m[k := v] - {k} == m - {k};
    } else {
      assert m[k := v] - {k} == m;
    }
  }

  lemma {:induction false} TotalSplit<K(!new)>(m: map<K, nat>, gone: set<K>)
    ensures Total(m) == Total(m - gone) + Total(m - (m.Keys - gone))
    decreases |m.Keys|
  {
    if m == map[] {
      assert m - gone == map[] && m - (m.Keys - gone) == map[];
    } else {
      var k :| k in m;
      Shrinks(m, k);
      TotalSplit(m - {k}, gone);
      TotalRemove(m, k);
      var kept, lost := m - gone, m - (m.Keys - gone);
      if k in gone {
        TotalRemove(lost, k);
        assert m - {k} - gone == kept;
        assert m - {k} - ((m - {k}).Keys - gone) == lost - {k};
      } else {
        TotalRemove(kept, k);
        assert m - {k} - gone == kept - {k};
        assert m - {k} - ((m - {k}).Keys - gone) == lost;
      }
    }
  }

  /** Every value counts at least once in the total. */
  lemma TotalAtLeast<K(!new)>(m: map<K, nat>, k: K)
    requires k in m
    ensures m[k] <= Total(m)
  {
    TotalRemove(m, k);
  }

  lemma {:induction false} Fewer<K>(a: set<K>, b: set<K>)
    requires a <= b
    ensures |a| <= |b|
    ensures a != b ==> |a| < |b|
  {
    if a != {} {
      var x :| x in a;
      Fewer(a - {x}, b - {x});
    }
  }
}
