/** Sums of integer-valued finite maps, used to count budgets, units and blocks. */
module Sums {

  ghost function Sum(m: map<nat, int>): int
  {
    if forall k :: k !in m then 0
    else var k :| k in m; m[k] + Sum(m - {k})
  }

  /** The choice made by `Sum` does not matter: any key may be split off. */
  lemma {:induction false} SumSplit(m: map<nat, int>, k: nat)
    requires k in m
    ensures Sum(m) == m[k] + Sum(m - {k})
    decreases |m|
  {
    var j :| j in m && Sum(m) == m[j] + Sum(m - {j});
    if j != k {
      SumSplit(m - {j}, k);
      SumSplit(m - {k}, j);
      assert m - {j} - {k} == m - {k} - {j};
    }
  }

  lemma SumSet(m: map<nat, int>, k: nat, v: int)
    ensures Sum(m[k := v]) == Sum(m) - (if k in m then m[k] else 0) + v
  {
    SumSplit(m[k := v], k);
    assert m[k := v] - {k} == m - {k};
    if k in m {
      SumSplit(m, k);
    } else {
      assert m - {k} == m;
    }
  }

  lemma SumAdd(m: map<nat, int>, k: nat, v: int)
    requires k !in m
    ensures Sum(m[k := v]) == Sum(m) + v
  {
    SumSet(m, k, v);
  }

  lemma SumDrop(m: map<nat, int>, k: nat)
    ensures Sum(m - {k}) == Sum(m) - (if k in m then m[k] else 0)
  {
    if k in m {
      SumSplit(m, k);
    } else {
      assert m - {k} == m;
    }
  }

  lemma CountDrop(m: map<nat, int>, k: nat)
    requires k in m
    ensures |m| == |m - {k}| + 1
  {
    assert (m - {k}).Keys == m.Keys - {k};
  }

  /** No term exceeds the sum of non-negative terms. */
  lemma SumCovers(m: map<nat, int>, k: nat)
    requires k in m && forall j :: j in m ==> 0 <= m[j]
    ensures m[k] <= Sum(m)
  {
    SumSplit(m, k);
    SumNonNegative(m - {k});
  }

  lemma {:induction false} SumNonNegative(m: map<nat, int>)
    requires forall k :: k in m ==> 0 <= m[k]
    ensures 0 <= Sum(m)
    decreases |m|
  {
    if k :| k in m {
      SumSplit(m, k);
      SumNonNegative(m - {k});
    }
  }

  /** A sum splits over any partition of the keys. */
  lemma {:induction false} SumPartition(m: map<nat, int>, s: set<nat>)
    ensures Sum(m - s) + Sum(m - (m.Keys - s)) == Sum(m)
    decreases |m|
  {
    if k :| k in m {
      SumPartition(m - {k}, s);
      SumSplit(m, k);
      var out, inside := m - s, m - (m.Keys - s);
      var rest := m - {k};
      assert rest - s == out - {k};
      assert rest - (rest.Keys - s) == inside - {k};
      SumDrop(out, k);
      SumDrop(inside, k);
    } else {
      assert m - s == m && m - (m.Keys - s) == m;
    }
  }
}
