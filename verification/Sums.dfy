/** Sums over tables: the meaning of the storage counter and of the change cursor. */
module Sums {

  ghost function Total(m: map<string, nat>): (t: nat)
    decreases m.Keys
  {
    if m == map[] then 0
    else
      var k :| k in m;
      m[k] + Total(m - {k})
  }

  lemma {:induction false} TotalRemove(m: map<string, nat>, k: string)
    requires k in m
    ensures Total(m) == m[k] + Total(m - {k})
    decreases m.Keys
  {
    var j :| j in m && Total(m) == m[j] + Total(m - {j});
    if j != k {
      TotalRemove(m - {j}, k);
      TotalRemove(m - {k}, j);
      assert m - {j} - {k} == m - {k} - {j};
    }
  }

  lemma TotalUpdate(m: map<string, nat>, k: string, v: nat)
    ensures Total(m[k := v]) == Total(m) - (if k in m then m[k] else 0) + v
  {
    TotalRemove(m[k := v], k);
    assert m[k := v] - {k} == m - {k};
    if k in m {
      TotalRemove(m, k);
    } else {
      assert m - {k} == m;
    }
  }

  /** Deleting the rows in `s` takes exactly their sum off the total. */
  lemma {:induction false} TotalSplit(m: map<string, nat>, s: set<string>)
    ensures Total(m) == Total(map k | k in m && k in s :: m[k]) + Total(m - s)
    decreases m.Keys
  {
    var inside := map k | k in m && k in s :: m[k];
    if inside == map[] {
      assert forall k | k in m && k in s :: k in inside;
      assert m - s == m;
    } else {
      var k :| k in inside;
      TotalSplit(m - {k}, s);
      TotalRemove(m, k);
      TotalRemove(inside, k);
      assert (map j | j in m - {k} && j in s :: (m - {k})[j]) == inside - {k};
      assert m - {k} - s == m - s;
    }
  }
}
