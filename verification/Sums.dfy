/** Sums of an integer weight over the values of a finite map. */
module Sums {
  ghost function Total<T>(m: map<nat, T>, w: T -> int): int
    decreases |m|
  {
    if m == map[] then 0
    else
      var k :| k in m;
      w(m[k]) + Total(m - {k}, w)
  }

  lemma {:induction false} TotalRemove<T>(m: map<nat, T>, k: nat, w: T -> int)
    requires k in m
    ensures Total(m, w) == w(m[k]) + Total(m - {k}, w)
    decreases |m|
  {
    var c :| c in m && Total(m, w) == w(m[c]) + Total(m - {c}, w);
    if c != k {
      TotalRemove(m - {c}, k, w);
      TotalRemove(m - {k}, c, w);
      assert m - {c} - {k} == m - {k} - {c};
    }
  }

  lemma TotalUpdate<T>(m: map<nat, T>, k: nat, v: T, w: T -> int)
    ensures Total(m[k := v], w) == Total(m, w) + w(v) - (if k in m then w(m[k]) else 0)
  {
    TotalRemove(m[k := v], k, w);
    assert m[k := v] - {k} == m - {k};
    if k in m {
      TotalRemove(m, k, w);
    } else {
      assert m - {k} == m;
    }
  }

  lemma {:induction false} TotalNonNegative<T(!new)>(m: map<nat, T>, w: T -> int)
    requires forall x :: w(x) >= 0
    ensures Total(m, w) >= 0
    decreases |m|
  {
    if m != map[] {
      var c :| c in m && Total(m, w) == w(m[c]) + Total(m - {c}, w);
      TotalNonNegative(m - {c}, w);
    }
  }

  lemma {:induction false} TotalAtLeast<T(!new)>(m: map<nat, T>, k: nat, w: T -> int)
    requires k in m && forall x :: w(x) >= 0
    ensures Total(m, w) >= w(m[k])
    ensures forall j :: j in m && j != k ==> Total(m, w) >= w(m[k]) + w(m[j])
  {
    TotalRemove(m, k, w);
    TotalNonNegative(m - {k}, w);
    forall j | j in m && j != k ensures Total(m, w) >= w(m[k]) + w(m[j]) {
      TotalRemove(m - {k}, j, w);
      TotalNonNegative(m - {k} - {j}, w);
    }
  }
}
