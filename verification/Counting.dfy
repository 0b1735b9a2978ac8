/** Saturating machine counters, and sums and maxima over finite collections that do not
    depend on the order of counting. */
module Counting {

  /** The largest `usize` of a 64-bit target. */
  const MAX: nat := 0xFFFF_FFFF_FFFF_FFFF

  function Min(a: int, b: int): int {
    if a < b then a else b
  }

  function Max(a: int, b: int): int {
    if a < b then b else a
  }

  function SatAdd(a: nat, b: nat): nat {
    Min(a + b, MAX)
  }

  /** Greatest element of a finite set of integers. */
  ghost function MaxOf(s: set<int>): (m: int)
    requires exists x :: x in s
    ensures m in s && forall x :: x in s ==> x <= m
  {
    var x :| x in s;
    if exists y :: y in s && x < y then
      var y :| y in s && x < y;
      var rest := s - {x};
      assert y in rest && forall z :: z in s ==> z == x || z in rest;
      MaxOf(rest)
    else x
  }

  /** Sum of all the values of a map. */
  ghost function Sum<K>(m: map<K, nat>): nat {
    if m == map[] then 0 else var k :| k in m; m[k] + Sum(m - {k})
  }

  /** The sum does not depend on which key is taken first. */
  lemma {:induction false} SumRemove<K>(m: map<K, nat>, k: K)
    requires k in m
    ensures Sum(m) == m[k] + Sum(m - {k})
  {
    var j :| j in m && Sum(m) == m[j] + Sum(m - {j});
    if j != k {
      SumRemove(m - {j}, k);
      SumRemove(m - {k}, j);
      assert m - {j} - {k} == m - {k} - {j};
    }
  }

  lemma SumOne<K>(m: map<K, nat>, k: K)
    requires m.Keys == {k}
    ensures Sum(m) == m[k]
  {
    SumRemove(m, k);
    assert m - {k} == map[];
  }

  lemma SumNone<K>(m: map<K, nat>)
    requires m.Keys == {}
    ensures Sum(m) == 0
  {
  }
}
