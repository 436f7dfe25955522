/** Finite sums over a map of naturals. */
module Sums {

  ghost function Pick(m: map<string, nat>): (k: string)
    requires m != map[]
    ensures k in m
  {
    var k :| k in m; k
  }

  ghost function Sum(m: map<string, nat>): nat
    decreases |m|
  {
    if m == map[] then 0
    else
      var k := Pick(m);
      assert |m - {k}| < |m| by { assert (m - {k}).Keys == m.Keys - {k}; }
      m[k] + Sum(m - {k})
  }

  lemma {:induction false} SumMinus(m: map<string, nat>, k: string)
    requires k in m
    ensures Sum(m) == m[k] + Sum(m - {k})
    decreases |m|
  {
    var p := Pick(m);
    if p != k {
      assert (m - {p}).Keys == m.Keys - {p} && (m - {k}).Keys == m.Keys - {k};
      SumMinus(m - {p}, k);
      SumMinus(m - {k}, p);
      assert m - {p} - {k} == m - {k} - {p};
    }
  }

  lemma {:induction false} SumOfZeros(m: map<string, nat>)
    requires forall k :: k in m ==> m[k] == 0
    ensures Sum(m) == 0
    decreases |m|
  {
    if m != map[] {
      var k := Pick(m);
      assert (m - {k}).Keys == m.Keys - {k};
      SumOfZeros(m - {k});
    }
  }

  lemma {:induction false} SumPointwise(a: map<string, nat>, b: map<string, nat>, c: map<string, nat>)
    requires a.Keys == b.Keys == c.Keys
    requires forall k :: k in a ==> a[k] == b[k] + c[k]
    ensures Sum(a) == Sum(b) + Sum(c)
    decreases |a|
  {
    if a != map[] {
      var k :| k in a;
      assert (a - {k}).Keys == a.Keys - {k};
      SumPointwise(a - {k}, b - {k}, c - {k});
      SumMinus(a, k);
      SumMinus(b, k);
      SumMinus(c, k);
    }
  }

  /** Raising one entry raises the sum by as much. */
  lemma SumRaise(m: map<string, nat>, n: map<string, nat>, k: string, delta: nat)
    requires k in m && n.Keys == m.Keys
    requires forall j :: j in m ==> n[j] == if j == k then m[j] + delta else m[j]
    ensures Sum(n) == Sum(m) + delta
  {
    SumMinus(m, k);
    SumMinus(n, k);
    assert n - {k} == m - {k};
  }
}
