/** Sums over finite maps, and the laws that make the order of iteration irrelevant. */
module Sums {

  ghost function Sum<K>(m: map<K, int>): int
    decreases |m|
  {
    if m == map[] then 0
    else
      var k :| k in m;
      m[k] + Sum(m - {k})
  }

  function Get<K>(m: map<K, nat>, k: K): nat {
    if k in m then m[k] else 0
  }

  /** Any key may be taken out first. */
  lemma {:induction false} SumRemove<K>(m: map<K, int>, k: K)
    requires k in m
    ensures Sum(m) == m[k] + Sum(m - {k})
    decreases |m|
  {
    var j :| j in m && Sum(m) == m[j] + Sum(m - {j});
    if j != k {
      SumRemove(m - {j}, k);
      SumRemove(m - {k}, j);
      assert m - {j} - {k} == m - {k} - {j};
    }
  }

  lemma SumInsert<K>(m: map<K, int>, k: K, v: int)
    ensures Sum(m[k := v]) == Sum(m - {k}) + v
    ensures k in m ==> Sum(m) == Sum(m - {k}) + m[k]
    ensures k !in m ==> Sum(m) == Sum(m - {k})
  {
    SumRemove(m[k := v], k);
    assert m[k := v] - {k} == m - {k};
    if k in m {
      SumRemove(m, k);
    } else {
      assert m - {k} == m;
    }
  }

  lemma SumAdd<K>(m: map<K, nat>, k: K, v: nat)
    ensures Sum(m[k := Get(m, k) + v]) == Sum(m) + v
  {
    SumInsert(m, k, Get(m, k) + v);
  }

  lemma RemoveSize<K, V>(m: map<K, V>, k: K)
    requires k in m
    ensures |m - {k}| == |m| - 1
  {
    assert m.Keys == (m - {k}).Keys + {k};
  }

  lemma {:induction false} SumNonNegative<K>(m: map<K, nat>)
    ensures Sum(m) >= 0
    decreases |m|
  {
    if m != map[] {
      var k :| k in m;
      SumRemove(m, k);
      RemoveSize(m, k);
      SumNonNegative(m - {k});
    }
  }

  lemma SumRemoveRight<K>(a: map<K, int>, b: map<K, int>, k: K)
    requires k in b && k !in a
    ensures Sum(a + b) == b[k] + Sum(a + (b - {k}))
  {
    SumRemove(a + b, k);
    assert a + b - {k} == a + (b - {k});
  }

  lemma {:induction false} SumDisjoint<K>(a: map<K, int>, b: map<K, int>)
    requires forall k :: k in b ==> k !in a
    ensures Sum(a + b) == Sum(a) + Sum(b)
    decreases |b|
  {
    if b == map[] {
      assert a + b == a;
    } else {
      var k :| k in b;
      var rest := b - {k};
      SumDisjoint(a, rest);
      SumRemoveRight(a, b, k);
      SumRemove(b, k);
    }
  }

  ghost predicate Linear(c: real, d: real, e: real, x: real, y: real, n: real) {
    c * x <= d * y + n * e
  }

  lemma AddLinear(c: real, d: real, e: real, x: real, y: real, m: real, x': real, y': real, n: real)
    requires Linear(c, d, e, x, y, m)
    requires Linear(c, d, e, x', y', n)
    ensures Linear(c, d, e, x + x', y + y', m + n)
  {
    assert c * (x + x') == c * x + c * x';
    assert d * (y + y') == d * y + d * y';
    assert (m + n) * e == m * e + n * e;
  }

  /** A linear bound on every entry carries over to the sums. */
  lemma {:induction false} SumLinear<K>(a: map<K, int>, b: map<K, int>, c: real, d: real, e: real)
    requires a.Keys == b.Keys
    requires forall k :: k in a ==> Linear(c, d, e, a[k] as real, b[k] as real, 1.0)
    ensures Linear(c, d, e, Sum(a) as real, Sum(b) as real, |a| as real)
    decreases |a|
  {
    if a == map[] {
      assert b == map[];
    } else {
      var k :| k in a;
      SumRemove(a, k);
      SumRemove(b, k);
      RemoveSize(a, k);
      SumLinear(a - {k}, b - {k}, c, d, e);
      var x, y := Sum(a - {k}) as real, Sum(b - {k}) as real;
      AddLinear(c, d, e, x, y, (|a| - 1) as real, a[k] as real, b[k] as real, 1.0);
    }
  }

  ghost predicate Strict(c: real, d: real, e: real, x: real, y: real, n: real) {
    c * x < d * y + n * e
  }

  lemma AddStrict(c: real, d: real, e: real, x: real, y: real, m: real, x': real, y': real, n: real)
    requires Linear(c, d, e, x, y, m)
    requires Strict(c, d, e, x', y', n)
    ensures Strict(c, d, e, x + x', y + y', m + n)
  {
    assert c * (x + x') == c * x + c * x';
    assert d * (y + y') == d * y + d * y';
    assert (m + n) * e == m * e + n * e;
  }

  lemma StrictRest<K>(a: map<K, int>, b: map<K, int>, k: K, c: real, d: real, e: real)
    requires a.Keys == b.Keys && k in a
    requires forall j :: j in a ==> Strict(c, d, e, a[j] as real, b[j] as real, 1.0)
    ensures forall j :: j in a - {k} ==> Linear(c, d, e, (a - {k})[j] as real, (b - {k})[j] as real, 1.0)
  {
    forall j | j in a - {k} ensures Linear(c, d, e, (a - {k})[j] as real, (b - {k})[j] as real, 1.0) {
      assert Strict(c, d, e, a[j] as real, b[j] as real, 1.0);
    }
  }

  /** Strict bounds on the entries of a nonempty map give a strict bound on the sums. */
  lemma SumStrict<K>(a: map<K, int>, b: map<K, int>, c: real, d: real, e: real)
    requires a.Keys == b.Keys && a != map[]
    requires forall k :: k in a ==> Strict(c, d, e, a[k] as real, b[k] as real, 1.0)
    ensures Strict(c, d, e, Sum(a) as real, Sum(b) as real, |a| as real)
  {
    var k :| k in a;
    var a', b' := a - {k}, b - {k};
    StrictRest(a, b, k, c, d, e);
    SumLinear(a', b', c, d, e);
    assert Strict(c, d, e, a[k] as real, b[k] as real, 1.0);
    AddStrict(c, d, e, Sum(a') as real, Sum(b') as real, |a'| as real, a[k] as real, b[k] as real, 1.0);
    SumSizes(a, b, k);
  }

  lemma SumSizes<K>(a: map<K, int>, b: map<K, int>, k: K)
    requires k in a && k in b
    ensures Sum(a) as real == Sum(a - {k}) as real + a[k] as real
    ensures Sum(b) as real == Sum(b - {k}) as real + b[k] as real
    ensures |a| as real == |a - {k}| as real + 1.0
  {
    SumRemove(a, k);
    SumRemove(b, k);
    RemoveSize(a, k);
  }
}
