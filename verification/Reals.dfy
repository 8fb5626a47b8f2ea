/** Order and products of reals. */
module Reals {
  lemma Scale(a: real, b: real, c: real)
    requires a <= b && c >= 0.0
    ensures a * c <= b * c && c * a <= c * b
  {
  }

  lemma StrictScale(a: real, b: real, c: real)
    requires a < b && c > 0.0
    ensures a * c < b * c
  {
  }

  lemma Regroup(c: real, x: real, y: real)
    ensures c * x * y == c * (x * y) == c * (y * x)
  {
  }

  lemma Quotient(x: real, y: real) returns (q: real)
    requires 0.0 <= x && 0.0 < y
    ensures q == x / y && q * y == x && 0.0 <= q
    ensures x <= y ==> q <= 1.0
  {
    q := x / y;
    assert q * y == x;
    if q < 0.0 { Scale(q, 0.0, y); }
    if q > 1.0 { Scale(1.0, q, y); }
  }

  lemma QuotientMonotone(a: real, b: real, c: real)
    requires 0.0 <= a <= b && c > 0.0
    ensures 0.0 <= a / c <= b / c
  {
    var x := Quotient(a, c);
    var y := Quotient(b, c);
    if x > y { StrictScale(y, x, c); }
  }

  /** A factor up to one does not enlarge. */
  lemma Shrink(n: real, p: real)
    requires 0.0 <= n && 0.0 <= p <= 1.0
    ensures 0.0 <= n * p <= n
  {
  }
}
