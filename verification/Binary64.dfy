/** IEEE 754 binary64 arithmetic on the real line, as Go's float64 performs it.

    A float64 operation is the exact real operation followed by `Round`: the nearest value with a
    53-bit significand, ties to even (sections 4.3.1 and 5.4 of IEEE 754-2019). The exponent
    range is left unbounded: no quantity the pool converts to float64 comes near the subnormal
    or the overflow threshold. */
module Binary64 {

  type Uint64 = n: nat | n < TWO64

  const TWO51: int := 0x8_0000_0000_0000
  const TWO52: int := 0x10_0000_0000_0000
  const TWO53: int := 0x20_0000_0000_0000
  const TWO64: int := 0x1_0000_0000_0000_0000

  /** Go's uint64 arithmetic: the result modulo 2^64. */
  function Wrap(n: int): (r: Uint64)
    ensures 0 <= n < TWO64 ==> r == n
  {
    n % 0x1_0000_0000_0000_0000
  }

  lemma AddModulo(x: int, y: int, wrapped: Uint64)
    requires wrapped == Wrap(x)
    ensures Wrap(wrapped + y) == Wrap(x + y)
  {
  }

  /** y is x up to a relative error of 2^-53. */
  ghost predicate Near(x: real, y: real) {
    9007199254740991.0 * x <= 9007199254740992.0 * y <= 9007199254740993.0 * x
  }

  /** Nearest integer, ties to the even one. */
  function Nearest(r: real): int {
    var f := r.Floor;
    var rest := r - f as real;
    if rest < 0.5 || (rest == 0.5 && f % 2 == 0) then f else f + 1
  }

  /** Bounds the scaling steps left before x reaches [2^52, 2^53). */
  ghost function Steps(x: real): nat {
    if x <= 0.0 then 0
    else if x < TWO52 as real then (TWO53 as real / x).Floor + TWO53
    else x.Floor
  }

  /** Correct rounding: scale by powers of two until the significand has 53 bits before the
      point, drop the fraction, scale back. */
  function Round(x: real): real
    decreases x < 0.0, Steps(x)
  {
    if x == 0.0 then 0.0
    else if x < 0.0 then -Round(-x)
    else if x >= TWO53 as real then 2.0 * Round(x / 2.0)
    else if x < TWO52 as real then
      Halving(x);
      Round(2.0 * x) / 2.0
    else Nearest(x) as real
  }

  /** Go's uint64(x): truncation toward zero when the result fits, an implementation-dependent
      value otherwise (section "Conversions" of the Go specification). */
  function ToUint64(x: real, outOfRange: real -> Uint64): Uint64 {
    if 0.0 <= x < TWO64 as real then x.Floor
    else if -1.0 < x < 0.0 then 0
    else outOfRange(x)
  }

  /** What the pool's arithmetic relies on: rounding is monotone, has relative error at most 2^-53,
      and keeps every integer up to 2^53. */
  ghost predicate Correct(fl: real -> real) {
    && (forall x :: 0.0 <= x ==> 0.0 <= fl(x) && Near(x, fl(x)))
    && (forall x, y :: 0.0 <= x <= y ==> fl(x) <= fl(y))
    && (forall x :: 0.0 <= x <= TWO53 as real && x == x.Floor as real ==> fl(x) == x)
  }

  /** Rounding again changes nothing: the results of rounding are the float64 values. */
  ghost predicate Idempotent(fl: real -> real) {
    forall x {:trigger fl(fl(x))} :: 0.0 <= x ==> fl(fl(x)) == fl(x)
  }

  /** Rounding to nearest, ties to even, is correct in that sense. */
  lemma RoundIsCorrect()
    ensures Correct(Round) && Idempotent(Round)
  {
    forall x | 0.0 <= x ensures 0.0 <= Round(x) && Near(x, Round(x)) { RoundBounds(x); RoundError(x); }
    forall x, y | 0.0 <= x <= y ensures Round(x) <= Round(y) { RoundMonotone(x, y); }
    forall x | 0.0 <= x <= TWO53 as real && x == x.Floor as real ensures Round(x) == x { RoundExact(x.Floor); }
    forall x | 0.0 <= x ensures Round(Round(x)) == Round(x) { RoundTwice(x); }
  }

  /** Exact arithmetic, as the rounding that changes nothing. */
  function Unrounded(x: real): real {
    x
  }

  lemma UnroundedIsCorrect()
    ensures Correct(Unrounded) && Idempotent(Unrounded)
  {
  }

  lemma PositiveFactor(a: real, b: real)
    requires b > 0.0 && a * b > 0.0
    ensures a > 0.0
  {
  }

  lemma Halving(x: real)
    requires 0.0 < x < TWO52 as real
    ensures Steps(2.0 * x) < Steps(x)
  {
    var y := TWO53 as real / x;
    assert y * x == TWO53 as real;
    assert TWO53 as real / (2.0 * x) == y / 2.0;
    assert (y - 2.0) * x == TWO53 as real - 2.0 * x;
    PositiveFactor(y - 2.0, x);
  }

  /** The relative error of one rounding is at most 2^-53. */
  lemma {:induction false} RoundError(x: real)
    requires x >= 0.0
    ensures Near(x, Round(x))
    decreases Steps(x)
  {
    if x >= TWO53 as real {
      RoundError(x / 2.0);
    } else if 0.0 < x < TWO52 as real {
      Halving(x);
      RoundError(2.0 * x);
    }
  }

  /** Rounding keeps a number on its side of 2^52 and 2^53. */
  lemma {:induction false} RoundBounds(x: real)
    requires x >= 0.0
    ensures Round(x) >= 0.0
    ensures x <= TWO53 as real ==> Round(x) <= TWO53 as real
    ensures x >= TWO52 as real ==> Round(x) >= TWO52 as real
    decreases Steps(x)
  {
    if x >= TWO53 as real {
      RoundBounds(x / 2.0);
    } else if 0.0 < x < TWO52 as real {
      Halving(x);
      RoundBounds(2.0 * x);
    }
  }

  lemma NearestMonotone(r: real, s: real)
    requires r <= s
    ensures Nearest(r) <= Nearest(s)
  {
  }

  /** Rounding never swaps two numbers. */
  lemma {:induction false} RoundMonotone(x: real, y: real)
    requires 0.0 <= x <= y
    ensures Round(x) <= Round(y)
    decreases Steps(x)
  {
    if x == 0.0 {
      RoundBounds(y);
    } else if x < TWO52 as real {
      Halving(x);
      if y < TWO52 as real {
        RoundMonotone(2.0 * x, 2.0 * y);
      } else {
        RoundBounds(2.0 * x);
        RoundBounds(y);
      }
    } else if TWO53 as real <= x {
      RoundMonotone(x / 2.0, y / 2.0);
    } else if TWO53 as real <= y {
      RoundBounds(x);
      RoundBounds(y / 2.0);
    } else {
      NearestMonotone(x, y);
    }
  }

  /** Every integer up to 2^53 is representable. */
  lemma {:induction false} RoundExact(n: nat)
    requires n <= TWO53
    ensures Round(n as real) == n as real
    decreases TWO53 - n
  {
    if n == TWO53 {
      assert Round(TWO52 as real) == TWO52 as real;
    } else if 0 < n < TWO52 {
      RoundExact(2 * n);
      assert 2.0 * n as real == (2 * n) as real;
    }
  }

  /** Rounding commutes with scaling by two. */
  lemma RoundDouble(x: real)
    requires x >= 0.0
    ensures Round(2.0 * x) == 2.0 * Round(x)
  {
    if x >= TWO52 as real { assert 2.0 * x / 2.0 == x; }
  }

  lemma {:induction false} RoundTwice(x: real)
    requires x >= 0.0
    ensures Round(Round(x)) == Round(x)
    decreases Steps(x)
  {
    if x >= TWO53 as real {
      RoundTwice(x / 2.0);
      RoundBounds(x / 2.0);
      RoundDouble(Round(x / 2.0));
    } else if 0.0 < x < TWO52 as real {
      Halving(x);
      RoundTwice(2.0 * x);
      RoundBounds(2.0 * x);
      RoundDouble(Round(2.0 * x) / 2.0);
    } else if x > 0.0 {
      RoundBounds(x);
      RoundExact(Nearest(x));
    }
  }

  /** From 2^52 on the result of rounding is a whole number. */
  lemma {:induction false} RoundWhole(x: real)
    requires x >= TWO52 as real
    ensures Round(x) == Round(x).Floor as real
    decreases Steps(x)
  {
    if x >= TWO53 as real {
      RoundWhole(x / 2.0);
      WholeDouble(Round(x / 2.0));
    }
  }

  lemma WholeDouble(y: real)
    requires y == y.Floor as real
    ensures 2.0 * y == (2.0 * y).Floor as real
  {
    assert 2.0 * y == (2 * y.Floor) as real;
  }

  /** A whole number rounds to a whole number. */
  lemma RoundOfWhole(n: nat)
    ensures Round(n as real) == Round(n as real).Floor as real
  {
    if n <= TWO53 { RoundExact(n); } else { RoundWhole(n as real); }
  }

  function Doubled(x: real, k: nat): real {
    if k == 0 then x else 2.0 * Doubled(x, k - 1)
  }

  lemma {:induction false} RoundScale(x: real, k: nat)
    requires x >= 0.0
    ensures Doubled(x, k) >= 0.0 && Round(Doubled(x, k)) == Doubled(Round(x), k)
  {
    if k > 0 {
      RoundScale(x, k - 1);
      RoundDouble(Doubled(x, k - 1));
    }
  }

  function Pow2(k: nat): int {
    if k == 0 then 1 else 2 * Pow2(k - 1)
  }

  lemma LargePowers()
    ensures Pow2(38) == 0x40_0000_0000 && Pow2(39) == 0x80_0000_0000 && Pow2(44) == 0x1000_0000_0000
    ensures Pow2(45) == 0x2000_0000_0000 && Pow2(46) == 0x4000_0000_0000 && Pow2(49) == 0x2_0000_0000_0000
    ensures Pow2(53) == TWO53 && Pow2(54) == 2 * TWO53
  {
    assert Pow2(10) == 1024;
    assert Pow2(20) == 0x10_0000;
    assert Pow2(30) == 0x4000_0000;
    assert Pow2(40) == 0x100_0000_0000;
    assert Pow2(50) == 0x4_0000_0000_0000;
  }

  lemma {:induction false} DoubledIs(x: real, k: nat)
    ensures Doubled(x, k) == Pow2(k) as real * x
  {
    if k > 0 {
      DoubledIs(x, k - 1);
      assert Pow2(k) as real == 2.0 * Pow2(k - 1) as real;
    }
  }

  lemma RoundSignificand(y: real, m: nat)
    requires TWO52 as real <= y < TWO53 as real && Nearest(y) == m
    ensures Round(y) == m as real
  {
  }

  lemma {:induction false} DoubledInjective(x: real, y: real, k: nat)
    requires Doubled(x, k) == Doubled(y, k)
    ensures x == y
  {
    if k > 0 { DoubledInjective(x, y, k - 1); }
  }

  /** x rounds to r: scaled up by 2^k, x becomes y with a 53-bit integer part, and r the integer m
      nearest to it. */
  lemma RoundUpscaled(x: real, r: real, k: nat, y: real, m: nat)
    requires 0.0 <= x && Doubled(x, k) == y && Doubled(r, k) == m as real
    requires TWO52 as real <= y < TWO53 as real && Nearest(y) == m
    ensures Round(x) == r
  {
    RoundScale(x, k);
    RoundSignificand(y, m);
    DoubledInjective(Round(x), r, k);
  }

  /** And likewise for large numbers, scaled down. */
  lemma RoundDownscaled(x: real, r: real, k: nat, y: real, m: nat)
    requires Doubled(y, k) == x && Doubled(m as real, k) == r
    requires TWO52 as real <= y < TWO53 as real && Nearest(y) == m
    ensures Round(x) == r
  {
    RoundScale(y, k);
    RoundSignificand(y, m);
  }

  lemma DoubledTo(x: real, k: nat, p: int, y: real)
    requires p == Pow2(k) && y == p as real * x
    ensures Doubled(x, k) == y
  {
    DoubledIs(x, k);
  }

  /** A rounding worked out: p is 2^k, y is p * x, m the integer nearest to y, r is m / p. */
  lemma RoundTo(x: real, r: real, k: nat, p: int, y: real, m: nat)
    requires p == Pow2(k) && 0.0 <= x && y == p as real * x && m as real == p as real * r
    requires TWO52 as real <= y < TWO53 as real && Nearest(y) == m
    ensures Round(x) == r
  {
    DoubledTo(x, k, p, y);
    DoubledTo(r, k, p, m as real);
    RoundUpscaled(x, r, k, y, m);
  }
}
