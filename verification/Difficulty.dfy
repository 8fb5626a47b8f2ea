/** Difficulty and target arithmetic (template/template.go). Targets are the bytes sent to miners,
    before hex encoding. */
module Difficulty {
  import opened Binary64
  import opened Wire
  import opened Endian

  const TWO192: int := 0x1_0000_0000_0000_0000_0000_0000_0000_0000_0000_0000_0000_0000
  const MAX256: int := 0xffff_ffff_ffff_ffff_ffff_ffff_ffff_ffff_ffff_ffff_ffff_ffff_ffff_ffff_ffff_ffff

  // ---- The methods, against little-endian values -------------------------------------------

  method Reverse(b: array<Byte>)
    modifies b
    ensures b[..] == Reversed(old(b[..]))
  {
    var i, j := 0, b.Length - 1;
    while i < j
      invariant 0 <= i && j == b.Length - 1 - i && i <= j + 1
      invariant forall k :: 0 <= k < i ==> b[k] == old(b[b.Length - 1 - k]) && b[b.Length - 1 - k] == old(b[k])
      invariant forall k :: i <= k <= j ==> b[k] == old(b[k])
    {
      b[i], b[j] := b[j], b[i];
      i, j := i + 1, j - 1;
    }
    ghost var was := old(b[..]);
    forall k | 0 <= k < b.Length ensures b[k] == Reversed(was)[k] {
      ReversedAt(was, k);
    }
  }

  /** The reverse of a string, except that the middle byte of an odd length is lost. */
  function Mirrored(b: Bytes): Bytes {
    if |b| % 2 == 0 then Reversed(b) else Reversed(b)[|b| / 2 := 0]
  }

  method Reverse2(b: Bytes) returns (c: Bytes)
    ensures c == Mirrored(b)
  {
    c := Zeros(|b|);
    var i, j := 0, |b| - 1;
    while i < j
      invariant 0 <= i && j == |b| - 1 - i && i <= j + 1 && |c| == |b|
      invariant forall k :: 0 <= k < i || j < k < |b| ==> c[k] == Reversed(b)[k]
      invariant forall k :: i <= k <= j ==> c[k] == 0
    {
      ReversedAt(b, i);
      ReversedAt(b, j);
      c := c[i := b[j]][j := b[i]];
      i, j := i + 1, j - 1;
    }
  }

  /** Minimal bytes, little end first, zero-padded to four. */
  function TargetOf(v: nat): Bytes {
    var b := Reversed(MinimalBytes(v));
    b + Zeros(if |b| < 4 then 4 - |b| else 0)
  }

  /** Big-integer division, minimal bytes, reversal and padding. */
  method TargetBytes(max: nat, d: nat) returns (buf: Bytes)
    requires d > 0
    ensures buf == TargetOf(max / d)
  {
    var bytes := MinimalBytes(max / d);
    var a := new Byte[|bytes|](i requires 0 <= i < |bytes| => bytes[i]);
    assert a[..] == bytes;
    Reverse(a);
    buf := a[..];
    ghost var zeros := 0;
    while |buf| < 4
      invariant buf == Reversed(bytes) + Zeros(zeros)
      invariant zeros > 0 ==> |buf| <= 4
    {
      buf, zeros := buf + [0], zeros + 1;
    }
  }

  lemma {:induction false} LittleValuePadded(b: Bytes, k: nat)
    ensures LittleValue(b + Zeros(k)) == LittleValue(b)
    decreases |b|, k
  {
    if b != [] {
      LittleValuePadded(b[1..], k);
      assert (b + Zeros(k))[1..] == b[1..] + Zeros(k);
    } else if k > 0 {
      LittleValuePadded([], k - 1);
      assert ([] + Zeros(k))[1..] == [] + Zeros(k - 1);
    } else {
      assert b + Zeros(k) == [];
    }
  }

  lemma TargetOfValue(v: nat)
    ensures LittleValue(TargetOf(v)) == v
  {
    ReversedValueMinimal(v);
    LittleValuePadded(Reversed(MinimalBytes(v)), if |MinimalBytes(v)| < 4 then 4 - |MinimalBytes(v)| else 0);
  }

  lemma {:induction false} MinimalValue(n: nat)
    ensures Value256(MinimalBytes(n)) == n
  {
    if n > 0 {
      MinimalValue(n / 256);
      assert MinimalBytes(n)[..|MinimalBytes(n)| - 1] == MinimalBytes(n / 256);
    }
  }

  lemma ReversedValueMinimal(n: nat)
    ensures LittleValue(Reversed(MinimalBytes(n))) == n
  {
    var b := MinimalBytes(n);
    MinimalValue(n);
    ReversedTwice(b);
    ReversedValue(Reversed(b));
  }

  lemma {:induction false} ReversedTwice(b: Bytes)
    ensures Reversed(Reversed(b)) == b
  {
    if b != [] {
      ReversedTwice(b[1..]);
      ReversedAppend(Reversed(b[1..]), b[0]);
    }
  }

  lemma MinimalLong(n: nat, k: nat)
    requires n >= Pow(256, k)
    ensures |MinimalBytes(n)| > k
  {
    Value256Bound(MinimalBytes(n));
    MinimalValue(n);
    if |MinimalBytes(n)| <= k { PowMonotone(|MinimalBytes(n)|, k); }
  }

  lemma {:induction false} PowMonotone(a: nat, b: nat)
    requires a <= b
    ensures Pow(256, a) <= Pow(256, b)
    decreases b
  {
    if a < b { PowMonotone(a, b - 1); }
  }

  // ---- Targets -----------------------------------------------------------------------------

  function ShortTarget(d: Uint64): Bytes {
    if d == 0 then [255, 255, 255, 255] else LittleEndian(0xffff_ffff / d, 4)
  }

  function TargetValue(d: Uint64): nat {
    if d == 0 then 0xffff_ffff_ffff_ffff else 0xffff_ffff_ffff_ffff / d
  }

  const EIGHT_ONES: Bytes := [255, 255, 255, 255, 255, 255, 255, 255]

  function Target(d: Uint64): Bytes {
    if d == 0 then EIGHT_ONES else TargetOf(TargetValue(d))
  }

  lemma Pow4()
    ensures Pow(256, 4) == 0x1_0000_0000
  {
    assert Pow(256, 2) == 65536;
  }

  lemma DivAtMost(n: nat, d: nat)
    requires d > 0
    ensures 0 <= n / d <= n
  {
    DivIff(n, d, n / d);
    if n / d > n { MulAtLeast(n / d, d); }
  }

  method DiffToShortTarget(d: Uint64) returns (target: Bytes)
    ensures target == ShortTarget(d)
  {
    if d == 0 { return [255, 255, 255, 255]; }
    Pow4();
    DivAtMost(0xffff_ffff, d);
    target := TargetBytes(0xffff_ffff, d);
    ReversedMinimal(0xffff_ffff / d, 4);
  }

  method DiffToTarget(d: Uint64) returns (target: Bytes)
    ensures target == Target(d) && LittleValue(target) == TargetValue(d)
  {
    if d == 0 {
      target := [255, 255, 255, 255, 255, 255, 255, 255];
      EightOnes();
    } else {
      target := TargetBytes(0xffff_ffff_ffff_ffff, d);
      TargetOfValue(TargetValue(d));
    }
  }

  lemma EightOnes()
    ensures LittleValue([255, 255, 255, 255, 255, 255, 255, 255]) == 0xffff_ffff_ffff_ffff
  {
    assert LittleValue([255]) == 255;
    assert LittleValue([255, 255]) == 65535;
    assert LittleValue([255, 255, 255]) == 0xff_ffff;
    assert LittleValue([255, 255, 255, 255]) == 0xffff_ffff;
    assert [255, 255, 255, 255, 255, 255, 255, 255][4..] == [255, 255, 255, 255];
    assert LittleValue([255, 255, 255, 255, 255]) == 0xff_ffff_ffff;
    assert LittleValue([255, 255, 255, 255, 255, 255]) == 0xffff_ffff_ffff;
    assert LittleValue([255, 255, 255, 255, 255, 255, 255]) == 0xff_ffff_ffff_ffff;
  }

  /** ShortDiffToDiff; any other length ends the program. */
  function ShortDiffToDiff(target: Bytes): nat
    requires |target| == 4
  {
    var v := LittleValue(target);
    if v == 0 then 0 else 0xffff_ffff / v
  }

  // ---- Floor division ----------------------------------------------------------------------

  lemma MulAtLeast(a: int, b: int)
    requires a >= 0 && b >= 1
    ensures a * b >= a
  {
  }

  lemma MulMonotone(a: int, b: int, c: int)
    requires a <= b && c >= 0
    ensures a * c <= b * c
  {
  }

  /** The defining property of floor division. */
  lemma DivIff(n: int, d: int, k: int)
    requires n >= 0 && d > 0
    ensures k <= n / d <==> k * d <= n
  {
    var q := n / d;
    assert q * d <= n < q * d + d;
    if k <= q { MulMonotone(k, q, d); }
    if k > q { MulMonotone(q + 1, k, d); assert (q + 1) * d == q * d + d; }
  }

  /** Dividing twice is a Galois connection: the second quotient is no smaller than what one
      started from, and a third division gives the first quotient again. */
  lemma DivTwice(n: int, d: int)
    requires 0 < d <= n
    ensures 1 <= n / d && d <= n / (n / d) && n / (n / (n / d)) == n / d
  {
    var t := n / d;
    DivIff(n, d, 1);
    DivIff(n, d, t);
    DivIff(n, t, d);
    var e := n / t;
    DivIff(n, t, 1);
    DivIff(n, t, e);
    DivIff(n, e, t);
    if n / e > t {
      DivIff(n, e, t + 1);
      MulMonotone(d, e, t + 1);
      DivIff(n, d, t + 1);
    }
  }

  // ---- What the targets and difficulties mean ----------------------------------------------

  lemma ShortTargetValue(d: Uint64)
    ensures |ShortTarget(d)| == 4
    ensures LittleValue(ShortTarget(d)) == if d == 0 then 0xffff_ffff else 0xffff_ffff / d
  {
    if d == 0 {
      assert LittleValue([255]) == 255 && LittleValue([255, 255]) == 65535;
      assert LittleValue([255, 255, 255]) == 0xff_ffff;
    } else {
      Pow4();
      DivAtMost(0xffff_ffff, d);
      LittleValueOf(0xffff_ffff / d, 4);
    }
  }

  /** The difficulty a miner recovers from its short target is at least the one sent, exactly when
      that one fits in 32 bits; recovering and sending again gives the same four bytes. */
  lemma ShortTargetConnection(d: Uint64)
    ensures |ShortTarget(d)| == 4
    ensures d <= ShortDiffToDiff(ShortTarget(d)) <==> d <= 0xffff_ffff
    ensures 1 <= d <= 0xffff_ffff ==> ShortTarget(ShortDiffToDiff(ShortTarget(d))) == ShortTarget(d)
  {
    ShortTargetValue(d);
    if 1 <= d <= 0xffff_ffff {
      DivTwice(0xffff_ffff, d);
    } else if d > 0xffff_ffff {
      DivIff(0xffff_ffff, d, 1);
    }
  }

  /** A larger difficulty never gets a larger target. */
  lemma ShortTargetAntitone(d: Uint64, e: Uint64)
    requires 1 <= d <= e
    ensures LittleValue(ShortTarget(e)) <= LittleValue(ShortTarget(d))
  {
    ShortTargetValue(d);
    ShortTargetValue(e);
    var t := 0xffff_ffff / e;
    DivAtMost(0xffff_ffff, e);
    DivIff(0xffff_ffff, e, t);
    MulMonotone(d, e, t);
    DivIff(0xffff_ffff, d, t);
  }

  /** MidDiffToDiff; any other length ends the program. */
  function MidDiffToDiff(target: Bytes): nat
    requires |target| == 8
  {
    var v := LittleValue(target);
    if v == 0 then 0 else 0xffff_ffff_ffff_ffff / v
  }

  lemma Pow7And8()
    ensures Pow(256, 7) == 0x100_0000_0000_0000 && Pow(256, 8) == 0x1_0000_0000_0000_0000
  {
    assert Pow(256, 2) == 0x1_0000 && Pow(256, 4) == 0x1_0000_0000 && Pow(256, 6) == 0x1_0000_0000_0000;
  }

  /** The target announced as eight bytes has eight only up to difficulty 255: it is padded to four. */
  lemma TargetHasEightBytesIff(d: Uint64)
    ensures |Target(d)| == 8 <==> d <= 255
  {
    if d > 0 {
      var v := TargetValue(d);
      Pow7And8();
      DivAtMost(0xffff_ffff_ffff_ffff, d);
      DivIff(0xffff_ffff_ffff_ffff, d, 0x100_0000_0000_0000);
      ReversedMinimal(v, 8);
      if v >= 0x100_0000_0000_0000 { MinimalLong(v, 7); } else { ReversedMinimal(v, 7); }
    }
  }

  /** Where the receiving side reads it at all, the same connection as for short targets. */
  lemma TargetConnection(d: Uint64)
    requires 1 <= d <= 255
    ensures |Target(d)| == 8 && d <= MidDiffToDiff(Target(d)) < TWO64
    ensures Target(MidDiffToDiff(Target(d))) == Target(d)
  {
    TargetHasEightBytesIff(d);
    TargetOfValue(TargetValue(d));
    DivTwice(0xffff_ffff_ffff_ffff, d);
    DivAtMost(0xffff_ffff_ffff_ffff, TargetValue(d));
  }

  datatype HashDiff = Diff(value: Uint64) | Panic

  /** The difficulty of a hash with little-endian value h: zero when its low 64 bits vanish, a
      panic when the quotient does not fit in 64 bits. */
  function HashDifficulty(h: nat): HashDiff {
    if h % 0x1_0000_0000_0000_0000 == 0 then Diff(0)
    else if MAX256 / h < TWO64 then
      DivAtMost(MAX256, h);
      Diff(MAX256 / h)
    else Panic
  }

  method HashToDiff(hash: Bytes) returns (r: HashDiff)
    ensures r == HashDifficulty(Value256(Mirrored(hash)))
    ensures |hash| % 2 == 0 ==> r == HashDifficulty(LittleValue(hash))
  {
    var mirrored := Reverse2(hash);
    var diff := Value256(mirrored);
    if |hash| % 2 == 0 { ReversedValue(hash); }
    if diff % 0x1_0000_0000_0000_0000 == 0 { return Diff(0); }
    DivAtMost(MAX256, diff);
    var quotient := MAX256 / diff;
    if quotient < TWO64 { return Diff(quotient); }
    return Panic;
  }

  /** The pool's check is exact: a hash reaches difficulty d just when h * d fits in 256 bits. The
      check panics just on the nonzero-ended hashes below 2^192. */
  lemma HashReaches(h: nat, d: nat)
    requires h <= MAX256 && h % 0x1_0000_0000_0000_0000 != 0
    ensures HashDifficulty(h).Panic? <==> h < TWO192
    ensures h >= TWO192 ==> (d <= HashDifficulty(h).value <==> h * d <= MAX256)
  {
    DivIff(MAX256, h, d);
    DivIff(MAX256, h, TWO64);
    assert TWO64 * h <= MAX256 <==> h < TWO192;
    assert d * h == h * d;
  }

  /** For every hash and positive difficulty: the check panics just on the nonzero-ended hashes below
      2^192, and otherwise says whether h * d fits in 256 bits, except that a hash ending in 64 zero
      bits never reaches a difficulty it should. */
  lemma HashReachesIff(h: nat, d: nat)
    requires h <= MAX256 && d > 0
    ensures HashDifficulty(h).Panic? <==> h % 0x1_0000_0000_0000_0000 != 0 && h < TWO192
    ensures HashDifficulty(h).Diff? ==>
      ((d <= HashDifficulty(h).value <==> h * d <= MAX256) <==> h % 0x1_0000_0000_0000_0000 != 0 || h * d > MAX256)
  {
    if h % 0x1_0000_0000_0000_0000 != 0 { HashReaches(h, d); }
  }

  /** Such a hash: 2^192 is worth 2^64 - 1, and counts for nothing. */
  lemma ZeroEndedHash()
    ensures HashDifficulty(TWO192) == Diff(0) && TWO192 * 0xffff_ffff_ffff_ffff <= MAX256
  {
  }

  lemma BelowTarget(h: nat, top: nat, weight: nat, max: nat, d: nat)
    requires d > 0 && weight > 0 && h < (top + 1) * weight && top < max / d && (max + 1) * weight == MAX256 + 1
    ensures h * d <= MAX256
  {
    var t := max / d;
    DivIff(max, d, t);
    MulMonotone(top + 1, t, weight);
    MulMonotone(h, t * weight, d);
    assert t * weight * d == t * d * weight;
    MulMonotone(t * d, max, weight);
  }

  /** A hash whose top 64 bits are below the target sent for d passes the pool's check for d. */
  lemma TargetPasses(h: nat, d: Uint64)
    requires TWO192 <= h <= MAX256 && h % 0x1_0000_0000_0000_0000 != 0
    requires d > 0 && h / TWO192 < TargetValue(d)
    ensures HashDifficulty(h).Diff? && d <= HashDifficulty(h).value
  {
    HashReaches(h, d);
    BelowTarget(h, h / TWO192, TWO192, 0xffff_ffff_ffff_ffff, d);
  }

  /** And likewise for the top 32 bits and the short target. */
  lemma ShortTargetPasses(h: nat, d: Uint64)
    requires TWO192 <= h <= MAX256 && h % 0x1_0000_0000_0000_0000 != 0
    requires d > 0 && h / (TWO192 * 0x1_0000_0000) < LittleValue(ShortTarget(d))
    ensures HashDifficulty(h).Diff? && d <= HashDifficulty(h).value
  {
    ShortTargetValue(d);
    HashReaches(h, d);
    BelowTarget(h, h / (TWO192 * 0x1_0000_0000), TWO192 * 0x1_0000_0000, 0xffff_ffff, d);
  }
}
