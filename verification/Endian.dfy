/** Numbers as byte strings, big end or little end first. */
module Endian {
  import opened Wire

  function Pow(base: nat, e: nat): nat {
    if e == 0 then 1 else base * Pow(base, e - 1)
  }

  function Value256(b: Bytes): nat {
    if b == [] then 0 else Value256(b[..|b| - 1]) * 256 + b[|b| - 1]
  }

  /** The k low bytes of n, most significant first. */
  function BigEndian(n: nat, k: nat): Bytes {
    if k == 0 then [] else BigEndian(n / 256, k - 1) + [n % 256]
  }

  /** big.Int.Bytes: no leading zeros. */
  function MinimalBytes(n: nat): Bytes {
    if n == 0 then [] else MinimalBytes(n / 256) + [n % 256]
  }

  lemma {:induction false} Value256Bound(b: Bytes)
    ensures Value256(b) < Pow(256, |b|)
  {
    if b != [] { Value256Bound(b[..|b| - 1]); }
  }

  lemma {:induction false} BigEndianValue(b: Bytes)
    ensures BigEndian(Value256(b), |b|) == b
  {
    if b != [] {
      var init, last := b[..|b| - 1], b[|b| - 1];
      BigEndianValue(init);
      assert Value256(b) / 256 == Value256(init) && Value256(b) % 256 == last;
    }
  }

  lemma {:induction false} BigEndianLength(n: nat, k: nat)
    ensures |BigEndian(n, k)| == k
  {
    if k > 0 { BigEndianLength(n / 256, k - 1); }
  }

  lemma {:induction false} Value256OfBigEndian(n: nat, k: nat)
    ensures n < Pow(256, k) ==> Value256(BigEndian(n, k)) == n
  {
    if k > 0 {
      Value256OfBigEndian(n / 256, k - 1);
      var init := BigEndian(n / 256, k - 1);
      assert (init + [n % 256])[..|init|] == init;
      if n < Pow(256, k) { assert n / 256 < Pow(256, k - 1); }
    }
  }

  function LittleValue(b: Bytes): nat {
    if b == [] then 0 else b[0] + 256 * LittleValue(b[1..])
  }

  /** The k low bytes of n, least significant first. */
  function LittleEndian(n: nat, k: nat): Bytes {
    if k == 0 then [] else [n % 256] + LittleEndian(n / 256, k - 1)
  }

  function Reversed(b: Bytes): (r: Bytes)
    ensures |r| == |b|
  {
    if b == [] then [] else Reversed(b[1..]) + [b[0]]
  }

  lemma {:induction false} ReversedAt(b: Bytes, i: nat)
    requires i < |b|
    ensures Reversed(b)[i] == b[|b| - 1 - i]
    decreases |b|
  {
    if i < |b| - 1 { ReversedAt(b[1..], i); }
  }

  /** Reading a reversed string big end first is reading the string little end first. */
  lemma {:induction false} ReversedValue(b: Bytes)
    ensures Value256(Reversed(b)) == LittleValue(b)
  {
    if b != [] {
      ReversedValue(b[1..]);
      assert Reversed(b)[..|Reversed(b)| - 1] == Reversed(b[1..]);
    }
  }

  lemma {:induction false} LittleValueOf(n: nat, k: nat)
    requires n < Pow(256, k)
    ensures LittleValue(LittleEndian(n, k)) == n && |LittleEndian(n, k)| == k
  {
    if k > 0 {
      LittleValueOf(n / 256, k - 1);
      assert LittleEndian(n, k)[1..] == LittleEndian(n / 256, k - 1);
    }
  }

  /** Reversed minimal bytes, padded with zeros, are the little-endian bytes. */
  lemma {:induction false} ReversedMinimal(n: nat, k: nat)
    requires n < Pow(256, k)
    ensures |MinimalBytes(n)| <= k
    ensures Reversed(MinimalBytes(n)) + Zeros(k - |MinimalBytes(n)|) == LittleEndian(n, k)
  {
    if k == 0 {
      assert Reversed([]) + Zeros(0) == [];
    } else if n == 0 {
      ReversedMinimal(0, k - 1);
      assert Reversed([]) + Zeros(k) == [0] + (Reversed([]) + Zeros(k - 1));
    } else {
      ReversedMinimal(n / 256, k - 1);
      ReversedAppend(MinimalBytes(n / 256), n % 256);
    }
  }

  function Zeros(k: nat): Bytes {
    seq(k, _ => 0)
  }

  lemma {:induction false} ReversedAppend(b: Bytes, x: Byte)
    ensures Reversed(b + [x]) == [x] + Reversed(b)
  {
    if b == [] {
      assert Reversed([x]) == Reversed([]) + [x];
    } else {
      ReversedAppend(b[1..], x);
      assert (b + [x])[1..] == b[1..] + [x];
    }
  }
}
