/** CryptoNote Base58 (address/base58.go): eight-byte blocks become eleven characters, a shorter
    last block becomes fewer. The encoder is the one the file keeps as a comment. Characters
    stand for the bytes of a Go string. */
module Base58 {
  import opened Wire
  import opened Endian

  const ENCODED_BLOCK_SIZES: seq<nat> := [0, 2, 3, 5, 6, 7, 9, 10, 11]

  /** base58Lookup: a character outside the alphabet has no entry and reads as 0. */
  function Lookup(c: char): nat {
    if '1' <= c <= '9' then c as int - '1' as int
    else if 'A' <= c <= 'H' then c as int - 'A' as int + 9
    else if 'J' <= c <= 'N' then c as int - 'J' as int + 17
    else if 'P' <= c <= 'Z' then c as int - 'P' as int + 22
    else if 'a' <= c <= 'k' then c as int - 'a' as int + 33
    else if 'm' <= c <= 'z' then c as int - 'm' as int + 44
    else 0
  }

  /** The alphabet: digits without 0, upper case without I and O, lower case without l. */
  function Symbol(d: nat): char
    requires d < 58
  {
    if d < 9 then ('1' as int + d) as char
    else if d < 17 then ('A' as int + d - 9) as char
    else if d < 22 then ('J' as int + d - 17) as char
    else if d < 33 then ('P' as int + d - 22) as char
    else if d < 44 then ('a' as int + d - 33) as char
    else ('m' as int + d - 44) as char
  }

  predicate IsDigit(c: char) {
    c == '1' || Lookup(c) != 0
  }

  predicate IsBase58(s: string) {
    forall i :: 0 <= i < |s| ==> IsDigit(s[i])
  }

  /** The number a string stands for, most significant character first. */
  function Value58(s: string): nat {
    if s == "" then 0 else Lookup(s[0]) * Pow(58, |s| - 1) + Value58(s[1..])
  }

  function Digits(n: nat): string {
    if n == 0 then "" else Digits(n / 58) + [Symbol(n % 58)]
  }

  function Ones(k: nat): string {
    seq(k, _ => '1')
  }

  function EncodedBlock(raw: Bytes): string {
    var digits := Digits(Value256(raw));
    if |raw| < |ENCODED_BLOCK_SIZES| && |digits| < ENCODED_BLOCK_SIZES[|raw|]
    then Ones(ENCODED_BLOCK_SIZES[|raw|] - |digits|) + digits
    else digits
  }

  /** The index of a block size, or -1. */
  function SizeIndex(size: nat, i: nat): int
    decreases 9 - i
  {
    if i >= 9 then -1 else if ENCODED_BLOCK_SIZES[i] == size then i else SizeIndex(size, i + 1)
  }

  const NINE_ZEROS: Bytes := [0, 0, 0, 0, 0, 0, 0, 0, 0]

  function DecodedBlock(encoded: string): Bytes {
    if !IsBase58(encoded) then []
    else
      var i := SizeIndex(|encoded|, 0);
      var padded := NINE_ZEROS + MinimalBytes(Value58(encoded));
      if 0 <= i <= 9 then padded[|padded| - i..] else []
  }

  function Encoded(data: Bytes): string {
    if |data| >= 8 then EncodedBlock(data[..8]) + Encoded(data[8..])
    else if data != [] then EncodedBlock(data)
    else ""
  }

  function Decoded(s: string): Bytes {
    if |s| >= 11 then DecodedBlock(s[..11]) + Decoded(s[11..])
    else if s != "" then DecodedBlock(s)
    else []
  }

  // ---- Numbers and their digits ------------------------------------------------------------

  lemma SymbolDigit(d: nat)
    requires d < 58
    ensures Lookup(Symbol(d)) == d && IsDigit(Symbol(d))
  {
  }

  /** The alphabet is in ascending order, and is made of the digits and letters without 0, I, O, l. */
  lemma Alphabet(d: nat, e: nat)
    requires d < e < 58
    ensures Symbol(d) < Symbol(e)
  {
  }

  predicate InAlphabet(c: char) {
    ('0' <= c <= '9' || 'A' <= c <= 'Z' || 'a' <= c <= 'z') && c != '0' && c != 'I' && c != 'O' && c != 'l'
  }

  lemma AlphabetIs(c: char)
    ensures InAlphabet(c) <==> exists d: nat :: d < 58 && Symbol(d) == c
    ensures InAlphabet(c) <==> IsDigit(c)
    ensures !InAlphabet(c) ==> Lookup(c) == 0
    ensures InAlphabet(c) ==> Lookup(c) < 58 && Symbol(Lookup(c)) == c
  {
    if InAlphabet(c) { assert Symbol(Lookup(c)) == c; }
  }

  lemma {:induction false} Value58Append(s: string, c: char)
    ensures Value58(s + [c]) == Value58(s) * 58 + Lookup(c)
  {
    if s == "" {
      assert Value58([c]) == Lookup(c) * Pow(58, 0) + Value58([c][1..]);
    } else {
      Value58Append(s[1..], c);
      assert (s + [c])[1..] == s[1..] + [c];
      ShiftDigit(Lookup(s[0]), Pow(58, |s| - 1));
    }
  }

  lemma ShiftDigit(d: nat, p: nat)
    ensures d * (58 * p) == d * p * 58
  {
  }

  lemma {:induction false} DigitsValue(n: nat)
    ensures Value58(Digits(n)) == n && IsBase58(Digits(n))
  {
    if n > 0 {
      DigitsValue(n / 58);
      SymbolDigit(n % 58);
      Value58Append(Digits(n / 58), Symbol(n % 58));
    }
  }

  lemma {:induction false} DigitsLength(n: nat, k: nat)
    requires n < Pow(58, k)
    ensures |Digits(n)| <= k
  {
    if n > 0 {
      DigitsLength(n / 58, k - 1);
    }
  }

  lemma {:induction false} PadValue(k: nat, s: string)
    ensures Value58(Ones(k) + s) == Value58(s)
    ensures IsBase58(s) ==> IsBase58(Ones(k) + s)
  {
    if k == 0 {
      assert Ones(k) + s == s;
    } else {
      PadValue(k - 1, s);
      assert (Ones(k) + s)[1..] == Ones(k - 1) + s;
    }
  }

  /** A block of n bytes fits in its number of characters. */
  lemma BlockFits(n: nat)
    requires n <= 8
    ensures Pow(256, n) <= Pow(58, ENCODED_BLOCK_SIZES[n])
  {
    assert Pow(58, 2) == 3364 && Pow(58, 3) == 195112;
    assert Pow(58, 5) == 656356768 && Pow(58, 6) == 38068692544 && Pow(58, 7) == 2207984167552;
    assert Pow(58, 9) == 7427658739644928 && Pow(58, 10) == 430804206899405824;
    assert Pow(58, 11) == 24986644000165537792;
    assert Pow(256, 1) == 256 && Pow(256, 2) == 65536 && Pow(256, 3) == 16777216 && Pow(256, 4) == 4294967296;
    assert Pow(256, 5) == 1099511627776 && Pow(256, 6) == 281474976710656;
    assert Pow(256, 7) == 72057594037927936 && Pow(256, 8) == 18446744073709551616;
  }

  // ---- Blocks ------------------------------------------------------------------------------

  lemma LastOfAppended(b: Bytes, x: Byte, k: nat)
    requires 0 < k <= |b| + 1
    ensures (b + [x])[|b + [x]| - k..] == b[|b| - (k - 1)..] + [x]
  {
  }

  lemma {:induction false} LastBytes(zeros: Bytes, n: nat, k: nat)
    requires k <= |zeros| && forall i :: 0 <= i < |zeros| ==> zeros[i] == 0
    ensures (zeros + MinimalBytes(n))[|zeros + MinimalBytes(n)| - k..] == BigEndian(n, k)
    decreases k, n
  {
    if k > 0 {
      var all := zeros + MinimalBytes(n);
      if n == 0 {
        var fewer := zeros[..|zeros| - 1];
        LastBytes(fewer, 0, k - 1);
        assert all == fewer + [0] && fewer + MinimalBytes(0) == fewer;
        LastOfAppended(fewer, 0, k);
      } else {
        var higher := zeros + MinimalBytes(n / 256);
        LastBytes(zeros, n / 256, k - 1);
        assert all == higher + [n % 256];
        LastOfAppended(higher, n % 256, k);
      }
    }
  }

  lemma SizeIndexFinds(i: nat)
    requires i <= 8
    ensures SizeIndex(ENCODED_BLOCK_SIZES[i], 0) == i
  {
    SizeIndexFrom(i, 0);
  }

  lemma {:induction false} SizeIndexFrom(i: nat, j: nat)
    requires j <= i <= 8
    ensures SizeIndex(ENCODED_BLOCK_SIZES[i], j) == i
    decreases i - j
  {
    if j < i { SizeIndexFrom(i, j + 1); }
  }

  /** A block of valid length decodes to exactly i bytes: its base-58 value modulo 256^i, big end
      first. Anything that is not base58 decodes to nothing. */
  lemma DecodeBlockValue(encoded: string, i: nat)
    requires i <= 8 && |encoded| == ENCODED_BLOCK_SIZES[i]
    ensures IsBase58(encoded) ==> DecodedBlock(encoded) == BigEndian(Value58(encoded), i)
    ensures IsBase58(encoded) ==> |DecodedBlock(encoded)| == i
    ensures !IsBase58(encoded) ==> DecodedBlock(encoded) == []
  {
    SizeIndexFinds(i);
    LastBytes(NINE_ZEROS, Value58(encoded), i);
    BigEndianLength(Value58(encoded), i);
  }

  lemma {:induction false} NoSizeIndex(size: nat, j: nat)
    requires j <= 9 && forall i :: 0 <= i <= 8 ==> ENCODED_BLOCK_SIZES[i] != size
    ensures SizeIndex(size, j) < 0
    decreases 9 - j
  {
    if j < 9 { NoSizeIndex(size, j + 1); }
  }

  /** A block of any other length decodes to nothing. */
  lemma DecodeBlockInvalid(encoded: string)
    requires forall i :: 0 <= i <= 8 ==> ENCODED_BLOCK_SIZES[i] != |encoded|
    ensures DecodedBlock(encoded) == []
  {
    NoSizeIndex(|encoded|, 0);
  }

  /** Every block becomes exactly its number of characters, all of them base58. */
  lemma EncodeBlockShape(raw: Bytes)
    requires |raw| <= 8
    ensures |EncodedBlock(raw)| == ENCODED_BLOCK_SIZES[|raw|]
    ensures IsBase58(EncodedBlock(raw)) && Value58(EncodedBlock(raw)) == Value256(raw)
  {
    var n, size := Value256(raw), ENCODED_BLOCK_SIZES[|raw|];
    Value256Bound(raw);
    BlockFits(|raw|);
    DigitsLength(n, size);
    DigitsValue(n);
    PadValue(size - |Digits(n)|, Digits(n));
  }

  lemma BlockRoundTrip(raw: Bytes)
    requires |raw| <= 8
    ensures DecodedBlock(EncodedBlock(raw)) == raw
  {
    EncodeBlockShape(raw);
    DecodeBlockValue(EncodedBlock(raw), |raw|);
    BigEndianValue(raw);
  }

  // ---- The other direction: which strings are canonical --------------------------------------

  lemma LookupInjective(c: char, d: char)
    requires IsDigit(c) && IsDigit(d) && Lookup(c) == Lookup(d)
    ensures c == d
  {
  }

  lemma SplitDigits(a: nat, x: nat, b: nat, y: nat)
    requires x < 58 && y < 58 && a * 58 + x == b * 58 + y
    ensures a == b && x == y
  {
  }

  lemma {:induction false} Value58Injective(s: string, t: string)
    requires |s| == |t| && IsBase58(s) && IsBase58(t) && Value58(s) == Value58(t)
    ensures s == t
  {
    if s != "" {
      var s', t' := s[..|s| - 1], t[..|t| - 1];
      var c, d := s[|s| - 1], t[|t| - 1];
      assert s == s' + [c] && t == t' + [d];
      Value58Append(s', c);
      Value58Append(t', d);
      SplitDigits(Value58(s'), Lookup(c), Value58(t'), Lookup(d));
      LookupInjective(c, d);
      Value58Injective(s', t');
    }
  }

  /** A block of base58 characters is reproduced by decoding and encoding exactly when its value
      fits in the bytes of the block. */
  lemma CanonicalIff(encoded: string, i: nat)
    requires i <= 8 && |encoded| == ENCODED_BLOCK_SIZES[i] && IsBase58(encoded)
    ensures EncodedBlock(DecodedBlock(encoded)) == encoded <==> Value58(encoded) < Pow(256, i)
  {
    var raw := DecodedBlock(encoded);
    DecodeBlockValue(encoded, i);
    EncodeBlockShape(raw);
    Value256Bound(raw);
    if Value58(encoded) < Pow(256, i) {
      Value256OfBigEndian(Value58(encoded), i);
      Value58Injective(EncodedBlock(raw), encoded);
    }
  }

  // ---- Whole strings -----------------------------------------------------------------------

  /** Decoding undoes encoding for every byte string. */
  lemma {:induction false} RoundTrip(data: Bytes)
    ensures Decoded(Encoded(data)) == data
    decreases |data|
  {
    if |data| >= 8 {
      var block, rest := data[..8], data[8..];
      EncodeBlockShape(block);
      BlockRoundTrip(block);
      RoundTrip(rest);
      assert Encoded(data)[..11] == EncodedBlock(block) && Encoded(data)[11..] == Encoded(rest);
      assert block + rest == data;
    } else if data != [] {
      EncodeBlockShape(data);
      BlockRoundTrip(data);
    }
  }

  // ---- The methods -------------------------------------------------------------------------

  method WriteDigits(n: nat) returns (result: string)
    ensures result == Digits(n)
  {
    var remainder := n;
    result := "";
    while remainder > 0
      invariant Digits(remainder) + result == Digits(n)
    {
      assert Digits(remainder) == Digits(remainder / 58) + [Symbol(remainder % 58)];
      result := [Symbol(remainder % 58)] + result;
      remainder := remainder / 58;
    }
  }

  method EncodeBlock(raw: Bytes) returns (result: string)
    ensures result == EncodedBlock(raw)
  {
    result := WriteDigits(Value256(raw));
    for i := 0 to |ENCODED_BLOCK_SIZES|
      invariant |raw| >= i
    {
      if i == |raw| {
        if |result| < ENCODED_BLOCK_SIZES[i] {
          result := Ones(ENCODED_BLOCK_SIZES[i] - |result|) + result;
        }
        return;
      }
    }
  }

  method BlockValue(encoded: string) returns (valid: bool, value: nat)
    ensures valid == IsBase58(encoded) && (valid ==> value == Value58(encoded))
  {
    var multiplier := 1;
    value := 0;
    var i := |encoded|;
    while i > 0
      invariant 0 <= i <= |encoded|
      invariant value == Value58(encoded[i..]) && multiplier == Pow(58, |encoded| - i)
      invariant IsBase58(encoded[i..])
    {
      i := i - 1;
      if encoded[i] != '1' && Lookup(encoded[i]) == 0 { return false, 0; }
      assert encoded[i..][1..] == encoded[i + 1..];
      value := value + Lookup(encoded[i]) * multiplier;
      multiplier := 58 * multiplier;
    }
    assert encoded[0..] == encoded;
    valid := true;
  }

  method DecodeBlock(encoded: string) returns (result: Bytes)
    ensures result == DecodedBlock(encoded)
  {
    var valid, bigResult := BlockValue(encoded);
    if !valid { return []; }
    for i := 0 to |ENCODED_BLOCK_SIZES|
      invariant SizeIndex(|encoded|, 0) == SizeIndex(|encoded|, i)
    {
      if ENCODED_BLOCK_SIZES[i] == |encoded| {
        var padded := NINE_ZEROS + MinimalBytes(bigResult);
        return padded[|padded| - i..];
      }
    }
    return [];
  }

  lemma EncodedNext(data: Bytes, pos: nat)
    requires pos + 8 <= |data|
    ensures Encoded(data[pos..]) == EncodedBlock(data[pos..pos + 8]) + Encoded(data[pos + 8..])
  {
    assert data[pos..][..8] == data[pos..pos + 8] && data[pos..][8..] == data[pos + 8..];
  }

  lemma DecodedNext(s: string, pos: nat)
    requires pos + 11 <= |s|
    ensures Decoded(s[pos..]) == DecodedBlock(s[pos..pos + 11]) + Decoded(s[pos + 11..])
  {
    assert s[pos..][..11] == s[pos..pos + 11] && s[pos..][11..] == s[pos + 11..];
  }

  lemma DecodedLast(s: string, pos: nat)
    requires pos <= |s| < pos + 11
    ensures Decoded(s[pos..]) == if pos < |s| then DecodedBlock(s[pos..]) else []
  {
  }

  lemma EncodedLast(data: Bytes, pos: nat)
    requires pos <= |data| < pos + 8
    ensures Encoded(data[pos..]) == if pos < |data| then EncodedBlock(data[pos..]) else ""
  {
  }

  lemma AppendBlock<T>(done: seq<T>, block: seq<T>, rest: seq<T>, all: seq<T>)
    requires all == block + rest
    ensures done + block + rest == done + all
  {
  }

  method Encode(data: Bytes) returns (result: string)
    ensures result == Encoded(data)
  {
    ghost var whole := Encoded(data);
    result := "";
    var fullBlocks := |data| / 8;
    for i := 0 to fullBlocks
      invariant result + Encoded(data[i * 8..]) == whole
    {
      var pos := i * 8;
      EncodedNext(data, pos);
      var block := EncodeBlock(data[pos..pos + 8]);
      AppendBlock(result, block, Encoded(data[pos + 8..]), Encoded(data[pos..]));
      result := result + block;
      assert (i + 1) * 8 == pos + 8;
    }
    EncodedLast(data, fullBlocks * 8);
    if |data| % 8 > 0 {
      var block := EncodeBlock(data[fullBlocks * 8..]);
      result := result + block;
    }
  }

  method Decode(data: string) returns (result: Bytes)
    ensures result == Decoded(data)
  {
    ghost var whole := Decoded(data);
    result := [];
    var fullBlocks := |data| / 11;
    for i := 0 to fullBlocks
      invariant result + Decoded(data[i * 11..]) == whole
    {
      var pos := i * 11;
      DecodedNext(data, pos);
      var block := DecodeBlock(data[pos..pos + 11]);
      AppendBlock(result, block, Decoded(data[pos + 11..]), Decoded(data[pos..]));
      result := result + block;
      assert (i + 1) * 11 == pos + 11;
    }
    DecodedLast(data, fullBlocks * 11);
    if |data| % 11 > 0 {
      var block := DecodeBlock(data[fullBlocks * 11..]);
      result := result + block;
    }
  }
}
