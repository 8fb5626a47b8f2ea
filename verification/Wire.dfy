/** The binary format: varints, length prefixes and the reader's cursor
    (serializer/serializer.go, serializer/deserializer.go, and Go's encoding/binary). */
module Wire {
  import opened Binary64

  type Byte = b: nat | b < 256
  type Bytes = seq<Byte>

  const TWO63: int := 0x8000_0000_0000_0000

  /** binary.AppendUvarint: seven bits a byte, low bits first, the high bit says "more". */
  function PutUvarint(n: nat): Bytes {
    if n < 128 then [n] else [n % 128 + 128] + PutUvarint(n / 128)
  }

  datatype Varint = Read(value: nat, count: nat) | Truncated | Overflow

  /** binary.Uvarint on what is left of the buffer after i bytes. */
  function Uvarint(buf: Bytes, i: nat): Varint {
    if buf == [] then Truncated
    else if i == 10 then Overflow
    else if buf[0] < 128 then
      if i == 9 && buf[0] > 1 then Overflow else Read(buf[0], 1)
    else
      match Uvarint(buf[1..], i + 1)
      case Read(v, n) => Read(buf[0] - 128 + 128 * v, n + 1)
      case other => other
  }

  /** What still fits in 64 bits after i groups of seven. */
  function Room(i: nat): nat {
    if i == 0 then 0x1_0000_0000_0000_0000 else Room(i - 1) / 128
  }

  lemma RoomValues()
    ensures Room(0) == 0x1_0000_0000_0000_0000 && Room(1) == 0x200_0000_0000_0000 && Room(2) == 0x4_0000_0000_0000
    ensures Room(3) == 0x800_0000_0000 && Room(4) == 0x10_0000_0000 && Room(5) == 0x2000_0000
    ensures Room(6) == 0x40_0000 && Room(7) == 0x8000 && Room(8) == 0x100 && Room(9) == 2
  {
  }

  lemma {:induction false} UvarintRoundTripAt(n: nat, rest: Bytes, i: nat)
    requires i <= 9 && n < Room(i)
    ensures Uvarint(PutUvarint(n) + rest, i) == Read(n, |PutUvarint(n)|)
    decreases n
  {
    RoomValues();
    var buf := PutUvarint(n) + rest;
    if n >= 128 {
      assert buf[1..] == PutUvarint(n / 128) + rest;
      UvarintRoundTripAt(n / 128, rest, i + 1);
    }
  }

  /** Every 64-bit number is read back, and nothing of what follows it is consumed. */
  lemma UvarintRoundTrip(n: Uint64, rest: Bytes)
    ensures Uvarint(PutUvarint(n) + rest, 0) == Read(n, |PutUvarint(n)|)
  {
    RoomValues();
    UvarintRoundTripAt(n, rest, 0);
  }

  lemma {:induction false} UvarintCount(buf: Bytes, i: nat)
    ensures Uvarint(buf, i).Read? ==> 1 <= Uvarint(buf, i).count <= |buf|
    ensures Uvarint(buf, i).Read? && i <= 9 ==> Uvarint(buf, i).value < Room(i)
    decreases |buf|
  {
    RoomValues();
    if buf != [] && i != 10 { UvarintCount(buf[1..], i + 1); }
  }

  // ---- The reader --------------------------------------------------------------------------

  /** Failed is the sticky Error of the reader; Panicked stands for a Go run-time panic, after
      which nothing more is read. */
  datatype Status = Ok | Failed | Panicked

  datatype Cursor = Cursor(data: Bytes, status: Status) {
    predicate Live() { status == Ok }

    function Fail(): Cursor { this.(status := Failed) }

    function Skip(n: nat): Cursor
      requires n <= |data|
    {
      this.(data := data[n..])
    }
  }

  function ReadUint8(c: Cursor): (Byte, Cursor) {
    if !c.Live() then (0, c)
    else if |c.data| < 1 then (0, c.Fail())
    else (c.data[0], c.Skip(1))
  }

  /** A truncated varint reads as 0 and consumes nothing: only an overflow is an error. */
  function ReadUvarint(c: Cursor): (Uint64, Cursor) {
    if !c.Live() then (0, c)
    else if |c.data| < 1 then (0, c.Fail())
    else
      UvarintCount(c.data, 0);
      match Uvarint(c.data, 0)
      case Read(v, n) => (v, c.Skip(n))
      case Truncated => (0, c)
      case Overflow => (0, c.Fail())
  }

  function ReadFixed(c: Cursor, n: nat): (Bytes, Cursor) {
    if !c.Live() then ([], c)
    else if |c.data| < n then ([], c.Fail())
    else (c.data[..n], c.Skip(n))
  }

  /** A declared length of 2^63 or more is negative as an int, passes the length check and makes
      the slice expression panic. */
  function ReadByteSlice(c: Cursor): (Bytes, Cursor) {
    if !c.Live() then ([], c)
    else if |c.data| < 1 then ([], c.Fail())
    else
      UvarintCount(c.data, 0);
      match Uvarint(c.data, 0)
      case Overflow => ([], c.Fail())
      case Truncated => ([], c)
      case Read(length, n) =>
        var c' := c.Skip(n);
        if length >= TWO63 then ([], c'.(status := Panicked))
        else if |c'.data| < length then ([], c'.Fail())
        else (c'.data[..length], c'.Skip(length))
  }

  function ReadBool(c: Cursor): (bool, Cursor) {
    if !c.Live() then (false, c)
    else if |c.data| < 1 then (false, c.Fail())
    else if c.data[0] == 1 then (true, c.Skip(1))
    else if c.data[0] == 0 then (false, c.Skip(1))
    else (false, c.Skip(1).Fail())
  }

  // ---- Each field is read back with everything after it untouched ----------------------------

  function PutByteSlice(a: Bytes): Bytes {
    PutUvarint(|a|) + a
  }

  function PutBool(b: bool): Bytes {
    [if b then 1 else 0]
  }

  lemma ReadsUint8(n: Byte, rest: Bytes)
    ensures ReadUint8(Cursor([n] + rest, Ok)) == (n, Cursor(rest, Ok))
  {
    assert ([n] + rest)[1..] == rest;
  }

  lemma ReadsUvarint(n: Uint64, rest: Bytes)
    ensures ReadUvarint(Cursor(PutUvarint(n) + rest, Ok)) == (n, Cursor(rest, Ok))
  {
    UvarintRoundTrip(n, rest);
    assert (PutUvarint(n) + rest)[|PutUvarint(n)|..] == rest;
  }

  lemma ReadsFixed(a: Bytes, rest: Bytes)
    ensures ReadFixed(Cursor(a + rest, Ok), |a|) == (a, Cursor(rest, Ok))
  {
    assert (a + rest)[..|a|] == a && (a + rest)[|a|..] == rest;
  }

  lemma ReadsByteSlice(a: Bytes, rest: Bytes)
    requires |a| < TWO63
    ensures ReadByteSlice(Cursor(PutByteSlice(a) + rest, Ok)) == (a, Cursor(rest, Ok))
  {
    var prefix := PutUvarint(|a|);
    assert PutByteSlice(a) + rest == prefix + (a + rest);
    UvarintRoundTrip(|a|, a + rest);
    assert (prefix + (a + rest))[|prefix|..] == a + rest;
    assert (a + rest)[..|a|] == a && (a + rest)[|a|..] == rest;
  }

  lemma ReadsBool(b: bool, rest: Bytes)
    ensures ReadBool(Cursor(PutBool(b) + rest, Ok)) == (b, Cursor(rest, Ok))
  {
    assert (PutBool(b) + rest)[1..] == rest;
  }
}
