/** The writer and the reader as the objects they are: every add replaces `data` by a longer
    buffer, every read moves the cursor (serializer/serializer.go, serializer/deserializer.go). */
module Serializer {
  import opened Binary64
  import opened Wire

  class Writer {
    var data: Bytes

    constructor (initial: Bytes)
      ensures data == initial
    {
      data := initial;
    }

    method AddUint8(n: Byte)
      modifies this
      ensures data == old(data) + [n]
    {
      data := data + [n];
    }

    method AddUvarint(n: Uint64)
      modifies this
      ensures data == old(data) + PutUvarint(n)
    {
      var x: nat := n;
      while x >= 128
        invariant data + PutUvarint(x) == old(data) + PutUvarint(n)
      {
        data := data + [x % 128 + 128];
        x := x / 128;
      }
      data := data + [x];
    }

    /** A wrong length panics: nothing is added. */
    method AddFixedByteArray(a: Bytes, length: nat) returns (panicked: bool)
      modifies this
      ensures panicked <==> |a| != length
      ensures data == if panicked then old(data) else old(data) + a
    {
      if |a| != length { return true; }
      data := data + a;
      return false;
    }

    method AddByteSlice(a: Bytes)
      requires |a| < TWO63
      modifies this
      ensures data == old(data) + PutByteSlice(a)
    {
      AddUvarint(|a|);
      data := data + a;
    }

    method AddBool(b: bool)
      modifies this
      ensures data == old(data) + PutBool(b)
    {
      data := data + [if b then 1 else 0];
    }
  }

  function Plus(x: nat, m: nat, group: nat): nat {
    x + m * group
  }

  /** A varint whose first i bytes, worth x, have been read; the next group has weight m. */
  function Continue(x: nat, m: nat, i: nat, tail: Varint): Varint {
    match tail
    case Read(v, n) => Read(Plus(x, m, v), i + n)
    case other => other
  }

  lemma ContinueStep(x: nat, m: nat, i: nat, b: nat, tail: Varint)
    ensures Continue(x, m, i, Continue(b, 128, 1, tail)) == Continue(Plus(x, m, b), 128 * m, i + 1, tail)
  {
    if tail.Read? {
      assert m * (b + 128 * tail.value) == m * b + 128 * m * tail.value;
    }
  }

  lemma UvarintUnfold(buf: Bytes, i: nat, x: nat, m: nat)
    requires i <= |buf| && i <= 10
    ensures Continue(x, m, i, Uvarint(buf[i..], i)) ==
      if i == |buf| then Truncated
      else if i == 10 then Overflow
      else if buf[i] >= 128 then Continue(Plus(x, m, buf[i] - 128), 128 * m, i + 1, Uvarint(buf[i + 1..], i + 1))
      else if i == 9 && buf[i] > 1 then Overflow
      else Read(Plus(x, m, buf[i]), i + 1)
  {
    if i < |buf| {
      assert buf[i..][1..] == buf[i + 1..];
      if buf[i] >= 128 { ContinueStep(x, m, i, buf[i] - 128, Uvarint(buf[i + 1..], i + 1)); }
    }
  }

  /** The loop of binary.Uvarint. */
  method DecodeUvarint(buf: Bytes) returns (r: Varint)
    ensures r == Uvarint(buf, 0)
  {
    var x: nat, m: nat, i := 0, 1, 0;
    ghost var goal := Uvarint(buf, 0);
    assert Continue(x, m, i, Uvarint(buf[i..], i)) == goal by { assert buf[0..] == buf; }
    while i < |buf|
      invariant i <= |buf| && i <= 10
      invariant Continue(x, m, i, Uvarint(buf[i..], i)) == goal
    {
      UvarintUnfold(buf, i, x, m);
      if i == 10 { return Overflow; }
      if buf[i] < 128 {
        if i == 9 && buf[i] > 1 { return Overflow; }
        return Read(Plus(x, m, buf[i]), i + 1);
      }
      x, m, i := Plus(x, m, buf[i] - 128), 128 * m, i + 1;
    }
    UvarintUnfold(buf, i, x, m);
    return Truncated;
  }

  class Reader {
    var data: Bytes
    var status: Status

    constructor (input: Bytes)
      ensures Value() == Cursor(input, Ok)
    {
      data, status := input, Ok;
    }

    function Value(): Cursor
      reads this
    {
      Cursor(data, status)
    }

    method Uint8() returns (b: Byte)
      modifies this
      ensures (b, Value()) == ReadUint8(old(Value()))
    {
      if status != Ok { return 0; }
      if |data| < 1 { status := Failed; return 0; }
      b := data[0];
      data := data[1..];
    }

    method Uvarint() returns (n: Uint64)
      modifies this
      ensures (n, Value()) == ReadUvarint(old(Value()))
    {
      if status != Ok { return 0; }
      if |data| < 1 { status := Failed; return 0; }
      UvarintCount(data, 0);
      var r := DecodeUvarint(data);
      match r
      case Overflow => status := Failed; return 0;
      case Truncated => return 0;
      case Read(v, count) =>
        data := data[count..];
        return v;
    }

    method FixedByteArray(length: nat) returns (a: Bytes)
      modifies this
      ensures (a, Value()) == ReadFixed(old(Value()), length)
    {
      if status != Ok { return []; }
      if |data| < length { status := Failed; return []; }
      a := data[..length];
      data := data[length..];
    }

    method ByteSlice() returns (a: Bytes)
      modifies this
      ensures (a, Value()) == ReadByteSlice(old(Value()))
    {
      if status != Ok { return []; }
      if |data| < 1 { status := Failed; return []; }
      UvarintCount(data, 0);
      var r := DecodeUvarint(data);
      match r
      case Overflow => status := Failed; return [];
      case Truncated => return [];
      case Read(length, count) =>
        data := data[count..];
        if length >= TWO63 { status := Panicked; return []; }
        if |data| < length { status := Failed; return []; }
        a := data[..length];
        data := data[length..];
    }

    method Bool() returns (b: bool)
      modifies this
      ensures (b, Value()) == ReadBool(old(Value()))
    {
      if status != Ok { return false; }
      if |data| < 1 { status := Failed; return false; }
      var x := data[0];
      data := data[1..];
      if x == 1 { return true; }
      if x != 0 { status := Failed; }
      return false;
    }
  }
}
