/** Storage of pending balances (database/database.go): records with a nested, self-delimiting
    record that holds a map written in arbitrary order. */
module PendingBalances {
  import opened Binary64
  import opened Collections
  import opened Wire
  import opened Serializer
  import opened Flattening

  const VERSION: Byte := 0

  datatype UnconfTx = UnconfTx(unlockHeight: Uint64, txnHash: Bytes, bals: map<Bytes, Uint64>, balancesAdded: bool)
  datatype PendingBals = PendingBals(lastHeight: Uint64, unconfirmedTxs: seq<UnconfTx>)

  /** What Go's types guarantee: a 32-byte hash, and lengths that are ints. */
  ghost predicate ValidTx(x: UnconfTx) {
    |x.txnHash| == 32 && |x.bals| < TWO63 && forall k :: k in x.bals ==> |k| < TWO63
  }

  ghost predicate Valid(x: PendingBals) {
    |x.unconfirmedTxs| < TWO63 && forall i :: 0 <= i < |x.unconfirmedTxs| ==> ValidTx(x.unconfirmedTxs[i])
  }

  /** An iteration order of the map: every key once. */
  ghost predicate Enumerates(order: seq<Bytes>, m: map<Bytes, Uint64>) {
    && |order| == |m|
    && (forall i :: 0 <= i < |order| ==> order[i] in m)
    && (forall i, j :: 0 <= i < j < |order| ==> order[i] != order[j])
  }

  function BalanceBytes(m: map<Bytes, Uint64>, k: Bytes): Bytes
    requires k in m
  {
    PutByteSlice(k) + PutUvarint(m[k])
  }

  /** The entries of the map in the given order. */
  function BalsParts(m: map<Bytes, Uint64>, order: seq<Bytes>): seq<Bytes>
    requires forall i :: 0 <= i < |order| ==> order[i] in m
  {
    seq(|order|, i requires 0 <= i < |order| => BalanceBytes(m, order[i]))
  }

  function HeadBytes(x: UnconfTx): Bytes {
    [VERSION] + PutUvarint(x.unlockHeight) + x.txnHash + PutUvarint(|x.bals|)
  }

  /** The bytes of one transaction when its balances are visited in the given order. */
  ghost function TxBytes(x: UnconfTx, order: seq<Bytes>): Bytes
    requires Enumerates(order, x.bals)
  {
    HeadBytes(x) + Flatten(BalsParts(x.bals, order)) + PutBool(x.balancesAdded)
  }

  ghost predicate IsTx(x: UnconfTx, order: seq<Bytes>, part: Bytes) {
    Enumerates(order, x.bals) && part == TxBytes(x, order)
  }

  /** The transactions' bytes, one iteration order per transaction. */
  ghost predicate Written(txs: seq<UnconfTx>, orders: seq<seq<Bytes>>, parts: seq<Bytes>) {
    && |orders| == |parts| == |txs|
    && forall i {:trigger IsTx(txs[i], orders[i], parts[i])} :: 0 <= i < |txs| ==> IsTx(txs[i], orders[i], parts[i])
  }

  function Header(x: PendingBals): Bytes {
    [VERSION] + PutUvarint(x.lastHeight) + PutUvarint(|x.unconfirmedTxs|)
  }

  /** The serializations of x: any choice of iteration orders. */
  ghost predicate Encodes(x: PendingBals, orders: seq<seq<Bytes>>, parts: seq<Bytes>, bytes: Bytes) {
    Written(x.unconfirmedTxs, orders, parts) && bytes == Header(x) + Flatten(parts)
  }

  // ---- Reading -----------------------------------------------------------------------------

  /** Go's int(n) for a uint64 n. */
  function ToInt(n: Uint64): int {
    if n < TWO63 then n else n - TWO64
  }

  function ReadBals(c: Cursor, n: int, m: map<Bytes, Uint64>): (map<Bytes, Uint64>, Cursor)
    decreases n
  {
    if n <= 0 then (m, c)
    else
      var (k, c1) := ReadByteSlice(c);
      var (v, c2) := ReadUvarint(c1);
      ReadBals(c2, n - 1, m[k := v])
  }

  datatype TxHead = TxHead(height: Uint64, hash: Bytes, count: Uint64, cursor: Cursor)

  /** Converting a short slice to [32]byte panics. */
  function ReadHead(data: Bytes): TxHead {
    var (_, c1) := ReadUint8(Cursor(data, Ok));
    var (height, c2) := ReadUvarint(c1);
    var (hash, c3) := ReadFixed(c2, 32);
    var (count, c4) := ReadUvarint(if |hash| < 32 then c3.(status := Panicked) else c3);
    TxHead(height, hash, count, c4)
  }

  function ReadTx(data: Bytes): (UnconfTx, Cursor) {
    var head := ReadHead(data);
    var (bals, c5) := ReadBals(head.cursor, ToInt(head.count), map[]);
    var (added, c6) := ReadBool(c5);
    (UnconfTx(head.height, head.hash, bals, added), c6)
  }

  /** Reads n records, each with a reader that returns what follows it; the first failure ends
      the loop. */
  function ReadMany<X>(read: Bytes -> (X, Cursor), data: Bytes, n: int, xs: seq<X>): (seq<X>, Cursor)
    decreases n
  {
    if n <= 0 then (xs, Cursor(data, Ok))
    else
      var (x, c) := read(data);
      if !c.Live() then (xs, c) else ReadMany(read, c.data, n - 1, xs + [x])
  }

  /** `maxCap` is the largest capacity the allocator grants; make panics beyond it. */
  function ReadPending(data: Bytes, maxCap: nat): (PendingBals, Cursor) {
    var (_, c1) := ReadUint8(Cursor(data, Ok));
    var (height, c2) := ReadUvarint(c1);
    var (n, c3) := ReadUvarint(c2);
    if !(0 <= ToInt(n) <= maxCap) then (PendingBals(height, []), c3.(status := Panicked))
    else if !c3.Live() then (PendingBals(height, []), c3)
    else
      var (txs, c4) := ReadMany(ReadTx, c3.data, ToInt(n), []);
      (PendingBals(height, txs), c4)
  }

  // ---- The round trip ----------------------------------------------------------------------

  function Restrict(m: map<Bytes, Uint64>, order: seq<Bytes>): map<Bytes, Uint64> {
    map k | k in order && k in m :: m[k]
  }

  lemma ReadsBalance(m: map<Bytes, Uint64>, k: Bytes, n: int, acc: map<Bytes, Uint64>, after: Bytes)
    requires k in m && |k| < TWO63 && n > 0
    ensures ReadBals(Cursor(BalanceBytes(m, k) + after, Ok), n, acc)
         == ReadBals(Cursor(after, Ok), n - 1, acc[k := m[k]])
  {
    assert BalanceBytes(m, k) + after == PutByteSlice(k) + (PutUvarint(m[k]) + after);
    ReadsByteSlice(k, PutUvarint(m[k]) + after);
    ReadsUvarint(m[k], after);
  }

  lemma RestrictStep(m: map<Bytes, Uint64>, order: seq<Bytes>, acc: map<Bytes, Uint64>)
    requires order != [] && order[0] in m
    ensures acc[order[0] := m[order[0]]] + Restrict(m, order[1..]) == acc + Restrict(m, order)
  {
    assert order == [order[0]] + order[1..];
  }

  lemma {:induction false} ReadsBals(m: map<Bytes, Uint64>, order: seq<Bytes>, acc: map<Bytes, Uint64>, rest: Bytes)
    requires forall i :: 0 <= i < |order| ==> order[i] in m && |order[i]| < TWO63
    ensures ReadBals(Cursor(Flatten(BalsParts(m, order)) + rest, Ok), |order|, acc)
         == (acc + Restrict(m, order), Cursor(rest, Ok))
    decreases |order|
  {
    var parts := BalsParts(m, order);
    if order == [] {
      assert Flatten(parts) + rest == rest;
      assert acc + Restrict(m, order) == acc;
    } else {
      FlattenCons(parts, rest);
      assert parts[1..] == BalsParts(m, order[1..]);
      ReadsBalance(m, order[0], |order|, acc, Flatten(parts[1..]) + rest);
      ReadsBals(m, order[1..], acc[order[0] := m[order[0]]], rest);
      RestrictStep(m, order, acc);
    }
  }

  lemma {:induction false} DistinctSize(order: seq<Bytes>)
    requires forall i, j :: 0 <= i < j < |order| ==> order[i] != order[j]
    ensures |set k | k in order| == |order|
  {
    if order != [] {
      var init, last := order[..|order| - 1], order[|order| - 1];
      DistinctSize(init);
      assert order == init + [last];
      assert (set k | k in order) == (set k | k in init) + {last};
    }
  }

  lemma OrderCoversMap(order: seq<Bytes>, m: map<Bytes, Uint64>)
    requires Enumerates(order, m)
    ensures Restrict(m, order) == m
  {
    DistinctSize(order);
    var keys := set k | k in order;
    assert keys <= m.Keys;
    SubsetSize(keys, m.Keys);
  }

  lemma ReadsHead(x: UnconfTx, r: Bytes)
    requires |x.txnHash| == 32 && |x.bals| < TWO63
    ensures ReadHead(HeadBytes(x) + r) == TxHead(x.unlockHeight, x.txnHash, |x.bals|, Cursor(r, Ok))
  {
    var r3 := PutUvarint(|x.bals|) + r;
    var r2 := x.txnHash + r3;
    var r1 := PutUvarint(x.unlockHeight) + r2;
    assert HeadBytes(x) + r == [VERSION] + r1;
    ReadsUint8(VERSION, r1);
    ReadsUvarint(x.unlockHeight, r2);
    ReadsFixed(x.txnHash, r3);
    ReadsUvarint(|x.bals|, r);
  }

  lemma ReadsAllBals(x: UnconfTx, order: seq<Bytes>, r: Bytes)
    requires ValidTx(x) && Enumerates(order, x.bals)
    ensures ReadBals(Cursor(Flatten(BalsParts(x.bals, order)) + r, Ok), |x.bals|, map[]) == (x.bals, Cursor(r, Ok))
  {
    ReadsBals(x.bals, order, map[], r);
    OrderCoversMap(order, x.bals);
    assert map[] + x.bals == x.bals;
  }

  /** Self-delimiting: followed by anything, the record is read back and the rest returned. */
  ghost predicate Parses<X(!new)>(read: Bytes -> (X, Cursor), bytes: Bytes, x: X) {
    forall rest :: read(bytes + rest) == (x, Cursor(rest, Ok))
  }

  ghost predicate AllParse<X(!new)>(read: Bytes -> (X, Cursor), parts: seq<Bytes>, xs: seq<X>) {
    && |parts| == |xs|
    && forall i {:trigger Parses(read, parts[i], xs[i])} :: 0 <= i < |xs| ==> Parses(read, parts[i], xs[i])
  }

  lemma AllParseRest<X(!new)>(read: Bytes -> (X, Cursor), parts: seq<Bytes>, xs: seq<X>)
    requires AllParse(read, parts, xs) && xs != []
    ensures AllParse(read, parts[1..], xs[1..]) && Parses(read, parts[0], xs[0])
  {
    forall i | 0 <= i < |xs| - 1 ensures Parses(read, parts[1..][i], xs[1..][i]) {
      assert Parses(read, parts[i + 1], xs[i + 1]);
    }
  }

  /** A list of self-delimiting records is read back record by record. */
  lemma {:induction false} ReadsMany<X(!new)>(read: Bytes -> (X, Cursor), xs: seq<X>, parts: seq<Bytes>,
                                              acc: seq<X>, rest: Bytes)
    requires AllParse(read, parts, xs)
    ensures ReadMany(read, Flatten(parts) + rest, |xs|, acc) == (acc + xs, Cursor(rest, Ok))
    decreases |xs|
  {
    if xs == [] {
      assert Flatten(parts) + rest == rest;
      assert acc + xs == acc;
    } else {
      var after := Flatten(parts[1..]) + rest;
      FlattenCons(parts, rest);
      AllParseRest(read, parts, xs);
      assert read(parts[0] + after) == (xs[0], Cursor(after, Ok));
      ReadsMany(read, xs[1..], parts[1..], acc + [xs[0]], rest);
      MoveFirst(acc, xs);
    }
  }

  lemma ReadsTx(x: UnconfTx, order: seq<Bytes>, rest: Bytes)
    requires ValidTx(x) && Enumerates(order, x.bals)
    ensures ReadTx(TxBytes(x, order) + rest) == (x, Cursor(rest, Ok))
  {
    var r2 := PutBool(x.balancesAdded) + rest;
    var r1 := Flatten(BalsParts(x.bals, order)) + r2;
    assert TxBytes(x, order) + rest == HeadBytes(x) + r1;
    ReadsHead(x, r1);
    ReadsAllBals(x, order, r2);
    ReadsBool(x.balancesAdded, rest);
  }

  /** One transaction is self-delimiting whatever order its balances were written in. */
  lemma TxParses(x: UnconfTx, order: seq<Bytes>)
    requires ValidTx(x) && Enumerates(order, x.bals)
    ensures Parses(ReadTx, TxBytes(x, order), x)
  {
    forall rest ensures ReadTx(TxBytes(x, order) + rest) == (x, Cursor(rest, Ok)) {
      ReadsTx(x, order, rest);
    }
  }

  lemma ReadsHeader(x: PendingBals, r: Bytes, maxCap: nat)
    requires |x.unconfirmedTxs| < TWO63 && |x.unconfirmedTxs| <= maxCap
    ensures ReadPending(Header(x) + r, maxCap)
         == var (txs, c) := ReadMany(ReadTx, r, |x.unconfirmedTxs|, []); (PendingBals(x.lastHeight, txs), c)
  {
    var n := PutUvarint(|x.unconfirmedTxs|);
    assert Header(x) + r == [VERSION] + (PutUvarint(x.lastHeight) + (n + r));
    ReadsUint8(VERSION, PutUvarint(x.lastHeight) + (n + r));
    ReadsUvarint(x.lastHeight, n + r);
    ReadsUvarint(|x.unconfirmedTxs|, r);
  }

  lemma TxsParse(txs: seq<UnconfTx>, orders: seq<seq<Bytes>>, parts: seq<Bytes>)
    requires Written(txs, orders, parts) && forall i :: 0 <= i < |txs| ==> ValidTx(txs[i])
    ensures AllParse(ReadTx, parts, txs)
  {
    forall i | 0 <= i < |txs| ensures Parses(ReadTx, parts[i], txs[i]) {
      assert IsTx(txs[i], orders[i], parts[i]);
      TxParses(txs[i], orders[i]);
    }
  }

  /** Deserialize undoes Serialize for every value and every iteration order of every map. */
  lemma RoundTrip(x: PendingBals, orders: seq<seq<Bytes>>, parts: seq<Bytes>, bytes: Bytes, rest: Bytes, maxCap: nat)
    requires Valid(x) && Encodes(x, orders, parts, bytes) && |x.unconfirmedTxs| <= maxCap
    ensures ReadPending(bytes + rest, maxCap) == (x, Cursor(rest, Ok))
  {
    assert bytes + rest == Header(x) + (Flatten(parts) + rest);
    ReadsHeader(x, Flatten(parts) + rest, maxCap);
    TxsParse(x.unconfirmedTxs, orders, parts);
    ReadsMany(ReadTx, x.unconfirmedTxs, parts, [], rest);
    assert [] + x.unconfirmedTxs == x.unconfirmedTxs;
  }

  /** A count that is negative as an int panics, whatever the allocator grants. */
  lemma NegativeCountPanics(height: Uint64, count: Uint64, rest: Bytes, maxCap: nat)
    requires count >= TWO63
    ensures ReadPending([VERSION] + (PutUvarint(height) + (PutUvarint(count) + rest)), maxCap).1.status == Panicked
  {
    ReadsUint8(VERSION, PutUvarint(height) + (PutUvarint(count) + rest));
    ReadsUvarint(height, PutUvarint(count) + rest);
    ReadsUvarint(count, rest);
  }

  /** A header cut off is an error, a hash cut off a panic. */
  lemma TruncatedInput(height: Uint64, hash: Bytes, maxCap: nat)
    ensures ReadPending([], maxCap).1.status == Failed && ReadPending([VERSION], maxCap).1.status == Failed
    ensures |hash| < 32 ==> ReadTx([VERSION] + (PutUvarint(height) + hash)).1.status == Panicked
  {
    ReadsUint8(VERSION, []);
    assert [VERSION] + [] == [VERSION];
    ReadsUint8(VERSION, PutUvarint(height) + hash);
    ReadsUvarint(height, hash);
  }

  /** Hence no byte string stores two different values. */
  lemma EncodingInjective(x: PendingBals, orders: seq<seq<Bytes>>, parts: seq<Bytes>,
                          y: PendingBals, orders': seq<seq<Bytes>>, parts': seq<Bytes>, bytes: Bytes)
    requires Valid(x) && Encodes(x, orders, parts, bytes)
    requires Valid(y) && Encodes(y, orders', parts', bytes)
    ensures x == y
  {
    RoundTrip(x, orders, parts, bytes, [], TWO63);
    RoundTrip(y, orders', parts', bytes, [], TWO63);
  }

  // ---- The methods -------------------------------------------------------------------------

  ghost predicate Visited(order: seq<Bytes>, todo: set<Bytes>, bals: map<Bytes, Uint64>) {
    && todo <= bals.Keys && |order| + |todo| == |bals|
    && (forall i :: 0 <= i < |order| ==> order[i] in bals && order[i] !in todo)
    && (forall i, j :: 0 <= i < j < |order| ==> order[i] != order[j])
  }

  lemma Visit(bals: map<Bytes, Uint64>, todo: set<Bytes>, k: Bytes, order: seq<Bytes>, parts: seq<Bytes>)
    returns (order': seq<Bytes>, parts': seq<Bytes>)
    requires k !in todo && Visited(order, todo + {k}, bals) && parts == BalsParts(bals, order)
    ensures Visited(order', todo, bals) && parts' == BalsParts(bals, order')
    ensures Flatten(parts') == Flatten(parts) + BalanceBytes(bals, k)
  {
    order', parts' := order + [k], parts + [BalanceBytes(bals, k)];
    FlattenAppend(parts, BalanceBytes(bals, k));
    assert |todo + {k}| == |todo| + 1;
  }

  method SerializeBalance(w: Writer, bals: map<Bytes, Uint64>, todo: set<Bytes>, k: Bytes,
                          ghost order: seq<Bytes>, ghost parts: seq<Bytes>, ghost before: Bytes)
    returns (ghost order': seq<Bytes>, ghost parts': seq<Bytes>)
    requires k in bals && |k| < TWO63 && k !in todo && Visited(order, todo + {k}, bals)
    requires parts == BalsParts(bals, order) && w.data == before + Flatten(parts)
    modifies w
    ensures Visited(order', todo, bals)
    ensures parts' == BalsParts(bals, order') && w.data == before + Flatten(parts')
  {
    w.AddByteSlice(k);
    w.AddUvarint(bals[k]);
    order', parts' := Visit(bals, todo, k, order, parts);
  }

  method SerializeBals(w: Writer, bals: map<Bytes, Uint64>) returns (ghost order: seq<Bytes>)
    requires forall k :: k in bals ==> |k| < TWO63
    modifies w
    ensures Enumerates(order, bals)
    ensures w.data == old(w.data) + Flatten(BalsParts(bals, order))
  {
    order := [];
    ghost var parts := [];
    var todo := bals.Keys;
    while todo != {}
      invariant Visited(order, todo, bals) && parts == BalsParts(bals, order)
      invariant w.data == old(w.data) + Flatten(parts)
      decreases todo
    {
      var k :| k in todo;
      assert todo == (todo - {k}) + {k};
      todo := todo - {k};
      order, parts := SerializeBalance(w, bals, todo, k, order, parts, old(w.data));
    }
  }

  method SerializeHead(x: UnconfTx) returns (w: Writer)
    requires |x.txnHash| == 32 && |x.bals| < TWO63
    ensures fresh(w) && w.data == HeadBytes(x)
  {
    w := new Writer([]);
    w.AddUint8(VERSION);
    w.AddUvarint(x.unlockHeight);
    var _ := w.AddFixedByteArray(x.txnHash, 32);
    w.AddUvarint(|x.bals|);
  }

  method SerializeTx(x: UnconfTx) returns (data: Bytes, ghost order: seq<Bytes>)
    requires ValidTx(x)
    ensures Enumerates(order, x.bals) && data == TxBytes(x, order)
  {
    var w := SerializeHead(x);
    order := SerializeBals(w, x.bals);
    w.AddBool(x.balancesAdded);
    data := w.data;
  }

  lemma WrittenAppend(txs: seq<UnconfTx>, i: nat, orders: seq<seq<Bytes>>, parts: seq<Bytes>,
                      order: seq<Bytes>, part: Bytes)
    requires i < |txs| && Written(txs[..i], orders, parts)
    requires IsTx(txs[i], order, part)
    ensures Written(txs[..i + 1], orders + [order], parts + [part])
  {
    forall j | 0 <= j < i + 1 ensures IsTx(txs[..i + 1][j], (orders + [order])[j], (parts + [part])[j]) {
      if j < i { assert IsTx(txs[..i][j], orders[j], parts[j]); }
    }
  }

  method SerializeNext(txs: seq<UnconfTx>, i: nat, ghost orders: seq<seq<Bytes>>, ghost parts: seq<Bytes>)
    returns (part: Bytes, ghost order: seq<Bytes>)
    requires i < |txs| && ValidTx(txs[i]) && Written(txs[..i], orders, parts)
    ensures Written(txs[..i + 1], orders + [order], parts + [part])
    ensures Flatten(parts + [part]) == Flatten(parts) + part
  {
    part, order := SerializeTx(txs[i]);
    FlattenAppend(parts, part);
    WrittenAppend(txs, i, orders, parts, order, part);
  }

  method SerializeTxs(w: Writer, txs: seq<UnconfTx>) returns (ghost orders: seq<seq<Bytes>>, ghost parts: seq<Bytes>)
    requires forall i :: 0 <= i < |txs| ==> ValidTx(txs[i])
    modifies w
    ensures Written(txs, orders, parts) && w.data == old(w.data) + Flatten(parts)
  {
    orders, parts := [], [];
    for i := 0 to |txs|
      invariant Written(txs[..i], orders, parts)
      invariant w.data == old(w.data) + Flatten(parts)
    {
      var part; ghost var order;
      part, order := SerializeNext(txs, i, orders, parts);
      w.data := w.data + part;
      orders, parts := orders + [order], parts + [part];
    }
    assert txs[..|txs|] == txs;
  }

  method Serialize(x: PendingBals) returns (data: Bytes, ghost orders: seq<seq<Bytes>>, ghost parts: seq<Bytes>)
    requires Valid(x)
    ensures Encodes(x, orders, parts, data)
  {
    var w := new Writer([]);
    w.AddUint8(VERSION);
    w.AddUvarint(x.lastHeight);
    w.AddUvarint(|x.unconfirmedTxs|);
    orders, parts := SerializeTxs(w, x.unconfirmedTxs);
    data := w.data;
  }

  method DeserializeBals(r: Reader, n: int, start: map<Bytes, Uint64>) returns (bals: map<Bytes, Uint64>)
    modifies r
    ensures (bals, r.Value()) == ReadBals(old(r.Value()), n, start)
  {
    bals := start;
    var i := n;
    while i > 0
      invariant ReadBals(r.Value(), i, bals) == ReadBals(old(r.Value()), n, start)
    {
      var k := r.ByteSlice();
      var v := r.Uvarint();
      bals, i := bals[k := v], i - 1;
    }
  }

  method DeserializeTx(data: Bytes) returns (x: UnconfTx, rest: Cursor)
    ensures (x, rest) == ReadTx(data)
  {
    var r := new Reader(data);
    var _ := r.Uint8();
    var height := r.Uvarint();
    var hash := r.FixedByteArray(32);
    if |hash| < 32 { r.status := Panicked; }
    var n := r.Uvarint();
    var bals := DeserializeBals(r, ToInt(n), map[]);
    var added := r.Bool();
    x, rest := UnconfTx(height, hash, bals, added), r.Value();
  }

  method DeserializeTxs(data: Bytes, n: int) returns (txs: seq<UnconfTx>, rest: Cursor)
    ensures (txs, rest) == ReadMany(ReadTx, data, n, [])
  {
    txs, rest := [], Cursor(data, Ok);
    var i := n;
    while i > 0
      invariant rest.status == Ok
      invariant ReadMany(ReadTx, rest.data, i, txs) == ReadMany(ReadTx, data, n, [])
    {
      var tx, c := DeserializeTx(rest.data);
      if c.status != Ok { return txs, c; }
      rest, txs, i := c, txs + [tx], i - 1;
    }
  }

  method Deserialize(data: Bytes, maxCap: nat) returns (x: PendingBals, rest: Cursor)
    ensures (x, rest) == ReadPending(data, maxCap)
  {
    var r := new Reader(data);
    var _ := r.Uint8();
    var height := r.Uvarint();
    var count := r.Uvarint();
    var n := ToInt(count);
    if !(0 <= n <= maxCap) { return PendingBals(height, []), r.Value().(status := Panicked); }
    if r.status != Ok { return PendingBals(height, []), r.Value(); }
    var txs, c := DeserializeTxs(r.data, n);
    x, rest := PendingBals(height, txs), c;
  }
}
