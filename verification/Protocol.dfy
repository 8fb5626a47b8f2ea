/** The slave-to-master protocol: framing (slave/slaveClient.go, cmd/master/handler.go), the share
    packet (slave/slaveQueue.go) and what the master stores for it (cmd/master/master.go). */
module Protocol {
  import opened Optional
  import opened Binary64
  import opened Wire
  import opened Endian
  import opened ShareCache

  /** Authenticated encryption as the protocol uses it: a nonce and a tag add 40 bytes, and what was
      sealed opens to what it was. */
  ghost predicate Sealing(seal: (Bytes, nat) -> Bytes, open: Bytes -> Option<Bytes>) {
    && (forall m, nonce :: |seal(m, nonce)| == |m| + 40 && open(seal(m, nonce)) == Some(m))
    && (forall c :: open(c).Some? ==> |c| == |open(c).value| + 40)
  }

  // ---- Framing -----------------------------------------------------------------------------

  /** sendToConn: the length as a uint16, then the message, each sealed. */
  function Frame(seal: (Bytes, nat) -> Bytes, m: Bytes, nonce: nat): Bytes {
    seal(LittleEndian(|m| % 0x1_0000, 2), nonce) + seal(m, nonce + 1)
  }

  function Frames(seal: (Bytes, nat) -> Bytes, ms: seq<Bytes>, nonce: nat): Bytes {
    if ms == [] then [] else Frame(seal, ms[0], nonce) + Frames(seal, ms[1..], nonce + 2)
  }

  function DecodedLength(b: Bytes): nat
    requires |b| >= 2
  {
    b[0] as int + 256 * (b[1] as int)
  }

  /** The next message of the stream and what follows it, unless reading or opening fails. */
  function NextMessage(open: Bytes -> Option<Bytes>, stream: Bytes): Option<(Bytes, Bytes)> {
    if |stream| < 42 then None
    else
      match open(stream[..42])
      case None => None
      case Some(lenBuf) =>
        if |lenBuf| < 2 then None
        else
          var len := DecodedLength(lenBuf);
          if |stream| < 42 + len + 40 then None
          else
            match open(stream[42..42 + len + 40])
            case None => None
            case Some(m) => Some((m, stream[42 + len + 40..]))
  }

  /** HandleSlave: messages until the connection ends or something fails. */
  function Received(open: Bytes -> Option<Bytes>, stream: Bytes): seq<Bytes>
    decreases |stream|
  {
    match NextMessage(open, stream)
    case None => []
    case Some((m, rest)) => [m] + Received(open, rest)
  }

  method Receive(open: Bytes -> Option<Bytes>, stream: Bytes) returns (ms: seq<Bytes>)
    ensures ms == Received(open, stream)
  {
    ms := [];
    var rest := stream;
    while true
      invariant ms + Received(open, rest) == Received(open, stream)
      decreases |rest|
    {
      match NextMessage(open, rest)
      case None => return;
      case Some((m, tail)) => ms, rest := ms + [m], tail;
    }
  }

  lemma LengthBytes(n: nat)
    requires n < 0x1_0000
    ensures
      var b := LittleEndian(n, 2);
      |b| == 2 && DecodedLength(b) == n
  {
    assert LittleEndian(n, 2) == [n % 256] + LittleEndian(n / 256, 1);
    assert LittleEndian(n / 256, 1) == [n / 256 % 256] + LittleEndian(n / 256 / 256, 0);
  }

  lemma ReadsFrame(seal: (Bytes, nat) -> Bytes, open: Bytes -> Option<Bytes>, m: Bytes, nonce: nat, rest: Bytes)
    requires Sealing(seal, open) && |m| < 0x1_0000
    ensures NextMessage(open, Frame(seal, m, nonce) + rest) == Some((m, rest))
  {
    var head, body := seal(LittleEndian(|m|, 2), nonce), seal(m, nonce + 1);
    LengthBytes(|m|);
    var stream := Frame(seal, m, nonce) + rest;
    assert stream == head + (body + rest);
    assert stream[..42] == head;
    assert stream[42..42 + |m| + 40] == body;
    assert stream[42 + |m| + 40..] == rest;
  }

  /** The stream before each frame, and after the last one. */
  function Suffixes(seal: (Bytes, nat) -> Bytes, ms: seq<Bytes>, nonce: nat, rest: Bytes): (r: seq<Bytes>)
    ensures |r| == |ms| + 1 && r[0] == Frames(seal, ms, nonce) + rest && r[|ms|] == rest
  {
    if ms == [] then [rest]
    else [Frames(seal, ms, nonce) + rest] + Suffixes(seal, ms[1..], nonce + 2, rest)
  }

  lemma {:induction false} SuffixesFramed(seal: (Bytes, nat) -> Bytes, open: Bytes -> Option<Bytes>,
                                          ms: seq<Bytes>, nonce: nat, rest: Bytes, i: nat)
    requires Sealing(seal, open) && i < |ms| && forall j :: 0 <= j < |ms| ==> |ms[j]| < 0x1_0000
    ensures NextMessage(open, Suffixes(seal, ms, nonce, rest)[i])
         == Some((ms[i], Suffixes(seal, ms, nonce, rest)[i + 1]))
    decreases i
  {
    if i > 0 {
      SuffixesFramed(seal, open, ms[1..], nonce + 2, rest, i - 1);
    } else {
      var after := Frames(seal, ms[1..], nonce + 2) + rest;
      assert Frames(seal, ms, nonce) + rest == Frame(seal, ms[0], nonce) + after;
      ReadsFrame(seal, open, ms[0], nonce, after);
    }
  }

  lemma ReceivedNext(open: Bytes -> Option<Bytes>, stream: Bytes, m: Bytes, rest: Bytes)
    requires NextMessage(open, stream) == Some((m, rest))
    ensures Received(open, stream) == [m] + Received(open, rest)
  {
  }

  lemma FirstOfRest(ms: seq<Bytes>, i: nat, tail: seq<Bytes>)
    requires i < |ms|
    ensures ms[i..] + tail == [ms[i]] + (ms[i + 1..] + tail)
  {
  }

  lemma {:induction false} ReceivedInTurn(open: Bytes -> Option<Bytes>, ms: seq<Bytes>, streams: seq<Bytes>, i: nat)
    requires |streams| == |ms| + 1 && i <= |ms|
    requires forall j :: 0 <= j < |ms| ==> NextMessage(open, streams[j]) == Some((ms[j], streams[j + 1]))
    ensures Received(open, streams[i]) == ms[i..] + Received(open, streams[|ms|])
    decreases |ms| - i
  {
    if i < |ms| {
      ReceivedInTurn(open, ms, streams, i + 1);
      ReceivedNext(open, streams[i], ms[i], streams[i + 1]);
      FirstOfRest(ms, i, Received(open, streams[|ms|]));
    }
  }

  /** Messages shorter than 65536 bytes arrive, all of them and in order. */
  lemma FramesArrive(seal: (Bytes, nat) -> Bytes, open: Bytes -> Option<Bytes>, ms: seq<Bytes>, nonce: nat, rest: Bytes)
    requires Sealing(seal, open) && forall i :: 0 <= i < |ms| ==> |ms[i]| < 0x1_0000
    ensures Received(open, Frames(seal, ms, nonce) + rest) == ms + Received(open, rest)
  {
    var streams := Suffixes(seal, ms, nonce, rest);
    forall i | 0 <= i < |ms| ensures NextMessage(open, streams[i]) == Some((ms[i], streams[i + 1])) {
      SuffixesFramed(seal, open, ms, nonce, rest, i);
    }
    ReceivedInTurn(open, ms, streams, 0);
    assert ms[0..] == ms;
  }

  /** A single message arrives exactly when its length fits in the 16-bit prefix. */
  lemma FrameArrivesIff(seal: (Bytes, nat) -> Bytes, open: Bytes -> Option<Bytes>, m: Bytes, nonce: nat)
    requires Sealing(seal, open)
    ensures (exists rest :: NextMessage(open, Frame(seal, m, nonce)) == Some((m, rest))) <==> |m| < 0x1_0000
  {
    var stream := Frame(seal, m, nonce);
    if |m| < 0x1_0000 {
      ReadsFrame(seal, open, m, nonce, []);
      assert stream + [] == stream;
    } else {
      LengthBytes(|m| % 0x1_0000);
      assert stream[..42] == seal(LittleEndian(|m| % 0x1_0000, 2), nonce);
    }
  }

  // ---- The share packet --------------------------------------------------------------------

  function PacketBytes(p: Packet): Bytes {
    [0] + PutUvarint(p.count) + PutByteSlice(p.wallet) + PutByteSlice(p.workerId) + PutUvarint(p.diff)
  }

  /** OnMessage, packet type 0: nothing happens when a read has failed. */
  function ParsePacket(msg: Bytes): Option<Packet> {
    var (kind, c1) := ReadUint8(Cursor(msg, Ok));
    var (count, c2) := ReadUvarint(c1);
    var (wallet, c3) := ReadByteSlice(c2);
    var (worker, c4) := ReadByteSlice(c3);
    var (diff, c5) := ReadUvarint(c4);
    if kind != 0 || !c5.Live() then None else Some(Packet(Wrap32(count), wallet, worker, diff))
  }

  ghost predicate Sendable(p: Packet) {
    |PacketBytes(p)| < 0x1_0000
  }

  lemma PacketParses(p: Packet)
    requires Sendable(p)
    ensures ParsePacket(PacketBytes(p)) == Some(p)
  {
    var r4 := PutUvarint(p.diff) + [];
    var r3 := PutByteSlice(p.workerId) + r4;
    var r2 := PutByteSlice(p.wallet) + r3;
    var r1 := PutUvarint(p.count) + r2;
    assert PacketBytes(p) == [0] + r1;
    ReadsUint8(0, r1);
    ReadsUvarint(p.count, r2);
    ReadsByteSlice(p.wallet, r3);
    ReadsByteSlice(p.workerId, r4);
    ReadsUvarint(p.diff, []);
  }

  /** Another packet type is no share packet, and a wallet longer than the message is refused. */
  lemma PacketRejected(msg: Bytes, count: Uint64, length: Uint64, rest: Bytes)
    ensures msg == [] || msg[0] != 0 ==> ParsePacket(msg) == None
    ensures |rest| < length < TWO63 ==> ParsePacket([0] + (PutUvarint(count) + (PutUvarint(length) + rest))) == None
  {
    if |rest| < length < TWO63 {
      ReadsUint8(0, PutUvarint(count) + (PutUvarint(length) + rest));
      ReadsUvarint(count, PutUvarint(length) + rest);
      UvarintRoundTrip(length, rest);
      assert (PutUvarint(length) + rest)[|PutUvarint(length)|..] == rest;
    }
  }

  function Messages(packets: seq<Packet>): seq<Bytes> {
    seq(|packets|, i requires 0 <= i < |packets| => PacketBytes(packets[i]))
  }

  /** The packets the master makes out of a stream. */
  function Understood(ms: seq<Bytes>): seq<Packet> {
    if ms == [] then []
    else
      (match ParsePacket(ms[0])
       case None => []
       case Some(p) => [p]) + Understood(ms[1..])
  }

  lemma {:induction false} MessagesUnderstood(packets: seq<Packet>)
    requires forall i :: 0 <= i < |packets| ==> Sendable(packets[i])
    ensures Understood(Messages(packets)) == packets
  {
    if packets != [] {
      MessagesUnderstood(packets[1..]);
      FirstUnderstood(packets[0], Messages(packets[1..]));
      assert Messages(packets) == [PacketBytes(packets[0])] + Messages(packets[1..]);
    }
  }

  lemma FirstUnderstood(p: Packet, rest: seq<Bytes>)
    requires Sendable(p)
    ensures Understood([PacketBytes(p)] + rest) == [p] + Understood(rest)
  {
    PacketParses(p);
    assert ([PacketBytes(p)] + rest)[1..] == rest;
  }

  /** Every flushed packet reaches the master with its four fields, in order. */
  lemma PacketsDelivered(seal: (Bytes, nat) -> Bytes, open: Bytes -> Option<Bytes>, packets: seq<Packet>, nonce: nat)
    requires Sealing(seal, open) && forall i :: 0 <= i < |packets| ==> Sendable(packets[i])
    ensures Understood(Received(open, Frames(seal, Messages(packets), nonce))) == packets
  {
    var ms := Messages(packets);
    forall i | 0 <= i < |ms| ensures |ms[i]| < 0x1_0000 { assert Sendable(packets[i]); }
    FramesArrive(seal, open, ms, nonce, []);
    assert Frames(seal, ms, nonce) + [] == Frames(seal, ms, nonce);
    assert ms + Received(open, []) == ms;
    MessagesUnderstood(packets);
  }

  const NEW_SLAVE: Slave := Slave(map[], [])

  /** From miner to master: over any run of caching and flushing, what the master reads off the
      stream for a wallet and worker, plus what still waits in the cache, is what was shared. */
  lemma SharesReachMaster(seal: (Bytes, nat) -> Bytes, open: Bytes -> Option<Bytes>, nonce: nat,
                          run: seq<Op>, w: Bytes, k: Bytes, m: Measure)
    requires Sealing(seal, open) && w != [] && COLON !in k
    requires ValidRun(NEW_SLAVE, run) && Shared(run, w, k, m) < Limit(m)
    requires forall i :: 0 <= i < |Run(NEW_SLAVE, run).sent| ==> Sendable(Run(NEW_SLAVE, run).sent[i])
    ensures
      var s := Run(NEW_SLAVE, run);
      Sent(Understood(Received(open, Frames(seal, Messages(s.sent), nonce))), w, k, m) + Waiting(s.cache, w, k, m)
      == Shared(run, w, k, m)
  {
    RunConserves(NEW_SLAVE, run, w, k, m);
    PacketsDelivered(seal, open, Run(NEW_SLAVE, run).sent, nonce);
  }

  // ---- What the master stores --------------------------------------------------------------

  datatype StoredShare = StoredShare(wallet: Bytes, workerId: Bytes, diff: Uint64)

  /** Shares of an invalid address go to the pool. */
  function Owner(wallet: Bytes, valid: Bytes -> bool, feeAddress: Bytes): Bytes {
    if valid(wallet) then wallet else feeAddress
  }

  /** The rows of the first n shares of a packet, without those whose insertion fails. */
  function Rows(row: StoredShare, n: nat, inserted: nat -> bool): seq<StoredShare> {
    if n == 0 then [] else Rows(row, n - 1, inserted) + if inserted(n - 1) then [row] else []
  }

  /** OnShareFound: one row per share, each with the packet's whole difficulty. */
  method StoreShares(p: Packet, valid: Bytes -> bool, feeAddress: Bytes, inserted: nat -> bool)
    returns (rows: seq<StoredShare>)
    ensures rows == Rows(StoredShare(Owner(p.wallet, valid, feeAddress), p.workerId, p.diff), p.count, inserted)
  {
    var wallet := p.wallet;
    if !valid(wallet) { wallet := feeAddress; }
    var row := StoredShare(wallet, p.workerId, p.diff);
    rows := [];
    for i := 0 to p.count
      invariant rows == Rows(row, i, inserted)
    {
      if inserted(i) { rows := rows + [row]; }
    }
  }

  /** One row for each share whose insertion succeeds. */
  lemma {:induction false} RowsCount(row: StoredShare, n: nat, inserted: nat -> bool)
    ensures |Rows(row, n, inserted)| == |set i: nat | i < n && inserted(i)|
    ensures forall r :: r in Rows(row, n, inserted) ==> r == row
  {
    if n > 0 {
      RowsCount(row, n - 1, inserted);
      var before, after := set i: nat | i < n - 1 && inserted(i), set i: nat | i < n && inserted(i);
      if inserted(n - 1) { assert after == before + {n - 1}; } else { assert after == before; }
    }
  }

  /** The rows of a list of packets when every insertion succeeds. */
  function Store(packets: seq<Packet>, valid: Bytes -> bool, feeAddress: Bytes): seq<StoredShare> {
    if packets == [] then []
    else
      var p := packets[|packets| - 1];
      Store(packets[..|packets| - 1], valid, feeAddress)
      + Rows(StoredShare(Owner(p.wallet, valid, feeAddress), p.workerId, p.diff), p.count, _ => true)
  }

  /** The work stored for a wallet and worker. */
  function WorkOf(rows: seq<StoredShare>, w: Bytes, k: Bytes): nat {
    if rows == [] then 0
    else
      var row := rows[|rows| - 1];
      WorkOf(rows[..|rows| - 1], w, k) + if row.wallet == w && row.workerId == k then row.diff else 0
  }

  lemma {:induction false} WorkConcat(a: seq<StoredShare>, b: seq<StoredShare>, w: Bytes, k: Bytes)
    ensures WorkOf(a + b, w, k) == WorkOf(a, w, k) + WorkOf(b, w, k)
  {
    if b == [] {
      assert a + b == a;
    } else {
      assert (a + b)[..|a + b| - 1] == a + b[..|b| - 1];
      WorkConcat(a, b[..|b| - 1], w, k);
    }
  }

  lemma {:induction false} WorkOfRows(row: StoredShare, n: nat, w: Bytes, k: Bytes)
    ensures WorkOf(Rows(row, n, _ => true), w, k) == if row.wallet == w && row.workerId == k then n * row.diff else 0
  {
    if n > 0 {
      WorkOfRows(row, n - 1, w, k);
      WorkConcat(Rows(row, n - 1, _ => true), [row], w, k);
      assert WorkOf([row], w, k) == WorkOf([], w, k) + if row.wallet == w && row.workerId == k then row.diff else 0;
      assert n * row.diff == (n - 1) * row.diff + row.diff;
    }
  }

  ghost predicate Harmless(p: Packet) {
    p.count == 1 || p.diff == 0
  }

  ghost predicate For(p: Packet, w: Bytes, k: Bytes) {
    p.wallet == w && p.workerId == k
  }

  lemma Multiplied(n: nat, d: nat)
    requires n > 0
    ensures d <= n * d && (n * d == d <==> n == 1 || d == 0)
  {
    assert (n - 1) * d == n * d - d;
  }

  /** Every packet for the wallet and worker held one share or no difficulty. */
  ghost predicate AllHarmless(packets: seq<Packet>, w: Bytes, k: Bytes) {
    forall p :: p in packets && For(p, w, k) ==> Harmless(p)
  }

  ghost predicate AllPositive(packets: seq<Packet>, w: Bytes, k: Bytes) {
    forall p :: p in packets && For(p, w, k) ==> p.count > 0
  }

  lemma StoreLast(packets: seq<Packet>, valid: Bytes -> bool, feeAddress: Bytes, w: Bytes, k: Bytes)
    requires packets != [] && valid(w) && w != feeAddress
    ensures
      var init, p := packets[..|packets| - 1], packets[|packets| - 1];
      WorkOf(Store(packets, valid, feeAddress), w, k)
        == WorkOf(Store(init, valid, feeAddress), w, k) + if For(p, w, k) then p.count * p.diff else 0
  {
    var init, p := packets[..|packets| - 1], packets[|packets| - 1];
    var row := StoredShare(Owner(p.wallet, valid, feeAddress), p.workerId, p.diff);
    WorkConcat(Store(init, valid, feeAddress), Rows(row, p.count, _ => true), w, k);
    WorkOfRows(row, p.count, w, k);
  }

  lemma LastHarmless(packets: seq<Packet>, w: Bytes, k: Bytes)
    requires packets != [] && AllPositive(packets, w, k)
    ensures
      var init, p := packets[..|packets| - 1], packets[|packets| - 1];
      && AllPositive(init, w, k) && (For(p, w, k) ==> p.count > 0)
      && (AllHarmless(packets, w, k) <==> AllHarmless(init, w, k) && (For(p, w, k) ==> Harmless(p)))
  {
    var init, p := packets[..|packets| - 1], packets[|packets| - 1];
    assert packets == init + [p];
    assert p in packets;
  }

  /** What is stored for a wallet and worker is at least what was sent, and the same exactly when
      every packet for them held one share or no difficulty. */
  lemma {:induction false} StoredWorkIff(packets: seq<Packet>, valid: Bytes -> bool, feeAddress: Bytes,
                                         w: Bytes, k: Bytes)
    requires valid(w) && w != feeAddress && AllPositive(packets, w, k)
    ensures Sent(packets, w, k, Work) <= WorkOf(Store(packets, valid, feeAddress), w, k)
    ensures WorkOf(Store(packets, valid, feeAddress), w, k) == Sent(packets, w, k, Work) <==> AllHarmless(packets, w, k)
  {
    if packets != [] {
      var p := packets[|packets| - 1];
      LastHarmless(packets, w, k);
      StoredWorkIff(packets[..|packets| - 1], valid, feeAddress, w, k);
      StoreLast(packets, valid, feeAddress, w, k);
      if p.count > 0 { Multiplied(p.count, p.diff); }
    }
  }

  // ---- Over whole runs ---------------------------------------------------------------------

  /** Entries and packets of a wallet and worker hold at least one share. */
  ghost predicate Positive(s: Slave, w: Bytes, k: Bytes) {
    && (Key(w, k) in s.cache ==> s.cache[Key(w, k)].numShares > 0)
    && AllPositive(s.sent, w, k)
  }

  lemma StepPositive(s: Slave, op: Op, w: Bytes, k: Bytes)
    requires WellKeyed(s.cache) && ValidOp(s, op) && w != [] && COLON !in k && Positive(s, w, k)
    requires Known(s, w, k, Shares) + OfOp(op, w, k, Shares) < Limit(Shares)
    ensures Positive(Step(s, op), w, k)
  {
    match op
    case ShareOp(wallet, worker, diff) =>
      SentNonNegative(s.sent, w, k, Shares);
      KeyIff(w, k, wallet, worker);
    case FlushOp(order) =>
      forall i | 0 <= i < |order| && For(ToPacket(order[i], s.cache[order[i]]), w, k)
        ensures s.cache[order[i]].numShares > 0
      {
        KeyIff(WalletOf(order[i]), s.cache[order[i]].workerId, w, k);
      }
      forall p | p in s.sent + Packets(s.cache, order) && For(p, w, k) ensures p.count > 0 {
        if p !in s.sent {
          var i :| 0 <= i < |order| && p == ToPacket(order[i], s.cache[order[i]]);
        }
      }
  }

  lemma {:induction false} RunPositive(s: Slave, run: seq<Op>, w: Bytes, k: Bytes)
    requires WellKeyed(s.cache) && ValidRun(s, run) && w != [] && COLON !in k && Positive(s, w, k)
    requires Known(s, w, k, Shares) + Shared(run, w, k, Shares) < Limit(Shares)
    ensures Positive(Run(s, run), w, k)
    decreases |run|
  {
    if run != [] {
      SharedNonNegative(run[1..], w, k, Shares);
      StepPositive(s, run[0], w, k);
      StepConserves(s, run[0], w, k, Shares);
      RunPositive(Step(s, run[0]), run[1..], w, k);
    }
  }

  /** From miner to ledger: over any run of caching and flushing the work stored for a wallet and
      worker, with what still waits in the cache, is at least what was shared, and equals it exactly
      when every packet sent for them held one share or no difficulty. */
  lemma RunStoredIff(run: seq<Op>, valid: Bytes -> bool, feeAddress: Bytes, w: Bytes, k: Bytes)
    requires ValidRun(NEW_SLAVE, run) && w != [] && COLON !in k && valid(w) && w != feeAddress
    requires Shared(run, w, k, Shares) < Limit(Shares) && Shared(run, w, k, Work) < Limit(Work)
    ensures
      var s := Run(NEW_SLAVE, run);
      var recorded := WorkOf(Store(s.sent, valid, feeAddress), w, k) + Waiting(s.cache, w, k, Work);
      && Shared(run, w, k, Work) <= recorded
      && (recorded == Shared(run, w, k, Work) <==> AllHarmless(s.sent, w, k))
  {
    RunConserves(NEW_SLAVE, run, w, k, Work);
    RunPositive(NEW_SLAVE, run, w, k);
    StoredWorkIff(Run(NEW_SLAVE, run).sent, valid, feeAddress, w, k);
  }

  /** The same for what the master makes out of the stream. */
  lemma StreamStoredIff(seal: (Bytes, nat) -> Bytes, open: Bytes -> Option<Bytes>, nonce: nat, run: seq<Op>,
                        valid: Bytes -> bool, feeAddress: Bytes, w: Bytes, k: Bytes)
    requires Sealing(seal, open) && ValidRun(NEW_SLAVE, run) && w != [] && COLON !in k && valid(w) && w != feeAddress
    requires Shared(run, w, k, Shares) < Limit(Shares) && Shared(run, w, k, Work) < Limit(Work)
    requires forall i :: 0 <= i < |Run(NEW_SLAVE, run).sent| ==> Sendable(Run(NEW_SLAVE, run).sent[i])
    ensures
      var s := Run(NEW_SLAVE, run);
      var received := Understood(Received(open, Frames(seal, Messages(s.sent), nonce)));
      var recorded := WorkOf(Store(received, valid, feeAddress), w, k) + Waiting(s.cache, w, k, Work);
      && Shared(run, w, k, Work) <= recorded
      && (recorded == Shared(run, w, k, Work) <==> AllHarmless(received, w, k))
  {
    PacketsDelivered(seal, open, Run(NEW_SLAVE, run).sent, nonce);
    RunStoredIff(run, valid, feeAddress, w, k);
  }

  lemma TwoShares(w: Bytes, k: Bytes, d: Uint64)
    requires w != [] && COLON !in k && 2 * d < TWO64
    ensures Step(Step(NEW_SLAVE, ShareOp(w, k, d)), ShareOp(w, k, d)) == Slave(map[Key(w, k) := Entry(2, 2 * d, k)], [])
  {
    assert Step(NEW_SLAVE, ShareOp(w, k, d)) == Slave(map[Key(w, k) := Entry(1, d, k)], []);
  }

  lemma FlushOne(w: Bytes, k: Bytes, d: Uint64)
    requires w != [] && COLON !in k && 2 * d < TWO64
    ensures
      var s, flush := Slave(map[Key(w, k) := Entry(2, 2 * d, k)], []), FlushOp([Key(w, k)]);
      ValidOp(s, flush) && Step(s, flush) == Slave(map[], [Packet(2, w, k, 2 * d)])
  {
    var s := Slave(map[Key(w, k) := Entry(2, 2 * d, k)], []);
    WalletRecoveredIff(w, k);
    assert Packets(s.cache, [Key(w, k)]) == [Packet(2, w, k, 2 * d)];
  }

  lemma RunFirst(s: Slave, op: Op, rest: seq<Op>, s': Slave)
    requires ValidOp(s, op) && Step(s, op) == s' && ValidRun(s', rest)
    ensures ValidRun(s, [op] + rest) && Run(s, [op] + rest) == Run(s', rest)
  {
    assert ([op] + rest)[1..] == rest;
  }

  lemma FlushRun(w: Bytes, k: Bytes, d: Uint64)
    requires w != [] && COLON !in k && 2 * d < TWO64
    ensures
      var run := [ShareOp(w, k, d), ShareOp(w, k, d), FlushOp([Key(w, k)])];
      ValidRun(NEW_SLAVE, run) && Run(NEW_SLAVE, run) == Slave(map[], [Packet(2, w, k, 2 * d)])
  {
    var share, flush := ShareOp(w, k, d), FlushOp([Key(w, k)]);
    var one, two := Step(NEW_SLAVE, share), Slave(map[Key(w, k) := Entry(2, 2 * d, k)], []);
    TwoShares(w, k, d);
    FlushOne(w, k, d);
    RunFirst(two, flush, [], Slave(map[], [Packet(2, w, k, 2 * d)]));
    RunFirst(one, share, [flush] + [], two);
    RunFirst(NEW_SLAVE, share, [share] + ([flush] + []), one);
    assert [share] + ([share] + ([flush] + [])) == [share, share, flush];
  }

  /** Two equal shares and one flush: the ledger holds twice the work. */
  lemma FlushDoublesWork(valid: Bytes -> bool, feeAddress: Bytes, w: Bytes, k: Bytes, d: Uint64)
    requires w != [] && COLON !in k && valid(w) && w != feeAddress && 2 * d < TWO64
    ensures
      var run := [ShareOp(w, k, d), ShareOp(w, k, d), FlushOp([Key(w, k)])];
      && ValidRun(NEW_SLAVE, run)
      && Run(NEW_SLAVE, run) == Slave(map[], [Packet(2, w, k, 2 * d)])
      && WorkOf(Store(Run(NEW_SLAVE, run).sent, valid, feeAddress), w, k) == 4 * d
  {
    FlushRun(w, k, d);
    OnePacketStored(Packet(2, w, k, 2 * d), valid, feeAddress, w, k);
  }

  lemma OnePacketStored(p: Packet, valid: Bytes -> bool, feeAddress: Bytes, w: Bytes, k: Bytes)
    requires For(p, w, k) && valid(w)
    ensures WorkOf(Store([p], valid, feeAddress), w, k) == p.count * p.diff
  {
    var row := StoredShare(Owner(p.wallet, valid, feeAddress), p.workerId, p.diff);
    assert [p][..0] == [];
    assert Store([p], valid, feeAddress) == Rows(row, p.count, _ => true);
    WorkOfRows(row, p.count, w, k);
  }
}
