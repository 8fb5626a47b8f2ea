/** The slave's share cache (slave/slaveQueue.go): shares are added up per wallet and worker under
    one composite key, and every flush turns each entry into one packet. */
module ShareCache {
  import opened Binary64
  import opened Wire

  const COLON: Byte := 58
  type Uint32 = n: nat | n < 0x1_0000_0000

  datatype Entry = Entry(numShares: Uint32, totalDiff: Uint64, workerId: Bytes)
  type Cache = map<Bytes, Entry>

  datatype Packet = Packet(count: Uint32, wallet: Bytes, workerId: Bytes, diff: Uint64)

  function Key(wallet: Bytes, worker: Bytes): Bytes {
    wallet + [COLON] + worker
  }

  function Wrap32(n: nat): (r: Uint32)
    ensures n < 0x1_0000_0000 ==> r == n
  {
    n % 0x1_0000_0000
  }

  function CachedAt(cache: Cache, key: Bytes, worker: Bytes, diff: Uint64): Cache {
    var x := if key in cache then cache[key] else Entry(0, 0, []);
    cache[key := Entry(Wrap32(x.numShares + 1), Wrap(x.totalDiff + diff), worker)]
  }

  function Cached(cache: Cache, wallet: Bytes, worker: Bytes, diff: Uint64): Cache {
    CachedAt(cache, Key(wallet, worker), worker, diff)
  }

  /** The part before the last colon at or below i, or the whole key. */
  function BeforeColon(key: Bytes, i: int): Bytes
    requires i < |key|
    decreases i + 1
  {
    if i < 0 then key else if key[i] == COLON then key[..i] else BeforeColon(key, i - 1)
  }

  /** A key of at most one character is not searched. */
  function WalletOf(key: Bytes): Bytes {
    if |key| - 1 > 0 then BeforeColon(key, |key| - 1) else key
  }

  function ToPacket(key: Bytes, x: Entry): Packet {
    Packet(x.numShares, WalletOf(key), x.workerId, x.totalDiff)
  }

  // ---- Composite keys ----------------------------------------------------------------------

  lemma {:induction false} BeforeColonFinds(key: Bytes, i: int, c: nat)
    requires c <= i < |key| && key[c] == COLON && forall j :: c < j <= i ==> key[j] != COLON
    ensures BeforeColon(key, i) == key[..c]
    decreases i
  {
    if i > c { BeforeColonFinds(key, i - 1, c); }
  }

  lemma {:induction false} BeforeColonLong(key: Bytes, i: int, c: nat)
    requires c <= i < |key| && key[c] == COLON
    ensures |BeforeColon(key, i)| >= c
    decreases i
  {
    if i > c && key[i] != COLON { BeforeColonLong(key, i - 1, c); }
  }

  /** The wallet is recovered from a composite key exactly when the worker id has no colon and
      wallet and worker id are not both empty. */
  lemma WalletRecoveredIff(wallet: Bytes, worker: Bytes)
    ensures WalletOf(Key(wallet, worker)) == wallet <==> COLON !in worker && (wallet != [] || worker != [])
  {
    var key, n := Key(wallet, worker), |wallet|;
    if wallet == [] && worker == [] {
      assert key == [COLON];
    } else if COLON !in worker {
      assert forall j :: n < j < |key| ==> key[j] == worker[j - n - 1];
      BeforeColonFinds(key, |key| - 1, n);
      assert key[..n] == wallet;
    } else {
      var i :| 0 <= i < |worker| && worker[i] == COLON;
      assert key[n + 1 + i] == COLON;
      BeforeColonLong(key, |key| - 1, n + 1 + i);
    }
  }

  lemma KeyInjective(w: Bytes, k: Bytes, w': Bytes, k': Bytes)
    requires w != [] && w' != [] && COLON !in k && COLON !in k' && Key(w, k) == Key(w', k')
    ensures w == w' && k == k'
  {
    WalletRecoveredIff(w, k);
    WalletRecoveredIff(w', k');
    assert Key(w, k)[|w| + 1..] == k && Key(w', k')[|w'| + 1..] == k';
  }

  // ---- Runs --------------------------------------------------------------------------------

  datatype Slave = Slave(cache: Cache, sent: seq<Packet>)

  datatype Op = ShareOp(wallet: Bytes, worker: Bytes, diff: Uint64) | FlushOp(order: seq<Bytes>)

  ghost predicate Enumerates(order: seq<Bytes>, cache: Cache) {
    && (forall i :: 0 <= i < |order| ==> order[i] in cache)
    && (forall key :: key in cache ==> key in order)
    && (forall i, j :: 0 <= i < j < |order| ==> order[i] != order[j])
  }

  /** Nonempty wallets and colon-free worker ids, and each flush visits every entry once. */
  ghost predicate ValidOp(s: Slave, op: Op) {
    match op
    case ShareOp(wallet, worker, _) => wallet != [] && COLON !in worker
    case FlushOp(order) => Enumerates(order, s.cache)
  }

  function Packets(cache: Cache, order: seq<Bytes>): seq<Packet>
    requires forall i :: 0 <= i < |order| ==> order[i] in cache
  {
    seq(|order|, i requires 0 <= i < |order| => ToPacket(order[i], cache[order[i]]))
  }

  ghost function Step(s: Slave, op: Op): Slave
    requires ValidOp(s, op)
  {
    match op
    case ShareOp(wallet, worker, diff) => s.(cache := Cached(s.cache, wallet, worker, diff))
    case FlushOp(order) => Slave(map[], s.sent + Packets(s.cache, order))
  }

  ghost predicate ValidRun(s: Slave, run: seq<Op>)
    decreases |run|
  {
    run != [] ==> ValidOp(s, run[0]) && ValidRun(Step(s, run[0]), run[1..])
  }

  ghost function Run(s: Slave, run: seq<Op>): Slave
    requires ValidRun(s, run)
    decreases |run|
  {
    if run == [] then s else Run(Step(s, run[0]), run[1..])
  }

  /** The two things that are conserved: the number of shares, and their total difficulty. */
  datatype Measure = Shares | Work

  /** Where the counter of a measure wraps around. */
  function Limit(m: Measure): nat {
    if m.Shares? then 0x1_0000_0000 else 0x1_0000_0000_0000_0000
  }

  function OfEntry(x: Entry, m: Measure): nat {
    if m.Shares? then x.numShares else x.totalDiff
  }

  function At(cache: Cache, key: Bytes, m: Measure): int {
    if key in cache then OfEntry(cache[key], m) else 0
  }

  /** What is in the cache for one wallet and worker. */
  function Waiting(cache: Cache, w: Bytes, k: Bytes, m: Measure): int {
    At(cache, Key(w, k), m)
  }

  function OfPacket(p: Packet, w: Bytes, k: Bytes, m: Measure): int {
    if p.wallet == w && p.workerId == k then (if m.Shares? then p.count else p.diff) else 0
  }

  function Sent(packets: seq<Packet>, w: Bytes, k: Bytes, m: Measure): int {
    if packets == [] then 0
    else Sent(packets[..|packets| - 1], w, k, m) + OfPacket(packets[|packets| - 1], w, k, m)
  }

  function OfOp(op: Op, w: Bytes, k: Bytes, m: Measure): int {
    if op.ShareOp? && op.wallet == w && op.worker == k then (if m.Shares? then 1 else op.diff) else 0
  }

  /** What was shared for one wallet and worker during a run. */
  function Shared(run: seq<Op>, w: Bytes, k: Bytes, m: Measure): int {
    if run == [] then 0 else OfOp(run[0], w, k, m) + Shared(run[1..], w, k, m)
  }

  /** Every entry sits under the key of its wallet and worker. */
  ghost predicate WellKeyed(cache: Cache) {
    forall key :: key in cache ==>
      && WalletOf(key) != [] && COLON !in cache[key].workerId
      && key == Key(WalletOf(key), cache[key].workerId)
  }

  lemma CachedWellKeyed(cache: Cache, wallet: Bytes, worker: Bytes, diff: Uint64)
    requires WellKeyed(cache) && wallet != [] && COLON !in worker
    ensures WellKeyed(Cached(cache, wallet, worker, diff))
  {
    WalletRecoveredIff(wallet, worker);
  }

  lemma CachedHere(cache: Cache, key: Bytes, worker: Bytes, diff: Uint64, m: Measure)
    requires At(cache, key, m) + (if m.Shares? then 1 else diff) < Limit(m)
    ensures At(CachedAt(cache, key, worker, diff), key, m) == At(cache, key, m) + (if m.Shares? then 1 else diff)
  {
  }

  lemma CachedElsewhere(cache: Cache, key: Bytes, worker: Bytes, diff: Uint64, other: Bytes, m: Measure)
    requires other != key
    ensures At(CachedAt(cache, key, worker, diff), other, m) == At(cache, other, m)
  {
  }

  lemma KeyIff(w: Bytes, k: Bytes, w': Bytes, k': Bytes)
    requires w != [] && w' != [] && COLON !in k && COLON !in k'
    ensures Key(w, k) == Key(w', k') <==> w == w' && k == k'
  {
    if Key(w, k) == Key(w', k') { KeyInjective(w, k, w', k'); }
  }

  lemma CachedWaiting(cache: Cache, wallet: Bytes, worker: Bytes, diff: Uint64, w: Bytes, k: Bytes, m: Measure)
    requires wallet != [] && COLON !in worker && w != [] && COLON !in k
    requires Waiting(cache, w, k, m) + OfOp(ShareOp(wallet, worker, diff), w, k, m) < Limit(m)
    ensures Waiting(Cached(cache, wallet, worker, diff), w, k, m)
         == Waiting(cache, w, k, m) + OfOp(ShareOp(wallet, worker, diff), w, k, m)
  {
    KeyIff(w, k, wallet, worker);
    if w == wallet && k == worker {
      CachedHere(cache, Key(w, k), worker, diff, m);
    } else {
      CachedElsewhere(cache, Key(wallet, worker), worker, diff, Key(w, k), m);
    }
  }

  lemma SentAppend(packets: seq<Packet>, p: Packet, w: Bytes, k: Bytes, m: Measure)
    ensures Sent(packets + [p], w, k, m) == Sent(packets, w, k, m) + OfPacket(p, w, k, m)
  {
    assert (packets + [p])[..|packets|] == packets;
  }

  /** The packet of an entry counts for exactly the wallet and worker of its key. */
  lemma PacketOfEntry(cache: Cache, key: Bytes, w: Bytes, k: Bytes, m: Measure)
    requires WellKeyed(cache) && key in cache && w != [] && COLON !in k
    ensures OfPacket(ToPacket(key, cache[key]), w, k, m) == if key == Key(w, k) then At(cache, key, m) else 0
  {
    KeyIff(WalletOf(key), cache[key].workerId, w, k);
  }

  lemma PacketsAppend(cache: Cache, order: seq<Bytes>, key: Bytes, sent: seq<Packet>)
    requires key in cache && forall i :: 0 <= i < |order| ==> order[i] in cache
    ensures sent + Packets(cache, order + [key]) == (sent + Packets(cache, order)) + [ToPacket(key, cache[key])]
  {
  }

  lemma {:induction false} SentPackets(cache: Cache, order: seq<Bytes>, sent: seq<Packet>,
                                       w: Bytes, k: Bytes, m: Measure)
    requires WellKeyed(cache) && w != [] && COLON !in k
    requires forall i :: 0 <= i < |order| ==> order[i] in cache
    requires forall i, j :: 0 <= i < j < |order| ==> order[i] != order[j]
    ensures Sent(sent + Packets(cache, order), w, k, m)
         == Sent(sent, w, k, m) + if Key(w, k) in order then Waiting(cache, w, k, m) else 0
  {
    if order == [] {
      assert sent + Packets(cache, order) == sent;
    } else {
      var init, key := order[..|order| - 1], order[|order| - 1];
      assert order == init + [key] && key !in init;
      SentPackets(cache, init, sent, w, k, m);
      PacketsAppend(cache, init, key, sent);
      SentAppend(sent + Packets(cache, init), ToPacket(key, cache[key]), w, k, m);
      PacketOfEntry(cache, key, w, k, m);
    }
  }

  ghost function Known(s: Slave, w: Bytes, k: Bytes, m: Measure): int {
    Waiting(s.cache, w, k, m) + Sent(s.sent, w, k, m)
  }

  lemma {:induction false} SentNonNegative(packets: seq<Packet>, w: Bytes, k: Bytes, m: Measure)
    ensures Sent(packets, w, k, m) >= 0
  {
    if packets != [] { SentNonNegative(packets[..|packets| - 1], w, k, m); }
  }

  lemma FlushConserves(s: Slave, order: seq<Bytes>, w: Bytes, k: Bytes, m: Measure)
    requires WellKeyed(s.cache) && Enumerates(order, s.cache) && w != [] && COLON !in k
    ensures Known(Slave(map[], s.sent + Packets(s.cache, order)), w, k, m) == Known(s, w, k, m)
  {
    SentPackets(s.cache, order, s.sent, w, k, m);
  }

  lemma StepConserves(s: Slave, op: Op, w: Bytes, k: Bytes, m: Measure)
    requires WellKeyed(s.cache) && ValidOp(s, op) && w != [] && COLON !in k
    requires Known(s, w, k, m) + OfOp(op, w, k, m) < Limit(m)
    ensures WellKeyed(Step(s, op).cache)
    ensures Known(Step(s, op), w, k, m) == Known(s, w, k, m) + OfOp(op, w, k, m)
  {
    match op
    case ShareOp(wallet, worker, diff) =>
      SentNonNegative(s.sent, w, k, m);
      CachedWellKeyed(s.cache, wallet, worker, diff);
      CachedWaiting(s.cache, wallet, worker, diff, w, k, m);
    case FlushOp(order) =>
      FlushConserves(s, order, w, k, m);
  }

  lemma {:induction false} SharedNonNegative(run: seq<Op>, w: Bytes, k: Bytes, m: Measure)
    ensures Shared(run, w, k, m) >= 0
  {
    if run != [] { SharedNonNegative(run[1..], w, k, m); }
  }

  /** Conservation: over any run of caching and flushing, what was shared for a wallet and worker
      is what waits in the cache plus what was sent, in number of shares and in difficulty, as
      long as that stays below the width of the counter. */
  lemma {:induction false} RunConserves(s: Slave, run: seq<Op>, w: Bytes, k: Bytes, m: Measure)
    requires WellKeyed(s.cache) && ValidRun(s, run) && w != [] && COLON !in k
    requires Known(s, w, k, m) + Shared(run, w, k, m) < Limit(m)
    ensures Known(Run(s, run), w, k, m) == Known(s, w, k, m) + Shared(run, w, k, m)
    ensures WellKeyed(Run(s, run).cache)
    decreases |run|
  {
    if run != [] {
      SharedNonNegative(run[1..], w, k, m);
      StepConserves(s, run[0], w, k, m);
      RunConserves(Step(s, run[0]), run[1..], w, k, m);
    }
  }

  // ---- The cache object --------------------------------------------------------------------

  class SlaveCache {
    var shares: Cache

    constructor ()
      ensures shares == map[]
    {
      shares := map[];
    }

    method CacheShareWithWorker(wallet: Bytes, worker: Bytes, diff: Uint64)
      modifies this
      ensures shares == Cached(old(shares), wallet, worker, diff)
    {
      var key := wallet + [COLON] + worker;
      var x := if key in shares then shares[key] else Entry(0, 0, []);
      x := Entry(Wrap32(x.numShares + 1), Wrap(x.totalDiff + diff), worker);
      shares := shares[key := x];
    }

    static method ExtractWallet(key: Bytes) returns (wallet: Bytes)
      ensures wallet == WalletOf(key)
    {
      wallet := key;
      var lastColon := |key| - 1;
      if lastColon > 0 {
        var i := lastColon;
        while i >= 0
          invariant -1 <= i <= lastColon && BeforeColon(key, i) == BeforeColon(key, lastColon)
        {
          if key[i] == COLON { return key[..i]; }
          i := i - 1;
        }
      }
    }

    /** Drains the cache into packets, in the order the map happens to be visited. */
    method Flush() returns (packets: seq<Packet>, ghost order: seq<Bytes>)
      modifies this
      ensures shares == map[]
      ensures Enumerates(order, old(shares)) && packets == Packets(old(shares), order)
    {
      packets, order := [], [];
      var todo := shares.Keys;
      while todo != {}
        invariant shares == old(shares) && todo <= shares.Keys
        invariant forall i :: 0 <= i < |order| ==> order[i] in shares && order[i] !in todo
        invariant forall key :: key in shares ==> key in todo || key in order
        invariant forall i, j :: 0 <= i < j < |order| ==> order[i] != order[j]
        invariant packets == Packets(shares, order)
        decreases todo
      {
        var key :| key in todo;
        var v := shares[key];
        var wallet := ExtractWallet(key);
        packets, order, todo :=
          packets + [Packet(v.numShares, wallet, v.workerId, v.totalDiff)], order + [key], todo - {key};
      }
      shares := map[];
    }
  }
}
