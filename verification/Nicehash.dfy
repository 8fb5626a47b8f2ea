/** The shared Nicehash job (cmd/slave/nicehash.go): one block template serves up to 255 miners,
    told apart by one byte of the nonce. Also the nonce check and placement of cmd/slave/conn.go. */
module Nicehash {
  import opened Optional
  import opened Wire

  const NONCE_BYTE := 42

  /** What the daemon answers, after the hex decoding of both blobs. */
  datatype Fetch = FetchFailed | Fetched(templateBlob: Bytes, hashingBlob: Bytes, height: nat, seedHash: string)

  /** A job handed out: the hashing blob, the template it belongs to, and the miner's byte. */
  datatype Issue = Issue(blob: Bytes, templateBlob: Bytes, nicehashByte: Byte, height: nat, seedHash: string)

  /** CurrentNicehashJob, together with the number of templates fetched so far and the blob as it
      was fetched. */
  datatype Job = Job(generation: nat, fetched: Bytes, blob: Bytes, templateBlob: Bytes,
                     height: nat, seedHash: string, lastNonce: Byte)

  const INITIAL: Job := Job(0, [], [], [], 0, "", 0)

  predicate NeedsTemplate(j: Job) {
    j.lastNonce == 255 || j.lastNonce == 0
  }

  /** The index expression [42] panics on a shorter blob. */
  ghost predicate LongEnough(f: Fetch) {
    f.Fetched? ==> |f.hashingBlob| > NONCE_BYTE
  }

  ghost predicate Sane(j: Job) {
    j.lastNonce != 0 ==>
      |j.blob| == |j.fetched| > NONCE_BYTE && j.blob == j.fetched[NONCE_BYTE := j.lastNonce]
  }

  function Issued(j: Job): Issue {
    Issue(j.blob, j.templateBlob, j.lastNonce, j.height, j.seedHash)
  }

  /** GetNicehashJob: the new shared job, and what the caller gets unless the fetch fails. */
  function Get(j: Job, f: Fetch): (Job, Option<Issue>)
    requires (f.Fetched? ==> |f.hashingBlob| > NONCE_BYTE) && (j.lastNonce != 0 ==> |j.blob| > NONCE_BYTE)
  {
    if NeedsTemplate(j) then
      match f
      case FetchFailed => (j, None)
      case Fetched(template, hashing, height, seed) =>
        var j' := Job(j.generation + 1, hashing, hashing[NONCE_BYTE := 1], template, height, seed, 1);
        (j', Some(Issued(j')))
    else
      var n := j.lastNonce + 1;
      var j' := j.(blob := j.blob[NONCE_BYTE := n], lastNonce := n);
      (j', Some(Issued(j')))
  }

  function Clear(j: Job): Job {
    j.(lastNonce := 0)
  }

  // ---- The shared job, updated in place ----------------------------------------------------

  class SharedJob {
    var hashingBlob: array<Byte>
    var templateBlob: Bytes
    var height: nat
    var seedHash: string
    var lastNonce: Byte
    ghost var generation: nat
    ghost var fetched: Bytes

    constructor ()
      ensures Value() == INITIAL && fresh(hashingBlob)
    {
      hashingBlob := new Byte[0];
      templateBlob, height, seedHash, lastNonce, generation, fetched := [], 0, "", 0, 0, [];
    }

    ghost function Value(): Job
      reads this, hashingBlob
    {
      Job(generation, fetched, hashingBlob[..], templateBlob, height, seedHash, lastNonce)
    }

    method GetNicehashJob(f: Fetch) returns (r: Option<Issue>)
      requires LongEnough(f) && Sane(Value())
      modifies this, hashingBlob
      ensures fresh({hashingBlob} - {old(hashingBlob)})
      ensures (Value(), r) == Get(old(Value()), f)
    {
      if lastNonce == 255 || lastNonce == 0 {
        match f {
          case FetchFailed => return None;
          case Fetched(template, hashing, h, seed) =>
            hashingBlob := new Byte[|hashing|](i requires 0 <= i < |hashing| => hashing[i]);
            assert hashingBlob[..] == hashing;
            templateBlob, height, seedHash, lastNonce := template, h, seed, 1;
            generation, fetched := generation + 1, hashing;
            hashingBlob[NONCE_BYTE] := 1;
        }
      } else {
        lastNonce := lastNonce + 1;
        hashingBlob[NONCE_BYTE] := lastNonce;
      }
      r := Some(Issue(hashingBlob[..], templateBlob, lastNonce, height, seedHash));
    }

    method ClearNicehashJob()
      modifies this`lastNonce
      ensures Value() == Clear(old(Value()))
    {
      lastNonce := 0;
    }
  }

  // ---- Runs --------------------------------------------------------------------------------

  datatype Op = GetOp(fetch: Fetch) | ClearOp

  ghost predicate LongRun(run: seq<Op>) {
    forall i :: 0 <= i < |run| && run[i].GetOp? ==> LongEnough(run[i].fetch)
  }

  ghost function Step(j: Job, op: Op): (Job, Option<Issue>)
    requires Sane(j) && (op.GetOp? ==> LongEnough(op.fetch))
  {
    match op
    case GetOp(f) => Get(j, f)
    case ClearOp => (Clear(j), None)
  }

  lemma StepSane(j: Job, op: Op)
    requires Sane(j) && (op.GetOp? ==> LongEnough(op.fetch))
    ensures Sane(Step(j, op).0)
  {
  }

  /** Everything handed out during a run, with the generation and the blob of its template. */
  datatype Grant = Grant(generation: nat, fetched: Bytes, issue: Issue)

  ghost function Grants(j: Job, run: seq<Op>): seq<Grant>
    requires Sane(j) && LongRun(run)
    decreases |run|
  {
    if run == [] then []
    else
      var (j', r) := Step(j, run[0]);
      StepSane(j, run[0]);
      (if r.Some? then [Grant(j'.generation, j'.fetched, r.value)] else []) + Grants(j', run[1..])
  }

  /** What is still to come from a shared job: a later template, or a later byte of this one. */
  ghost predicate Later(g: Grant, j: Job) {
    || g.generation > j.generation
    || (g.generation == j.generation && g.fetched == j.fetched
        && !NeedsTemplate(j) && g.issue.nicehashByte > j.lastNonce)
  }

  lemma {:induction false} GrantsAreLater(j: Job, run: seq<Op>, i: nat)
    requires Sane(j) && LongRun(run) && i < |Grants(j, run)|
    ensures Later(Grants(j, run)[i], j)
    decreases |run|
  {
    var (j', r) := Step(j, run[0]);
    StepSane(j, run[0]);
    if r.Some? {
      if i > 0 { GrantsAreLater(j', run[1..], i - 1); }
    } else {
      GrantsAreLater(j', run[1..], i);
    }
  }

  /** No two successful calls of a run get the same template and byte: generations never go back,
      and within one generation the byte grows. */
  lemma {:induction false} GrantsOrdered(j: Job, run: seq<Op>, i: nat, k: nat)
    requires Sane(j) && LongRun(run) && i < k < |Grants(j, run)|
    ensures
      var a, b := Grants(j, run)[i], Grants(j, run)[k];
      || a.generation < b.generation
      || (a.generation == b.generation && a.fetched == b.fetched && a.issue.nicehashByte < b.issue.nicehashByte)
    decreases |run|
  {
    var (j', r) := Step(j, run[0]);
    StepSane(j, run[0]);
    if r.Some? {
      if i == 0 {
        GrantsAreLater(j', run[1..], k - 1);
      } else {
        GrantsOrdered(j', run[1..], i - 1, k - 1);
      }
    } else {
      GrantsOrdered(j', run[1..], i, k);
    }
  }

  /** Every job handed out is its template with a byte from 1 to 255 at index 42. */
  lemma {:induction false} GrantsMatchTemplate(j: Job, run: seq<Op>, i: nat)
    requires Sane(j) && LongRun(run) && i < |Grants(j, run)|
    ensures
      var g := Grants(j, run)[i];
      && 1 <= g.issue.nicehashByte <= 255
      && |g.fetched| > NONCE_BYTE && g.issue.blob == g.fetched[NONCE_BYTE := g.issue.nicehashByte]
    decreases |run|
  {
    var (j', r) := Step(j, run[0]);
    StepSane(j, run[0]);
    if r.Some? {
      if i > 0 { GrantsMatchTemplate(j', run[1..], i - 1); }
    } else {
      GrantsMatchTemplate(j', run[1..], i);
    }
  }

  // ---- Which calls succeed -----------------------------------------------------------------

  /** A call fails exactly if a new template is needed and cannot be fetched, and then changes nothing.
      A new template starts at byte 1; otherwise the byte grows by one on the same template. */
  lemma GetRules(j: Job, f: Fetch)
    requires Sane(j) && LongEnough(f)
    ensures
      var (j', r) := Get(j, f);
      var needed := j.lastNonce == 0 || j.lastNonce == 255;
      && (r.None? <==> needed && f.FetchFailed?)
      && (r.None? ==> j' == j)
      && (r.Some? && needed ==>
            && j'.generation == j.generation + 1 && r.value.nicehashByte == 1
            && r.value.templateBlob == f.templateBlob && r.value.height == f.height && r.value.seedHash == f.seedHash
            && j'.fetched == f.hashingBlob)
      && (!needed ==>
            && j'.generation == j.generation && r.value.nicehashByte == j.lastNonce + 1
            && r.value.templateBlob == j.templateBlob && r.value.height == j.height && r.value.seedHash == j.seedHash
            && j'.fetched == j.fetched)
      && (r.Some? ==>
            && j'.lastNonce == r.value.nicehashByte && j'.templateBlob == r.value.templateBlob
            && j'.height == r.value.height && j'.seedHash == r.value.seedHash)
  {
  }

  /** After a clear the next call takes a new template. */
  lemma ClearRules(j: Job, f: Fetch)
    requires Sane(j) && LongEnough(f) && f.Fetched?
    ensures Sane(Clear(j)) && Get(Clear(j), f).0.generation == j.generation + 1
    ensures Get(Clear(j), f).1.Some? && Get(Clear(j), f).1.value.nicehashByte == 1
  {
  }

  /** k calls in a row. */
  ghost function Gets(f: Fetch, k: nat): seq<Op> {
    if k == 0 then [] else [GetOp(f)] + Gets(f, k - 1)
  }

  lemma {:induction false} GetsLong(f: Fetch, k: nat)
    requires LongEnough(f)
    ensures LongRun(Gets(f, k))
  {
    if k > 0 { GetsLong(f, k - 1); }
  }

  lemma {:induction false} ServesFrom(j: Job, f: Fetch, k: nat, i: nat)
    requires Sane(j) && LongEnough(f) && 1 <= j.lastNonce && j.lastNonce + k <= 255 && i < k
    ensures LongRun(Gets(f, k)) && |Grants(j, Gets(f, k))| == k
    ensures Grants(j, Gets(f, k))[i].generation == j.generation
    ensures Grants(j, Gets(f, k))[i].issue.nicehashByte == j.lastNonce + 1 + i
    decreases k
  {
    GetsLong(f, k);
    GetsLong(f, k - 1);
    var (j', r) := Step(j, GetOp(f));
    StepSane(j, GetOp(f));
    assert Gets(f, k)[1..] == Gets(f, k - 1);
    if k > 1 { ServesFrom(j', f, k - 1, if i == 0 then 0 else i - 1); }
  }

  /** One template serves 255 miners: after it is fetched, 254 further calls succeed without another,
      with the bytes 2 to 255. */
  lemma OneTemplateServes(j: Job, f: Fetch, later: Fetch, i: nat)
    requires Sane(j) && LongEnough(f) && LongEnough(later) && f.Fetched? && NeedsTemplate(j) && i < 254
    ensures Sane(Get(j, f).0) && LongRun(Gets(later, 254)) && |Grants(Get(j, f).0, Gets(later, 254))| == 254
    ensures Grants(Get(j, f).0, Gets(later, 254))[i].generation == j.generation + 1
    ensures Grants(Get(j, f).0, Gets(later, 254))[i].issue.nicehashByte == i + 2
  {
    StepSane(j, GetOp(f));
    ServesFrom(Get(j, f).0, later, 254, i);
  }

  // ---- Nonces ------------------------------------------------------------------------------

  /** The check of the submit loop; byte 0 means the job was not a Nicehash job. */
  predicate NonceAccepted(nicehash: bool, nicehashByte: Byte, nonce: Bytes)
    requires |nonce| == 4
  {
    !(nicehash && nicehashByte != 0 && nonce[3] != nicehashByte)
  }

  /** The nonce occupies bytes 39 to 42 of the blob. */
  function PlaceNonce(blob: Bytes, nonce: Bytes): Bytes
    requires |blob| > NONCE_BYTE && |nonce| == 4
  {
    blob[39 := nonce[0]][40 := nonce[1]][41 := nonce[2]][42 := nonce[3]]
  }

  /** Two miners working on one template can never have the same blob accepted. */
  lemma MinersDisjoint(j: Job, run: seq<Op>, i: nat, k: nat, x: Bytes, y: Bytes)
    requires Sane(j) && LongRun(run) && i < k < |Grants(j, run)| && |x| == |y| == 4
    requires
      var a, b := Grants(j, run)[i], Grants(j, run)[k];
      && a.generation == b.generation
      && NonceAccepted(true, a.issue.nicehashByte, x) && NonceAccepted(true, b.issue.nicehashByte, y)
    ensures x != y
    ensures
      var a, b := Grants(j, run)[i], Grants(j, run)[k];
      && |a.issue.blob| == |b.issue.blob| > NONCE_BYTE
      && PlaceNonce(a.issue.blob, x) != PlaceNonce(b.issue.blob, y)
  {
    GrantsOrdered(j, run, i, k);
    GrantsMatchTemplate(j, run, i);
    GrantsMatchTemplate(j, run, k);
    var a, b := Grants(j, run)[i], Grants(j, run)[k];
    assert PlaceNonce(a.issue.blob, x)[NONCE_BYTE] != PlaceNonce(b.issue.blob, y)[NONCE_BYTE];
  }
}
