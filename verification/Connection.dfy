/** One miner's connection, from login on and without P2Pool: two-deep job history, share checks,
    difficulty retargeting (the submit loop of cmd/slave/conn.go, OnNewBlock of
    cmd/slave/slave.go). The connection's mutex makes every job and every submit one step. */
module Connection {
  import opened Optional
  import opened Binary64
  import opened Reals
  import opened Distribution
  import opened Wire
  import opened Endian
  import opened Difficulty
  import opened Nicehash

  datatype ConnJob = ConnJob(blob: Bytes, hashingBlob: Bytes, diff: Uint64, jobId: string, nicehashByte: Byte)

  const NO_JOB: ConnJob := ConnJob([], [], 0, "", 0)

  /** A job as GetJob or GetNicehashJob returns it. */
  datatype Offer = Offer(jobId: string, blob: Bytes, hashingBlob: Bytes, nicehashByte: Byte)

  datatype Conn = Conn(lastJob: ConnJob, currentJob: ConnJob, nextDiff: real, lastShare: int)

  // ---- New jobs ----------------------------------------------------------------------------

  /** NextDiff is kept between MinDiff and the network difficulty, in float64. */
  function Clamped(fl: real -> real, nextDiff: real, minDiff: Uint64, netDiff: Uint64): real {
    if nextDiff < fl(minDiff as real) then fl(minDiff as real)
    else if nextDiff >= fl(netDiff as real) then fl(Wrap(netDiff - 1) as real)
    else nextDiff
  }

  /** The difficulty of a new block's job. */
  function NewDiff(fl: real -> real, conv: real -> Uint64, nextDiff: real, minDiff: Uint64, netDiff: Uint64): Uint64 {
    ToUint64(Clamped(fl, nextDiff, minDiff, netDiff), conv)
  }

  function Rotated(fl: real -> real, conv: real -> Uint64, c: Conn, minDiff: Uint64, netDiff: Uint64): Conn {
    var next := Clamped(fl, c.nextDiff, minDiff, netDiff);
    Conn(c.currentJob, c.currentJob.(diff := ToUint64(next, conv)), next, c.lastShare)
  }

  function WithOffer(job: ConnJob, offer: Offer): ConnJob {
    ConnJob(offer.blob, offer.hashingBlob, job.diff, offer.jobId, offer.nicehashByte)
  }

  /** OnNewBlock for one connection; without a job the miner is kicked. */
  function NewBlock(fl: real -> real, conv: real -> Uint64, c: Conn, minDiff: Uint64, netDiff: Uint64,
                    offer: Option<Offer>): (Conn, bool)
  {
    var r := Rotated(fl, conv, c, minDiff, netDiff);
    if offer.None? then (r, false)
    else (r.(currentJob := WithOffer(r.currentJob, offer.value)), true)
  }

  // ---- Submitted shares --------------------------------------------------------------------

  /** A submit request after hex decoding; `wellFormed` is the length and alphabet check. */
  datatype Request = Request(wellFormed: bool, jobId: string, nonce: Bytes, result: Bytes)

  datatype PowAnswer = Unavailable | Computed(matches: bool)

  /** What a submit depends on outside the connection: the network difficulty, the daemon's proof
      of work for potential blocks, the penalty box's answers for a bad and a good share, and then
      the network difficulty read again and whether the hash of a found block could be obtained. */
  datatype Env = Env(netDiff: Uint64, pow: PowAnswer, badAllowed: bool, goodAllowed: bool,
                     netDiffAgain: Uint64, blockNoted: bool)

  datatype Outcome =
    | Malformed | WrongJob | WrongNonce | Crashed | PowUnavailable | WrongHash | LowDifficulty | Kicked
    | Credited(job: ConnJob, hashDiff: Uint64)

  function Pick(c: Conn, jobId: string): Option<ConnJob> {
    if jobId == c.lastJob.jobId && jobId != "" then Some(c.lastJob)
    else if jobId == c.currentJob.jobId then Some(c.currentJob)
    else None
  }

  /** The checks after the job is known, in the order of the loop. */
  function Check(nicehash: bool, job: ConnJob, req: Request, env: Env): Outcome
    requires |req.nonce| == 4
  {
    if !NonceAccepted(nicehash, job.nicehashByte, req.nonce) then WrongNonce
    else if |job.hashingBlob| <= NONCE_BYTE || |job.blob| <= NONCE_BYTE then Crashed
    else
      match HashDifficulty(LittleValue(req.result))
      case Panic => Crashed
      case Diff(shareDiff) =>
        if shareDiff >= env.netDiff && env.pow.Unavailable? then PowUnavailable
        else if shareDiff >= env.netDiff && !env.pow.matches then (if env.badAllowed then WrongHash else Kicked)
        else if shareDiff < job.diff then LowDifficulty
        else if !env.goodAllowed then Kicked
        else Credited(job, shareDiff)
  }

  function Judged(nicehash: bool, c: Conn, req: Request, env: Env): Outcome {
    if !req.wellFormed || |req.nonce| != 4 || |req.result| != 32 then Malformed
    else
      match Pick(c, req.jobId)
      case None => WrongJob
      case Some(job) => Check(nicehash, job, req, env)
  }

  /** The time since the last share, kept between a quarter of the target time and four times it
      (milliseconds). */
  function Bounded(delta: int, targetTime: nat): int {
    var low, high := targetTime * 1000 / 4, targetTime * 1000 * 4;
    if delta < low then low else if delta > high then high else delta
  }

  /** The difficulty that would have met the target time t after a share of difficulty d took dt. */
  function Estimate(fl: real -> real, d: real, dt: real, t: real): real
    requires fl(dt) > 0.0
  {
    Times(fl, Times(fl, Percentage(fl, d, dt), 1000.0), fl(t))
  }

  function Sixfold(x: real): real {
    6.0 * x
  }

  function Seventh(x: real): real {
    x / 7.0
  }

  /** One part of the estimate, six parts of what was. */
  function Average(fl: real -> real, estimate: real, nextDiff: real): real {
    fl(Seventh(fl(estimate + fl(Sixfold(nextDiff)))))
  }

  /** The moving average after a share. */
  function Retargeted(fl: real -> real, nextDiff: real, jobDiff: nat, delta: int, targetTime: nat): real
    requires targetTime > 0 && fl(Bounded(delta, targetTime) as real) > 0.0
  {
    Average(fl, Estimate(fl, jobDiff as real, Bounded(delta, targetTime) as real, targetTime as real), nextDiff)
  }

  lemma BoundedPositive(delta: int, targetTime: nat)
    requires targetTime > 0
    ensures 250 * targetTime <= Bounded(delta, targetTime) <= 4000 * targetTime
  {
  }

  /** No divisor is rounded to zero. */
  ghost predicate KeepsPositive(fl: real -> real) {
    forall x {:trigger PositiveAt(fl, x)} :: PositiveAt(fl, x)
  }

  ghost predicate PositiveAt(fl: real -> real, x: real) {
    x > 0.0 ==> fl(x) > 0.0
  }

  lemma PositiveRounding(fl: real -> real)
    requires Correct(fl)
    ensures KeepsPositive(fl)
  {
    forall x ensures PositiveAt(fl, x) { }
  }

  lemma BoundedRounding(fl: real -> real, delta: int, targetTime: nat)
    requires KeepsPositive(fl) && targetTime > 0
    ensures fl(Bounded(delta, targetTime) as real) > 0.0
  {
    BoundedPositive(delta, targetTime);
    assert PositiveAt(fl, Bounded(delta, targetTime) as real);
  }

  /** A found block whose hash cannot be obtained ends the submit before the retarget. */
  predicate Retargets(outcome: Outcome, env: Env) {
    outcome.Credited? && (outcome.hashDiff >= env.netDiffAgain ==> env.blockNoted)
  }

  /** The connection after the outcome of a submit. The clock reads `now` for the share's time and
      `later` when it is stored. */
  function Settled(fl: real -> real, c: Conn, outcome: Outcome, env: Env, now: int, later: int, targetTime: nat): Conn
    requires targetTime > 0 && KeepsPositive(fl)
  {
    if Retargets(outcome, env) then
      BoundedRounding(fl, now - c.lastShare, targetTime);
      var next := Retargeted(fl, c.nextDiff, outcome.job.diff, now - c.lastShare, targetTime);
      c.(nextDiff := next, lastShare := later)
    else c
  }

  function Submitted(fl: real -> real, nicehash: bool, c: Conn, req: Request, env: Env, now: int, later: int,
                     targetTime: nat): (Conn, Outcome)
    requires targetTime > 0 && KeepsPositive(fl)
  {
    var outcome := Judged(nicehash, c, req, env);
    (Settled(fl, c, outcome, env, now, later, targetTime), outcome)
  }

  /** The connection as the object it is. */
  class MinerConnection {
    const nicehash: bool
    var lastJob: ConnJob
    var currentJob: ConnJob
    var nextDiff: real
    var lastShare: int

    constructor (nicehash: bool, login: Conn)
      ensures this.nicehash == nicehash && Value() == login
    {
      this.nicehash := nicehash;
      lastJob, currentJob, nextDiff, lastShare := login.lastJob, login.currentJob, login.nextDiff, login.lastShare;
    }

    function Value(): Conn
      reads this
    {
      Conn(lastJob, currentJob, nextDiff, lastShare)
    }

    method OnNewBlock(fl: real -> real, conv: real -> Uint64, minDiff: Uint64, netDiff: Uint64, offer: Option<Offer>)
      returns (kept: bool)
      modifies this
      ensures (Value(), kept) == NewBlock(fl, conv, old(Value()), minDiff, netDiff, offer)
    {
      lastJob := currentJob;
      if nextDiff < fl(minDiff as real) {
        nextDiff := fl(minDiff as real);
      } else if nextDiff >= fl(netDiff as real) {
        nextDiff := fl(Wrap(netDiff - 1) as real);
      }
      currentJob := currentJob.(diff := ToUint64(nextDiff, conv));
      match offer
      case None => return false;
      case Some(o) =>
        currentJob := currentJob.(nicehashByte := o.nicehashByte, blob := o.blob);
        currentJob := currentJob.(hashingBlob := o.hashingBlob, jobId := o.jobId);
        return true;
    }

    method Judge(req: Request, env: Env) returns (outcome: Outcome)
      ensures outcome == Judged(nicehash, Value(), req, env)
    {
      if !req.wellFormed || |req.nonce| != 4 || |req.result| != 32 { return Malformed; }
      var theJob := currentJob;
      if req.jobId == lastJob.jobId && req.jobId != "" {
        theJob := lastJob;
      } else if req.jobId != theJob.jobId {
        return WrongJob;
      }
      outcome := Check(nicehash, theJob, req, env);
    }

    method OnSubmit(fl: real -> real, req: Request, env: Env, now: int, later: int, targetTime: nat)
      returns (outcome: Outcome)
      requires targetTime > 0 && KeepsPositive(fl)
      modifies this
      ensures (Value(), outcome) == Submitted(fl, nicehash, old(Value()), req, env, now, later, targetTime)
    {
      outcome := Judge(req, env);
      Settle(fl, outcome, env, now, later, targetTime);
    }

    method Settle(fl: real -> real, outcome: Outcome, env: Env, now: int, later: int, targetTime: nat)
      requires targetTime > 0 && KeepsPositive(fl)
      modifies this
      ensures Value() == Settled(fl, old(Value()), outcome, env, now, later, targetTime)
    {
      if !outcome.Credited? { return; }
      if outcome.hashDiff >= env.netDiffAgain && !env.blockNoted { return; }
      BoundedRounding(fl, now - lastShare, targetTime);
      Retarget(fl, outcome.job.diff, now, later, targetTime);
    }

    method Retarget(fl: real -> real, jobDiff: Uint64, now: int, later: int, targetTime: nat)
      requires targetTime > 0 && fl(Bounded(now - lastShare, targetTime) as real) > 0.0
      modifies this`nextDiff, this`lastShare
      ensures nextDiff == Retargeted(fl, old(nextDiff), jobDiff, now - old(lastShare), targetTime) && lastShare == later
    {
      var delta := now - lastShare;
      if delta < targetTime * 1000 / 4 {
        delta := targetTime * 1000 / 4;
      } else if delta > targetTime * 1000 * 4 {
        delta := targetTime * 1000 * 4;
      }
      assert delta == Bounded(now - lastShare, targetTime);
      var estHr := Percentage(fl, jobDiff as real, delta as real);
      var next := Times(fl, Times(fl, estHr, 1000.0), fl(targetTime as real));
      nextDiff := Average(fl, next, nextDiff);
      lastShare := later;
    }
  }

  // ---- Credits over whole runs -------------------------------------------------------------

  datatype Event =
    | JobEvent(minDiff: Uint64, netDiff: Uint64, offer: Option<Offer>)
    | SubmitEvent(req: Request, env: Env, now: int, later: int)

  datatype Credit = Credit(jobId: string, diff: Uint64, hashDiff: Uint64, jobsIssued: nat)

  /** The connection with every job announced to the miner and every credit given to it so far. */
  datatype World = World(conn: Conn, alive: bool, issued: seq<ConnJob>, credits: seq<Credit>)

  /** The job an offer makes at a difficulty. */
  function Announced(offer: Offer, diff: Uint64): ConnJob {
    ConnJob(offer.blob, offer.hashingBlob, diff, offer.jobId, offer.nicehashByte)
  }

  function Login(offer: Offer, diff: Uint64, nextDiff: real, now: int): World {
    World(Conn(NO_JOB, Announced(offer, diff), nextDiff, now), true, [Announced(offer, diff)], [])
  }

  /** What the miner is told on a new block. */
  function NewJobs(fl: real -> real, conv: real -> Uint64, nextDiff: real, minDiff: Uint64, netDiff: Uint64,
                   offer: Option<Offer>): seq<ConnJob> {
    match offer
    case None => []
    case Some(o) => [Announced(o, NewDiff(fl, conv, nextDiff, minDiff, netDiff))]
  }

  /** A kick or a crash ends the run. */
  function Step(fl: real -> real, conv: real -> Uint64, nicehash: bool, targetTime: nat, w: World, e: Event): World
    requires targetTime > 0 && KeepsPositive(fl)
  {
    if !w.alive then w
    else
      match e
      case JobEvent(minDiff, netDiff, offer) =>
        var (c, kept) := NewBlock(fl, conv, w.conn, minDiff, netDiff, offer);
        World(c, kept, w.issued + NewJobs(fl, conv, w.conn.nextDiff, minDiff, netDiff, offer), w.credits)
      case SubmitEvent(req, env, now, later) =>
        var (c, outcome) := Submitted(fl, nicehash, w.conn, req, env, now, later, targetTime);
        World(c, !outcome.Kicked? && !outcome.Crashed?, w.issued,
              if outcome.Credited?
              then w.credits + [Credit(req.jobId, outcome.job.diff, outcome.hashDiff, |w.issued|)]
              else w.credits)
  }

  function Run(fl: real -> real, conv: real -> Uint64, nicehash: bool, targetTime: nat, w: World, events: seq<Event>)
    : World
    requires targetTime > 0 && KeepsPositive(fl)
    decreases |events|
  {
    if events == [] then w
    else Run(fl, conv, nicehash, targetTime, Step(fl, conv, nicehash, targetTime, w, events[0]), events[1..])
  }

  /** The credit is for one of the two jobs most recently announced when it was given, at the
      difficulty announced with that job, and the hash reached that difficulty. */
  ghost predicate Earned(credit: Credit, issued: seq<ConnJob>) {
    && 1 <= credit.jobsIssued <= |issued|
    && credit.diff <= credit.hashDiff
    && var n := credit.jobsIssued;
       || (issued[n - 1].jobId == credit.jobId && issued[n - 1].diff == credit.diff)
       || (n >= 2 && issued[n - 2].jobId == credit.jobId && issued[n - 2].diff == credit.diff)
  }

  ghost predicate Tracks(w: World) {
    && w.issued != []
    && (forall i :: 0 <= i < |w.credits| ==> Earned(w.credits[i], w.issued))
    && (w.alive ==>
          && w.conn.currentJob == w.issued[|w.issued| - 1]
          && (if |w.issued| >= 2 then w.conn.lastJob == w.issued[|w.issued| - 2] else w.conn.lastJob.jobId == ""))
  }

  lemma CreditedJob(nicehash: bool, c: Conn, req: Request, env: Env)
    requires Judged(nicehash, c, req, env).Credited?
    ensures
      var credited := Judged(nicehash, c, req, env);
      && credited.job.jobId == req.jobId && credited.job.diff <= credited.hashDiff
      && (credited.job == c.currentJob || (credited.job == c.lastJob && req.jobId != ""))
  {
  }

  lemma EarnedStays(credits: seq<Credit>, issued: seq<ConnJob>, more: seq<ConnJob>)
    requires forall i :: 0 <= i < |credits| ==> Earned(credits[i], issued)
    ensures forall i :: 0 <= i < |credits| ==> Earned(credits[i], issued + more)
  {
  }

  lemma JobTracks(fl: real -> real, conv: real -> Uint64, w: World, e: Event)
    requires Tracks(w) && w.alive && e.JobEvent?
    ensures
      var (c, kept) := NewBlock(fl, conv, w.conn, e.minDiff, e.netDiff, e.offer);
      Tracks(World(c, kept, w.issued + NewJobs(fl, conv, w.conn.nextDiff, e.minDiff, e.netDiff, e.offer), w.credits))
  {
    var c := NewBlock(fl, conv, w.conn, e.minDiff, e.netDiff, e.offer).0;
    assert c.lastJob == w.conn.currentJob;
    EarnedStays(w.credits, w.issued, NewJobs(fl, conv, w.conn.nextDiff, e.minDiff, e.netDiff, e.offer));
  }

  lemma CreditTracks(w: World, c: Conn, alive: bool, job: ConnJob, hashDiff: Uint64)
    requires Tracks(w) && w.alive && c.lastJob == w.conn.lastJob && c.currentJob == w.conn.currentJob
    requires job.diff <= hashDiff && (job == c.currentJob || (job == c.lastJob && job.jobId != ""))
    ensures Tracks(World(c, alive, w.issued, w.credits + [Credit(job.jobId, job.diff, hashDiff, |w.issued|)]))
  {
    assert Earned(Credit(job.jobId, job.diff, hashDiff, |w.issued|), w.issued);
  }

  lemma StepTracks(fl: real -> real, conv: real -> Uint64, nicehash: bool, targetTime: nat, w: World, e: Event)
    requires targetTime > 0 && KeepsPositive(fl) && Tracks(w)
    ensures Tracks(Step(fl, conv, nicehash, targetTime, w, e))
  {
    if w.alive {
      match e
      case JobEvent(_, _, _) => JobTracks(fl, conv, w, e);
      case SubmitEvent(req, env, now, later) =>
        var (c, outcome) := Submitted(fl, nicehash, w.conn, req, env, now, later, targetTime);
        if outcome.Credited? {
          CreditedJob(nicehash, w.conn, req, env);
          CreditTracks(w, c, true, outcome.job, outcome.hashDiff);
        }
    }
  }

  /** Whatever happens after login, every credited share was earned. */
  lemma {:induction false} CreditsEarned(fl: real -> real, conv: real -> Uint64, nicehash: bool, targetTime: nat,
                                         w: World, events: seq<Event>)
    requires targetTime > 0 && KeepsPositive(fl) && Tracks(w)
    ensures Tracks(Run(fl, conv, nicehash, targetTime, w, events))
    decreases |events|
  {
    if events != [] {
      StepTracks(fl, conv, nicehash, targetTime, w, events[0]);
      CreditsEarned(fl, conv, nicehash, targetTime, Step(fl, conv, nicehash, targetTime, w, events[0]), events[1..]);
    }
  }

  lemma LoginTracks(offer: Offer, diff: Uint64, nextDiff: real, now: int)
    ensures Tracks(Login(offer, diff, nextDiff, now))
  {
  }

  /** With fresh job ids the job of a credit is known: it is one of the last two issued, and no
      other announcement carries its id. */
  lemma CreditedJobUnique(credit: Credit, issued: seq<ConnJob>, i: nat)
    requires Earned(credit, issued) && i < |issued| && issued[i].jobId == credit.jobId
    requires forall j, k :: 0 <= j < k < |issued| ==> issued[j].jobId != issued[k].jobId
    ensures credit.jobsIssued - 2 <= i < credit.jobsIssued && issued[i].diff == credit.diff
  {
  }

  // ---- Which submits are credited ----------------------------------------------------------

  lemma {:induction false} LittleValueBound(b: Bytes)
    ensures LittleValue(b) < Pow(256, |b|)
  {
    if b != [] { LittleValueBound(b[1..]); }
  }

  lemma HashBound(result: Bytes)
    requires |result| == 32
    ensures LittleValue(result) <= MAX256
  {
    LittleValueBound(result);
    Pow7And8();
    assert Pow(256, 16) == 0x1_0000_0000_0000_0000_0000_0000_0000_0000;
    assert Pow(256, 24) == TWO192;
    assert Pow(256, 32) == MAX256 + 1;
  }

  /** The pool computes a difficulty for the hash: it does not panic. */
  ghost predicate Computable(h: nat) {
    h >= TWO192 || h % 0x1_0000_0000_0000_0000 == 0
  }

  /** The hash is worth difficulty d: h * d fits in 256 bits; a hash ending in 64 zero bits counts
      for nothing. */
  ghost predicate Worth(h: nat, d: nat) {
    if h % 0x1_0000_0000_0000_0000 == 0 then d == 0 else h * d <= MAX256
  }

  lemma WorthIs(h: nat, d: nat)
    requires h <= MAX256
    ensures HashDifficulty(h).Panic? <==> !Computable(h)
    ensures Computable(h) ==> (d <= HashDifficulty(h).value <==> Worth(h, d))
  {
    if h % 0x1_0000_0000_0000_0000 != 0 { HashReaches(h, d); }
  }

  ghost predicate WellFormed(req: Request) {
    req.wellFormed && |req.nonce| == 4 && |req.result| == 32
  }

  /** The job a submit names: the last but one announced if it has the id, else the last. */
  ghost predicate Names(issued: seq<ConnJob>, jobId: string, job: ConnJob) {
    var n := |issued|;
    if n >= 2 && jobId != "" && issued[n - 2].jobId == jobId then job == issued[n - 2]
    else n >= 1 && issued[n - 1].jobId == jobId && job == issued[n - 1]
  }

  /** The nonce carries the byte of a Nicehash job, and both blobs have room for it. */
  ghost predicate Fits(nicehash: bool, job: ConnJob, nonce: Bytes)
    requires |nonce| == 4
  {
    && (nicehash && job.nicehashByte != 0 ==> nonce[3] == job.nicehashByte)
    && |job.hashingBlob| > 42 && |job.blob| > 42
  }

  /** A potential block is confirmed by the daemon. */
  ghost predicate Confirmed(h: nat, env: Env) {
    Worth(h, env.netDiff) ==> env.pow.Computed? && env.pow.matches
  }

  ghost predicate Creditable(nicehash: bool, job: ConnJob, req: Request, env: Env)
    requires WellFormed(req)
  {
    var h := LittleValue(req.result);
    && Fits(nicehash, job, req.nonce) && Computable(h)
    && Worth(h, job.diff) && Confirmed(h, env) && env.goodAllowed
  }

  /** Every outcome of a submit for a known job, in hash arithmetic. */
  lemma CheckRules(nicehash: bool, job: ConnJob, req: Request, env: Env)
    requires WellFormed(req)
    ensures
      var h := LittleValue(req.result);
      var outcome := Check(nicehash, job, req, env);
      var wrongByte := nicehash && job.nicehashByte != 0 && req.nonce[3] != job.nicehashByte;
      var roomy := |job.hashingBlob| > 42 && |job.blob| > 42;
      var checked := Fits(nicehash, job, req.nonce) && Computable(h);
      && (outcome == WrongNonce <==> wrongByte)
      && (outcome == Crashed <==> !wrongByte && !(roomy && Computable(h)))
      && (outcome == PowUnavailable <==> checked && Worth(h, env.netDiff) && env.pow.Unavailable?)
      && (outcome == WrongHash <==> checked && Worth(h, env.netDiff) && env.pow == Computed(false) && env.badAllowed)
      && (outcome == LowDifficulty <==> checked && Confirmed(h, env) && !Worth(h, job.diff))
      && (outcome == Kicked <==>
            checked
            && ((Worth(h, env.netDiff) && env.pow == Computed(false) && !env.badAllowed)
                || (Confirmed(h, env) && Worth(h, job.diff) && !env.goodAllowed)))
      && (outcome.Credited? <==> Creditable(nicehash, job, req, env))
      && (outcome.Credited? ==> outcome.job == job && HashDifficulty(h) == Diff(outcome.hashDiff))
  {
    var h := LittleValue(req.result);
    HashBound(req.result);
    WorthIs(h, env.netDiff);
    WorthIs(h, job.diff);
  }

  lemma NamedJob(w: World, jobId: string, job: ConnJob)
    requires Tracks(w) && w.alive
    ensures Pick(w.conn, jobId) == Some(job) <==> Names(w.issued, jobId, job)
  {
  }

  /** A well-formed submit on a live connection that names a job: one credit, for that job at its
      announced difficulty, exactly if the hash is worth that difficulty, a potential block is
      confirmed and the penalty box allows it. */
  lemma SubmitCreditedIff(fl: real -> real, conv: real -> Uint64, nicehash: bool, targetTime: nat,
                          w: World, req: Request, env: Env, now: int, later: int, job: ConnJob)
    requires targetTime > 0 && KeepsPositive(fl) && Tracks(w) && w.alive
    requires WellFormed(req) && Names(w.issued, req.jobId, job)
    ensures
      var w' := Step(fl, conv, nicehash, targetTime, w, SubmitEvent(req, env, now, later));
      && w'.issued == w.issued
      && (w'.alive <==> Check(nicehash, job, req, env) !in {Crashed, Kicked})
      && (Creditable(nicehash, job, req, env) ==>
            && |w'.credits| == |w.credits| + 1 && w'.credits[..|w.credits|] == w.credits
            && w'.credits[|w.credits|].jobId == req.jobId && w'.credits[|w.credits|].diff == job.diff
            && w'.credits[|w.credits|].jobsIssued == |w.issued| && w'.alive)
      && (!Creditable(nicehash, job, req, env) ==> w'.credits == w.credits && w'.conn == w.conn)
  {
    NamedJob(w, req.jobId, job);
    CheckRules(nicehash, job, req, env);
    assert Judged(nicehash, w.conn, req, env) == Check(nicehash, job, req, env);
  }

  /** Any other submit changes nothing. */
  lemma SubmitIgnored(fl: real -> real, conv: real -> Uint64, nicehash: bool, targetTime: nat,
                      w: World, req: Request, env: Env, now: int, later: int)
    requires targetTime > 0 && KeepsPositive(fl) && Tracks(w) && w.alive
    requires !WellFormed(req) || forall job :: !Names(w.issued, req.jobId, job)
    ensures Step(fl, conv, nicehash, targetTime, w, SubmitEvent(req, env, now, later)) == w
  {
    if WellFormed(req) && Pick(w.conn, req.jobId).Some? {
      NamedJob(w, req.jobId, Pick(w.conn, req.jobId).value);
    }
  }

  // ---- Retargeting in float64 ---------------------------------------------------------------

  /** Six and seven times h are computed exactly. */
  ghost predicate Roomy(fl: real -> real, h: real) {
    fl(h) == h && fl(Sixfold(h)) == Sixfold(h) && fl(h + Sixfold(h)) == h + Sixfold(h)
  }

  lemma RoomyWhole(fl: real -> real, n: nat)
    requires Correct(fl) && 7 * n <= TWO53
    ensures Roomy(fl, n as real)
  {
    assert Sixfold(n as real) == (6 * n) as real;
    assert n as real + Sixfold(n as real) == (7 * n) as real;
  }

  /** The average stays between any such bounds on what is averaged. */
  lemma AverageAtMost(fl: real -> real, x: real, y: real, high: real)
    requires Correct(fl) && Roomy(fl, high) && 0.0 <= x <= high && 0.0 <= y <= high
    ensures Average(fl, x, y) <= high
  {
    RoundedInOrder(fl, Sixfold(y), Sixfold(high));
    RoundedInOrder(fl, 0.0, Sixfold(y));
    RoundedInOrder(fl, x + fl(Sixfold(y)), high + Sixfold(high));
    RoundedInOrder(fl, 0.0, x + fl(Sixfold(y)));
    RoundedInOrder(fl, Seventh(fl(x + fl(Sixfold(y)))), high);
  }

  lemma AverageAtLeast(fl: real -> real, x: real, y: real, low: real)
    requires Correct(fl) && Roomy(fl, low) && 0.0 <= low <= x && low <= y
    ensures low <= Average(fl, x, y)
  {
    RoundedInOrder(fl, Sixfold(low), Sixfold(y));
    RoundedInOrder(fl, low + Sixfold(low), x + fl(Sixfold(y)));
    RoundedInOrder(fl, low, Seventh(fl(x + fl(Sixfold(y)))));
  }

  /** The unrounded estimate lies between a quarter of the job's difficulty and four times it. */
  lemma EstimateWithin(d: real, dt: real, t: real, q: real)
    requires 0.0 <= d && 0.0 < t && 250.0 * t <= dt <= 4000.0 * t && q * dt == d && 0.0 <= q
    ensures d / 4.0 <= q * 1000.0 * t <= 4.0 * d
  {
    Scale(250.0 * t, dt, q);
    Scale(dt, 4000.0 * t, q);
    assert 250.0 * t * q == (q * 1000.0 * t) / 4.0;
    assert 4000.0 * t * q == 4.0 * (q * 1000.0 * t);
  }

  /** Three roundings move a number up to 2^51 by less than one. */
  lemma ThreeRoundings(e: real, x1: real, x2: real, x3: real)
    requires 0.0 <= e <= TWO51 as real && Near(e, x1) && Near(x1, x2) && Near(x2, x3)
    ensures e - 1.0 <= x3 <= e + 1.0
  {
  }

  lemma EstimateChain(q: real, p: real, a: real, t: real)
    requires 0.0 <= t && Near(q, p) && Near(p * 1000.0, a)
    ensures Near(q * 1000.0 * t, p * 1000.0 * t) && Near(p * 1000.0 * t, a * t)
  {
    NearScale(q, p, 1000.0);
    NearScale(q * 1000.0, p * 1000.0, t);
    NearScale(p * 1000.0, a, t);
  }

  lemma QuotientNear(fl: real -> real, d: real, dt: real) returns (q: real)
    requires Correct(fl) && 0.0 <= d == fl(d) && 0.0 < dt == fl(dt)
    ensures q * dt == d && 0.0 <= q && 0.0 <= Percentage(fl, d, dt) && Near(q, Percentage(fl, d, dt))
  {
    q := Quotient(d, dt);
  }

  lemma EstimateRounded(fl: real -> real, d: real, dt: real, t: real)
    requires Correct(fl) && fl(d) == d && fl(dt) == dt && fl(t) == t && 0.0 <= 4.0 * d <= TWO51 as real
    requires 0.0 < t && 250.0 * t <= dt <= 4000.0 * t
    ensures d / 4.0 - 1.0 <= Estimate(fl, d, dt, t) <= 4.0 * d + 1.0
  {
    var q := QuotientNear(fl, d, dt);
    var p := Percentage(fl, d, dt);
    TimesNear(fl, p, 1000.0);
    var a := Times(fl, p, 1000.0);
    TimesNear(fl, a, t);
    EstimateChain(q, p, a, t);
    EstimateWithin(d, dt, t, q);
    ThreeRoundings(q * 1000.0 * t, p * 1000.0 * t, a * t, Times(fl, a, t));
  }

  /** One share keeps NextDiff within whole bounds that leave one unit to its estimate. */
  lemma RetargetStep(fl: real -> real, nextDiff: real, d: nat, delta: int, targetTime: nat, low: nat, high: nat)
    requires Correct(fl) && 0 < targetTime && 4000 * targetTime <= TWO53 && 7 * high <= TWO53
    requires low as real <= nextDiff <= high as real && 4 * low + 4 <= d && 4 * d + 1 <= high
    ensures fl(Bounded(delta, targetTime) as real) > 0.0
    ensures low as real <= Retargeted(fl, nextDiff, d, delta, targetTime) <= high as real
  {
    PositiveRounding(fl);
    BoundedRounding(fl, delta, targetTime);
    BoundedPositive(delta, targetTime);
    var dt := Bounded(delta, targetTime);
    EstimateRounded(fl, d as real, dt as real, targetTime as real);
    RoomyWhole(fl, low);
    RoomyWhole(fl, high);
    var x := Estimate(fl, d as real, dt as real, targetTime as real);
    AverageAtMost(fl, x, nextDiff, high as real);
    AverageAtLeast(fl, x, nextDiff, low as real);
  }

  /** Shares accepted one after the other: the difficulty of their job and the time each took. */
  function RetargetAll(fl: real -> real, nextDiff: real, shares: seq<(nat, int)>, targetTime: nat): real
    requires targetTime > 0 && KeepsPositive(fl)
    decreases |shares|
  {
    if shares == [] then nextDiff
    else
      BoundedRounding(fl, shares[0].1, targetTime);
      RetargetAll(fl, Retargeted(fl, nextDiff, shares[0].0, shares[0].1, targetTime), shares[1..], targetTime)
  }

  /** NextDiff never leaves the range spanned by its start and, up to one unit, a quarter to four
      times the difficulties of the shares accepted since. */
  lemma {:induction false} RetargetBounded(fl: real -> real, nextDiff: real, shares: seq<(nat, int)>, targetTime: nat,
                                           low: nat, high: nat)
    requires Correct(fl) && 0 < targetTime && 4000 * targetTime <= TWO53 && 7 * high <= TWO53
    requires low as real <= nextDiff <= high as real
    requires forall i :: 0 <= i < |shares| ==> 4 * low + 4 <= shares[i].0 && 4 * shares[i].0 + 1 <= high
    ensures KeepsPositive(fl) && low as real <= RetargetAll(fl, nextDiff, shares, targetTime) <= high as real
    decreases |shares|
  {
    PositiveRounding(fl);
    if shares != [] {
      RetargetStep(fl, nextDiff, shares[0].0, shares[0].1, targetTime, low, high);
      var next := Retargeted(fl, nextDiff, shares[0].0, shares[0].1, targetTime);
      RetargetBounded(fl, next, shares[1..], targetTime, low, high);
    }
  }

  // ---- And in exact arithmetic -------------------------------------------------------------

  function ExactEstimate(d: real, dt: real, t: real): real
    requires dt > 0.0
  {
    d / dt * 1000.0 * t
  }

  function ExactAverage(x: real, y: real): real {
    (x + 6.0 * y) / 7.0
  }

  function ExactRetarget(nextDiff: real, d: nat, delta: int, targetTime: nat): real
    requires targetTime > 0
  {
    BoundedPositive(delta, targetTime);
    ExactAverage(ExactEstimate(d as real, Bounded(delta, targetTime) as real, targetTime as real), nextDiff)
  }

  lemma EstimateUnrounded(d: real, dt: real, t: real)
    requires dt > 0.0
    ensures Estimate(Unrounded, d, dt, t) == ExactEstimate(d, dt, t)
  {
  }

  lemma AverageUnrounded(x: real, y: real)
    ensures Average(Unrounded, x, y) == ExactAverage(x, y)
  {
  }

  /** Without rounding the program computes just that. */
  lemma RetargetUnrounded(nextDiff: real, d: nat, delta: int, targetTime: nat)
    requires targetTime > 0
    ensures Unrounded(Bounded(delta, targetTime) as real) > 0.0
    ensures Retargeted(Unrounded, nextDiff, d, delta, targetTime) == ExactRetarget(nextDiff, d, delta, targetTime)
  {
    BoundedPositive(delta, targetTime);
    var dt := Bounded(delta, targetTime) as real;
    EstimateUnrounded(d as real, dt, targetTime as real);
    AverageUnrounded(ExactEstimate(d as real, dt, targetTime as real), nextDiff);
  }

  function ExactRetargetAll(nextDiff: real, shares: seq<(nat, int)>, targetTime: nat): real
    requires targetTime > 0
    decreases |shares|
  {
    if shares == [] then nextDiff
    else ExactRetargetAll(ExactRetarget(nextDiff, shares[0].0, shares[0].1, targetTime), shares[1..], targetTime)
  }

  lemma AverageWithin(x: real, y: real, low: real, high: real)
    requires low <= x <= high && low <= y <= high
    ensures low <= ExactAverage(x, y) <= high
  {
  }

  lemma ExactRetargetWithin(nextDiff: real, d: nat, delta: int, targetTime: nat, low: real, high: real)
    requires targetTime > 0 && low <= nextDiff <= high && low <= d as real / 4.0 && 4.0 * d as real <= high
    ensures low <= ExactRetarget(nextDiff, d, delta, targetTime) <= high
  {
    BoundedPositive(delta, targetTime);
    var dt := Bounded(delta, targetTime) as real;
    var q := Quotient(d as real, dt);
    EstimateWithin(d as real, dt, targetTime as real, q);
    AverageWithin(ExactEstimate(d as real, dt, targetTime as real), nextDiff, low, high);
  }

  /** There the bounds need no unit. */
  lemma {:induction false} RetargetBoundedExactly(nextDiff: real, shares: seq<(nat, int)>, targetTime: nat,
                                                  low: real, high: real)
    requires targetTime > 0 && low <= nextDiff <= high
    requires forall i :: 0 <= i < |shares| ==> low <= shares[i].0 as real / 4.0 && 4.0 * shares[i].0 as real <= high
    ensures low <= ExactRetargetAll(nextDiff, shares, targetTime) <= high
    decreases |shares|
  {
    if shares != [] {
      ExactRetargetWithin(nextDiff, shares[0].0, shares[0].1, targetTime, low, high);
      var next := ExactRetarget(nextDiff, shares[0].0, shares[0].1, targetTime);
      RetargetBoundedExactly(next, shares[1..], targetTime, low, high);
    }
  }

  lemma EstimateOnTime(d: real, t: real)
    requires 0.0 < t
    ensures d / (1000.0 * t) * 1000.0 * t == d
  {
    var r := d / (1000.0 * t);
    assert r * (1000.0 * t) == d;
    assert r * 1000.0 * t == r * (1000.0 * t);
  }

  lemma RetargetOnTime(nextDiff: real, d: nat, targetTime: nat)
    requires targetTime > 0
    ensures ExactRetarget(nextDiff, d, targetTime * 1000, targetTime) - d as real == (nextDiff - d as real) * 6.0 / 7.0
  {
    assert Bounded(targetTime * 1000, targetTime) as real == 1000.0 * targetTime as real;
    EstimateOnTime(d as real, targetTime as real);
  }

  function OnTime(d: nat, targetTime: nat, k: nat): seq<(nat, int)> {
    if k == 0 then [] else [(d, targetTime * 1000)] + OnTime(d, targetTime, k - 1)
  }

  function Decayed(x: real, k: nat): real
    decreases k
  {
    if k == 0 then x else Decayed(x * 6.0 / 7.0, k - 1)
  }

  /** While shares of one difficulty come exactly on time, NextDiff approaches that difficulty: the
      distance shrinks by one seventh with every share. */
  lemma {:induction false} RetargetConverges(nextDiff: real, d: nat, targetTime: nat, k: nat)
    requires targetTime > 0
    ensures ExactRetargetAll(nextDiff, OnTime(d, targetTime, k), targetTime) - d as real
         == Decayed(nextDiff - d as real, k)
    decreases k
  {
    if k > 0 {
      var next := ExactRetarget(nextDiff, d, targetTime * 1000, targetTime);
      RetargetOnTime(nextDiff, d, targetTime);
      RetargetConverges(next, d, targetTime, k - 1);
      assert OnTime(d, targetTime, k)[1..] == OnTime(d, targetTime, k - 1);
    }
  }

  // ---- What the share time does ------------------------------------------------------------

  lemma OnScale(d: real, delta: real, t: real, next: real, x: real)
    requires delta > 0.0 && next == ExactAverage(ExactEstimate(d, delta, t), x)
    ensures 7.0 * next * delta == 1000.0 * t * d + 6.0 * x * delta
  {
    var q := d / delta;
    assert q * delta == d;
    assert 7.0 * next == q * 1000.0 * t + 6.0 * x;
    assert q * 1000.0 * t * delta == 1000.0 * t * (q * delta);
  }

  lemma FastEstimate(d: real, t: real)
    requires t > 0.0
    ensures ExactEstimate(d, 250.0 * t, t) == 4.0 * d && ExactEstimate(d, 4000.0 * t, t) == d / 4.0
  {
    var q, r := d / (250.0 * t), d / (4000.0 * t);
    assert q * (250.0 * t) == d && r * (4000.0 * t) == d;
    assert q * 1000.0 * t == 4.0 * (q * (250.0 * t));
    assert r * 1000.0 * t == r * (4000.0 * t) / 4.0;
  }

  lemma RetargetAt(nextDiff: real, d: nat, delta: int, targetTime: nat, dt: real)
    requires targetTime > 0 && Bounded(delta, targetTime) as real == dt
    ensures dt > 0.0 && Unrounded(Bounded(delta, targetTime) as real) > 0.0
    ensures Retargeted(Unrounded, nextDiff, d, delta, targetTime)
         == ExactAverage(ExactEstimate(d as real, dt, targetTime as real), nextDiff)
  {
    BoundedPositive(delta, targetTime);
    RetargetUnrounded(nextDiff, d, delta, targetTime);
  }

  lemma RetargetInTime(nextDiff: real, d: nat, delta: int, targetTime: nat)
    requires targetTime > 0 && 250 * targetTime <= delta <= 4000 * targetTime
    ensures Unrounded(Bounded(delta, targetTime) as real) > 0.0
    ensures 7.0 * Retargeted(Unrounded, nextDiff, d, delta, targetTime) * delta as real
         == 1000.0 * targetTime as real * d as real + 6.0 * nextDiff * delta as real
  {
    assert Bounded(delta, targetTime) == delta;
    RetargetAt(nextDiff, d, delta, targetTime, delta as real);
    var next := Retargeted(Unrounded, nextDiff, d, delta, targetTime);
    OnScale(d as real, delta as real, targetTime as real, next, nextDiff);
  }

  lemma RetargetFast(nextDiff: real, d: nat, delta: int, targetTime: nat)
    requires targetTime > 0 && delta <= 250 * targetTime
    ensures Unrounded(Bounded(delta, targetTime) as real) > 0.0
    ensures Retargeted(Unrounded, nextDiff, d, delta, targetTime) == (4.0 * d as real + 6.0 * nextDiff) / 7.0
  {
    assert Bounded(delta, targetTime) == 250 * targetTime;
    RetargetAt(nextDiff, d, delta, targetTime, 250.0 * targetTime as real);
    FastEstimate(d as real, targetTime as real);
  }

  lemma RetargetSlow(nextDiff: real, d: nat, delta: int, targetTime: nat)
    requires targetTime > 0 && delta >= 4000 * targetTime
    ensures Unrounded(Bounded(delta, targetTime) as real) > 0.0
    ensures Retargeted(Unrounded, nextDiff, d, delta, targetTime) == (d as real / 4.0 + 6.0 * nextDiff) / 7.0
  {
    assert Bounded(delta, targetTime) == 4000 * targetTime;
    RetargetAt(nextDiff, d, delta, targetTime, 4000.0 * targetTime as real);
    FastEstimate(d as real, targetTime as real);
  }

  lemma RetargetDefined(delta: int, targetTime: nat)
    requires targetTime > 0
    ensures Unrounded(Bounded(delta, targetTime) as real) > 0.0
  {
    BoundedPositive(delta, targetTime);
  }

  /** Without rounding, in milliseconds: between a quarter of the target time and four times it the
      new value is the average of six parts old and one part the difficulty that would have met the
      target; outside that range the estimate stays at four times and a quarter of the difficulty. */
  lemma RetargetRules(nextDiff: real, d: nat, delta: int, targetTime: nat)
    requires targetTime > 0
    ensures Unrounded(Bounded(delta, targetTime) as real) > 0.0
    ensures
      var next := Retargeted(Unrounded, nextDiff, d, delta, targetTime);
      && (250 * targetTime <= delta <= 4000 * targetTime ==>
            7.0 * next * delta as real == 1000.0 * targetTime as real * d as real + 6.0 * nextDiff * delta as real)
      && (delta <= 250 * targetTime ==> next == (4.0 * d as real + 6.0 * nextDiff) / 7.0)
      && (delta >= 4000 * targetTime ==> next == (d as real / 4.0 + 6.0 * nextDiff) / 7.0)
  {
    RetargetDefined(delta, targetTime);
    if delta <= 250 * targetTime { RetargetFast(nextDiff, d, delta, targetTime); }
    if delta >= 4000 * targetTime { RetargetSlow(nextDiff, d, delta, targetTime); }
    if 250 * targetTime <= delta <= 4000 * targetTime { RetargetInTime(nextDiff, d, delta, targetTime); }
  }

  lemma SmallerFactor(p: real, q: real, a: real, b: real)
    requires p * a == q * b && 0.0 <= q && 0.0 < a <= b
    ensures q <= p
  {
    Scale(a, b, q);
    if q > p { StrictScale(p, q, a); }
  }

  lemma QuotientAntitone(x: real, a: real, b: real)
    requires 0.0 <= x && 0.0 < a <= b
    ensures 0.0 <= x / b <= x / a
  {
    var p := Quotient(x, a);
    var q := Quotient(x, b);
    SmallerFactor(p, q, a, b);
  }

  lemma EstimateAntitone(fl: real -> real, d: real, a: real, b: real, t: real)
    requires Correct(fl) && 0.0 <= d && 0.0 < a <= b && 0.0 <= t && fl(a) > 0.0 && fl(b) > 0.0
    ensures 0.0 <= Estimate(fl, d, b, t) <= Estimate(fl, d, a, t)
  {
    RoundedInOrder(fl, a, b);
    RoundedInOrder(fl, 0.0, d);
    RoundedInOrder(fl, 0.0, t);
    assert fl(0.0) == 0.0;
    QuotientAntitone(fl(d), fl(a), fl(b));
    var p, q := Percentage(fl, d, b), Percentage(fl, d, a);
    RoundedInOrder(fl, fl(d) / fl(b), fl(d) / fl(a));
    RoundedInOrder(fl, 0.0, fl(d) / fl(b));
    FactorInOrder(fl, p, q, 1000.0);
    FactorInOrder(fl, Times(fl, p, 1000.0), Times(fl, q, 1000.0), fl(t));
  }

  lemma FactorInOrder(fl: real -> real, x: real, y: real, c: real)
    requires Correct(fl) && 0.0 <= x <= y && 0.0 <= c
    ensures 0.0 <= Times(fl, x, c) <= Times(fl, y, c)
  {
    TimesNear(fl, x, c);
    Scale(0.0, x, c);
    Scale(x, y, c);
    RoundedInOrder(fl, x * c, y * c);
  }

  lemma AverageInOrder(fl: real -> real, x: real, y: real, nextDiff: real)
    requires Correct(fl) && 0.0 <= x <= y && 0.0 <= nextDiff
    ensures Average(fl, x, nextDiff) <= Average(fl, y, nextDiff)
  {
    RoundedInOrder(fl, 0.0, Sixfold(nextDiff));
    assert fl(0.0) == 0.0;
    var six := fl(Sixfold(nextDiff));
    RoundedInOrder(fl, x + six, y + six);
    RoundedInOrder(fl, 0.0, x + six);
    RoundedInOrder(fl, Seventh(fl(x + six)), Seventh(fl(y + six)));
  }

  lemma BoundedInOrder(a: int, b: int, targetTime: nat)
    requires a <= b && targetTime > 0
    ensures 0 < Bounded(a, targetTime) <= Bounded(b, targetTime)
  {
  }

  /** In float64 too, a longer share time never gives a larger difficulty. */
  lemma RetargetAntitone(fl: real -> real, nextDiff: real, d: nat, a: int, b: int, targetTime: nat)
    requires Correct(fl) && targetTime > 0 && a <= b && 0.0 <= nextDiff
    ensures fl(Bounded(a, targetTime) as real) > 0.0 && fl(Bounded(b, targetTime) as real) > 0.0
    ensures Retargeted(fl, nextDiff, d, b, targetTime) <= Retargeted(fl, nextDiff, d, a, targetTime)
  {
    PositiveRounding(fl);
    BoundedRounding(fl, a, targetTime);
    BoundedRounding(fl, b, targetTime);
    BoundedInOrder(a, b, targetTime);
    var x, y, t := Bounded(a, targetTime) as real, Bounded(b, targetTime) as real, targetTime as real;
    EstimateAntitone(fl, d as real, x, y, t);
    AverageInOrder(fl, Estimate(fl, d as real, y, t), Estimate(fl, d as real, x, t), nextDiff);
  }

  /** A credited share retargets, unless it is a block whose hash could not be obtained; nothing else
      does. */
  lemma SubmitRetargets(fl: real -> real, nicehash: bool, c: Conn, req: Request, env: Env, now: int, later: int,
                        targetTime: nat)
    requires targetTime > 0 && KeepsPositive(fl)
    ensures fl(Bounded(now - c.lastShare, targetTime) as real) > 0.0
    ensures
      var (c', outcome) := Submitted(fl, nicehash, c, req, env, now, later, targetTime);
      && c'.lastJob == c.lastJob && c'.currentJob == c.currentJob
      && (outcome.Credited? && (outcome.hashDiff < env.netDiffAgain || env.blockNoted) ==>
            && c'.lastShare == later
            && c'.nextDiff == Retargeted(fl, c.nextDiff, outcome.job.diff, now - c.lastShare, targetTime))
      && (!outcome.Credited? || (outcome.hashDiff >= env.netDiffAgain && !env.blockNoted) ==> c' == c)
  {
    BoundedRounding(fl, now - c.lastShare, targetTime);
  }

  // ---- New-block difficulties --------------------------------------------------------------

  /** A NextDiff inside the range is kept; outside, the nearer bound is taken. */
  lemma ClampRules(fl: real -> real, conv: real -> Uint64, nextDiff: real, minDiff: Uint64, netDiff: Uint64)
    requires Correct(fl) && netDiff > 0 && 0.0 <= nextDiff && fl(netDiff as real) <= TWO64 as real
    ensures fl(minDiff as real) <= nextDiff < fl(netDiff as real) ==>
      && Clamped(fl, nextDiff, minDiff, netDiff) == nextDiff
      && NewDiff(fl, conv, nextDiff, minDiff, netDiff) == nextDiff.Floor
    ensures nextDiff < fl(minDiff as real) ==> Clamped(fl, nextDiff, minDiff, netDiff) == fl(minDiff as real)
    ensures nextDiff >= fl(minDiff as real) && nextDiff >= fl(netDiff as real) ==>
      Clamped(fl, nextDiff, minDiff, netDiff) == fl((netDiff - 1) as real)
  {
  }

  /** A new block: the current job becomes the last one, NextDiff is clamped, and the miner stays
      exactly if a job could be made, which is then the offered one at the clamped difficulty. */
  lemma NewBlockRules(fl: real -> real, conv: real -> Uint64, c: Conn, minDiff: Uint64, netDiff: Uint64,
                      offer: Option<Offer>)
    ensures
      var (c', kept) := NewBlock(fl, conv, c, minDiff, netDiff, offer);
      && (kept <==> offer.Some?) && c'.lastJob == c.currentJob && c'.lastShare == c.lastShare
      && c'.nextDiff == Clamped(fl, c.nextDiff, minDiff, netDiff)
      && (kept ==>
            && c'.currentJob.jobId == offer.value.jobId && c'.currentJob.blob == offer.value.blob
            && c'.currentJob.hashingBlob == offer.value.hashingBlob
            && c'.currentJob.nicehashByte == offer.value.nicehashByte
            && c'.currentJob.diff == NewDiff(fl, conv, c.nextDiff, minDiff, netDiff))
  {
  }

  /** A float64 value, as NextDiff always is. */
  ghost predicate IsFloat(fl: real -> real, x: real) {
    0.0 <= x == fl(x)
  }

  lemma ClampAtLeast(fl: real -> real, nextDiff: real, minDiff: Uint64, netDiff: Uint64)
    requires Correct(fl) && minDiff < netDiff && minDiff as real <= fl(minDiff as real)
    ensures minDiff as real <= Clamped(fl, nextDiff, minDiff, netDiff)
  {
    RoundedInOrder(fl, minDiff as real, (netDiff - 1) as real);
  }

  lemma ClampBelow(fl: real -> real, nextDiff: real, minDiff: Uint64, netDiff: Uint64)
    requires Correct(fl) && IsFloat(fl, nextDiff) && minDiff < netDiff && fl((netDiff - 1) as real) < netDiff as real
    ensures Clamped(fl, nextDiff, minDiff, netDiff) < netDiff as real
  {
    RoundedInOrder(fl, minDiff as real, (netDiff - 1) as real);
    if nextDiff >= netDiff as real { RoundedInOrder(fl, netDiff as real, nextDiff); }
  }

  lemma NewDiffIs(fl: real -> real, conv: real -> Uint64, nextDiff: real, minDiff: Uint64, netDiff: Uint64)
    requires 0.0 <= Clamped(fl, nextDiff, minDiff, netDiff) < TWO64 as real
    ensures NewDiff(fl, conv, nextDiff, minDiff, netDiff) == Clamped(fl, nextDiff, minDiff, netDiff).Floor
  {
  }

  /** Every new block's difficulty is at least MinDiff and strictly below the network difficulty
      exactly when MinDiff is, MinDiff is not rounded down, and netDiff - 1 is not rounded up. */
  lemma NewBlockDiffIff(fl: real -> real, conv: real -> Uint64, minDiff: Uint64, netDiff: Uint64)
    requires Correct(fl) && Idempotent(fl) && 1 <= netDiff
    requires fl(minDiff as real) < TWO64 as real && fl(netDiff as real) < TWO64 as real
    ensures
      && minDiff < netDiff && minDiff as real <= fl(minDiff as real) && fl((netDiff - 1) as real) < netDiff as real
      <==> forall nextDiff :: IsFloat(fl, nextDiff) ==>
             minDiff <= NewDiff(fl, conv, nextDiff, minDiff, netDiff) < netDiff
  {
    if minDiff < netDiff && minDiff as real <= fl(minDiff as real) && fl((netDiff - 1) as real) < netDiff as real {
      forall nextDiff | IsFloat(fl, nextDiff)
        ensures minDiff <= NewDiff(fl, conv, nextDiff, minDiff, netDiff) < netDiff
      {
        ClampAtLeast(fl, nextDiff, minDiff, netDiff);
        ClampBelow(fl, nextDiff, minDiff, netDiff);
        NewDiffIs(fl, conv, nextDiff, minDiff, netDiff);
      }
    } else if forall nextDiff :: IsFloat(fl, nextDiff) ==>
        minDiff <= NewDiff(fl, conv, nextDiff, minDiff, netDiff) < netDiff {
      ClampFails(fl, conv, minDiff, netDiff);
    }
  }

  /** Zero and the rounded network difficulty show when the clamp fails. */
  lemma ClampFails(fl: real -> real, conv: real -> Uint64, minDiff: Uint64, netDiff: Uint64)
    requires Correct(fl) && Idempotent(fl) && 1 <= netDiff
    requires fl(minDiff as real) < TWO64 as real && fl(netDiff as real) < TWO64 as real
    requires forall nextDiff :: IsFloat(fl, nextDiff) ==>
      minDiff <= NewDiff(fl, conv, nextDiff, minDiff, netDiff) < netDiff
    ensures minDiff < netDiff && minDiff as real <= fl(minDiff as real) && fl((netDiff - 1) as real) < netDiff as real
  {
    assert fl(0.0) == 0.0;
    RoundedInOrder(fl, 0.0, minDiff as real);
    RoundedInOrder(fl, (netDiff - 1) as real, netDiff as real);
    PositiveRounding(fl);
    assert PositiveAt(fl, netDiff as real);
    assert IsFloat(fl, 0.0) && IsFloat(fl, fl(netDiff as real));
    NewDiffIs(fl, conv, 0.0, minDiff, netDiff);
    assert minDiff < netDiff;
    RoundedInOrder(fl, minDiff as real, (netDiff - 1) as real);
    NewDiffIs(fl, conv, fl(netDiff as real), minDiff, netDiff);
  }

  /** Above 2^53 the clamp can hand out the network difficulty itself: netDiff - 1 rounds up. */
  lemma LargeNetDiffReached(conv: real -> Uint64)
    ensures NewDiff(Round, conv, (TWO53 + 8) as real, 1, TWO53 + 4) == TWO53 + 4
  {
    RoundExact(1);
    var half := (TWO53 + 3) as real / 2.0;
    assert half.Floor == TWO52 + 1;
    assert Round(half) == (TWO52 + 2) as real;
    assert Round((TWO53 + 4) as real / 2.0) == (TWO52 + 2) as real;
    assert Round((TWO53 + 3) as real) == (TWO53 + 4) as real;
  }
}
