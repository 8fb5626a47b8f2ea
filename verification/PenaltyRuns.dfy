/** Runs of the penalty box: every interleaving of its operations under a clock that never goes
    back. The mutex makes each operation one step. */
module PenaltyRuns {
  import opened Collections
  import opened PenaltyBox
  import opened PenaltyRates

  datatype Op =
    | RecordOp(conn: ConnId, ip: Ip, valid: bool, now: Time, later: Time)
    | CheckOp(ip: Ip, now: Time)
    | CleanupOp(conn: ConnId, ip: Ip)
    | SweepOp(from: Time, until: Time, winAt: map<ConnId, Time>, banAt: map<Ip, Time>)

  /** The clock after an operation that starts at time t or later. */
  function After(op: Op, t: Time): Time {
    match op
    case RecordOp(_, _, _, _, later) => later
    case CheckOp(_, now) => now
    case CleanupOp(_, _) => t
    case SweepOp(_, until, _, _) => until
  }

  /** All clock reads of the operation are in order and not before t. */
  ghost predicate InOrder(op: Op, t: Time) {
    match op
    case RecordOp(_, _, _, now, later) => t <= now <= later
    case CheckOp(_, now) => t <= now
    case CleanupOp(_, _) => true
    case SweepOp(from, until, winAt, banAt) =>
      && t <= from <= until
      && (forall c :: c in winAt ==> from <= winAt[c] <= until)
      && (forall ip :: ip in banAt ==> from <= banAt[ip] <= until)
  }

  ghost predicate Timed(ops: seq<Op>, t: Time) {
    ops == [] || (InOrder(ops[0], t) && Timed(ops[1..], After(ops[0], t)))
  }

  function Step(cfg: Config, s: State, op: Op): State {
    match op
    case RecordOp(conn, ip, valid, now, later) => Record(cfg, s, conn, ip, valid, now, later).0
    case CheckOp(_, _) => s
    case CleanupOp(conn, ip) => Cleanup(s, conn, ip)
    case SweepOp(from, _, winAt, banAt) => Sweep(s, from, winAt, banAt)
  }

  /** What the operation tells its caller, if anything. */
  function Answer(cfg: Config, s: State, op: Op): seq<bool> {
    match op
    case RecordOp(conn, ip, valid, now, later) => [Record(cfg, s, conn, ip, valid, now, later).1]
    case CheckOp(ip, now) => [IsBanned(s, ip, now)]
    case CleanupOp(_, _) => []
    case SweepOp(_, _, _, _) => []
  }

  function Run(cfg: Config, s: State, ops: seq<Op>): State
    decreases |ops|
  {
    if ops == [] then s else Run(cfg, Step(cfg, s, ops[0]), ops[1..])
  }

  function Answers(cfg: Config, s: State, ops: seq<Op>): seq<bool>
    decreases |ops|
  {
    if ops == [] then [] else Answer(cfg, s, ops[0]) + Answers(cfg, Step(cfg, s, ops[0]), ops[1..])
  }

  /** The clock after a whole run. */
  function Clock(ops: seq<Op>, t: Time): Time {
    if ops == [] then t else Clock(ops[1..], After(ops[0], t))
  }

  // ---- The background sweep is invisible ---------------------------------------------------

  function Unswept(ops: seq<Op>): seq<Op> {
    if ops == [] then []
    else if ops[0].SweepOp? then Unswept(ops[1..])
    else [ops[0]] + Unswept(ops[1..])
  }

  /** The swept box has lost only windows older than ten minutes and bans that have expired. */
  ghost predicate Simulates(swept: State, plain: State, t: Time) {
    && swept.ipConns == plain.ipConns
    && swept.windows.Keys <= plain.windows.Keys
    && (forall c :: c in plain.windows ==>
          if c in swept.windows then swept.windows[c] == plain.windows[c]
          else t - plain.windows[c].start > Minutes(10))
    && swept.banned.Keys <= plain.banned.Keys
    && (forall ip :: ip in plain.banned ==>
          if ip in swept.banned then swept.banned[ip] == plain.banned[ip] else plain.banned[ip] < t)
  }

  lemma OpenedSimulates(cfg: Config, a: State, b: State, t: Time, conn: ConnId, ip: Ip, now: Time, later: Time)
    requires cfg.shareWindowMinutes <= 10 && Simulates(a, b, t) && t <= now <= later
    ensures
      var a', b' := Opened(cfg, a, conn, ip, now, later), Opened(cfg, b, conn, ip, now, later);
      conn in a'.windows && conn in b'.windows && a'.windows[conn] == b'.windows[conn] && Simulates(a', b', t)
  {
  }

  lemma JudgeSimulates(cfg: Config, a: State, b: State, t: Time, conn: ConnId, ip: Ip, valid: bool, now: Time)
    requires conn in a.windows && conn in b.windows && a.windows[conn] == b.windows[conn] && Simulates(a, b, t)
    ensures
      var (a', x), (b', y) := Judge(cfg, a, conn, ip, valid, now), Judge(cfg, b, conn, ip, valid, now);
      x == y && Simulates(a', b', t)
  {
  }

  lemma StepSimulates(cfg: Config, a: State, b: State, t: Time, op: Op)
    requires cfg.shareWindowMinutes <= 10 && Simulates(a, b, t) && InOrder(op, t) && !op.SweepOp?
    ensures Answer(cfg, a, op) == Answer(cfg, b, op)
    ensures Simulates(Step(cfg, a, op), Step(cfg, b, op), After(op, t))
  {
    match op
    case RecordOp(conn, ip, valid, now, later) =>
      if !IsBanned(a, ip, now) {
        var a0, b0 := a.(banned := a.banned - {ip}), b.(banned := b.banned - {ip});
        OpenedSimulates(cfg, a0, b0, t, conn, ip, now, later);
        JudgeSimulates(cfg, Opened(cfg, a0, conn, ip, now, later), Opened(cfg, b0, conn, ip, now, later),
                       t, conn, ip, valid, now);
      }
    case CheckOp(_, _) =>
    case CleanupOp(_, _) =>
  }

  lemma SweepSimulates(a: State, b: State, t: Time, op: Op)
    requires Simulates(a, b, t) && op.SweepOp? && InOrder(op, t)
    ensures Simulates(Sweep(a, op.from, op.winAt, op.banAt), b, op.until)
  {
  }

  lemma {:induction false} RunSimulates(cfg: Config, a: State, b: State, t: Time, ops: seq<Op>)
    requires cfg.shareWindowMinutes <= 10 && Simulates(a, b, t) && Timed(ops, t)
    ensures Answers(cfg, a, ops) == Answers(cfg, b, Unswept(ops))
    decreases |ops|
  {
    if ops != [] {
      var op, rest := ops[0], ops[1..];
      if op.SweepOp? {
        SweepSimulates(a, b, t, op);
        RunSimulates(cfg, Step(cfg, a, op), b, After(op, t), rest);
      } else {
        StepSimulates(cfg, a, b, t, op);
        RunSimulates(cfg, Step(cfg, a, op), Step(cfg, b, op), After(op, t), rest);
        assert Unswept(ops)[1..] == Unswept(rest);
      }
    }
  }

  /** Inserting sweeps anywhere in a run changes no answer. */
  lemma SweepInvisible(cfg: Config, t: Time, ops: seq<Op>)
    requires cfg.shareWindowMinutes <= 10 && Timed(ops, t)
    ensures Answers(cfg, EMPTY, ops) == Answers(cfg, EMPTY, Unswept(ops))
  {
    RunSimulates(cfg, EMPTY, EMPTY, t, ops);
  }

  // ---- With a longer share window the sweep shows ------------------------------------------

  /** A box that has seen k bad shares of connection 0 at time 0. */
  function Offender(k: nat): State {
    if k == 0 then EMPTY else State(map[], map[0 := ShareWindow(0, k, 0, [])], map["" := [0]])
  }

  const BAD_SHARE: Op := RecordOp(0, "", false, 0, 0)

  function BadShares(k: nat): seq<Op> {
    if k == 0 then [] else [BAD_SHARE] + BadShares(k - 1)
  }

  lemma OneBadShare(cfg: Config, k: nat)
    requires k < 5 && cfg.timingSize == 0 && 0 <= cfg.shareWindowMinutes
    ensures Step(cfg, Offender(k), BAD_SHARE) == Offender(k + 1) && Answer(cfg, Offender(k), BAD_SHARE) == [true]
  {
    var s := Offender(k);
    assert s.banned - {""} == map[];
    var s' := Record(cfg, s, 0, "", false, 0, 0).0;
    assert s'.windows == Offender(k + 1).windows;
    assert Listed(s, "") + [0] == (if k == 0 then [0] else [0, 0]);
    assert s'.ipConns == Offender(k + 1).ipConns;
  }

  function AnswersFrom(cfg: Config): (nat, seq<Op>) -> seq<bool> {
    (k: nat, ops: seq<Op>) => Answers(cfg, Offender(k), ops)
  }

  lemma OneMoreAnswer(cfg: Config, k: nat, rest: seq<Op>)
    requires k < 5 && cfg.timingSize == 0 && 0 <= cfg.shareWindowMinutes
    ensures AnswersFrom(cfg)(k, [BAD_SHARE] + rest) == [true] + AnswersFrom(cfg)(k + 1, rest)
  {
    OneBadShare(cfg, k);
    assert ([BAD_SHARE] + rest)[1..] == rest;
  }

  function Accepted(k: nat): seq<bool> {
    if k == 0 then [] else [true] + Accepted(k - 1)
  }

  ghost predicate AcceptsFive(answers: (nat, seq<Op>) -> seq<bool>) {
    forall i: nat, ops :: i < 5 ==> answers(i, [BAD_SHARE] + ops) == [true] + answers(i + 1, ops)
  }

  /** If each of the first five bad shares is accepted, so are k of them in a row. */
  lemma {:induction false} ManyBadShares(answers: (nat, seq<Op>) -> seq<bool>, j: nat, k: nat, rest: seq<Op>)
    requires AcceptsFive(answers) && j + k <= 5
    ensures answers(j, BadShares(k) + rest) == Accepted(k) + answers(j + k, rest)
    decreases k
  {
    if k == 0 {
      assert BadShares(k) + rest == rest;
    } else {
      ManyBadShares(answers, j + 1, k - 1, rest);
      assert BadShares(k) + rest == [BAD_SHARE] + (BadShares(k - 1) + rest);
    }
  }

  lemma FiveAccepted(cfg: Config)
    requires cfg.timingSize == 0 && 0 <= cfg.shareWindowMinutes
    ensures AcceptsFive(AnswersFrom(cfg))
  {
    forall i: nat, ops | i < 5
      ensures AnswersFrom(cfg)(i, [BAD_SHARE] + ops) == [true] + AnswersFrom(cfg)(i + 1, ops)
    {
      OneMoreAnswer(cfg, i, ops);
    }
  }

  lemma FiveBadShares(cfg: Config, rest: seq<Op>)
    requires cfg.timingSize == 0 && 0 <= cfg.shareWindowMinutes
    ensures AnswersFrom(cfg)(0, BadShares(5) + rest) == Accepted(5) + AnswersFrom(cfg)(5, rest)
  {
    FiveAccepted(cfg);
    ManyBadShares(AnswersFrom(cfg), 0, 5, rest);
  }

  lemma {:induction false} BadSharesTimed(k: nat, rest: seq<Op>)
    requires Timed(rest, 0)
    ensures Timed(BadShares(k) + rest, 0) && Unswept(BadShares(k) + rest) == BadShares(k) + Unswept(rest)
  {
    if k == 0 {
      assert BadShares(k) + rest == rest;
    } else {
      BadSharesTimed(k - 1, rest);
      assert (BadShares(k) + rest)[1..] == BadShares(k - 1) + rest;
    }
  }

  lemma TailTimed(t: Time)
    requires 0 <= t
    ensures
      var sweep, last := SweepOp(t, t, map[], map[]), RecordOp(0, "", false, t, t);
      Timed([sweep, last], 0) && Unswept([sweep, last]) == [last]
  {
    var sweep, last := SweepOp(t, t, map[], map[]), RecordOp(0, "", false, t, t);
    assert [sweep, last][1..] == [last] && [last][1..] == [];
    assert Timed([last], t) && Unswept([last]) == [last];
  }

  lemma TailAnswers(cfg: Config, t: Time)
    requires cfg.shareWindowMinutes > 10 && cfg.timingSize == 0 && cfg.badShareRatio == Binary64.Round(1.0) - 1.0
    requires t == Minutes(10) + 1
    ensures
      var sweep, last := SweepOp(t, t, map[], map[]), RecordOp(0, "", false, t, t);
      Answers(cfg, Offender(5), [last]) == [false] && Answers(cfg, Offender(5), [sweep, last]) == [true]
  {
    var sweep, last := SweepOp(t, t, map[], map[]), RecordOp(0, "", false, t, t);
    assert 6 as real / 6 as real == 1.0;
    assert Answer(cfg, Offender(5), last) == [false];
    var swept := Step(cfg, Offender(5), sweep);
    assert Answer(cfg, swept, last) == [true];
    assert [sweep, last][1..] == [last] && [last][1..] == [];
    assert Answers(cfg, swept, [last]) == [true];
  }

  /** Five bad shares, a sweep just over ten minutes later, then a sixth bad share: banned without
      the sweep, forgiven with it. */
  lemma SweepForgives(w: int) returns (cfg: Config, ops: seq<Op>)
    requires w > 10
    ensures cfg.shareWindowMinutes == w && Timed(ops, 0)
    ensures Answers(cfg, EMPTY, ops) != Answers(cfg, EMPTY, Unswept(ops))
  {
    cfg := Config(w, 0, 0.0, Binary64.Round(1.0) - 1.0, 1);
    var t := Minutes(10) + 1;
    var sweep, last := SweepOp(t, t, map[], map[]), RecordOp(0, "", false, t, t);
    ops := BadShares(5) + [sweep, last];
    TailTimed(t);
    TailAnswers(cfg, t);
    BadSharesTimed(5, [sweep, last]);
    FiveBadShares(cfg, [sweep, last]);
    FiveBadShares(cfg, [last]);
    assert (Accepted(5) + [true])[|Accepted(5)|] != (Accepted(5) + [false])[|Accepted(5)|];
  }

  /** The sweep is invisible for every configuration and run exactly when the share window is at
      most ten minutes. */
  lemma SweepInvisibleIff(w: int)
    ensures w <= 10 <==>
      forall cfg: Config, ops: seq<Op> :: cfg.shareWindowMinutes == w && Timed(ops, 0) ==>
        Answers(cfg, EMPTY, ops) == Answers(cfg, EMPTY, Unswept(ops))
  {
    if w <= 10 {
      forall cfg: Config, ops: seq<Op> | cfg.shareWindowMinutes == w && Timed(ops, 0)
        ensures Answers(cfg, EMPTY, ops) == Answers(cfg, EMPTY, Unswept(ops))
      {
        SweepInvisible(cfg, 0, ops);
      }
    } else {
      var cfg, ops := SweepForgives(w);
    }
  }

  // ---- What every reachable state satisfies ------------------------------------------------

  /** Every connection keeps its IP. */
  ghost predicate FixedIps(ops: seq<Op>, ipOf: ConnId -> Ip) {
    forall i :: 0 <= i < |ops| && (ops[i].RecordOp? || ops[i].CleanupOp?) ==> ops[i].ip == ipOf(ops[i].conn)
  }

  ghost predicate Distinct(conns: seq<ConnId>) {
    forall i, j :: 0 <= i < j < |conns| ==> conns[i] != conns[j]
  }

  /** Bounded timings, and a bad-share ratio respected (up to rounding) once there are six shares. */
  ghost predicate SoundWindow(cfg: Config, w: ShareWindow) {
    && |w.timings| <= cfg.timingSize
    && (w.good + w.bad >= 6 && w.bad > 0 ==> !AboveRatio(w.good, w.bad, cfg.badShareRatio))
  }

  ghost predicate SoundList(conns: seq<ConnId>, ip: Ip, ipOf: ConnId -> Ip) {
    conns != [] && Distinct(conns) && forall c :: c in conns ==> ipOf(c) == ip
  }

  ghost predicate Sound(cfg: Config, s: State, ipOf: ConnId -> Ip) {
    && (forall ip :: ip in s.ipConns ==> SoundList(s.ipConns[ip], ip, ipOf))
    && (forall c :: c in s.windows ==>
          c in Listed(s, ipOf(c)) && ipOf(c) !in s.banned && SoundWindow(cfg, s.windows[c]))
  }

  lemma {:induction false} WithoutSound(conns: seq<ConnId>, conn: ConnId)
    ensures forall c :: c in Without(conns, conn) <==> c in conns && c != conn
    ensures Distinct(conns) ==> Distinct(Without(conns, conn))
  {
    if conns != [] {
      var init, last := conns[..|conns| - 1], conns[|conns| - 1];
      WithoutSound(init, conn);
      assert conns == init + [last];
      assert Distinct(conns) ==> last !in init;
    }
  }

  lemma AppendSound(conns: seq<ConnId>, conn: ConnId, ipOf: ConnId -> Ip)
    requires conns == [] || SoundList(conns, ipOf(conn), ipOf)
    requires conn !in conns
    ensures SoundList(conns + [conn], ipOf(conn), ipOf)
  {
  }

  lemma OpenedSound(cfg: Config, s: State, ipOf: ConnId -> Ip, conn: ConnId, now: Time, later: Time)
    requires Sound(cfg, s, ipOf) && ipOf(conn) !in s.banned
    ensures
      var open := Opened(cfg, s, conn, ipOf(conn), now, later);
      Sound(cfg, open, ipOf) && conn in open.windows && open.banned == s.banned
  {
    var conns := Listed(s, ipOf(conn));
    if conn !in conns { AppendSound(conns, conn, ipOf); }
  }

  lemma BanSound(cfg: Config, s: State, ipOf: ConnId -> Ip, conn: ConnId, w: ShareWindow, now: Time)
    requires Sound(cfg, s, ipOf) && conn in s.windows
    ensures
      var s' := Ban(cfg, s.(windows := s.windows[conn := w]), ipOf(conn), now);
      && Sound(cfg, s', ipOf)
      && s'.banned == s.banned[ipOf(conn) := now + Minutes(cfg.banMinutes)]
      && (forall c :: c in s'.windows ==> ipOf(c) != ipOf(conn))
  {
    var s' := Ban(cfg, s.(windows := s.windows[conn := w]), ipOf(conn), now);
    forall c | c in s'.windows ensures ipOf(c) != ipOf(conn) && c in s.windows && s'.windows[c] == s.windows[c] {
      assert c !in Elements(Listed(s, ipOf(conn)));
    }
  }

  lemma CountSound(cfg: Config, s: State, ipOf: ConnId -> Ip, conn: ConnId, w: ShareWindow)
    requires Sound(cfg, s, ipOf) && conn in s.windows && SoundWindow(cfg, w)
    ensures Sound(cfg, s.(windows := s.windows[conn := w]), ipOf)
  {
  }

  lemma JudgeSound(cfg: Config, s: State, ipOf: ConnId -> Ip, conn: ConnId, valid: bool, now: Time)
    requires Sound(cfg, s, ipOf) && conn in s.windows
    ensures
      var (s', ok) := Judge(cfg, s, conn, ipOf(conn), valid, now);
      && Sound(cfg, s', ipOf)
      && (!ok ==> && s'.banned == s.banned[ipOf(conn) := now + Minutes(cfg.banMinutes)]
                  && (forall c :: c in s'.windows ==> ipOf(c) != ipOf(conn)))
  {
    var w := s.windows[conn];
    var w' := Counted(cfg, w, valid, now);
    BanSound(cfg, s, ipOf, conn, w.(timings := w'.timings), now);
    BanSound(cfg, s, ipOf, conn, w', now);
    if !TooBad(cfg, w'.good, w'.bad) {
      assert |w'.timings| <= cfg.timingSize;
      RatioCheck(cfg, w'.good, w'.bad);
      CountSound(cfg, s, ipOf, conn, w');
    }
  }

  lemma RecordSound(cfg: Config, s: State, ipOf: ConnId -> Ip, conn: ConnId, valid: bool, now: Time, later: Time)
    requires Sound(cfg, s, ipOf)
    ensures Sound(cfg, Record(cfg, s, conn, ipOf(conn), valid, now, later).0, ipOf)
  {
    if !IsBanned(s, ipOf(conn), now) {
      var s0 := s.(banned := s.banned - {ipOf(conn)});
      OpenedSound(cfg, s0, ipOf, conn, now, later);
      JudgeSound(cfg, Opened(cfg, s0, conn, ipOf(conn), now, later), ipOf, conn, valid, now);
    }
  }

  lemma CleanupSound(cfg: Config, s: State, ipOf: ConnId -> Ip, conn: ConnId)
    requires Sound(cfg, s, ipOf)
    ensures Sound(cfg, Cleanup(s, conn, ipOf(conn)), ipOf)
  {
    WithoutSound(Listed(s, ipOf(conn)), conn);
  }

  lemma SweepSound(cfg: Config, s: State, ipOf: ConnId -> Ip, from: Time,
                   winAt: map<ConnId, Time>, banAt: map<Ip, Time>)
    requires Sound(cfg, s, ipOf)
    ensures Sound(cfg, Sweep(s, from, winAt, banAt), ipOf)
  {
  }

  lemma StepSound(cfg: Config, s: State, ipOf: ConnId -> Ip, op: Op)
    requires Sound(cfg, s, ipOf) && FixedIps([op], ipOf)
    ensures Sound(cfg, Step(cfg, s, op), ipOf)
  {
    assert op == [op][0];
    match op
    case RecordOp(conn, _, valid, now, later) => RecordSound(cfg, s, ipOf, conn, valid, now, later);
    case CheckOp(_, _) =>
    case CleanupOp(conn, _) => CleanupSound(cfg, s, ipOf, conn);
    case SweepOp(from, _, winAt, banAt) => SweepSound(cfg, s, ipOf, from, winAt, banAt);
  }

  /** In every reachable state each connection with a window is listed exactly once, under its own
      IP; no list is empty; windows respect the timing bound and the bad-share ratio; and no
      banned IP has a window. */
  lemma {:induction false} AlwaysSound(cfg: Config, s: State, ipOf: ConnId -> Ip, ops: seq<Op>)
    requires Sound(cfg, s, ipOf) && FixedIps(ops, ipOf)
    ensures Sound(cfg, Run(cfg, s, ops), ipOf)
    decreases |ops|
  {
    if ops != [] {
      StepSound(cfg, s, ipOf, ops[0]);
      AlwaysSound(cfg, Step(cfg, s, ops[0]), ipOf, ops[1..]);
    }
  }

  // ---- A ban lasts exactly its duration ----------------------------------------------------

  /** Every share of the IP is refused and every check finds it banned. */
  ghost predicate Refused(cfg: Config, s: State, ops: seq<Op>, ip: Ip)
    decreases |ops|
  {
    ops != [] ==>
    && (ops[0].RecordOp? && ops[0].ip == ip ==> Answer(cfg, s, ops[0]) == [false])
    && (ops[0].CheckOp? && ops[0].ip == ip ==> Answer(cfg, s, ops[0]) == [true])
    && Refused(cfg, Step(cfg, s, ops[0]), ops[1..], ip)
  }

  lemma BanStands(cfg: Config, s: State, op: Op, ip: Ip, t: Time)
    requires ip in s.banned && InOrder(op, t) && After(op, t) < s.banned[ip]
    ensures ip in Step(cfg, s, op).banned && Step(cfg, s, op).banned[ip] == s.banned[ip]
    ensures op.RecordOp? && op.ip == ip ==> Answer(cfg, s, op) == [false]
    ensures op.CheckOp? && op.ip == ip ==> Answer(cfg, s, op) == [true]
  {
  }

  lemma {:induction false} ClockAdvances(ops: seq<Op>, t: Time)
    requires Timed(ops, t)
    ensures t <= Clock(ops, t)
    decreases |ops|
  {
    if ops != [] { ClockAdvances(ops[1..], After(ops[0], t)); }
  }

  lemma {:induction false} BanLasts(cfg: Config, s: State, ops: seq<Op>, ip: Ip, t: Time)
    requires ip in s.banned && Timed(ops, t) && Clock(ops, t) < s.banned[ip]
    ensures Refused(cfg, s, ops, ip)
    ensures ip in Run(cfg, s, ops).banned && Run(cfg, s, ops).banned[ip] == s.banned[ip]
    decreases |ops|
  {
    if ops != [] {
      ClockAdvances(ops[1..], After(ops[0], t));
      BanStands(cfg, s, ops[0], ip, t);
      BanLasts(cfg, Step(cfg, s, ops[0]), ops[1..], ip, After(ops[0], t));
    }
  }

  /** A share that is refused although its IP was free bans the IP: no window of the IP survives,
      and whatever runs next, shares of the IP are refused and checks find it banned until exactly
      ban time plus duration. */
  lemma BanIsExact(cfg: Config, s: State, ipOf: ConnId -> Ip, op: Op, ops: seq<Op>)
    requires Sound(cfg, s, ipOf) && FixedIps([op], ipOf) && FixedIps(ops, ipOf)
    requires op.RecordOp? && !IsBanned(s, op.ip, op.now) && Answer(cfg, s, op) == [false]
    requires Timed(ops, op.later)
    ensures
      var banned, expiry := Step(cfg, s, op), op.now + Minutes(cfg.banMinutes);
      && (forall c :: c in banned.windows ==> ipOf(c) != op.ip)
      && (Clock(ops, op.later) < expiry ==>
            && Refused(cfg, banned, ops, op.ip)
            && (forall c :: c in Run(cfg, banned, ops).windows ==> ipOf(c) != op.ip)
            && (forall now :: IsBanned(Run(cfg, banned, ops), op.ip, now) <==> now < expiry))
  {
    var s0 := s.(banned := s.banned - {op.ip});
    assert op == [op][0];
    OpenedSound(cfg, s0, ipOf, op.conn, op.now, op.later);
    JudgeSound(cfg, Opened(cfg, s0, op.conn, op.ip, op.now, op.later), ipOf, op.conn, op.valid, op.now);
    var banned := Step(cfg, s, op);
    if Clock(ops, op.later) < op.now + Minutes(cfg.banMinutes) {
      BanLasts(cfg, banned, ops, op.ip, op.later);
      StepSound(cfg, s, ipOf, op);
      AlwaysSound(cfg, banned, ipOf, ops);
    }
  }
}
