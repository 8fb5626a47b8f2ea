/** Every operation of the penalty box, stated from outside: which shares are refused, what is
    counted, what is forgotten (cmd/slave/penalty.go). */
module PenaltyRules {
  import opened PenaltyBox
  import opened PenaltyRates

  // ---- RecordShare -------------------------------------------------------------------------

  /** At least ten of the remembered shares, over a positive time, at more than max per second. */
  ghost predicate Spam(cfg: Config, timings: seq<Time>, now: Time) {
    |timings| >= 10 && now > timings[0] && Exceeds(|timings|, now - timings[0], cfg.maxSharesPerSecond)
  }

  ghost predicate NoSpam(cfg: Config, timings: seq<Time>, now: Time) {
    |timings| >= 10 && now > timings[0] ==> StaysBelow(|timings|, now - timings[0], cfg.maxSharesPerSecond)
  }

  /** At least six shares of which more than the configured ratio is bad. */
  ghost predicate Cheating(cfg: Config, good: nat, bad: nat) {
    good + bad >= 6 && bad > 0 && AboveRatio(good, bad, cfg.badShareRatio)
  }

  ghost predicate NoCheating(cfg: Config, good: nat, bad: nat) {
    good + bad >= 6 && bad > 0 ==> BelowRatio(good, bad, cfg.badShareRatio)
  }

  /** The window a share falls into: the connection's own while it is no older than the configured
      minutes, an empty one starting now otherwise. */
  ghost predicate Falls(cfg: Config, s: State, conn: ConnId, now: Time, later: Time, w: ShareWindow) {
    if conn in s.windows && later - s.windows[conn].start <= cfg.shareWindowMinutes * 60_000_000_000
    then w == s.windows[conn]
    else w.good == w.bad == 0 && w.start == now && w.timings == []
  }

  /** The last timingSize of the timings with the new one. */
  ghost predicate Remembers(cfg: Config, before: seq<Time>, now: Time, after: seq<Time>) {
    if |before| < cfg.timingSize then after == before + [now] else after == (before + [now])[1..]
  }

  /** The window with the share counted, on the right side. */
  ghost predicate Counts(w: ShareWindow, valid: bool, w': ShareWindow) {
    && w'.start == w.start
    && w'.good - w.good == (if valid then 1 else 0)
    && w'.bad - w.bad == (if valid then 0 else 1)
  }

  /** Refused: banned until the configured minutes from now. */
  ghost predicate BansUntil(cfg: Config, s: State, ip: Ip, now: Time, s': State) {
    s'.banned == s.banned[ip := now + cfg.banMinutes * 60_000_000_000]
  }

  lemma JudgeRules(cfg: Config, s: State, conn: ConnId, ip: Ip, valid: bool, now: Time, w': ShareWindow)
    requires conn in s.windows && Counts(s.windows[conn], valid, w')
    requires Remembers(cfg, s.windows[conn].timings, now, w'.timings)
    ensures
      var (s', ok) := Judge(cfg, s, conn, ip, valid, now);
      && (Spam(cfg, w'.timings, now) || (NoSpam(cfg, w'.timings, now) && Cheating(cfg, w'.good, w'.bad)) ==> !ok)
      && (NoSpam(cfg, w'.timings, now) && NoCheating(cfg, w'.good, w'.bad) ==> ok)
      && (!ok ==> BansUntil(cfg, s, ip, now, s') && forall c :: c in Listed(s, ip) ==> c !in s'.windows)
      && (ok ==> s' == s.(windows := s.windows[conn := w']))
  {
    var w := s.windows[conn];
    assert w'.timings == Trimmed(cfg, w.timings + [now]);
    assert w' == Counted(cfg, w, valid, now);
    if |w'.timings| >= 10 { RateCheck(cfg, |w'.timings|, now - w'.timings[0]); }
    RatioCheck(cfg, w'.good, w'.bad);
  }

  /** A share of an IP that is not banned. */
  lemma RecordRules(cfg: Config, s: State, conn: ConnId, ip: Ip, valid: bool, now: Time, later: Time,
                    w: ShareWindow, w': ShareWindow)
    requires ip in s.banned ==> s.banned[ip] <= now
    requires Falls(cfg, s, conn, now, later, w) && Counts(w, valid, w') && Remembers(cfg, w.timings, now, w'.timings)
    ensures
      var (s', ok) := Record(cfg, s, conn, ip, valid, now, later);
      && (Spam(cfg, w'.timings, now) || (NoSpam(cfg, w'.timings, now) && Cheating(cfg, w'.good, w'.bad)) ==> !ok)
      && (NoSpam(cfg, w'.timings, now) && NoCheating(cfg, w'.good, w'.bad) ==> ok)
      && (!ok ==> BansUntil(cfg, s.(banned := s.banned - {ip}), ip, now, s'))
      && (ok ==> s'.banned == s.banned - {ip} && s'.windows == s.windows[conn := w'])
      && (ok && conn !in s.windows ==> conn in Listed(s', ip))
  {
    var free := s.(banned := s.banned - {ip});
    var open := Opened(cfg, free, conn, ip, now, later);
    assert open.windows == s.windows[conn := w];
    JudgeRules(cfg, open, conn, ip, valid, now, w');
    assert open.windows[conn := w'] == s.windows[conn := w'];
  }

  /** A share of a banned IP is refused and changes nothing. */
  lemma BannedRules(cfg: Config, s: State, conn: ConnId, ip: Ip, valid: bool, now: Time, later: Time)
    requires ip in s.banned && now < s.banned[ip]
    ensures Record(cfg, s, conn, ip, valid, now, later) == (s, false)
  {
  }

  // ---- CleanupConnection -------------------------------------------------------------------

  lemma {:induction false} WithoutKeepsOthers(conns: seq<ConnId>, conn: ConnId, c: ConnId)
    ensures multiset(Without(conns, conn))[c] == if c == conn then 0 else multiset(conns)[c]
  {
    if conns != [] {
      WithoutKeepsOthers(conns[..|conns| - 1], conn, c);
      assert conns == conns[..|conns| - 1] + [conns[|conns| - 1]];
    }
  }

  /** A disconnected client is forgotten, everyone else kept. */
  lemma CleanupRules(s: State, conn: ConnId, ip: Ip, c: ConnId, other: Ip)
    ensures
      var s' := Cleanup(s, conn, ip);
      && s'.banned == s.banned
      && (c in s'.windows <==> c in s.windows && c != conn)
      && (c in s'.windows ==> s'.windows[c] == s.windows[c])
      && multiset(Listed(s', ip))[c] == (if c == conn then 0 else multiset(Listed(s, ip))[c])
      && (other != ip ==> Listed(s', other) == Listed(s, other))
      && (ip in s'.ipConns ==> s'.ipConns[ip] != [])
  {
    WithoutKeepsOthers(Listed(s, ip), conn, c);
  }

  // ---- The sweep ---------------------------------------------------------------------------

  /** The clock is read at the time given for an entry, or at the start: windows stay up to ten
      minutes, bans until after their end. */
  lemma SweepRules(s: State, from: Time, winAt: map<ConnId, Time>, banAt: map<Ip, Time>, c: ConnId, ip: Ip)
    ensures
      var s' := Sweep(s, from, winAt, banAt);
      var t, u := (if c in winAt then winAt[c] else from), (if ip in banAt then banAt[ip] else from);
      && s'.ipConns == s.ipConns
      && (c in s'.windows <==> c in s.windows && t - s.windows[c].start <= 600_000_000_000)
      && (c in s'.windows ==> s'.windows[c] == s.windows[c])
      && (ip in s'.banned <==> ip in s.banned && u <= s.banned[ip])
      && (ip in s'.banned ==> s'.banned[ip] == s.banned[ip])
  {
  }
}
