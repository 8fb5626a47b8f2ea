/** The slave's penalty box (cmd/slave/penalty.go): share windows per connection, timed bans per
    IP, and a background sweep. Every clock read is an explicit argument. */
module PenaltyBox {
  import opened Binary64
  import opened Collections

  type Time = int      // nanoseconds
  type Ip = string
  type ConnId = nat

  function Minutes(n: int): Time {
    n * 60_000_000_000
  }

  datatype Config = Config(
    shareWindowMinutes: int, timingSize: nat, maxSharesPerSecond: real, badShareRatio: real, banMinutes: int)

  datatype ShareWindow = ShareWindow(good: nat, bad: nat, start: Time, timings: seq<Time>)

  datatype State = State(banned: map<Ip, Time>, windows: map<ConnId, ShareWindow>, ipConns: map<Ip, seq<ConnId>>)

  const EMPTY: State := State(map[], map[], map[])

  /** Go's Duration.Seconds. */
  function Seconds(d: Time): real {
    Round((d / 1_000_000_000) as real + Round((d % 1_000_000_000) as real / 1_000_000_000.0))
  }

  predicate TooFast(cfg: Config, shares: nat, span: Time) {
    shares >= 10 && Seconds(span) > 0.0 && Round(shares as real / Seconds(span)) > cfg.maxSharesPerSecond
  }

  predicate TooBad(cfg: Config, good: nat, bad: nat) {
    good + bad >= 6 && bad > 0 && Round(bad as real / (good + bad) as real) > cfg.badShareRatio
  }

  predicate IsBanned(s: State, ip: Ip, now: Time) {
    ip in s.banned && now < s.banned[ip]
  }

  function Listed(s: State, ip: Ip): seq<ConnId> {
    if ip in s.ipConns then s.ipConns[ip] else []
  }

  /** The window a share is counted in: the current one, or a fresh one that is also listed. */
  function Opened(cfg: Config, s: State, conn: ConnId, ip: Ip, now: Time, later: Time): State {
    if conn in s.windows && later - s.windows[conn].start <= Minutes(cfg.shareWindowMinutes) then s
    else
      var conns := Listed(s, ip);
      State(s.banned, s.windows[conn := ShareWindow(0, 0, now, [])],
            if conn in conns then s.ipConns else s.ipConns[ip := conns + [conn]])
  }

  function Trimmed(cfg: Config, timings: seq<Time>): seq<Time> {
    if |timings| > cfg.timingSize then timings[1..] else timings
  }

  function Counted(cfg: Config, w: ShareWindow, valid: bool, now: Time): ShareWindow {
    ShareWindow(w.good + (if valid then 1 else 0), w.bad + (if valid then 0 else 1), w.start,
                Trimmed(cfg, w.timings + [now]))
  }

  function Ban(cfg: Config, s: State, ip: Ip, now: Time): State {
    State(s.banned[ip := now + Minutes(cfg.banMinutes)], s.windows - Elements(Listed(s, ip)), s.ipConns)
  }

  /** Rate check, count and ratio check of one share in the open window of its connection. */
  function Judge(cfg: Config, open: State, conn: ConnId, ip: Ip, valid: bool, now: Time): (State, bool)
    requires conn in open.windows
  {
    var w := open.windows[conn];
    var timings := Trimmed(cfg, w.timings + [now]);
    if |timings| >= 10 && TooFast(cfg, |timings|, now - timings[0]) then
      (Ban(cfg, open.(windows := open.windows[conn := w.(timings := timings)]), ip, now), false)
    else
      var w' := Counted(cfg, w, valid, now);
      var counted := open.(windows := open.windows[conn := w']);
      if TooBad(cfg, w'.good, w'.bad) then (Ban(cfg, counted, ip, now), false) else (counted, true)
  }

  /** RecordShare: the new state and the answer. The clock reads `now` first and `later` when the
      age of the window is computed. */
  function Record(cfg: Config, s: State, conn: ConnId, ip: Ip, valid: bool, now: Time, later: Time): (State, bool) {
    if IsBanned(s, ip, now) then (s, false)
    else Judge(cfg, Opened(cfg, s.(banned := s.banned - {ip}), conn, ip, now, later), conn, ip, valid, now)
  }

  function Without(conns: seq<ConnId>, conn: ConnId): seq<ConnId> {
    if conns == [] then []
    else
      var init := Without(conns[..|conns| - 1], conn);
      if conns[|conns| - 1] == conn then init else init + [conns[|conns| - 1]]
  }

  /** CleanupConnection. */
  function Cleanup(s: State, conn: ConnId, ip: Ip): State {
    var conns := Without(Listed(s, ip), conn);
    State(s.banned, s.windows - {conn}, if conns == [] then s.ipConns - {ip} else s.ipConns[ip := conns])
  }

  /** The clock is read anew for every entry the sweep visits. */
  function ReadAt<K>(clock: map<K, Time>, k: K, from: Time): Time {
    if k in clock then clock[k] else from
  }

  /** The windows at most ten minutes old, and those still to be visited. */
  function FreshWindows(windows: map<ConnId, ShareWindow>, todo: set<ConnId>, from: Time, winAt: map<ConnId, Time>)
    : map<ConnId, ShareWindow>
  {
    map c | c in windows && (c in todo || ReadAt(winAt, c, from) - windows[c].start <= Minutes(10)) :: windows[c]
  }

  function LiveBans(banned: map<Ip, Time>, todo: set<Ip>, from: Time, banAt: map<Ip, Time>): map<Ip, Time> {
    map ip | ip in banned && (ip in todo || ReadAt(banAt, ip, from) <= banned[ip]) :: banned[ip]
  }

  function Sweep(s: State, from: Time, winAt: map<ConnId, Time>, banAt: map<Ip, Time>): State {
    State(LiveBans(s.banned, {}, from, banAt), FreshWindows(s.windows, {}, from, winAt), s.ipConns)
  }

  /** The object itself: the three maps, updated in place. */
  class Box {
    var banned: map<Ip, Time>
    var windows: map<ConnId, ShareWindow>
    var ipConns: map<Ip, seq<ConnId>>

    constructor ()
      ensures Value() == EMPTY
    {
      banned, windows, ipConns := map[], map[], map[];
    }

    function Value(): State
      reads this
    {
      State(banned, windows, ipConns)
    }

    static method Contains(conns: seq<ConnId>, conn: ConnId) returns (found: bool)
      ensures found <==> conn in conns
    {
      for i := 0 to |conns|
        invariant conn !in conns[..i]
      {
        if conns[i] == conn { return true; }
      }
      return false;
    }

    /** Bans the IP and deletes the windows of all its connections. */
    method BanIp(cfg: Config, ip: Ip, now: Time)
      modifies this
      ensures Value() == Ban(cfg, old(Value()), ip, now)
    {
      banned := banned[ip := now + Minutes(cfg.banMinutes)];
      var conns := if ip in ipConns then ipConns[ip] else [];
      for i := 0 to |conns|
        invariant banned == old(banned)[ip := now + Minutes(cfg.banMinutes)] && ipConns == old(ipConns)
        invariant windows == old(windows) - Elements(conns[..i])
      {
        windows := windows - {conns[i]};
        PrefixElements(conns, i);
      }
      assert conns[..|conns|] == conns;
    }

    method OpenWindow(cfg: Config, conn: ConnId, ip: Ip, now: Time, later: Time)
      modifies this
      ensures Value() == Opened(cfg, old(Value()), conn, ip, now, later)
      ensures conn in windows
    {
      if conn !in windows || later - windows[conn].start > Minutes(cfg.shareWindowMinutes) {
        windows := windows[conn := ShareWindow(0, 0, now, [])];
        var conns := if ip in ipConns then ipConns[ip] else [];
        var found := Contains(conns, conn);
        if !found { ipConns := ipConns[ip := conns + [conn]]; }
      }
    }

    method JudgeShare(cfg: Config, conn: ConnId, ip: Ip, valid: bool, now: Time) returns (ok: bool)
      requires conn in windows
      modifies this
      ensures (Value(), ok) == Judge(cfg, old(Value()), conn, ip, valid, now)
    {
      var window := windows[conn];
      var timings := window.timings + [now];
      if |timings| > cfg.timingSize { timings := timings[1..]; }
      window := window.(timings := timings);
      windows := windows[conn := window];
      if |timings| >= 10 && TooFast(cfg, |timings|, now - timings[0]) {
        BanIp(cfg, ip, now);
        return false;
      }
      window := if valid then window.(good := window.good + 1) else window.(bad := window.bad + 1);
      windows := windows[conn := window];
      assert windows == old(windows)[conn := window];
      if TooBad(cfg, window.good, window.bad) {
        BanIp(cfg, ip, now);
        return false;
      }
      return true;
    }

    method RecordShare(cfg: Config, conn: ConnId, ip: Ip, valid: bool, now: Time, later: Time) returns (ok: bool)
      modifies this
      ensures (Value(), ok) == Record(cfg, old(Value()), conn, ip, valid, now, later)
    {
      if ip in banned {
        if now < banned[ip] { return false; }
        banned := banned - {ip};
      }
      assert banned == old(banned) - {ip};
      OpenWindow(cfg, conn, ip, now, later);
      ok := JudgeShare(cfg, conn, ip, valid, now);
    }

    method CheckBanned(ip: Ip, now: Time) returns (b: bool)
      ensures b == IsBanned(Value(), ip, now)
    {
      if ip in banned {
        if now < banned[ip] { return true; }
      }
      return false;
    }

    method CleanupConnection(conn: ConnId, ip: Ip)
      modifies this
      ensures Value() == Cleanup(old(Value()), conn, ip)
    {
      windows := windows - {conn};
      if ip in ipConns {
        var conns, newConns := ipConns[ip], [];
        for i := 0 to |conns|
          invariant newConns == Without(conns[..i], conn)
        {
          assert conns[..i + 1][..i] == conns[..i];
          if conns[i] != conn { newConns := newConns + [conns[i]]; }
        }
        assert conns[..|conns|] == conns;
        ipConns := if newConns == [] then ipConns - {ip} else ipConns[ip := newConns];
      } else {
        assert ipConns - {ip} == ipConns;
      }
    }

    method SweepWindows(from: Time, winAt: map<ConnId, Time>)
      modifies this`windows
      ensures windows == FreshWindows(old(windows), {}, from, winAt)
    {
      var conns := windows.Keys;
      while conns != {}
        invariant conns <= old(windows).Keys
        invariant windows == FreshWindows(old(windows), conns, from, winAt)
        decreases conns
      {
        var c :| c in conns;
        if ReadAt(winAt, c, from) - windows[c].start > Minutes(10) { windows := windows - {c}; }
        conns := conns - {c};
      }
    }

    method SweepBans(from: Time, banAt: map<Ip, Time>)
      modifies this`banned
      ensures banned == LiveBans(old(banned), {}, from, banAt)
    {
      var ips := banned.Keys;
      while ips != {}
        invariant ips <= old(banned).Keys
        invariant banned == LiveBans(old(banned), ips, from, banAt)
        decreases ips
      {
        var ip :| ip in ips;
        if ReadAt(banAt, ip, from) > banned[ip] { banned := banned - {ip}; }
        ips := ips - {ip};
      }
    }

    method SweepOnce(from: Time, winAt: map<ConnId, Time>, banAt: map<Ip, Time>)
      modifies this
      ensures Value() == Sweep(old(Value()), from, winAt, banAt)
    {
      SweepWindows(from, winAt);
      SweepBans(from, banAt);
    }
  }
}
