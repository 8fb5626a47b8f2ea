/** What the penalty box's two thresholds mean in counts and nanoseconds
    (cmd/slave/penalty.go:72-124), in spite of the float64 arithmetic in between. */
module PenaltyRates {
  import opened Binary64
  import opened Reals
  import opened PenaltyBox

  // ---- Shares per second -------------------------------------------------------------------

  /** More than max shares per second, by more than four roundings. */
  ghost predicate Exceeds(shares: nat, nanoseconds: int, max: real) {
    9007199254740992.0 * (shares as real * 1_000_000_000.0) > 9007199254740996.0 * (max * nanoseconds as real)
  }

  /** Fewer than max shares per second, by more than four roundings. */
  ghost predicate StaysBelow(shares: nat, nanoseconds: int, max: real) {
    9007199254740992.0 * (shares as real * 1_000_000_000.0) < 9007199254740988.0 * (max * nanoseconds as real)
  }

  lemma AddedNear(whole: real, part: real, rounded: real)
    requires 0.0 <= whole && Near(part, rounded)
    ensures Near(whole + part, whole + rounded)
  {
  }

  /** Two roundings of a duration in seconds. */
  ghost predicate NearTwice(x: real, y: real) {
    && 81129638414606663681390495662081.0 * x <= 81129638414606681695789005144064.0 * y
    && 81129638414606681695789005144064.0 * y <= 81129638414606699710187514626049.0 * x
  }

  lemma NearNear(x: real, y: real, z: real)
    requires Near(x, y) && Near(y, z)
    ensures NearTwice(x, z)
  {
  }

  function Exactly(d: Time): real {
    d as real / 1_000_000_000.0
  }

  lemma WholeAndPart(d: Time)
    requires d > 0
    ensures 0.0 <= (d / 1_000_000_000) as real && 0.0 <= (d % 1_000_000_000) as real / 1_000_000_000.0
    ensures (d / 1_000_000_000) as real + (d % 1_000_000_000) as real / 1_000_000_000.0 == Exactly(d)
  {
  }

  lemma SecondsNear(d: Time)
    requires d > 0
    ensures NearTwice(Exactly(d), Seconds(d))
  {
    var whole, part := (d / 1_000_000_000) as real, (d % 1_000_000_000) as real / 1_000_000_000.0;
    WholeAndPart(d);
    RoundError(part);
    RoundBounds(part);
    AddedNear(whole, part, Round(part));
    RoundError(whole + Round(part));
    NearNear(Exactly(d), whole + Round(part), Seconds(d));
  }


  lemma RoundNotPositive(x: real)
    requires x <= 0.0
    ensures Round(x) <= 0.0
  {
    if x < 0.0 { RoundBounds(-x); }
  }

  lemma SecondsPositive(d: Time)
    ensures Seconds(d) > 0.0 <==> d > 0
  {
    if d > 0 {
      SecondsNear(d);
    } else {
      var part := (d % 1_000_000_000) as real / 1_000_000_000.0;
      RoundMonotone(part, 1.0);
      RoundExact(1);
      RoundExact(0);
      RoundNotPositive((d / 1_000_000_000) as real + Round(part));
    }
  }

  /** The rate r is the rounded quotient of n and s, s the twice rounded seconds of d nanoseconds. */
  lemma RateProducts(n: real, s: real, q: real, r: real, d: real)
    requires 0.0 < s && 0.0 <= r && q * s == n && Near(q, r) && NearTwice(d / 1_000_000_000.0, s)
    ensures Near(n, r * s) && NearTwice(r * d, 1_000_000_000.0 * (r * s))
  {
    NearScaled(q, r, s);
    TwiceScaled(d / 1_000_000_000.0, s, r);
    assert d / 1_000_000_000.0 * r == r * d / 1_000_000_000.0;
  }

  lemma NearScaled(q: real, r: real, s: real)
    requires 0.0 <= s && Near(q, r)
    ensures Near(q * s, r * s)
  {
    Scale(9007199254740991.0 * q, 9007199254740992.0 * r, s);
    Scale(9007199254740992.0 * r, 9007199254740993.0 * q, s);
  }

  lemma TwiceScaled(x: real, y: real, c: real)
    requires 0.0 <= c && NearTwice(x, y)
    ensures NearTwice(x * c, y * c)
  {
    Scale(81129638414606663681390495662081.0 * x, 81129638414606681695789005144064.0 * y, c);
    Scale(81129638414606681695789005144064.0 * y, 81129638414606699710187514626049.0 * x, c);
  }

  /** rs and rd stand for rate times seconds and rate times nanoseconds, md for max times the latter. */
  lemma RateAbove(n: real, rs: real, rd: real, md: real)
    requires 0.0 <= n && 0.0 <= rd <= md && Near(n, rs) && NearTwice(rd, 1_000_000_000.0 * rs)
    ensures 9007199254740992.0 * (n * 1_000_000_000.0) <= 9007199254740996.0 * md
  {
  }

  lemma RateBelow(n: real, rs: real, rd: real, md: real)
    requires 0.0 <= n && 0.0 <= md <= rd && Near(n, rs) && NearTwice(rd, 1_000_000_000.0 * rs)
    ensures 9007199254740992.0 * (n * 1_000_000_000.0) >= 9007199254740988.0 * md
  {
  }

  lemma RateAgainstMax(n: real, s: real, r: real, d: real, max: real)
    requires 0.0 <= n && 0.0 < s && 0.0 < d && 0.0 <= r && Near(n / s, r) && NearTwice(d / 1_000_000_000.0, s)
    ensures r <= max ==> 9007199254740992.0 * (n * 1_000_000_000.0) <= 9007199254740996.0 * (max * d)
    ensures r >= max ==> 9007199254740992.0 * (n * 1_000_000_000.0) >= 9007199254740988.0 * (max * d)
  {
    var q := Quotient(n, s);
    RateProducts(n, s, q, r, d);
    Scale(0.0, r, d);
    if r <= max {
      Scale(r, max, d);
      RateAbove(n, r * s, r * d, max * d);
    }
    if r >= max {
      Scale(max, r, d);
      if max >= 0.0 {
        Scale(0.0, max, d);
        RateBelow(n, r * s, r * d, max * d);
      } else {
        Scale(max, 0.0, d);
      }
    }
  }

  lemma RoundedRate(shares: nat, span: Time) returns (s: real, r: real)
    requires span > 0
    ensures s == Seconds(span) > 0.0 && NearTwice(Exactly(span), s)
    ensures r == Round(shares as real / s) && 0.0 <= r && Near(shares as real / s, r)
  {
    SecondsPositive(span);
    SecondsNear(span);
    s := Seconds(span);
    var q := Quotient(shares as real, s);
    RoundError(q);
    RoundBounds(q);
    r := Round(q);
  }

  lemma RateRounded(shares: nat, span: Time, max: real)
    requires span > 0
    ensures Seconds(span) > 0.0
    ensures Round(shares as real / Seconds(span)) <= max ==> !Exceeds(shares, span, max)
    ensures Round(shares as real / Seconds(span)) >= max ==> !StaysBelow(shares, span, max)
  {
    var s, r := RoundedRate(shares, span);
    RateAgainstMax(shares as real, s, r, span as real, max);
  }

  /** The rate check in counts and nanoseconds. */
  lemma RateCheck(cfg: Config, shares: nat, span: Time)
    ensures shares < 10 || span <= 0 ==> !TooFast(cfg, shares, span)
    ensures shares >= 10 && span > 0 && Exceeds(shares, span, cfg.maxSharesPerSecond) ==> TooFast(cfg, shares, span)
    ensures shares >= 10 && span > 0 && StaysBelow(shares, span, cfg.maxSharesPerSecond) ==> !TooFast(cfg, shares, span)
  {
    SecondsPositive(span);
    if span > 0 { RateRounded(shares, span, cfg.maxSharesPerSecond); }
  }

  // ---- The ratio of bad shares -------------------------------------------------------------

  /** More than the ratio of all shares is bad, by more than two roundings. */
  ghost predicate AboveRatio(good: nat, bad: nat, ratio: real) {
    9007199254740992.0 * bad as real > 9007199254740994.0 * (ratio * (good + bad) as real)
  }

  ghost predicate BelowRatio(good: nat, bad: nat, ratio: real) {
    9007199254740992.0 * bad as real < 9007199254740990.0 * (ratio * (good + bad) as real)
  }

  lemma RatioAgainst(b: real, t: real, r: real, ratio: real)
    requires 0.0 <= b && 0.0 < t && 0.0 <= r && Near(b / t, r)
    ensures r <= ratio ==> 9007199254740992.0 * b <= 9007199254740994.0 * (ratio * t)
    ensures r >= ratio ==> 9007199254740992.0 * b >= 9007199254740990.0 * (ratio * t)
  {
    var q := Quotient(b, t);
    NearScaled(q, r, t);
    Scale(0.0, r, t);
    if r <= ratio { Scale(r, ratio, t); }
    if r >= ratio {
      Scale(ratio, r, t);
      if ratio < 0.0 { Scale(ratio, 0.0, t); } else { Scale(0.0, ratio, t); }
    }
  }

  /** The ratio check in counts. */
  lemma RatioCheck(cfg: Config, good: nat, bad: nat)
    ensures good + bad < 6 || bad == 0 ==> !TooBad(cfg, good, bad)
    ensures good + bad >= 6 && bad > 0 && AboveRatio(good, bad, cfg.badShareRatio) ==> TooBad(cfg, good, bad)
    ensures BelowRatio(good, bad, cfg.badShareRatio) ==> !TooBad(cfg, good, bad)
  {
    if good + bad > 0 {
      var b, t := bad as real, (good + bad) as real;
      var q := Quotient(b, t);
      RoundError(b / t);
      RoundBounds(b / t);
      RatioAgainst(b, t, Round(b / t), cfg.badShareRatio);
    }
  }
}
