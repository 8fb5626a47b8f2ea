/** Division of a block reward among the miners of the PPLNS window
    (cmd/master/master.go, DistributeBlockRewardPPLNS), with a rounding `fl` at every conversion,
    division and product. `Binary64.Round` is the rounding the program runs with; the results
    hold for every rounding that is `Correct`. */
module Distribution {
  import opened Binary64
  import opened Reals
  import opened Sums
  import opened Shares

  /** float64(d) / float64(t). */
  function Percentage(fl: real -> real, d: real, t: real): real
    requires fl(t) > 0.0
  {
    fl(fl(d) / fl(t))
  }

  function Times(fl: real -> real, x: real, y: real): real {
    fl(x * y)
  }

  function FeeAmount(fl: real -> real, reward: Uint64, feePercent: real, conv: real -> Uint64): Uint64 {
    ToUint64(Times(fl, fl(reward as real), fl(feePercent / 100.0)), conv)
  }

  /** reward - feeAmount in uint64 arithmetic. */
  function NetReward(fl: real -> real, reward: Uint64, feePercent: real, conv: real -> Uint64): Uint64 {
    Wrap(reward - FeeAmount(fl, reward, feePercent, conv))
  }

  function MinerReward(fl: real -> real, net: Uint64, minerDiff: Uint64, totalDiff: Uint64, conv: real -> Uint64)
    : Uint64
    requires fl(totalDiff as real) > 0.0
  {
    ToUint64(Times(fl, fl(net as real), Percentage(fl, minerDiff as real, totalDiff as real)), conv)
  }

  /** What each miner of the window is due. */
  function Rewards(fl: real -> real, shares: seq<Share>, net: Uint64, conv: real -> Uint64): map<string, Uint64>
    requires fl(Wrap(Total(shares)) as real) > 0.0
  {
    map a | a in Miners(shares) ::
      MinerReward(fl, net, Wrap(DiffOf(shares, a)), Wrap(Total(shares)), conv)
  }

  // ---- Four roundings of one reward --------------------------------------------------------

  lemma NearScale(x: real, y: real, c: real)
    requires Near(x, y) && c >= 0.0
    ensures Near(x * c, y * c)
  {
    Scale(9007199254740991.0 * x, 9007199254740992.0 * y, c);
    Scale(9007199254740992.0 * y, 9007199254740993.0 * x, c);
  }

  /** Largest and smallest factor by which the four roundings can move n * d / t:
      1 + 4u + 8u^2 and 1 - 4u for u = 2^-53. */
  ghost predicate FourRoundings(nd: real, vt: real) {
    && 81129638414606681695789005144064.0 * vt <= 81129638414606717724586024108040.0 * nd
    && 9007199254740988.0 * nd <= 9007199254740992.0 * vt
  }

  lemma NearChain(x0: real, x1: real, x2: real, x3: real, x4: real)
    requires 0.0 <= x0
    requires Near(x0, x1) && Near(x1, x2) && Near(x2, x3) && Near(x4, x3)
    ensures FourRoundings(x0, x4)
  {
  }

  lemma NumeratorNear(n: real, d: real, dr: real, tr: real, q: real, p: real)
    requires 0.0 <= n && 0.0 <= tr && Near(d, dr) && q * tr == dr && Near(q, p)
    ensures Near(d * n, dr * n) && Near(dr * n, p * tr * n)
  {
    NearScale(d, dr, n);
    NearScale(q, p, tr);
    NearScale(dr, p * tr, n);
  }

  lemma ProductNear(n: real, t: real, tr: real, p: real, v: real)
    requires 0.0 <= tr && 0.0 <= v && Near(n * p, v) && Near(t, tr)
    ensures Near(p * tr * n, v * tr) && Near(t * v, v * tr)
  {
    NearScale(n * p, v, tr);
    NearScale(t, tr, v);
    assert p * tr * n == n * p * tr;
  }

  lemma PercentageValue(fl: real -> real, d: real, t: real) returns (dr: real, tr: real, q: real)
    requires Correct(fl) && 0.0 <= d <= t && 0.0 < t
    ensures dr == fl(d) && tr == fl(t) > 0.0 && Near(d, dr) && Near(t, tr)
    ensures q == dr / tr && q * tr == dr && Near(q, Percentage(fl, d, t)) && 0.0 <= Percentage(fl, d, t) <= 1.0
  {
    dr, tr := fl(d), fl(t);
    q := Quotient(dr, tr);
    assert fl(1.0) == 1.0;
  }

  lemma TimesNear(fl: real -> real, x: real, y: real)
    requires Correct(fl) && 0.0 <= x && 0.0 <= y
    ensures 0.0 <= Times(fl, x, y) && Near(x * y, Times(fl, x, y))
  {
    Scale(0.0, x, y);
  }

  lemma RoundedBelow(fl: real -> real, x: real, n: real)
    requires Correct(fl) && 0.0 <= x <= n == fl(n)
    ensures 0.0 <= fl(x) <= n && Near(x, fl(x))
  {
  }

  lemma TimesValue(fl: real -> real, n: real, p: real)
    requires Correct(fl) && 0.0 <= n == fl(n) && 0.0 <= p <= 1.0
    ensures 0.0 <= Times(fl, n, p) <= n && Near(n * p, Times(fl, n, p))
  {
    Shrink(n, p);
    RoundedBelow(fl, n * p, n);
  }

  // ---- Sums of truncated rewards -----------------------------------------------------------

  /** Coefficients of the bounds on k truncated rewards that add up to r, of miners whose
      difficulties add up to d: a * r <= b * d and c * d <= e * r + k * e. */
  ghost predicate Coefficients(n: real, t: real, a: real, b: real, c: real, e: real) {
    && a == 81129638414606681695789005144064.0 * t && b == 81129638414606717724586024108040.0 * n
    && c == 9007199254740988.0 * n && e == 9007199254740992.0 * t
  }

  lemma BelowLinear(n: real, d: real, t: real, v: real, r: real, a: real, b: real)
    requires 0.0 <= t && FourRoundings(d * n, t * v) && r <= v
    requires a == 81129638414606681695789005144064.0 * t && b == 81129638414606717724586024108040.0 * n
    ensures a * r <= b * d
  {
    Scale(r, v, t);
    Regroup(81129638414606681695789005144064.0, t, r);
    Regroup(81129638414606717724586024108040.0, n, d);
  }

  lemma AboveLinear(n: real, d: real, t: real, v: real, r: real, c: real, e: real)
    requires 0.0 <= t && FourRoundings(d * n, t * v) && v <= r
    requires c == 9007199254740988.0 * n && e == 9007199254740992.0 * t
    ensures c * d <= e * r
  {
    Scale(v, r, t);
    Regroup(9007199254740988.0, n, d);
    Regroup(9007199254740992.0, t, r);
  }

  lemma FloorWithin(n: real, d: real, t: real, v: real, r: real, a: real, b: real, c: real, e: real)
    requires 0.0 <= t && FourRoundings(d * n, t * v) && r <= v < r + 1.0
    requires Coefficients(n, t, a, b, c, e)
    ensures Linear(a, b, 0.0, r, d, 1.0) && Linear(c, e, e, d, r, 1.0)
  {
    BelowLinear(n, d, t, v, r, a, b);
    AboveLinear(n, d, t, v, r + 1.0, c, e);
  }

  /** The float64 reward, its bounds and what is left of it after truncation. */
  lemma RewardWithin(fl: real -> real, n: real, d: real, t: real, a: real, b: real, c: real, e: real)
    returns (v: real, r: real)
    requires Correct(fl) && 0.0 <= n == fl(n) && 0.0 <= d <= t && 0.0 < t
    requires Coefficients(n, t, a, b, c, e)
    ensures fl(t) > 0.0 && v == Times(fl, n, Percentage(fl, d, t)) && 0.0 <= v <= n && r == v.Floor as real
    ensures Linear(a, b, 0.0, r, d, 1.0) && Linear(c, e, e, d, r, 1.0)
  {
    var dr, tr, q := PercentageValue(fl, d, t);
    var p := Percentage(fl, d, t);
    TimesValue(fl, n, p);
    v := Times(fl, n, p);
    r := v.Floor as real;
    NumeratorNear(n, d, dr, tr, q, p);
    ProductNear(n, t, tr, p, v);
    NearChain(d * n, dr * n, p * tr * n, v * tr, t * v);
    FloorWithin(n, d, t, v, r, a, b, c, e);
  }

  /** A sum within the rounding factors of a whole number below 2^51 is off by less than one. */
  lemma SumWithin(s: int, n: nat, t: real, k: nat, a: real, b: real, c: real, e: real)
    requires t > 0.0 && n < TWO51 && Coefficients(n as real, t, a, b, c, e)
    requires Linear(a, b, 0.0, s as real, t, k as real)
    requires Linear(c, e, e, t, s as real, k as real)
    ensures n - k <= s <= n
  {
    Divide(s as real, n as real, t, k as real, a, b, c, e);
  }

  lemma Divide(s: real, n: real, t: real, k: real, a: real, b: real, c: real, e: real)
    requires t > 0.0 && Coefficients(n, t, a, b, c, e)
    requires a * s <= b * t + k * 0.0 && c * t <= e * s + k * e
    ensures 81129638414606681695789005144064.0 * s <= 81129638414606717724586024108040.0 * n
    ensures 9007199254740988.0 * n <= 9007199254740992.0 * (s + k)
  {
    var x, y := 81129638414606681695789005144064.0 * s, 81129638414606717724586024108040.0 * n;
    assert x * t <= y * t;
    if x > y { StrictScale(y, x, t); }
    var u, w := 9007199254740988.0 * n, 9007199254740992.0 * (s + k);
    assert u * t <= w * t;
    if u > w { StrictScale(w, u, t); }
  }

  lemma SumRewards(shares: seq<Share>, rewards: map<string, int>, a: real, b: real, c: real, e: real)
    requires rewards.Keys == Miners(shares)
    requires forall m :: m in rewards ==> Linear(a, b, 0.0, rewards[m] as real, DiffOf(shares, m) as real, 1.0)
    requires forall m :: m in rewards ==> Linear(c, e, e, DiffOf(shares, m) as real, rewards[m] as real, 1.0)
    ensures Linear(a, b, 0.0, Sum(rewards) as real, Total(shares) as real, |Miners(shares)| as real)
    ensures Linear(c, e, e, Total(shares) as real, Sum(rewards) as real, |Miners(shares)| as real)
  {
    var diffs := ByMiner(shares);
    SumByMiner(shares);
    SumLinear(rewards, diffs, a, b, 0.0);
    SumLinear(diffs, rewards, c, e, e);
    assert rewards.Keys == diffs.Keys == Miners(shares);
  }

  lemma RewardsWithin(fl: real -> real, shares: seq<Share>, net: Uint64, conv: real -> Uint64,
                      a: real, b: real, c: real, e: real, m: string)
    requires Correct(fl) && 0 < Total(shares) < TWO64 && net < TWO51 && m in Miners(shares)
    requires Coefficients(net as real, Total(shares) as real, a, b, c, e)
    ensures fl(Wrap(Total(shares)) as real) > 0.0
    ensures
      var r, d := Rewards(fl, shares, net, conv)[m] as real, DiffOf(shares, m) as real;
      Linear(a, b, 0.0, r, d, 1.0) && Linear(c, e, e, d, r, 1.0)
  {
    DiffOfAtMostTotal(shares, m);
    var v, r := RewardWithin(fl, net as real, DiffOf(shares, m) as real, Total(shares) as real, a, b, c, e);
  }

  lemma NetDivided(fl: real -> real, shares: seq<Share>, net: Uint64, conv: real -> Uint64)
    requires Correct(fl) && 0 < Total(shares) < TWO64 && net < TWO51
    ensures fl(Wrap(Total(shares)) as real) > 0.0
    ensures net - |Miners(shares)| <= Sum(Rewards(fl, shares, net, conv)) <= net
  {
    var n, t := net as real, Total(shares) as real;
    var a, b := 81129638414606681695789005144064.0 * t, 81129638414606717724586024108040.0 * n;
    var c, e := 9007199254740988.0 * n, 9007199254740992.0 * t;
    assert fl(t) > 0.0;
    var rewards := Rewards(fl, shares, net, conv);
    forall m | m in rewards
      ensures Linear(a, b, 0.0, rewards[m] as real, DiffOf(shares, m) as real, 1.0)
      ensures Linear(c, e, e, DiffOf(shares, m) as real, rewards[m] as real, 1.0)
    {
      RewardsWithin(fl, shares, net, conv, a, b, c, e, m);
    }
    SumRewards(shares, rewards, a, b, c, e);
    SumWithin(Sum(rewards), net, t, |Miners(shares)|, a, b, c, e);
  }

  lemma FeeValue(fl: real -> real, n: real, percent: real)
    requires Correct(fl) && 0.0 <= n == fl(n) && 0.0 <= percent <= 100.0
    ensures 0.0 <= Times(fl, n, fl(percent / 100.0)) <= n
  {
    var f := fl(percent / 100.0);
    assert f <= fl(1.0) == 1.0;
    TimesValue(fl, n, f);
  }

  /** The fee is at most the reward, so the subtraction does not wrap, unless the reward itself is
      rounded up by one or more. */
  lemma FeeWithin(fl: real -> real, reward: Uint64, feePercent: real, conv: real -> Uint64)
    requires Correct(fl) && Idempotent(fl) && fl(reward as real) < (reward + 1) as real
    requires fl(reward as real) < TWO64 as real && 0.0 <= feePercent <= 100.0
    ensures FeeAmount(fl, reward, feePercent, conv) + NetReward(fl, reward, feePercent, conv) == reward
  {
    FeeValue(fl, fl(reward as real), feePercent);
  }

  lemma FullFee(fl: real -> real, reward: Uint64, conv: real -> Uint64)
    requires Correct(fl) && Idempotent(fl) && fl(reward as real) < TWO64 as real
    ensures FeeAmount(fl, reward, 100.0, conv) == fl(reward as real).Floor
  {
    assert fl(100.0 / 100.0) == 1.0;
  }

  /** Fee and net reward split the reward for every fee exactly when the reward is not rounded up. */
  lemma FeeWithinIff(fl: real -> real, reward: Uint64, conv: real -> Uint64)
    requires Correct(fl) && Idempotent(fl) && fl(reward as real) < TWO64 as real
    ensures fl(reward as real) < (reward + 1) as real <==>
      forall percent {:trigger FeeAmount(fl, reward, percent, conv)} :: 0.0 <= percent <= 100.0 ==>
        FeeAmount(fl, reward, percent, conv) + NetReward(fl, reward, percent, conv) == reward
  {
    if fl(reward as real) < (reward + 1) as real {
      forall percent | 0.0 <= percent <= 100.0
        ensures FeeAmount(fl, reward, percent, conv) + NetReward(fl, reward, percent, conv) == reward
      {
        FeeWithin(fl, reward, percent, conv);
      }
    } else {
      FullFee(fl, reward, conv);
      assert FeeAmount(fl, reward, 100.0, conv) > reward;
    }
  }

  lemma SmallFee(fl: real -> real, reward: Uint64, feePercent: real, conv: real -> Uint64)
    requires Correct(fl) && reward < TWO51 && 0.0 <= feePercent <= 100.0
    ensures FeeAmount(fl, reward, feePercent, conv) + NetReward(fl, reward, feePercent, conv) == reward
  {
    FeeValue(fl, reward as real, feePercent);
  }

  // ---- The amount of the fee ---------------------------------------------------------------

  /** fee is percent hundredths of the reward, up to rounding and truncation. */
  ghost predicate IsPercentage(fee: int, reward: nat, percent: real) {
    && 9007199254740992.0 * (100.0 * fee as real) <= 9007199254740996.0 * (reward as real * percent)
    && 9007199254740988.0 * (reward as real * percent) < 9007199254740992.0 * (100.0 * (fee + 1) as real)
  }

  lemma FeeProducts(r: real, percent: real, f: real)
    requires 0.0 <= r && Near(percent / 100.0, f)
    ensures Near(r * percent / 100.0, r * f)
  {
    NearScale(percent / 100.0, f, r);
    assert percent / 100.0 * r == r * percent / 100.0;
  }

  lemma FeeNear(x: real, y: real, v: real)
    requires 0.0 <= x && Near(x / 100.0, y) && Near(y, v)
    ensures 9007199254740992.0 * (100.0 * v) <= 9007199254740996.0 * x
    ensures 9007199254740988.0 * x <= 9007199254740992.0 * (100.0 * v)
  {
  }

  lemma FeeChain(r: real, percent: real, f: real, v: real)
    requires 0.0 <= r && 0.0 <= percent && Near(percent / 100.0, f) && Near(r * f, v)
    ensures 9007199254740992.0 * (100.0 * v) <= 9007199254740996.0 * (r * percent)
    ensures 9007199254740988.0 * (r * percent) <= 9007199254740992.0 * (100.0 * v)
  {
    FeeProducts(r, percent, f);
    Scale(0.0, r, percent);
    FeeNear(r * percent, r * f, v);
  }

  lemma FeeFloor(v: real, x: real)
    requires 9007199254740992.0 * (100.0 * v) <= 9007199254740996.0 * x
    requires 9007199254740988.0 * x <= 9007199254740992.0 * (100.0 * v)
    ensures 9007199254740992.0 * (100.0 * v.Floor as real) <= 9007199254740996.0 * x
    ensures 9007199254740988.0 * x < 9007199254740992.0 * (100.0 * (v.Floor + 1) as real)
  {
  }

  lemma FeeIs(fl: real -> real, reward: Uint64, feePercent: real, conv: real -> Uint64)
    requires Correct(fl) && reward < TWO51 && 0.0 <= feePercent <= 100.0
    ensures FeeAmount(fl, reward, feePercent, conv) == Times(fl, reward as real, fl(feePercent / 100.0)).Floor
  {
    FeeValue(fl, reward as real, feePercent);
  }

  lemma FeePercentage(v: real, reward: nat, percent: real)
    requires 9007199254740992.0 * (100.0 * v) <= 9007199254740996.0 * (reward as real * percent)
    requires 9007199254740988.0 * (reward as real * percent) <= 9007199254740992.0 * (100.0 * v)
    ensures IsPercentage(v.Floor, reward, percent)
  {
    FeeFloor(v, reward as real * percent);
  }

  /** The fee is the configured percentage of the reward. */
  lemma FeeIsPercentage(fl: real -> real, reward: Uint64, feePercent: real, conv: real -> Uint64)
    requires Correct(fl) && reward < TWO51 && 0.0 <= feePercent <= 100.0
    ensures IsPercentage(FeeAmount(fl, reward, feePercent, conv), reward, feePercent)
  {
    FeeIs(fl, reward, feePercent, conv);
    ProductIsPercentage(fl, reward, feePercent);
  }

  lemma ProductIsPercentage(fl: real -> real, reward: nat, feePercent: real)
    requires Correct(fl) && reward < TWO51 && 0.0 <= feePercent <= 100.0
    ensures IsPercentage(Times(fl, reward as real, fl(feePercent / 100.0)).Floor, reward, feePercent)
  {
    var r, f := reward as real, fl(feePercent / 100.0);
    TimesNear(fl, r, f);
    FeeChain(r, feePercent, f, Times(fl, r, f));
    FeePercentage(Times(fl, r, f), reward, feePercent);
  }

  /** A larger percentage never gives a smaller fee. */
  lemma FeeMonotone(fl: real -> real, reward: Uint64, p: real, q: real, conv: real -> Uint64)
    requires Correct(fl) && Idempotent(fl) && fl(reward as real) < TWO64 as real && 0.0 <= p <= q <= 100.0
    ensures FeeAmount(fl, reward, p, conv) <= FeeAmount(fl, reward, q, conv)
  {
    var n := fl(reward as real);
    RoundedInOrder(fl, 0.0, p / 100.0);
    RoundedInOrder(fl, p / 100.0, q / 100.0);
    RoundedInOrder(fl, q / 100.0, 1.0);
    assert fl(0.0) == 0.0 && fl(1.0) == 1.0;
    TimesMonotone(fl, n, fl(p / 100.0), fl(q / 100.0));
    TimesValue(fl, n, fl(p / 100.0));
    TimesValue(fl, n, fl(q / 100.0));
    ConversionMonotone(Times(fl, n, fl(p / 100.0)), Times(fl, n, fl(q / 100.0)), conv);
  }

  // ---- The main results --------------------------------------------------------------------

  /** Fee and all rewards together never exceed the block reward, and at most one atomic unit per
      miner stays undistributed, whatever the shares, the fee and the out-of-range conversions. */
  lemma RewardConserved(fl: real -> real, shares: seq<Share>, reward: Uint64, feePercent: real, conv: real -> Uint64)
    requires Correct(fl) && 0 < Total(shares) < TWO64 && reward < TWO51 && 0.0 <= feePercent <= 100.0
    ensures fl(Wrap(Total(shares)) as real) > 0.0
    ensures
      var paid := FeeAmount(fl, reward, feePercent, conv)
                  + Sum(Rewards(fl, shares, NetReward(fl, reward, feePercent, conv), conv));
      reward - |Miners(shares)| <= paid <= reward
  {
    SmallFee(fl, reward, feePercent, conv);
    NetDivided(fl, shares, NetReward(fl, reward, feePercent, conv), conv);
  }

  /** More work never earns less. */
  lemma RewardFair(fl: real -> real, net: Uint64, d: Uint64, e: Uint64, t: Uint64, conv: real -> Uint64)
    requires Correct(fl) && Idempotent(fl) && fl(net as real) < TWO64 as real && 0 < t && d <= e <= t
    ensures fl(t as real) > 0.0
    ensures MinerReward(fl, net, d, t, conv) <= MinerReward(fl, net, e, t, conv)
  {
    var v, v' := RewardMonotone(fl, fl(net as real), d as real, e as real, t as real);
    ConversionMonotone(v, v', conv);
  }

  lemma ConversionMonotone(x: real, y: real, conv: real -> Uint64)
    requires 0.0 <= x <= y < TWO64 as real
    ensures ToUint64(x, conv) <= ToUint64(y, conv)
  {
  }

  lemma RewardMonotone(fl: real -> real, n: real, d: real, e: real, t: real) returns (v: real, v': real)
    requires Correct(fl) && 0.0 <= n == fl(n) && 0.0 <= d <= e <= t && 0.0 < t
    ensures fl(t) > 0.0
    ensures v == Times(fl, n, Percentage(fl, d, t)) && v' == Times(fl, n, Percentage(fl, e, t))
    ensures 0.0 <= v <= v' <= n
  {
    PercentageMonotone(fl, d, e, t);
    TimesMonotone(fl, n, Percentage(fl, d, t), Percentage(fl, e, t));
    TimesValue(fl, n, Percentage(fl, d, t));
    TimesValue(fl, n, Percentage(fl, e, t));
    v, v' := Times(fl, n, Percentage(fl, d, t)), Times(fl, n, Percentage(fl, e, t));
  }

  lemma PercentageMonotone(fl: real -> real, d: real, e: real, t: real)
    requires Correct(fl) && 0.0 <= d <= e <= t && 0.0 < t
    ensures fl(t) > 0.0 && 0.0 <= Percentage(fl, d, t) <= Percentage(fl, e, t) <= 1.0
  {
    var dr, tr, q := PercentageValue(fl, d, t);
    var er, _, q' := PercentageValue(fl, e, t);
    QuotientMonotone(dr, er, tr);
  }

  lemma TimesMonotone(fl: real -> real, n: real, p: real, p': real)
    requires Correct(fl) && 0.0 <= n && 0.0 <= p <= p' <= 1.0
    ensures Times(fl, n, p) <= Times(fl, n, p')
  {
    Scale(p, p', n);
    Shrink(n, p);
    RoundedInOrder(fl, n * p, n * p');
  }

  lemma RoundedInOrder(fl: real -> real, x: real, y: real)
    requires Correct(fl) && 0.0 <= x <= y
    ensures fl(x) <= fl(y)
  {
  }

  // ---- Where the bounds on the inputs come from --------------------------------------------

  lemma LargeReward64()
    ensures Round((TWO53 + 3) as real) == (TWO53 + 4) as real
    ensures Round((TWO53 + 4) as real) == (TWO53 + 4) as real
  {
    var half := (TWO53 + 3) as real / 2.0;
    assert half.Floor == TWO52 + 1;
    assert Round(half) == (TWO52 + 2) as real;
    assert Round((TWO53 + 4) as real / 2.0) == (TWO52 + 2) as real;
  }

  lemma LoneMiner(n: real)
    ensures Round(1.0) == 1.0 && Percentage(Round, 1.0, 1.0) == 1.0 && Times(Round, n, 1.0) == Round(n)
  {
    RoundExact(1);
  }

  lemma LargeReward(conv: real -> Uint64)
    ensures Round(1.0) == 1.0 && MinerReward(Round, TWO53 + 3, 1, 1, conv) == TWO53 + 4
  {
    LoneMiner((TWO53 + 4) as real);
    LargeReward64();
  }

  /** Above 2^53 the reward itself is rounded up, and a lone miner is paid more than the block. */
  lemma LargeRewardOverpays(miner: string, conv: real -> Uint64)
    ensures
      var shares, reward := [Share(miner, "", 1, 0)], TWO53 + 3;
      && Round(Wrap(Total(shares)) as real) > 0.0
      && Rewards(Round, shares, reward, conv) == map[miner := reward + 1]
  {
    var shares, reward := [Share(miner, "", 1, 0)], TWO53 + 3;
    assert Total(shares) == 1 && DiffOf(shares, miner) == 1;
    assert shares[0].minerAddr in Miners(shares);
    assert Miners(shares) == {miner};
    LargeReward(conv);
  }

  lemma WrappedReward(fl: real -> real, conv: real -> Uint64)
    requires Correct(fl)
    ensures fl(1.0) == 1.0 && MinerReward(fl, 1, TWO53, 1, conv) == TWO53
  {
    var big := TWO53 as real;
    assert fl(1.0) == 1.0 && fl(big) == big;
    assert big / 1.0 == big && 1.0 * big == big;
    assert Percentage(fl, big, 1.0) == big;
    assert Times(fl, 1.0, big) == big;
  }

  /** Once the window's difficulty wraps around 2^64, one unit of reward turns into 2^53. */
  lemma WrappedWindowOverpays(fl: real -> real, a: string, b: string, conv: real -> Uint64)
    requires Correct(fl) && a != b
    ensures
      var shares := [Share(a, "", TWO53, 0), Share(b, "", TWO64 - TWO53 + 1, 0)];
      && fl(Wrap(Total(shares)) as real) > 0.0
      && a in Rewards(fl, shares, 1, conv) && Rewards(fl, shares, 1, conv)[a] == TWO53
  {
    var x, y := Share(a, "", TWO53, 0), Share(b, "", TWO64 - TWO53 + 1, 0);
    var shares := [x, y];
    TotalsOfPrefix(shares, 0, a);
    TotalsOfPrefix(shares, 1, a);
    assert shares[..0] == [] && shares[..2] == shares;
    assert Wrap(DiffOf(shares, a)) == TWO53 && Wrap(Total(shares)) == 1;
    WrappedReward(fl, conv);
  }

  lemma LoneMinerPaid(fl: real -> real, shares: seq<Share>, miner: string, reward: Uint64, conv: real -> Uint64)
    requires Correct(fl) && Idempotent(fl) && fl(reward as real) < TWO64 as real
    requires Miners(shares) == {miner} && 0 < Total(shares) < TWO64
    ensures fl(Wrap(Total(shares)) as real) > 0.0 && FeeAmount(fl, reward, 0.0, conv) == 0
    ensures Rewards(fl, shares, NetReward(fl, reward, 0.0, conv), conv)[miner] == fl(reward as real).Floor
  {
    LoneDifficulty(shares, miner);
    NoFee(fl, reward, conv);
    WholeReward(fl, reward, Total(shares), conv);
  }

  lemma FloorAbove(x: real, n: nat)
    ensures x.Floor > n <==> x >= (n + 1) as real
    ensures x == x.Floor as real ==> (x.Floor > n <==> x > n as real)
  {
  }

  /** A lone miner without a fee is paid more than the block exactly when the reward is rounded up
      by at least one; for a rounding that keeps whole numbers whole, when it is rounded up. */
  lemma LoneMinerOverpaidIff(fl: real -> real, shares: seq<Share>, miner: string, reward: Uint64, conv: real -> Uint64)
    requires Correct(fl) && Idempotent(fl) && fl(reward as real) < TWO64 as real
    requires Miners(shares) == {miner} && 0 < Total(shares) < TWO64
    ensures fl(Wrap(Total(shares)) as real) > 0.0 && FeeAmount(fl, reward, 0.0, conv) == 0
    ensures
      var paid, x := Rewards(fl, shares, NetReward(fl, reward, 0.0, conv), conv)[miner], fl(reward as real);
      && (paid > reward <==> x >= (reward + 1) as real)
      && (x == x.Floor as real ==> (paid > reward <==> x > reward as real))
  {
    LoneMinerPaid(fl, shares, miner, reward, conv);
    FloorAbove(fl(reward as real), reward);
  }

  /** In float64: exactly when the conversion of the reward rounds up. */
  lemma LoneMinerRounding(shares: seq<Share>, miner: string, reward: Uint64, conv: real -> Uint64)
    requires Round(reward as real) < TWO64 as real && Miners(shares) == {miner} && 0 < Total(shares) < TWO64
    ensures Round(Wrap(Total(shares)) as real) > 0.0
    ensures Rewards(Round, shares, NetReward(Round, reward, 0.0, conv), conv)[miner] > reward
       <==> Round(reward as real) > reward as real
  {
    RoundIsCorrect();
    RoundOfWhole(reward);
    LoneMinerOverpaidIff(Round, shares, miner, reward, conv);
  }

  lemma LoneDifficulty(shares: seq<Share>, miner: string)
    requires Miners(shares) == {miner}
    ensures DiffOf(shares, miner) == Total(shares)
  {
    SumByMiner(shares);
    var diffs := ByMiner(shares);
    SumRemove(diffs, miner);
    assert diffs - {miner} == map[];
  }

  lemma NoFee(fl: real -> real, reward: Uint64, conv: real -> Uint64)
    requires Correct(fl)
    ensures FeeAmount(fl, reward, 0.0, conv) == 0 && NetReward(fl, reward, 0.0, conv) == reward
  {
    assert fl(0.0 / 100.0) == 0.0;
  }

  lemma WholeReward(fl: real -> real, reward: Uint64, t: Uint64, conv: real -> Uint64)
    requires Correct(fl) && Idempotent(fl) && fl(reward as real) < TWO64 as real && t > 0
    ensures fl(t as real) > 0.0 && MinerReward(fl, reward, t, t, conv) == fl(reward as real).Floor
  {
    assert fl(t as real) / fl(t as real) == 1.0;
    assert fl(1.0) == 1.0;
  }

  // ---- Two miners below 2^52 ---------------------------------------------------------------

  const FIRST: Uint64 := 4611730162393974272
  const SECOND: Uint64 := 4611686018427391488
  const REWARD: Uint64 := 3232485603750322

  lemma Conversions()
    ensures Round(4611730162393974272.0) == 4611730162393974784.0
    ensures Round(4611686018427391488.0) == 4611686018427392000.0
    ensures Round(9223416180821365760.0) == 9223416180821364736.0
    ensures Round(3232485603750322.0) == 3232485603750322.0
  {
    DoubledTo(4503642736712865.5, 10, 1024, 4611730162393974272.0);
    DoubledTo(4503642736712866.0, 10, 1024, 4611730162393974784.0);
    RoundDownscaled(4611730162393974272.0, 4611730162393974784.0, 10, 4503642736712865.5, 4503642736712866);
    DoubledTo(4503599627370499.5, 10, 1024, 4611686018427391488.0);
    DoubledTo(4503599627370500.0, 10, 1024, 4611686018427392000.0);
    RoundDownscaled(4611686018427391488.0, 4611686018427392000.0, 10, 4503599627370499.5, 4503599627370500);
    DoubledTo(4503621182041682.5, 11, 2048, 9223416180821365760.0);
    DoubledTo(4503621182041682.0, 11, 2048, 9223416180821364736.0);
    RoundDownscaled(9223416180821365760.0, 9223416180821364736.0, 11, 4503621182041682.5, 4503621182041682);
    RoundExact(3232485603750322);
  }

  lemma Parts()
    ensures Round(4611730162393974784.0 / 9223416180821364736.0) == 4503621181938518.0 / 9007199254740992.0
    ensures Round(4611686018427392000.0 / 9223416180821364736.0) == 9007156145604953.0 / 18014398509481984.0
  {
    LargePowers();
    var q := 4611730162393974784.0 / 9223416180821364736.0;
    RoundTo(q, 4503621181938518.0 / 9007199254740992.0, 53, 9007199254740992, 9007199254740992.0 * q, 4503621181938518);
    var p := 4611686018427392000.0 / 9223416180821364736.0;
    RoundTo(p, 9007156145604953.0 / 18014398509481984.0, 54, 18014398509481984, 18014398509481984.0 * p,
            9007156145604953);
  }

  lemma PartsOfReward()
    ensures Times(Round, 3232485603750322.0, 4503621181938518.0 / 9007199254740992.0) == 1616250537335303.0
    ensures Times(Round, 3232485603750322.0, 9007156145604953.0 / 18014398509481984.0) == 1616235066415020.0
  {
    var x := 3232485603750322.0 * (4503621181938518.0 / 9007199254740992.0);
    RoundTo(x, 1616250537335303.0, 2, 4, 4.0 * x, 6465002149341212);
    var y := 3232485603750322.0 * (9007156145604953.0 / 18014398509481984.0);
    RoundTo(y, 1616235066415020.0, 2, 4, 4.0 * y, 6464940265660080);
  }

  /** A miner's reward from the values of its roundings. */
  lemma RewardIs(fl: real -> real, net: Uint64, d: Uint64, t: Uint64, conv: real -> Uint64,
                 dr: real, tr: real, p: real, r: Uint64)
    requires fl(net as real) == net as real && fl(d as real) == dr && fl(t as real) == tr && tr > 0.0
    requires fl(dr / tr) == p && Times(fl, net as real, p) == r as real
    ensures MinerReward(fl, net, d, t, conv) == r
  {
  }

  /** Two miners' rewards from the values of all roundings. */
  lemma BothRewards(fl: real -> real, net: Uint64, d: Uint64, e: Uint64, conv: real -> Uint64,
                    dr: real, er: real, tr: real, p: real, q: real, g: Uint64, h: Uint64)
    requires d + e < TWO64 && fl(net as real) == net as real && fl((d + e) as real) == tr && tr > 0.0
    requires fl(d as real) == dr && fl(dr / tr) == p && Times(fl, net as real, p) == g as real
    requires fl(e as real) == er && fl(er / tr) == q && Times(fl, net as real, q) == h as real
    ensures MinerReward(fl, net, d, d + e, conv) == g && MinerReward(fl, net, e, d + e, conv) == h
  {
    RewardIs(fl, net, d, d + e, conv, dr, tr, p, g);
    RewardIs(fl, net, e, d + e, conv, er, tr, q, h);
  }

  lemma TwoMinerRewardsOf(fl: real -> real, conv: real -> Uint64, p: real, q: real)
    requires fl(4611730162393974272.0) == 4611730162393974784.0 && fl(4611686018427391488.0) == 4611686018427392000.0
    requires fl(9223416180821365760.0) == 9223416180821364736.0 && fl(3232485603750322.0) == 3232485603750322.0
    requires fl(4611730162393974784.0 / 9223416180821364736.0) == p
    requires fl(4611686018427392000.0 / 9223416180821364736.0) == q
    requires Times(fl, 3232485603750322.0, p) == 1616250537335303.0
    requires Times(fl, 3232485603750322.0, q) == 1616235066415020.0
    ensures fl((FIRST + SECOND) as real) > 0.0
    ensures MinerReward(fl, REWARD, FIRST, FIRST + SECOND, conv) == 1616250537335303
    ensures MinerReward(fl, REWARD, SECOND, FIRST + SECOND, conv) == 1616235066415020
  {
    BothRewards(fl, 3232485603750322, 4611730162393974272, 4611686018427391488, conv, 4611730162393974784.0,
                4611686018427392000.0, 9223416180821364736.0, p, q, 1616250537335303, 1616235066415020);
  }

  lemma TwoMinerRewards(conv: real -> Uint64)
    ensures Round((FIRST + SECOND) as real) > 0.0
    ensures MinerReward(Round, REWARD, FIRST, FIRST + SECOND, conv) == 1616250537335303
    ensures MinerReward(Round, REWARD, SECOND, FIRST + SECOND, conv) == 1616235066415020
  {
    Conversions();
    Parts();
    PartsOfReward();
    TwoMinerRewardsOf(Round, conv, 4503621181938518.0 / 9007199254740992.0, 9007156145604953.0 / 18014398509481984.0);
  }

  lemma TwoShareTotals(a: string, b: string, d: Uint64, e: Uint64)
    requires a != b
    ensures
      var shares := [Share(a, "", d, 0), Share(b, "", e, 0)];
      Total(shares) == d + e && DiffOf(shares, a) == d && DiffOf(shares, b) == e && Miners(shares) == {a, b}
  {
    var shares := [Share(a, "", d, 0), Share(b, "", e, 0)];
    TotalsOfPrefix(shares, 0, a);
    TotalsOfPrefix(shares, 1, a);
    TotalsOfPrefix(shares, 0, b);
    TotalsOfPrefix(shares, 1, b);
    assert shares[..0] == [] && shares[..2] == shares;
  }

  lemma TwoRewards(fl: real -> real, a: string, b: string, d: Uint64, e: Uint64, net: Uint64, conv: real -> Uint64)
    requires a != b && d + e < TWO64 && fl((d + e) as real) > 0.0
    ensures
      var shares := [Share(a, "", d, 0), Share(b, "", e, 0)];
      && Total(shares) == d + e
      && Rewards(fl, shares, net, conv)
         == map[a := MinerReward(fl, net, d, d + e, conv), b := MinerReward(fl, net, e, d + e, conv)]
  {
    TwoShareTotals(a, b, d, e);
  }

  /** Two miners, a reward below 2^52, no fee: together they are paid one unit too many. */
  lemma TwoMinersOverpaid(a: string, b: string, conv: real -> Uint64)
    requires a != b
    ensures
      var shares := [Share(a, "", FIRST, 0), Share(b, "", SECOND, 0)];
      && Total(shares) < TWO64 && Round(Wrap(Total(shares)) as real) > 0.0
      && Rewards(Round, shares, REWARD, conv) == map[a := 1616250537335303, b := 1616235066415020]
      && 1616250537335303 + 1616235066415020 == REWARD + 1
  {
    TwoMinerRewards(conv);
    TwoRewards(Round, a, b, FIRST, SECOND, REWARD, conv);
  }
}
