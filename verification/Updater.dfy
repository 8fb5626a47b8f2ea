/** Distribution of a confirmed transfer (cmd/master/updater.go, calculateDistributions): two
    successive truncations per miner, and the pool fee as what the total truncation leaves. Every
    conversion, product, quotient and difference is rounded by `fl`. */
module Updater {
  import opened Binary64
  import opened Reals
  import opened Sums
  import opened Shares
  import opened Distribution

  /** uint64(float64(amount) * percentage); 0/0 is not a number and converts to any value. */
  function Gross(fl: real -> real, amount: Uint64, d: Uint64, t: Uint64, conv: real -> Uint64, nan: Uint64): Uint64 {
    if fl(t as real) > 0.0 then MinerReward(fl, amount, d, t, conv) else nan
  }

  function Hundredth(x: real): real {
    x / 100.0
  }

  /** float64(gross) * (100 - feePercent) / 100. */
  function Kept(fl: real -> real, gross: real, keep: real): real {
    fl(Hundredth(Times(fl, fl(gross), keep)))
  }

  function AfterFee(fl: real -> real, gross: Uint64, feePercent: real, conv: real -> Uint64): Uint64 {
    ToUint64(Kept(fl, gross as real, fl(100.0 - feePercent)), conv)
  }

  function NetRewards(fl: real -> real, shares: seq<Share>, amount: Uint64, feePercent: real,
                      conv: real -> Uint64, nan: Uint64): map<string, Uint64> {
    map a | a in Miners(shares) ::
      AfterFee(fl, Gross(fl, amount, Wrap(DiffOf(shares, a)), Wrap(Total(shares)), conv, nan), feePercent, conv)
  }

  /** amount - totalNetReward in uint64 arithmetic. */
  function PoolFee(fl: real -> real, amount: Uint64, feePercent: real, conv: real -> Uint64): Uint64 {
    Wrap(amount - AfterFee(fl, amount, feePercent, conv))
  }

  /** Everything the records of one transfer add up to. */
  ghost function PaidOut(fl: real -> real, shares: seq<Share>, amount: Uint64, feePercent: real,
                         conv: real -> Uint64, nan: Uint64): int {
    Sum(NetRewards(fl, shares, amount, feePercent, conv, nan)) + PoolFee(fl, amount, feePercent, conv)
  }

  datatype Record = Record(miner: string, sharesContrib: Uint64, rewardGross: Uint64, rewardNet: Uint64)

  function MinerRecord(fl: real -> real, shares: seq<Share>, amount: Uint64, feePercent: real,
                       conv: real -> Uint64, nan: Uint64, miner: string): (r: Record)
    ensures miner in Miners(shares) ==> r.rewardNet == NetRewards(fl, shares, amount, feePercent, conv, nan)[miner]
  {
    var contrib := Wrap(DiffOf(shares, miner));
    var gross := Gross(fl, amount, contrib, Wrap(Total(shares)), conv, nan);
    Record(miner, contrib, gross, AfterFee(fl, gross, feePercent, conv))
  }

  function FeeRecord(fl: real -> real, amount: Uint64, feePercent: real, conv: real -> Uint64, feeAddress: string)
    : Record
  {
    var fee := PoolFee(fl, amount, feePercent, conv);
    Record(feeAddress, 0, fee, fee)
  }

  /** The records in the order the map is visited, the pool's last. */
  method CalculateDistributions(fl: real -> real, shares: seq<Share>, amount: Uint64, feePercent: real,
                                conv: real -> Uint64, nan: Uint64, feeAddress: string)
    returns (records: seq<Record>)
    ensures shares == [] ==> records == []
    ensures shares != [] ==>
      && |records| == |Miners(shares)| + 1
      && records[|records| - 1] == FeeRecord(fl, amount, feePercent, conv, feeAddress)
      && (forall i :: 0 <= i < |records| - 1 ==>
            && records[i].miner in Miners(shares)
            && records[i] == MinerRecord(fl, shares, amount, feePercent, conv, nan, records[i].miner))
      && (forall i, j :: 0 <= i < j < |records| - 1 ==> records[i].miner != records[j].miner)
  {
    if shares == [] { return []; }
    var total, diffs := Aggregate(shares);
    records := [];
    var todo := diffs.Keys;
    while todo != {}
      invariant todo <= diffs.Keys && |records| + |todo| == |Miners(shares)|
      invariant forall i :: 0 <= i < |records| ==>
        && records[i].miner in Miners(shares) && records[i].miner !in todo
        && records[i] == MinerRecord(fl, shares, amount, feePercent, conv, nan, records[i].miner)
      invariant forall i, j :: 0 <= i < j < |records| ==> records[i].miner != records[j].miner
      decreases todo
    {
      var miner :| miner in todo;
      var gross := Gross(fl, amount, diffs[miner], total, conv, nan);
      records := records + [Record(miner, diffs[miner], gross, AfterFee(fl, gross, feePercent, conv))];
      todo := todo - {miner};
    }
    var poolFee := PoolFee(fl, amount, feePercent, conv);
    records := records + [Record(feeAddress, 0, poolFee, poolFee)];
  }

  // ---- With rounding -----------------------------------------------------------------------

  /** Two roundings around a division by a hundred: (1 - u)^2 x <= 100 y <= (1 + u)^2 x. */
  ghost predicate TwoRoundings(x: real, y: real) {
    && 8112963841460668169578900514406400.0 * y <= 81129638414606699710187514626049.0 * x
    && 81129638414606663681390495662081.0 * x <= 8112963841460668169578900514406400.0 * y
  }

  lemma TwoNear(x: real, m: real, y: real)
    requires Near(x, m) && Near(Hundredth(m), y)
    ensures TwoRoundings(x, y)
  {
  }

  lemma KeepWithin(fl: real -> real, feePercent: real)
    requires Correct(fl) && 0.0 <= feePercent <= 100.0
    ensures 0.0 <= fl(100.0 - feePercent) <= 100.0
  {
    assert fl(100.0) == 100.0;
  }

  lemma RoundedNear(fl: real -> real, x: real)
    requires Correct(fl) && 0.0 <= x
    ensures 0.0 <= fl(x) && Near(x, fl(x))
  {
  }

  lemma KeptRounded(fl: real -> real, g: real, k: real)
    requires Correct(fl) && 0.0 <= g == fl(g) && 0.0 <= k
    ensures TwoRoundings(g * k, Kept(fl, g, k)) && 0.0 <= Kept(fl, g, k)
  {
    var m := Times(fl, g, k);
    TimesNear(fl, g, k);
    RoundedNear(fl, Hundredth(m));
    TwoNear(g * k, m, Kept(fl, g, k));
  }

  /** The same, as a share of g below 2^51. */
  lemma KeptBounded(g: real, k: real, y: real)
    requires 0.0 <= g < TWO51 as real && 0.0 <= k <= 100.0 && TwoRoundings(g * k, y)
    ensures y < g + 1.0
  {
    Percent(g, k);
    SlightlyAbove(g * k, g, y);
  }

  lemma Percent(g: real, k: real)
    requires 0.0 <= g && k <= 100.0
    ensures g * k <= 100.0 * g
  {
    Scale(k, 100.0, g);
  }

  lemma SlightlyAbove(x: real, g: real, y: real)
    requires 0.0 <= g < TWO51 as real && x <= 100.0 * g && TwoRoundings(x, y)
    ensures y < g + 1.0
  {
  }

  ghost predicate CoefficientsOf(k: real, a: real, b: real, c: real) {
    && a == 8112963841460668169578900514406400.0
    && b == 81129638414606699710187514626049.0 * k && c == 81129638414606663681390495662081.0 * k
  }

  lemma NetLinear(g: real, k: real, y: real, r: real, a: real, b: real, c: real)
    requires TwoRoundings(g * k, y) && r <= y < r + 1.0 && CoefficientsOf(k, a, b, c)
    ensures Linear(a, b, 0.0, r, g, 1.0) && Linear(c, a, a, g, r, 1.0)
  {
    Regroup(81129638414606699710187514626049.0, k, g);
    Regroup(81129638414606663681390495662081.0, k, g);
  }

  /** A net reward against its gross reward, below 2^51. */
  lemma AfterFeeWithin(fl: real -> real, g: Uint64, feePercent: real, conv: real -> Uint64, a: real, b: real, c: real)
    requires Correct(fl) && 0.0 <= feePercent <= 100.0 && g < TWO51
    requires CoefficientsOf(fl(100.0 - feePercent), a, b, c)
    ensures AfterFee(fl, g, feePercent, conv) <= g
    ensures Linear(a, b, 0.0, AfterFee(fl, g, feePercent, conv) as real, g as real, 1.0)
    ensures Linear(c, a, a, g as real, AfterFee(fl, g, feePercent, conv) as real, 1.0)
  {
    KeepWithin(fl, feePercent);
    KeptWithin(fl, g as real, fl(100.0 - feePercent), a, b, c);
    AfterFeeIs(fl, g, feePercent, conv, Kept(fl, g as real, fl(100.0 - feePercent)));
  }

  lemma KeptWithin(fl: real -> real, g: real, k: real, a: real, b: real, c: real)
    requires Correct(fl) && 0.0 <= g == fl(g) && g < TWO51 as real && 0.0 <= k <= 100.0 && CoefficientsOf(k, a, b, c)
    ensures
      var y := Kept(fl, g, k);
      && 0.0 <= y < g + 1.0
      && Linear(a, b, 0.0, y.Floor as real, g, 1.0) && Linear(c, a, a, g, y.Floor as real, 1.0)
  {
    var y := Kept(fl, g, k);
    KeptRounded(fl, g, k);
    KeptBounded(g, k, y);
    NetLinear(g, k, y, y.Floor as real, a, b, c);
  }

  lemma AfterFeeIs(fl: real -> real, g: Uint64, feePercent: real, conv: real -> Uint64, y: real)
    requires y == Kept(fl, g as real, fl(100.0 - feePercent)) && 0.0 <= y < g as real + 1.0
    ensures AfterFee(fl, g, feePercent, conv) == y.Floor <= g
  {
  }

  lemma SumNets(gross: map<string, int>, nets: map<string, int>, a: real, b: real, c: real)
    requires gross.Keys == nets.Keys
    requires forall m :: m in nets ==> Linear(a, b, 0.0, nets[m] as real, gross[m] as real, 1.0)
    requires forall m :: m in nets ==> Linear(c, a, a, gross[m] as real, nets[m] as real, 1.0)
    ensures Linear(a, b, 0.0, Sum(nets) as real, Sum(gross) as real, |nets| as real)
    ensures Linear(c, a, a, Sum(gross) as real, Sum(nets) as real, |nets| as real)
  {
    SumLinear(nets, gross, a, b, 0.0);
    SumLinear(gross, nets, c, a, a);
    assert |gross| == |gross.Keys| && |nets| == |nets.Keys|;
  }

  /** s truncated nets of gross rewards that add up to g, against the truncated net t of the whole
      amount, of which g is all but n units at most. */
  lemma NetsAgainstTotal(s: int, g: int, t: int, amount: nat, n: nat, k: real, a: real, b: real, c: real)
    requires 0.0 <= k <= 100.0 && CoefficientsOf(k, a, b, c) && amount < TWO51 && amount - n <= g <= amount
    requires Linear(a, b, 0.0, s as real, g as real, n as real) && Linear(c, a, a, g as real, s as real, n as real)
    requires Linear(a, b, 0.0, t as real, amount as real, 1.0) && Linear(c, a, a, amount as real, t as real, 1.0)
    ensures t - 2 * n <= s <= t + 1
  {
    Excess(s as real, g as real, t as real, amount as real, n as real, k, a, b, c);
    Shortfall(s as real, g as real, t as real, amount as real, n as real, k, a, b, c);
  }

  lemma Excess(s: real, g: real, t: real, amount: real, n: real, k: real, a: real, b: real, c: real)
    requires 0.0 <= k <= 100.0 && CoefficientsOf(k, a, b, c) && 0.0 <= amount < TWO51 as real && g <= amount
    requires Linear(a, b, 0.0, s, g, n) && Linear(c, a, a, amount, t, 1.0)
    ensures s < t + 2.0
  {
    Scale(g, amount, k);
    Scale(k, 100.0, amount);
    Regroup(81129638414606699710187514626049.0, k, g);
    Regroup(81129638414606663681390495662081.0, k, amount);
    ExcessLinear(s, t, amount, k * g, k * amount, n);
  }

  lemma ExcessLinear(s: real, t: real, amount: real, kg: real, ka: real, n: real)
    requires amount < TWO51 as real && kg <= ka <= 100.0 * amount
    requires 8112963841460668169578900514406400.0 * s <= 81129638414606699710187514626049.0 * kg + n * 0.0
    requires 81129638414606663681390495662081.0 * ka <= 8112963841460668169578900514406400.0 * (t + 1.0)
    ensures s < t + 2.0
  {
  }

  lemma Shortfall(s: real, g: real, t: real, amount: real, n: real, k: real, a: real, b: real, c: real)
    requires 0.0 <= k <= 100.0 && CoefficientsOf(k, a, b, c) && 0.0 <= amount < TWO51 as real
    requires 0.0 <= n && amount - n <= g
    requires Linear(c, a, a, g, s, n) && Linear(a, b, 0.0, t, amount, 1.0)
    ensures t - 2.0 * n - 1.0 < s
  {
    Scale(amount - n, g, k);
    assert k * (amount - n) == k * amount - k * n;
    Scale(k, 100.0, amount);
    Scale(k, 100.0, n);
    Regroup(81129638414606663681390495662081.0, k, g);
    Regroup(81129638414606699710187514626049.0, k, amount);
    ShortfallLinear(s, t, amount, n, k * g, k * amount, k * n);
  }

  lemma ShortfallLinear(s: real, t: real, amount: real, n: real, kg: real, ka: real, kn: real)
    requires amount < TWO51 as real && ka - kn <= kg && ka <= 100.0 * amount && kn <= 100.0 * n && 0.0 <= n
    requires 81129638414606663681390495662081.0 * kg <= 8112963841460668169578900514406400.0 * (s + n)
    requires 8112963841460668169578900514406400.0 * t <= 81129638414606699710187514626049.0 * ka
    ensures t - 2.0 * n - 1.0 < s
  {
  }

  lemma GrossIsReward(fl: real -> real, shares: seq<Share>, amount: Uint64, conv: real -> Uint64, nan: Uint64,
                      m: string)
    requires Correct(fl) && 0 < Total(shares) < TWO64 && m in Miners(shares)
    ensures fl(Wrap(Total(shares)) as real) > 0.0
    ensures Gross(fl, amount, Wrap(DiffOf(shares, m)), Wrap(Total(shares)), conv, nan)
         == Rewards(fl, shares, amount, conv)[m]
  {
    RoundedNear(fl, Total(shares) as real);
  }

  lemma NetOfReward(fl: real -> real, shares: seq<Share>, amount: Uint64, feePercent: real,
                    conv: real -> Uint64, nan: Uint64, m: string)
    requires Correct(fl) && 0 < Total(shares) < TWO64 && m in Miners(shares)
    ensures fl(Wrap(Total(shares)) as real) > 0.0
    ensures NetRewards(fl, shares, amount, feePercent, conv, nan)[m]
         == AfterFee(fl, Rewards(fl, shares, amount, conv)[m], feePercent, conv)
  {
    GrossIsReward(fl, shares, amount, conv, nan, m);
  }

  /** Gross rewards never exceed the amount, one by one and together. */
  lemma RewardAtMost(fl: real -> real, shares: seq<Share>, amount: Uint64, conv: real -> Uint64, m: string)
    requires Correct(fl) && 0 < Total(shares) < TWO64 && amount < TWO51 && m in Miners(shares)
    ensures fl(Wrap(Total(shares)) as real) > 0.0 && Rewards(fl, shares, amount, conv)[m] <= amount
  {
    NetDivided(fl, shares, amount, conv);
    var rewards := Rewards(fl, shares, amount, conv);
    SumRemove(rewards, m);
    SumNonNegative(rewards - {m});
  }

  lemma SumNetRewards(fl: real -> real, shares: seq<Share>, amount: Uint64, feePercent: real,
                      conv: real -> Uint64, nan: Uint64, a: real, b: real, c: real)
    requires Correct(fl) && 0 < Total(shares) < TWO64 && amount < TWO51 && 0.0 <= feePercent <= 100.0
    requires CoefficientsOf(fl(100.0 - feePercent), a, b, c)
    ensures fl(Wrap(Total(shares)) as real) > 0.0
    ensures
      var s, g := Sum(NetRewards(fl, shares, amount, feePercent, conv, nan)), Sum(Rewards(fl, shares, amount, conv));
      && Linear(a, b, 0.0, s as real, g as real, |Miners(shares)| as real)
      && Linear(c, a, a, g as real, s as real, |Miners(shares)| as real)
  {
    RoundedNear(fl, Total(shares) as real);
    var gross, nets := Rewards(fl, shares, amount, conv), NetRewards(fl, shares, amount, feePercent, conv, nan);
    forall m | m in nets
      ensures Linear(a, b, 0.0, nets[m] as real, gross[m] as real, 1.0)
      ensures Linear(c, a, a, gross[m] as real, nets[m] as real, 1.0)
    {
      NetOfReward(fl, shares, amount, feePercent, conv, nan, m);
      RewardAtMost(fl, shares, amount, conv, m);
      AfterFeeWithin(fl, gross[m], feePercent, conv, a, b, c);
    }
    assert nets.Keys == Miners(shares) == gross.Keys;
    SumNets(gross, nets, a, b, c);
  }

  /** Below 2^51 all net rewards together with the pool fee exceed the transfer by at most one unit,
      and fall short of it by at most two per miner, whatever is rounded on the way. */
  lemma TransferWithin(fl: real -> real, shares: seq<Share>, amount: Uint64, feePercent: real,
                       conv: real -> Uint64, nan: Uint64)
    requires Correct(fl) && 0 < Total(shares) < TWO64 && amount < TWO51 && 0.0 <= feePercent <= 100.0
    ensures amount - 2 * |Miners(shares)| <= PaidOut(fl, shares, amount, feePercent, conv, nan) <= amount + 1
  {
    var k := fl(100.0 - feePercent);
    var a, b := 8112963841460668169578900514406400.0, 81129638414606699710187514626049.0 * k;
    var c := 81129638414606663681390495662081.0 * k;
    KeepWithin(fl, feePercent);
    SumNetRewards(fl, shares, amount, feePercent, conv, nan, a, b, c);
    AfterFeeWithin(fl, amount, feePercent, conv, a, b, c);
    NetDivided(fl, shares, amount, conv);
    NetsAgainstTotal(Sum(NetRewards(fl, shares, amount, feePercent, conv, nan)), Sum(Rewards(fl, shares, amount, conv)),
                     AfterFee(fl, amount, feePercent, conv), amount, |Miners(shares)|, k, a, b, c);
  }

  // ---- Whole percentages -------------------------------------------------------------------

  /** Up to 2^53 a rounded hundredth truncates like the exact one. */
  lemma HundredthFloor(fl: real -> real, m: nat)
    requires Correct(fl) && m <= TWO53
    ensures 0.0 <= fl(Hundredth(m as real)) && fl(Hundredth(m as real)).Floor == m / 100
  {
    var q := m / 100;
    RoundedNear(fl, Hundredth(m as real));
    RoundedInOrder(fl, q as real, Hundredth(m as real));
    assert fl(q as real) == q as real;
  }

  lemma WholeProduct(g: nat, k: nat)
    ensures g as real * k as real == (g * k) as real
  {
  }

  lemma ProductAtMost(g: nat, k: nat)
    requires k <= 100
    ensures 0 <= g * k <= 100 * g
  {
  }

  function Truncated(g: nat, k: nat): nat {
    g * k / 100
  }

  lemma KeptWhole(fl: real -> real, g: nat, k: nat)
    requires Correct(fl) && k <= 100 && 100 * g <= TWO53
    ensures 0.0 <= Kept(fl, g as real, k as real) && Kept(fl, g as real, k as real).Floor == Truncated(g, k)
  {
    ProductAtMost(g, k);
    WholeProduct(g, k);
    assert fl(g as real) == g as real;
    assert fl((g * k) as real) == (g * k) as real;
    HundredthFloor(fl, g * k);
  }

  lemma TruncatedAtMost(g: nat, k: nat)
    requires k <= 100
    ensures Truncated(g, k) <= g
  {
  }

  /** With a fee in whole percent and an amount up to 2^53 / 100 the net reward is exact. */
  lemma WholePercent(fl: real -> real, g: Uint64, fee: nat, conv: real -> Uint64)
    requires Correct(fl) && fee <= 100 && 100 * g <= TWO53
    ensures AfterFee(fl, g, fee as real, conv) == Truncated(g, 100 - fee)
  {
    var k := 100 - fee;
    assert 100.0 - fee as real == k as real && fl(k as real) == k as real;
    KeptWhole(fl, g, k);
    TruncatedAtMost(g, k);
  }

  lemma TruncatedLinear(g: nat, k: nat)
    ensures Linear(100.0, k as real, 0.0, Truncated(g, k) as real, g as real, 1.0)
  {
    WholeProduct(k, g);
  }

  lemma TruncatedSum(s: int, g: int, amount: nat, k: nat, n: real)
    requires Linear(100.0, k as real, 0.0, s as real, g as real, n) && g <= amount
    ensures s <= Truncated(amount, k)
  {
    Scale(g as real, amount as real, k as real);
    WholeProduct(k, amount);
    assert (100 * s) as real <= (k * amount) as real;
    assert k * amount == amount * k;
  }

  lemma WholePercentLinear(fl: real -> real, g: Uint64, fee: nat, conv: real -> Uint64, k: real)
    requires Correct(fl) && fee <= 100 && 100 * g <= TWO53 && k == (100 - fee) as real
    ensures Linear(100.0, k, 0.0, AfterFee(fl, g, fee as real, conv) as real, g as real, 1.0)
  {
    WholePercent(fl, g, fee, conv);
    TruncatedLinear(g, 100 - fee);
  }

  lemma NetWholePercent(fl: real -> real, shares: seq<Share>, amount: Uint64, fee: nat,
                        conv: real -> Uint64, nan: Uint64, m: string, k: real)
    requires Correct(fl) && 0 < Total(shares) < TWO64 && fee <= 100 && 100 * amount <= TWO53
    requires m in Miners(shares) && k == (100 - fee) as real
    ensures fl(Wrap(Total(shares)) as real) > 0.0
    ensures Linear(100.0, k, 0.0, NetRewards(fl, shares, amount, fee as real, conv, nan)[m] as real,
                   Rewards(fl, shares, amount, conv)[m] as real, 1.0)
  {
    NetOfReward(fl, shares, amount, fee as real, conv, nan, m);
    RewardAtMost(fl, shares, amount, conv, m);
    WholePercentLinear(fl, Rewards(fl, shares, amount, conv)[m], fee, conv, k);
  }

  lemma SumWholePercent(fl: real -> real, shares: seq<Share>, amount: Uint64, fee: nat,
                        conv: real -> Uint64, nan: Uint64, k: real)
    requires Correct(fl) && 0 < Total(shares) < TWO64 && fee <= 100 && 100 * amount <= TWO53
    requires k == (100 - fee) as real
    ensures fl(Wrap(Total(shares)) as real) > 0.0
    ensures Linear(100.0, k, 0.0, Sum(NetRewards(fl, shares, amount, fee as real, conv, nan)) as real,
                   Sum(Rewards(fl, shares, amount, conv)) as real, |Miners(shares)| as real)
  {
    RoundedNear(fl, Total(shares) as real);
    var gross, nets := Rewards(fl, shares, amount, conv), NetRewards(fl, shares, amount, fee as real, conv, nan);
    forall m | m in nets ensures Linear(100.0, k, 0.0, nets[m] as real, gross[m] as real, 1.0) {
      NetWholePercent(fl, shares, amount, fee, conv, nan, m, k);
    }
    assert nets.Keys == Miners(shares) == gross.Keys;
    SumLinear(nets, gross, 100.0, k, 0.0);
    assert |nets| == |nets.Keys|;
  }

  /** Then nothing is overpaid, whoever the miners are. */
  lemma WholePercentConserved(fl: real -> real, shares: seq<Share>, amount: Uint64, fee: nat,
                              conv: real -> Uint64, nan: Uint64)
    requires Correct(fl) && 0 < Total(shares) < TWO64 && fee <= 100 && 100 * amount <= TWO53
    ensures amount - 2 * |Miners(shares)| <= PaidOut(fl, shares, amount, fee as real, conv, nan) <= amount
  {
    TransferWithin(fl, shares, amount, fee as real, conv, nan);
    NetDivided(fl, shares, amount, conv);
    SumWholePercent(fl, shares, amount, fee, conv, nan, (100 - fee) as real);
    TruncatedSum(Sum(NetRewards(fl, shares, amount, fee as real, conv, nan)), Sum(Rewards(fl, shares, amount, conv)),
                 amount, 100 - fee, |Miners(shares)| as real);
    WholePercent(fl, amount, fee, conv);
    TruncatedAtMost(amount, 100 - fee);
  }

  // ---- Without a fee: the exact threshold --------------------------------------------------

  /** The least amount that the multiplication and division by a hundred make smaller. */
  const THRESHOLD: Uint64 := 360287970189641

  lemma RoundHundredfold(g: nat)
    requires g < THRESHOLD
    ensures Round((100 * g) as real) == (100 * g) as real
  {
    if g == 360287970189640 {
      RoundExact(4503599627370500);
      DoubledTo(4503599627370500.0, 3, 8, (100 * g) as real);
      RoundScale(4503599627370500.0, 3);
    } else {
      RoundExact(25 * g);
      RoundDouble((25 * g) as real);
      RoundDouble(2.0 * (25 * g) as real);
    }
  }

  lemma KeptBack(fl: real -> real, g: real, x: real)
    requires fl(g) == g && x == g * 100.0 && fl(x) == x
    ensures Kept(fl, g, 100.0) == g
  {
  }

  lemma HundredfoldBack(g: nat)
    requires g < THRESHOLD
    ensures Round(100.0) == 100.0 && Kept(Round, g as real, 100.0) == g as real
  {
    RoundExact(100);
    RoundExact(g);
    RoundHundredfold(g);
    KeptBack(Round, g as real, (100 * g) as real);
  }

  lemma NothingKeptBack(g: Uint64, conv: real -> Uint64)
    requires g < THRESHOLD
    ensures AfterFee(Round, g, 0.0, conv) == g
  {
    HundredfoldBack(g);
  }

  lemma ThresholdValue(conv: real -> Uint64)
    ensures AfterFee(Round, THRESHOLD, 0.0, conv) == THRESHOLD - 1
  {
    RoundExact(100);
    RoundExact(THRESHOLD);
    DoubledTo(4503599627370512.5, 3, 8, 36028797018964100.0);
    DoubledTo(4503599627370512.0, 3, 8, 36028797018964096.0);
    RoundDownscaled(36028797018964100.0, 36028797018964096.0, 3, 4503599627370512.5, 4503599627370512);
    RoundTo(360287970189640.96, 360287970189640.9375, 4, 16, 5764607523034255.36, 5764607523034255);
    assert Hundredth(36028797018964096.0) == 360287970189640.96;
  }

  lemma ThresholdParts()
    ensures Round(207.0 / 512.0) == 207.0 / 512.0 && Round(305.0 / 512.0) == 305.0 / 512.0
  {
    LargePowers();
    RoundTo(207.0 / 512.0, 207.0 / 512.0, 54, 18014398509481984, 7283165022388224.0, 7283165022388224);
    RoundTo(305.0 / 512.0, 305.0 / 512.0, 53, 9007199254740992, 5365616743546880.0, 5365616743546880);
  }

  lemma PartsOfThreshold()
    ensures Times(Round, 360287970189641.0, 207.0 / 512.0) == 145663300447765.0
    ensures Times(Round, 360287970189641.0, 305.0 / 512.0) == 214624669741876.0
  {
    var x, y := 360287970189641.0 * (207.0 / 512.0), 360287970189641.0 * (305.0 / 512.0);
    RoundTo(x, 145663300447765.0, 5, 32, 32.0 * x, 4661225614328480);
    RoundTo(y, 214624669741876.0, 5, 32, 32.0 * y, 6867989431740032);
  }

  lemma ThresholdGrossOf(fl: real -> real, conv: real -> Uint64, p: real, q: real)
    requires fl(207.0) == 207.0 && fl(305.0) == 305.0 && fl(512.0) == 512.0
    requires fl(360287970189641.0) == 360287970189641.0
    requires fl(207.0 / 512.0) == p && fl(305.0 / 512.0) == q
    requires Times(fl, 360287970189641.0, p) == 145663300447765.0
    requires Times(fl, 360287970189641.0, q) == 214624669741876.0
    ensures MinerReward(fl, THRESHOLD, 207, 512, conv) == 145663300447765
    ensures MinerReward(fl, THRESHOLD, 305, 512, conv) == 214624669741876
  {
    BothRewards(fl, 360287970189641, 207, 305, conv, 207.0, 305.0, 512.0, p, q, 145663300447765, 214624669741876);
  }

  lemma ThresholdGross(conv: real -> Uint64)
    ensures Round(512.0) == 512.0
    ensures MinerReward(Round, THRESHOLD, 207, 512, conv) == 145663300447765
    ensures MinerReward(Round, THRESHOLD, 305, 512, conv) == 214624669741876
  {
    RoundExact(512);
    RoundExact(207);
    RoundExact(305);
    RoundExact(360287970189641);
    ThresholdParts();
    PartsOfThreshold();
    ThresholdGrossOf(Round, conv, 207.0 / 512.0, 305.0 / 512.0);
  }

  function TwoShares(d: Uint64, e: Uint64): seq<Share> {
    [Share("a", "", d, 0), Share("b", "", e, 0)]
  }

  lemma SumOfTwo(m: map<string, int>)
    requires m.Keys == {"a", "b"}
    ensures Sum(m) == m["a"] + m["b"]
  {
    SumRemove(m, "a");
    SumRemove(m - {"a"}, "b");
    assert m - {"a"} - {"b"} == map[];
  }

  lemma TwoPaid(fl: real -> real, d: Uint64, e: Uint64, amount: Uint64, feePercent: real,
                conv: real -> Uint64, nan: Uint64, g: Uint64, h: Uint64)
    requires d + e < TWO64 && fl((d + e) as real) > 0.0 && AfterFee(fl, amount, feePercent, conv) <= amount
    requires MinerReward(fl, amount, d, d + e, conv) == g && MinerReward(fl, amount, e, d + e, conv) == h
    ensures PaidOut(fl, TwoShares(d, e), amount, feePercent, conv, nan)
         == AfterFee(fl, g, feePercent, conv) + AfterFee(fl, h, feePercent, conv)
            + amount - AfterFee(fl, amount, feePercent, conv)
  {
    var nets := NetRewards(fl, TwoShares(d, e), amount, feePercent, conv, nan);
    TwoNets(fl, d, e, amount, feePercent, conv, nan);
    SumOfTwo(nets);
  }

  lemma TwoNets(fl: real -> real, d: Uint64, e: Uint64, amount: Uint64, feePercent: real,
                conv: real -> Uint64, nan: Uint64)
    requires d + e < TWO64 && fl((d + e) as real) > 0.0
    ensures
      var nets := NetRewards(fl, TwoShares(d, e), amount, feePercent, conv, nan);
      && nets.Keys == {"a", "b"}
      && nets["a"] == AfterFee(fl, MinerReward(fl, amount, d, d + e, conv), feePercent, conv)
      && nets["b"] == AfterFee(fl, MinerReward(fl, amount, e, d + e, conv), feePercent, conv)
  {
    TwoShareTotals("a", "b", d, e);
  }

  /** At the threshold two miners and the pool together are paid one unit too many. */
  lemma ThresholdOverpays(conv: real -> Uint64, nan: Uint64)
    ensures PaidOut(Round, TwoShares(207, 305), THRESHOLD, 0.0, conv, nan) == THRESHOLD + 1
  {
    ThresholdGross(conv);
    NothingKeptBack(145663300447765, conv);
    NothingKeptBack(214624669741876, conv);
    ThresholdValue(conv);
    TwoPaid(Round, 207, 305, THRESHOLD, 0.0, conv, nan, 145663300447765, 214624669741876);
  }

  /** No transfer up to the bound is ever overpaid without a fee. */
  ghost predicate NeverOverpaid(bound: nat) {
    forall shares, amount: Uint64, conv, nan :: 0 < Total(shares) < TWO64 && amount <= bound ==>
      PaidOut(Round, shares, amount, 0.0, conv, nan) <= amount
  }

  lemma NothingTruncated(fl: real -> real, shares: seq<Share>, amount: Uint64, feePercent: real,
                         conv: real -> Uint64, nan: Uint64)
    requires Correct(fl) && 0 < Total(shares) < TWO64 && amount < TWO51
    requires forall g: Uint64 :: g <= amount ==> AfterFee(fl, g, feePercent, conv) == g
    ensures PaidOut(fl, shares, amount, feePercent, conv, nan) <= amount
  {
    NetDivided(fl, shares, amount, conv);
    var gross, nets := Rewards(fl, shares, amount, conv), NetRewards(fl, shares, amount, feePercent, conv, nan);
    forall m | m in nets ensures nets[m] == gross[m] {
      NetOfReward(fl, shares, amount, feePercent, conv, nan, m);
      RewardAtMost(fl, shares, amount, conv, m);
    }
    assert nets == gross;
  }

  lemma BelowThreshold(shares: seq<Share>, amount: Uint64, conv: real -> Uint64, nan: Uint64)
    requires 0 < Total(shares) < TWO64 && amount < THRESHOLD
    ensures PaidOut(Round, shares, amount, 0.0, conv, nan) <= amount
  {
    RoundIsCorrect();
    forall g: Uint64 | g <= amount ensures AfterFee(Round, g, 0.0, conv) == g { NothingKeptBack(g, conv); }
    NothingTruncated(Round, shares, amount, 0.0, conv, nan);
  }

  /** Without a fee that is so exactly below the threshold. */
  lemma NeverOverpaidIff(bound: nat)
    ensures NeverOverpaid(bound) <==> bound < THRESHOLD
  {
    if bound < THRESHOLD {
      forall shares, amount: Uint64, conv, nan | 0 < Total(shares) < TWO64 && amount <= bound
        ensures PaidOut(Round, shares, amount, 0.0, conv, nan) <= amount
      {
        BelowThreshold(shares, amount, conv, nan);
      }
    } else {
      TwoShareTotals("a", "b", 207, 305);
      ThresholdOverpays(_ => 0, 0);
    }
  }

  // ---- A fee of 14.4 percent ---------------------------------------------------------------

  /** 100 - 14.4 in float64: a little below 85.6. */
  const KEEP: real := 6023564501608038.0 / 70368744177664.0

  lemma KeepRounded()
    ensures Round(100.0 - Round(14.4)) == KEEP
  {
    LargePowers();
    var fee := 8106479329266893.0 / 562949953421312.0;
    RoundTo(14.4, fee, 49, 562949953421312, 562949953421312.0 * 14.4, 8106479329266893);
    RoundTo(100.0 - fee, KEEP, 46, 70368744177664, 70368744177664.0 * (100.0 - fee), 6023564501608038);
  }

  lemma KeptSmall()
    ensures Kept(Round, 125.0, KEEP) == 107.0 && Kept(Round, 250.0, KEEP) == 214.0
  {
    LargePowers();
    RoundExact(125);
    RoundExact(250);
    RoundTo(125.0 * KEEP, 10700.0, 39, 549755813888, 549755813888.0 * (125.0 * KEEP), 5882387208601600);
    RoundTo(250.0 * KEEP, 21400.0, 38, 274877906944, 274877906944.0 * (250.0 * KEEP), 5882387208601600);
    RoundExact(107);
    RoundExact(214);
  }

  lemma KeptWholeAmount()
    ensures 320.0 <= Kept(Round, 375.0, KEEP) < 321.0
  {
    LargePowers();
    RoundExact(375);
    var m := 8823580812902399.0 / 274877906944.0;
    RoundTo(375.0 * KEEP, m, 38, 274877906944, 274877906944.0 * (375.0 * KEEP), 8823580812902399);
    var y := 5647091720257535.0 / 17592186044416.0;
    RoundTo(m / 100.0, y, 44, 17592186044416, 17592186044416.0 * (m / 100.0), 5647091720257535);
  }

  lemma NetIs(fl: real -> real, g: Uint64, feePercent: real, conv: real -> Uint64, keep: real, n: nat)
    requires fl(100.0 - feePercent) == keep && n < TWO64 && n as real <= Kept(fl, g as real, keep) < (n + 1) as real
    ensures AfterFee(fl, g, feePercent, conv) == n
  {
  }

  lemma SmallNets(conv: real -> Uint64)
    ensures AfterFee(Round, 125, Round(14.4), conv) == 107 && AfterFee(Round, 250, Round(14.4), conv) == 214
    ensures AfterFee(Round, 375, Round(14.4), conv) == 320
  {
    KeepRounded();
    KeptSmall();
    KeptWholeAmount();
    NetIs(Round, 125, Round(14.4), conv, KEEP, 107);
    NetIs(Round, 250, Round(14.4), conv, KEEP, 214);
    NetIs(Round, 375, Round(14.4), conv, KEEP, 320);
  }

  lemma Thirds()
    ensures Round(125.0 / 375.0) == 6004799503160661.0 / 18014398509481984.0
    ensures Round(250.0 / 375.0) == 6004799503160661.0 / 9007199254740992.0
  {
    LargePowers();
    var p, q := 6004799503160661.0 / 18014398509481984.0, 6004799503160661.0 / 9007199254740992.0;
    RoundTo(125.0 / 375.0, p, 54, 18014398509481984, 18014398509481984.0 / 3.0, 6004799503160661);
    RoundTo(250.0 / 375.0, q, 53, 9007199254740992, 18014398509481984.0 / 3.0, 6004799503160661);
  }

  lemma ThirdsOf375()
    ensures Times(Round, 375.0, 6004799503160661.0 / 18014398509481984.0) == 125.0
    ensures Times(Round, 375.0, 6004799503160661.0 / 9007199254740992.0) == 250.0
  {
    LargePowers();
    var p, q := 6004799503160661.0 / 18014398509481984.0, 6004799503160661.0 / 9007199254740992.0;
    RoundTo(375.0 * p, 125.0, 46, 70368744177664, 70368744177664.0 * (375.0 * p), 8796093022208000);
    RoundTo(375.0 * q, 250.0, 45, 35184372088832, 35184372088832.0 * (375.0 * q), 8796093022208000);
  }

  lemma SmallGrossOf(fl: real -> real, conv: real -> Uint64, p: real, q: real)
    requires fl(125.0) == 125.0 && fl(250.0) == 250.0 && fl(375.0) == 375.0
    requires fl(125.0 / 375.0) == p && fl(250.0 / 375.0) == q
    requires Times(fl, 375.0, p) == 125.0 && Times(fl, 375.0, q) == 250.0
    ensures MinerReward(fl, 375, 125, 375, conv) == 125 && MinerReward(fl, 375, 250, 375, conv) == 250
  {
    BothRewards(fl, 375, 125, 250, conv, 125.0, 250.0, 375.0, p, q, 125, 250);
  }

  lemma SmallGross(conv: real -> Uint64)
    ensures Round(375.0) == 375.0
    ensures MinerReward(Round, 375, 125, 375, conv) == 125 && MinerReward(Round, 375, 250, 375, conv) == 250
  {
    RoundExact(125);
    RoundExact(250);
    RoundExact(375);
    Thirds();
    ThirdsOf375();
    SmallGrossOf(Round, conv, 6004799503160661.0 / 18014398509481984.0, 6004799503160661.0 / 9007199254740992.0);
  }

  /** A fee that is no whole percentage overpays even small amounts: 375 units pay out 376. */
  lemma FractionalFeeOverpays(conv: real -> Uint64, nan: Uint64)
    ensures PaidOut(Round, TwoShares(125, 250), 375, Round(14.4), conv, nan) == 376
  {
    SmallGross(conv);
    SmallNets(conv);
    TwoPaid(Round, 125, 250, 375, Round(14.4), conv, nan, 125, 250);
  }
}
