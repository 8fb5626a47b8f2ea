/** The same division in exact arithmetic (cmd/master/updater.go:333-378): what is left of the money
    when nothing but the truncations takes any. */
module UpdaterExact {
  import opened Binary64
  import opened Reals
  import opened Sums
  import opened Shares
  import opened Distribution
  import opened Updater

  function Exact(a: real, d: real, t: real): real
    requires t > 0.0
  {
    a * d / t
  }

  function Keep(feePercent: real): real {
    (100.0 - feePercent) / 100.0
  }

  function ExactKept(g: real, feePercent: real): real {
    g * (100.0 - feePercent) / 100.0
  }

  lemma KeptIs(g: real, feePercent: real)
    ensures ExactKept(g, feePercent) == g * Keep(feePercent)
  {
  }

  // ---- Without rounding the program computes these -----------------------------------------

  lemma KeptUnrounded(g: real, feePercent: real)
    ensures Kept(Unrounded, g, Unrounded(100.0 - feePercent)) == ExactKept(g, feePercent)
  {
  }

  lemma KeptRange(g: real, feePercent: real)
    requires 0.0 <= g && 0.0 <= feePercent <= 100.0
    ensures 0.0 <= ExactKept(g, feePercent) <= g
  {
    KeptIs(g, feePercent);
    Shrink(g, Keep(feePercent));
  }

  lemma NetUnrounded(g: Uint64, feePercent: real, conv: real -> Uint64)
    requires 0.0 <= feePercent <= 100.0
    ensures AfterFee(Unrounded, g, feePercent, conv) == ExactKept(g as real, feePercent).Floor
  {
    KeptUnrounded(g as real, feePercent);
    KeptRange(g as real, feePercent);
  }

  lemma ExactRange(a: real, d: real, t: real)
    requires 0.0 <= a && 0.0 <= d <= t && 0.0 < t
    ensures a * (d / t) == Exact(a, d, t) && 0.0 <= Exact(a, d, t) <= a
  {
    var q := Quotient(d, t);
    Shrink(a, q);
    assert a * q * t == a * d;
  }

  lemma GrossUnrounded(amount: Uint64, d: Uint64, t: Uint64, conv: real -> Uint64, nan: Uint64)
    requires d <= t && 0 < t
    ensures Gross(Unrounded, amount, d, t, conv, nan) == Exact(amount as real, d as real, t as real).Floor
  {
    ExactRange(amount as real, d as real, t as real);
  }

  // ---- Two truncations ---------------------------------------------------------------------

  lemma Below(g: real, x: real, keep: real, r: real)
    requires 0.0 <= keep && g <= x && r <= g * keep
    ensures r <= x * keep
  {
    Scale(g, x, keep);
  }

  lemma Above(g: real, x: real, keep: real, r: real)
    requires 0.0 <= keep <= 1.0 && x < g + 1.0 && g * keep < r + 1.0
    ensures x * keep < r + 2.0
  {
    var g' := g + 1.0;
    calc {
      x * keep;
    <= { Scale(x, g', keep); }
      g' * keep;
      g * keep + keep;
    <
      r + 1.0 + keep;
    <=
      r + 2.0;
    }
  }

  /** The exact reward after the fee is at least the paid one, and exceeds it by less than two. */
  lemma NetWithin(x: real, feePercent: real, g: real, r: real)
    requires 0.0 <= feePercent <= 100.0 && g <= x < g + 1.0 && r <= ExactKept(g, feePercent) < r + 1.0
    ensures r <= x * Keep(feePercent) < r + 2.0
  {
    KeptIs(g, feePercent);
    Below(g, x, Keep(feePercent), r);
    Above(g, x, Keep(feePercent), r);
  }

  lemma Cleared(a: real, d: real, t: real, keep: real)
    requires t > 0.0
    ensures Exact(a, d, t) * keep * t == keep * a * d
  {
    var q := a * d / t;
    assert q * t == a * d;
    assert q * keep * t == q * t * keep;
  }

  lemma NetBelow(a: real, d: real, t: real, keep: real, r: real)
    requires t > 0.0 && r <= Exact(a, d, t) * keep
    ensures Linear(t, keep * a, 0.0, r, d, 1.0)
  {
    Cleared(a, d, t, keep);
    Scale(r, Exact(a, d, t) * keep, t);
  }

  lemma NetAbove(a: real, d: real, t: real, keep: real, r: real)
    requires t > 0.0 && Exact(a, d, t) * keep < r + 2.0
    ensures Strict(keep * a, t, 2.0 * t, d, r, 1.0)
  {
    var r' := r + 2.0;
    calc {
      keep * a * d;
      { Cleared(a, d, t, keep); }
      Exact(a, d, t) * keep * t;
    < { StrictScale(Exact(a, d, t) * keep, r', t); }
      r' * t;
      t * r + 2.0 * t;
    }
  }

  /** A miner's net reward against the unrounded one, both scaled by the total. */
  ghost predicate Scaled(t: real, ka: real, r: real, d: real, n: real) {
    Linear(t, ka, 0.0, r, d, n) && Strict(ka, t, 2.0 * t, d, r, n)
  }

  lemma ScaledNet(a: real, d: real, t: real, feePercent: real, r: real)
    requires t > 0.0 && 0.0 <= feePercent <= 100.0
    requires r == ExactKept(Exact(a, d, t).Floor as real, feePercent).Floor as real
    ensures Scaled(t, Keep(feePercent) * a, r, d, 1.0)
  {
    var x := Exact(a, d, t);
    NetWithin(x, feePercent, x.Floor as real, r);
    NetBelow(a, d, t, Keep(feePercent), r);
    NetAbove(a, d, t, Keep(feePercent), r);
  }

  lemma NetValue(shares: seq<Share>, amount: Uint64, feePercent: real, conv: real -> Uint64, nan: Uint64, m: string)
    requires 0 < Total(shares) < TWO64 && 0.0 <= feePercent <= 100.0 && m in Miners(shares)
    ensures
      var gross := Exact(amount as real, DiffOf(shares, m) as real, Total(shares) as real).Floor;
      NetRewards(Unrounded, shares, amount, feePercent, conv, nan)[m] == ExactKept(gross as real, feePercent).Floor
  {
    DiffOfAtMostTotal(shares, m);
    var d, t := DiffOf(shares, m), Total(shares);
    GrossUnrounded(amount, d, t, conv, nan);
    NetUnrounded(Gross(Unrounded, amount, d, t, conv, nan), feePercent, conv);
  }

  /** The net rewards in closed form. */
  function Nets(shares: seq<Share>, amount: Uint64, feePercent: real): map<string, int>
    requires Total(shares) > 0
  {
    map m | m in Miners(shares) ::
      ExactKept(Exact(amount as real, DiffOf(shares, m) as real, Total(shares) as real).Floor as real, feePercent).Floor
  }

  lemma NetsUnrounded(shares: seq<Share>, amount: Uint64, feePercent: real, conv: real -> Uint64, nan: Uint64)
    requires 0 < Total(shares) < TWO64 && 0.0 <= feePercent <= 100.0
    ensures NetRewards(Unrounded, shares, amount, feePercent, conv, nan) == Nets(shares, amount, feePercent)
  {
    var nets := NetRewards(Unrounded, shares, amount, feePercent, conv, nan);
    forall m | m in nets ensures nets[m] == Nets(shares, amount, feePercent)[m] {
      NetValue(shares, amount, feePercent, conv, nan, m);
    }
  }

  lemma NetRewardScaled(shares: seq<Share>, amount: Uint64, feePercent: real, m: string, ka: real)
    requires 0 < Total(shares) < TWO64 && 0.0 <= feePercent <= 100.0 && m in Miners(shares)
    requires ka == Keep(feePercent) * amount as real
    ensures Scaled(Total(shares) as real, ka, Nets(shares, amount, feePercent)[m] as real,
                   ByMiner(shares)[m] as real, 1.0)
  {
    DiffOfAtMostTotal(shares, m);
    ScaledNet(amount as real, DiffOf(shares, m) as real, Total(shares) as real, feePercent,
              Nets(shares, amount, feePercent)[m] as real);
  }

  lemma SumScaled(nets: map<string, int>, diffs: map<string, int>, t: real, ka: real)
    requires nets.Keys == diffs.Keys && nets != map[]
    requires forall m :: m in nets ==> Scaled(t, ka, nets[m] as real, diffs[m] as real, 1.0)
    ensures Scaled(t, ka, Sum(nets) as real, Sum(diffs) as real, |nets| as real)
  {
    SumLinear(nets, diffs, t, ka, 0.0);
    SumStrict(diffs, nets, ka, t, 2.0 * t);
    assert |nets| == |nets.Keys| && |diffs| == |diffs.Keys|;
  }

  lemma SumOfNets(s: real, a: real, t: real, keep: real, n: real)
    requires t > 0.0
    requires Scaled(t, keep * a, s, t, n)
    ensures s <= a * keep < s + 2.0 * n
  {
    if s > a * keep { StrictScale(a * keep, s, t); }
    var s' := s + 2.0 * n;
    assert s' * t == t * s + n * (2.0 * t);
    if s' <= a * keep { Scale(s', a * keep, t); }
  }

  lemma SumRewards(shares: seq<Share>, amount: Uint64, feePercent: real, ka: real)
    requires 0 < Total(shares) < TWO64 && 0.0 <= feePercent <= 100.0
    requires ka == Keep(feePercent) * amount as real
    ensures Scaled(Total(shares) as real, ka, Sum(Nets(shares, amount, feePercent)) as real,
                   Total(shares) as real, |Miners(shares)| as real)
  {
    var nets, diffs := Nets(shares, amount, feePercent), ByMiner(shares);
    forall m | m in nets
      ensures Scaled(Total(shares) as real, ka, nets[m] as real, diffs[m] as real, 1.0)
    {
      NetRewardScaled(shares, amount, feePercent, m, ka);
    }
    assert shares[0].minerAddr in nets;
    assert nets.Keys == Miners(shares);
    SumByMiner(shares);
    SumScaled(nets, diffs, Total(shares) as real, ka);
  }

  lemma SumWithin(s: int, a: real, t: real, feePercent: real, n: int, ka: real)
    requires ka == Keep(feePercent) * a
    requires t > 0.0 && Scaled(t, ka, s as real, t, n as real)
    ensures s <= ExactKept(a, feePercent).Floor < s + 2 * n
  {
    SumOfNets(s as real, a, t, Keep(feePercent), n as real);
    KeptIs(a, feePercent);
  }

  lemma FeeUnrounded(amount: Uint64, feePercent: real, conv: real -> Uint64)
    requires 0.0 <= feePercent <= 100.0
    ensures PoolFee(Unrounded, amount, feePercent, conv) == amount - ExactKept(amount as real, feePercent).Floor
  {
    NetUnrounded(amount, feePercent, conv);
    KeptRange(amount as real, feePercent);
  }

  lemma SumNets(shares: seq<Share>, amount: Uint64, feePercent: real)
    requires 0 < Total(shares) < TWO64 && 0.0 <= feePercent <= 100.0
    ensures
      var s := Sum(Nets(shares, amount, feePercent));
      s <= ExactKept(amount as real, feePercent).Floor < s + 2 * |Miners(shares)|
  {
    var ka := Keep(feePercent) * amount as real;
    SumRewards(shares, amount, feePercent, ka);
    SumWithin(Sum(Nets(shares, amount, feePercent)), amount as real, Total(shares) as real,
              feePercent, |Miners(shares)|, ka);
  }

  /** In exact arithmetic all net rewards together with the pool fee never exceed the transfer, and
      fall short of it by less than two atomic units per miner. */
  lemma TransferConserved(shares: seq<Share>, amount: Uint64, feePercent: real, conv: real -> Uint64, nan: Uint64)
    requires 0 < Total(shares) < TWO64 && 0.0 <= feePercent <= 100.0
    ensures amount - 2 * |Miners(shares)| < PaidOut(Unrounded, shares, amount, feePercent, conv, nan) <= amount
  {
    NetsUnrounded(shares, amount, feePercent, conv, nan);
    SumNets(shares, amount, feePercent);
    FeeUnrounded(amount, feePercent, conv);
  }
}
