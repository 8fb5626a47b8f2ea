/** Which shares a block reward is divided over (cmd/master/pplns.go). */
module Pplns {
  import opened Optional
  import opened Binary64
  import opened Reals
  import opened Sums
  import opened Shares
  import opened Distribution

  // ---- The window --------------------------------------------------------------------------

  /** uint64(float64(netDifficulty) * factor). */
  function Bound(fl: real -> real, outOfRange: real -> Uint64, netDiff: Uint64, factor: real): Uint64 {
    ToUint64(Times(fl, fl(netDiff as real), factor), outOfRange)
  }

  function Clamp(n: Uint64, lo: Uint64, hi: Uint64): Uint64 {
    if n < lo then lo else if n > hi then hi else n
  }

  function Distance(a: int, b: int): nat {
    if a <= b then b - a else a - b
  }

  /** The clamped window is the value between the bounds closest to the tracked one. */
  lemma ClampNearest(n: Uint64, lo: Uint64, hi: Uint64, w: Uint64)
    requires lo <= w <= hi
    ensures lo <= Clamp(n, lo, hi) <= hi
    ensures Distance(n, Clamp(n, lo, hi)) <= Distance(n, w)
    ensures Clamp(Clamp(n, lo, hi), lo, hi) == Clamp(n, lo, hi)
  {
  }

  /** Ordered factors give ordered bounds, in spite of two roundings and a truncation. */
  lemma BoundsOrdered(fl: real -> real, outOfRange: real -> Uint64, netDiff: Uint64, lo: real, hi: real)
    requires Correct(fl) && 0.0 <= lo <= hi
    requires Times(fl, fl(netDiff as real), hi) < TWO64 as real
    ensures Bound(fl, outOfRange, netDiff, lo) <= Bound(fl, outOfRange, netDiff, hi)
  {
    RoundedInOrder(fl, netDiff as real, netDiff as real);
    RoundedProductsOrdered(fl, fl(netDiff as real), lo, hi);
    ConversionMonotone(Times(fl, fl(netDiff as real), lo), Times(fl, fl(netDiff as real), hi), outOfRange);
  }

  lemma RoundedProductsOrdered(fl: real -> real, x: real, lo: real, hi: real)
    requires Correct(fl) && 0.0 <= x && 0.0 <= lo <= hi
    ensures 0.0 <= Times(fl, x, lo) <= Times(fl, x, hi)
  {
    Scale(0.0, lo, x);
    Scale(lo, hi, x);
    RoundedInOrder(fl, x * lo, x * hi);
  }

  /** A bound is the factor times the network difficulty, up to two roundings and a truncation. */
  lemma BoundIs(fl: real -> real, outOfRange: real -> Uint64, netDiff: Uint64, factor: real)
    requires Correct(fl) && 0.0 <= factor && Times(fl, fl(netDiff as real), factor) < TWO64 as real
    ensures
      var bound, exact := Bound(fl, outOfRange, netDiff, factor), netDiff as real * factor;
      && 9007199254740992.0 * bound as real <= 9007199254740996.0 * exact
      && 9007199254740988.0 * exact < 9007199254740992.0 * (bound + 1) as real
  {
    var n := fl(netDiff as real);
    RoundedInOrder(fl, netDiff as real, netDiff as real);
    ProductTwice(fl, netDiff as real, n, factor);
    BoundFloor(Times(fl, n, factor), netDiff as real * factor);
  }

  lemma ProductTwice(fl: real -> real, x: real, n: real, factor: real)
    requires Correct(fl) && 0.0 <= x && 0.0 <= n && 0.0 <= factor && n == fl(x)
    ensures
      var v := Times(fl, n, factor);
      && 0.0 <= v && 9007199254740992.0 * v <= 9007199254740996.0 * (x * factor)
      && 9007199254740988.0 * (x * factor) <= 9007199254740992.0 * v
  {
    NearScale(x, n, factor);
    TimesNear(fl, n, factor);
    Scale(0.0, x, factor);
    TwiceNear(x * factor, n * factor, Times(fl, n, factor));
  }

  lemma TwiceNear(x: real, y: real, z: real)
    requires 0.0 <= x && Near(x, y) && Near(y, z)
    ensures 9007199254740992.0 * z <= 9007199254740996.0 * x && 9007199254740988.0 * x <= 9007199254740992.0 * z
  {
  }

  lemma BoundFloor(v: real, x: real)
    requires 9007199254740992.0 * v <= 9007199254740996.0 * x && 9007199254740988.0 * x <= 9007199254740992.0 * v
    ensures 9007199254740992.0 * v.Floor as real <= 9007199254740996.0 * x
    ensures 9007199254740988.0 * x < 9007199254740992.0 * (v.Floor + 1) as real
  {
  }

  // ---- The selection -----------------------------------------------------------------------

  /** What the loop's uint64 counter holds after taking the shares from index k on. */
  function Counted(shares: seq<Share>, k: nat): Uint64
    requires k <= |shares|
  {
    Wrap(Total(shares[k..]))
  }

  /** The loop stops at share k: the first, counting from the end, at which the counter reaches
      the window, or the front of the list. */
  ghost predicate StopsAt(shares: seq<Share>, window: Uint64, k: nat) {
    && k < |shares|
    && (k == 0 || Counted(shares, k) >= window)
    && forall j :: k < j < |shares| ==> Counted(shares, j) < window
  }

  /** The reference: the shortest suffix whose difficulty reaches the window, or the whole list. */
  ghost predicate Shortest(shares: seq<Share>, window: Uint64, k: nat) {
    && k <= |shares|
    && (k == 0 || Total(shares[k..]) >= window)
    && forall j :: k < j <= |shares| ==> Total(shares[j..]) < window
  }

  lemma {:induction false} TotalConcat(a: seq<Share>, b: seq<Share>)
    ensures Total(a + b) == Total(a) + Total(b)
  {
    if b == [] {
      assert a + b == a;
    } else {
      var init := b[..|b| - 1];
      assert (a + b)[..|a + b| - 1] == a + init;
      TotalConcat(a, init);
    }
  }

  lemma TotalFirst(shares: seq<Share>, k: nat)
    requires k < |shares|
    ensures Total(shares[k..]) == shares[k].difficulty + Total(shares[k + 1..])
  {
    assert shares[k..] == [shares[k]] + shares[k + 1..];
    assert Total([shares[k]]) == Total([]) + shares[k].difficulty;
    TotalConcat([shares[k]], shares[k + 1..]);
  }

  lemma {:induction false} TotalAntitone(shares: seq<Share>, i: nat, k: nat)
    requires i <= k <= |shares|
    ensures Total(shares[k..]) <= Total(shares[i..]) <= Total(shares)
    decreases k
  {
    assert shares[0..] == shares;
    if i < k {
      TotalFirst(shares, k - 1);
      TotalAntitone(shares, i, k - 1);
    } else if k > 0 {
      TotalFirst(shares, k - 1);
      TotalAntitone(shares, k - 1, k - 1);
    }
  }

  /** The backward walk over the fetched list. */
  method WalkBack(window: Uint64, all: seq<Share>) returns (selected: seq<Share>, start: nat)
    ensures start <= |all| && selected == all[start..]
    ensures all != [] ==> StopsAt(all, window, start)
  {
    selected, start := [], |all|;
    var totalDiff: Uint64 := 0;
    while start > 0
      invariant start <= |all| && selected == all[start..] && totalDiff == Counted(all, start)
      invariant forall j :: start <= j < |all| ==> Counted(all, j) < window
      invariant start == 0 ==> all == []
    {
      var i := start - 1;
      selected := [all[i]] + selected;
      CountedStep(all, i);
      totalDiff := Wrap(totalDiff + all[i].difficulty);
      start := i;
      if totalDiff >= window || i == 0 { break; }
    }
  }

  lemma CountedStep(all: seq<Share>, i: nat)
    requires i < |all|
    ensures Counted(all, i) == Wrap(Counted(all, i + 1) + all[i].difficulty)
    ensures [all[i]] + all[i + 1..] == all[i..]
  {
    TotalFirst(all, i);
    AddModulo(Total(all[i + 1..]), all[i].difficulty, Wrap(Total(all[i + 1..])));
  }

  /** The loop has one place to stop. */
  lemma StopsOnce(shares: seq<Share>, window: Uint64, j: nat, k: nat)
    requires StopsAt(shares, window, j) && StopsAt(shares, window, k)
    ensures j == k
  {
  }

  lemma {:induction false} ShortestExists(shares: seq<Share>, window: Uint64, n: nat) returns (k: nat)
    requires n <= |shares| && forall j :: n < j <= |shares| ==> Total(shares[j..]) < window
    ensures Shortest(shares, window, k) && k <= n
  {
    if n == 0 || Total(shares[n..]) >= window {
      k := n;
    } else {
      k := ShortestExists(shares, window, n - 1);
    }
  }

  /** A share that carries the total past 2^64 leaves the counter below the window. */
  lemma OverflowMissesWindow(shares: seq<Share>, window: Uint64, k: nat)
    requires k < |shares| && Total(shares[k + 1..]) < window
    ensures Counted(shares, k) >= window ==> Total(shares[k..]) < TWO64
    ensures Total(shares[k..]) < TWO64 ==> Counted(shares, k) == Total(shares[k..])
  {
    TotalFirst(shares, k);
    var total := Total(shares[k..]);
    if total >= TWO64 {
      assert total < 2 * TWO64;
      assert Wrap(total) == total - TWO64;
    }
  }

  lemma CountedExactly(shares: seq<Share>, window: Uint64, k: nat)
    requires Shortest(shares, window, k)
    ensures forall j :: k < j < |shares| ==> Counted(shares, j) == Total(shares[j..])
  {
  }

  /** The loop finds the shortest suffix reaching the window exactly when that suffix's difficulty
      fits a uint64 or it is the whole list. */
  lemma SelectsShortestIff(shares: seq<Share>, window: Uint64, start: nat, k: nat)
    requires window > 0 && StopsAt(shares, window, start) && Shortest(shares, window, k)
    ensures start == k <==> k == 0 || Total(shares[k..]) < TWO64
  {
    CountedExactly(shares, window, k);
    assert shares[|shares|..] == [];
    OverflowMissesWindow(shares, window, k);
    if k == 0 || Total(shares[k..]) < TWO64 {
      assert StopsAt(shares, window, k);
      StopsOnce(shares, window, start, k);
    }
  }

  /** Without overflow: the selection reaches the window or is everything, no shorter suffix does,
      and without its first share it falls below the window, except for a window of zero. */
  lemma SelectionIsShortest(shares: seq<Share>, window: Uint64, start: nat)
    requires Total(shares) < TWO64 && StopsAt(shares, window, start)
    ensures Total(shares[start..]) >= window || start == 0
    ensures window > 0 ==> Shortest(shares, window, start)
    ensures Total(shares[start + 1..]) < window <==> window > 0
  {
    forall j | 0 <= j <= |shares| ensures Total(shares[j..]) < TWO64 { TotalAntitone(shares, 0, j); }
    if window > 0 {
      assert shares[|shares|..] == [];
      forall j | start < j <= |shares| ensures Total(shares[j..]) < window {
        if j < |shares| { assert Counted(shares, j) < window; }
      }
    }
  }

  ghost predicate NewestFirst(shares: seq<Share>) {
    forall i, j :: 0 <= i < j < |shares| ==> shares[i].timestamp >= shares[j].timestamp
  }

  /** No share left out is newer than one selected. */
  ghost predicate TakesNewest(shares: seq<Share>, start: nat) {
    forall i, j :: 0 <= i < start <= j < |shares| ==> shares[j].timestamp >= shares[i].timestamp
  }

  lemma SelectsAllIff(shares: seq<Share>, window: Uint64, start: nat)
    requires Total(shares) < TWO64 && window > 0 && StopsAt(shares, window, start)
    ensures start == 0 <==> Total(shares[1..]) < window
  {
    SelectionIsShortest(shares, window, start);
    if start > 0 { TotalAntitone(shares, 1, start); }
  }

  /** The list is fetched newest first and walked from its end: the newest shares are selected only
      if the window leaves nothing out, or if all shares are of the same second. */
  lemma SelectsNewestIff(shares: seq<Share>, window: Uint64, start: nat)
    requires NewestFirst(shares) && Total(shares) < TWO64 && window > 0 && StopsAt(shares, window, start)
    ensures TakesNewest(shares, start) <==>
      Total(shares[1..]) < window || shares[0].timestamp == shares[|shares| - 1].timestamp
  {
    SelectsAllIff(shares, window, start);
    if start > 0 && TakesNewest(shares, start) {
      assert shares[|shares| - 1].timestamp >= shares[0].timestamp;
    }
  }

  /** Two shares and a window of one share: the newer one is left out. */
  lemma NewestLeftOut()
    ensures
      var shares := [Share("new", "", 1, 2), Share("old", "", 1, 1)];
      NewestFirst(shares) && StopsAt(shares, 1, 1) && !TakesNewest(shares, 1)
  {
    var shares := [Share("new", "", 1, 2), Share("old", "", 1, 1)];
    assert shares[2..] == [];
    TotalFirst(shares, 1);
    assert !(shares[1].timestamp >= shares[0].timestamp);
  }

  /** A total beyond 2^64: the loop walks past the share that reached the window. */
  lemma OverflowSelectsMore()
    ensures
      var s := (d: Uint64) => Share("a", "", d, 0);
      var shares := [s(1), s(3), s(0xFFFF_FFFF_FFFF_FFFE)];
      StopsAt(shares, 0xFFFF_FFFF_FFFF_FFFF, 0) && Shortest(shares, 0xFFFF_FFFF_FFFF_FFFF, 1)
  {
    var s := (d: Uint64) => Share("a", "", d, 0);
    var shares := [s(1), s(3), s(0xFFFF_FFFF_FFFF_FFFE)];
    assert shares[3..] == [];
    TotalFirst(shares, 2);
    TotalFirst(shares, 1);
  }

  // ---- Percentages -------------------------------------------------------------------------

  /** GetMinerSharePercentage over the selected shares. */
  function SharePercentage(fl: real -> real, shares: seq<Share>, miner: string): real
    requires Correct(fl)
  {
    var t := Wrap(Total(shares));
    if t == 0 then 0.0 else Percentage(fl, Wrap(DiffOf(shares, miner)) as real, t as real)
  }

  method PercentageOf(fl: real -> real, shares: seq<Share>, miner: string) returns (r: real)
    requires Correct(fl)
    ensures r == SharePercentage(fl, shares, miner)
  {
    var totalDiff, minerDiff: Uint64 := 0, 0;
    for i := 0 to |shares|
      invariant totalDiff == Wrap(Total(shares[..i])) && minerDiff == Wrap(DiffOf(shares[..i], miner))
    {
      PercentageStep(shares, i, miner);
      totalDiff := Wrap(totalDiff + shares[i].difficulty);
      if shares[i].minerAddr == miner { minerDiff := Wrap(minerDiff + shares[i].difficulty); }
    }
    assert shares[..|shares|] == shares;
    PositiveTotal(fl, totalDiff);
    r := if totalDiff == 0 then 0.0 else Percentage(fl, minerDiff as real, totalDiff as real);
  }

  lemma PositiveTotal(fl: real -> real, t: Uint64)
    requires Correct(fl)
    ensures t > 0 ==> fl(t as real) > 0.0
  {
  }

  lemma PercentageStep(shares: seq<Share>, i: nat, miner: string)
    requires i < |shares|
    ensures Wrap(Total(shares[..i + 1])) == Wrap(Wrap(Total(shares[..i])) + shares[i].difficulty)
    ensures Wrap(DiffOf(shares[..i + 1], miner))
         == if shares[i].minerAddr == miner then Wrap(Wrap(DiffOf(shares[..i], miner)) + shares[i].difficulty)
            else Wrap(DiffOf(shares[..i], miner))
  {
    TotalStep(shares, i);
    TotalsOfPrefix(shares, i, miner);
    AddModulo(DiffOf(shares[..i], miner), shares[i].difficulty, Wrap(DiffOf(shares[..i], miner)));
  }

  ghost function RealSum<K>(m: map<K, real>): real
    decreases |m|
  {
    if m == map[] then 0.0
    else
      var k :| k in m;
      m[k] + RealSum(m - {k})
  }

  /** x is n parts out of t. */
  ghost predicate Parts(x: real, t: real, n: real) {
    x * t == n
  }

  lemma AddParts(x: real, y: real, t: real, m: real, n: real)
    requires Parts(x, t, m) && Parts(y, t, n)
    ensures Parts(x + y, t, m + n)
  {
    assert (x + y) * t == x * t + y * t;
  }

  lemma {:induction false} SumParts<K>(m: map<K, real>, n: map<K, int>, t: real)
    requires m.Keys == n.Keys && forall k :: k in m ==> Parts(m[k], t, n[k] as real)
    ensures Parts(RealSum(m), t, Sum(n) as real)
    decreases |m|
  {
    if m == map[] {
      assert n == map[];
    } else {
      var k :| k in m && RealSum(m) == m[k] + RealSum(m - {k});
      SumRemove(n, k);
      SumParts(m - {k}, n - {k}, t);
      AddParts(m[k], RealSum(m - {k}), t, n[k] as real, Sum(n - {k}) as real);
    }
  }

  lemma QuotientParts(n: real, t: real)
    requires t > 0.0
    ensures Parts(n / t, t, n)
  {
  }

  lemma AllParts(x: real, t: real)
    requires t > 0.0 && Parts(x, t, t)
    ensures x == 1.0
  {
  }

  lemma PercentageParts(shares: seq<Share>, miner: string)
    requires 0 < Total(shares) < TWO64 && Correct(Unrounded)
    ensures Parts(SharePercentage(Unrounded, shares, miner), Total(shares) as real, DiffOf(shares, miner) as real)
  {
    DiffOfAtMostTotal(shares, miner);
    QuotientParts(DiffOf(shares, miner) as real, Total(shares) as real);
  }

  function Percentages(fl: real -> real, shares: seq<Share>): map<string, real>
    requires Correct(fl)
  {
    map m | m in Miners(shares) :: SharePercentage(fl, shares, m)
  }

  lemma StrangerPercentage(fl: real -> real, shares: seq<Share>, stranger: string)
    requires Correct(fl) && stranger !in Miners(shares)
    ensures SharePercentage(fl, shares, stranger) == 0.0
  {
    DiffOfStranger(shares, stranger);
  }

  lemma PercentagesParts(shares: seq<Share>)
    requires 0 < Total(shares) < TWO64 && Correct(Unrounded)
    ensures forall m :: m in Miners(shares) ==>
      Parts(Percentages(Unrounded, shares)[m], Total(shares) as real, ByMiner(shares)[m] as real)
  {
    forall m | m in Miners(shares)
      ensures Parts(Percentages(Unrounded, shares)[m], Total(shares) as real, ByMiner(shares)[m] as real)
    {
      PercentageParts(shares, m);
    }
  }

  lemma SumToWhole<K>(ps: map<K, real>, ds: map<K, int>, t: int)
    requires ps.Keys == ds.Keys && t > 0 && Sum(ds) == t
    requires forall m :: m in ps ==> Parts(ps[m], t as real, ds[m] as real)
    ensures RealSum(ps) == 1.0
  {
    SumParts(ps, ds, t as real);
    AllParts(RealSum(ps), t as real);
  }

  /** In exact arithmetic the miners' percentages of the window add up to one. */
  lemma PercentagesSumToOne(shares: seq<Share>)
    requires 0 < Total(shares) < TWO64
    ensures Correct(Unrounded) && RealSum(Percentages(Unrounded, shares)) == 1.0
  {
    UnroundedIsCorrect();
    PercentagesParts(shares);
    SumByMiner(shares);
    SumToWhole(Percentages(Unrounded, shares), ByMiner(shares), Total(shares));
  }

  // ---- Percentages in float64 --------------------------------------------------------------

  /** x is n parts out of t up to three roundings. */
  ghost predicate RoundedParts(x: real, t: real, n: real) {
    && 81129638414606672688589750403072.0 * (x * t) <= 81129638414606699710187514626049.0 * n
    && 81129638414606663681390495662081.0 * n <= 81129638414606690702988259885056.0 * (x * t)
  }

  lemma ThreeNear(d: real, dr: real, ptr: real, pt: real)
    requires 0.0 <= d && Near(d, dr) && Near(dr, ptr) && Near(pt, ptr)
    ensures 81129638414606672688589750403072.0 * pt <= 81129638414606699710187514626049.0 * d
    ensures 81129638414606663681390495662081.0 * d <= 81129638414606690702988259885056.0 * pt
  {
  }

  lemma QuotientRounded(d: real, dr: real, t: real, tr: real, q: real, p: real)
    requires 0.0 <= d && 0.0 <= tr && 0.0 <= p && Near(d, dr) && Near(t, tr) && q * tr == dr && Near(q, p)
    ensures RoundedParts(p, t, d)
  {
    NearScale(q, p, tr);
    NearScale(t, tr, p);
    ThreeNear(d, dr, p * tr, p * t);
  }

  lemma AddRoundedParts(x: real, y: real, t: real, m: real, n: real)
    requires RoundedParts(x, t, m) && RoundedParts(y, t, n)
    ensures RoundedParts(x + y, t, m + n)
  {
    assert (x + y) * t == x * t + y * t;
  }

  lemma {:induction false} SumRoundedParts<K>(m: map<K, real>, n: map<K, int>, t: real)
    requires m.Keys == n.Keys && forall k :: k in m ==> RoundedParts(m[k], t, n[k] as real)
    ensures RoundedParts(RealSum(m), t, Sum(n) as real)
    decreases |m|
  {
    if m == map[] {
      assert n == map[];
    } else {
      var k :| k in m && RealSum(m) == m[k] + RealSum(m - {k});
      SumRemove(n, k);
      SumRoundedParts(m - {k}, n - {k}, t);
      AddRoundedParts(m[k], RealSum(m - {k}), t, n[k] as real, Sum(n - {k}) as real);
    }
  }

  lemma AllRoundedParts(x: real, t: real)
    requires t > 0.0 && RoundedParts(x, t, t)
    ensures 9007199254740988.0 <= 9007199254740992.0 * x <= 9007199254740996.0
  {
    var lo, hi := 9007199254740988.0 / 9007199254740992.0, 9007199254740996.0 / 9007199254740992.0;
    if x < lo { StrictScale(x, lo, t); }
    if x > hi { StrictScale(hi, x, t); }
  }

  lemma ShareRounded(fl: real -> real, shares: seq<Share>, m: string)
    requires Correct(fl) && 0 < Total(shares) < TWO64
    ensures RoundedParts(SharePercentage(fl, shares, m), Total(shares) as real, DiffOf(shares, m) as real)
  {
    DiffOfAtMostTotal(shares, m);
    var d, t := DiffOf(shares, m) as real, Total(shares) as real;
    var dr, tr, q := PercentageValue(fl, d, t);
    QuotientRounded(d, dr, t, tr, q, Percentage(fl, d, t));
  }

  /** In float64 they add up to one within 2^-51. */
  lemma PercentagesSumNearOne(fl: real -> real, shares: seq<Share>)
    requires Correct(fl) && 0 < Total(shares) < TWO64
    ensures 9007199254740988.0 <= 9007199254740992.0 * RealSum(Percentages(fl, shares)) <= 9007199254740996.0
  {
    var ps, ds, t := Percentages(fl, shares), ByMiner(shares), Total(shares);
    forall m | m in ps ensures RoundedParts(ps[m], t as real, ds[m] as real) { ShareRounded(fl, shares, m); }
    SumByMiner(shares);
    SumRoundedParts(ps, ds, t as real);
    AllRoundedParts(RealSum(ps), t as real);
  }

  // ---- The manager -------------------------------------------------------------------------

  /** Configuration, arithmetic, and what the ledger answers: network difficulty and stored shares. */
  datatype Env = Env(fl: real -> real, outOfRange: real -> Uint64, minFactor: real, maxFactor: real,
                     netDiff: Option<Uint64>, fetched: Option<seq<Share>>)

  function Window(e: Env, n: Uint64): Uint64 {
    var d := if e.netDiff.Some? then e.netDiff.value else 1;
    Clamp(n, Bound(e.fl, e.outOfRange, d, e.minFactor), Bound(e.fl, e.outOfRange, d, e.maxFactor))
  }

  /** The window is within the bounds for the network difficulty, or for difficulty one while the
      ledger does not know it, whatever was tracked before. */
  lemma WindowWithin(e: Env, n: Uint64)
    ensures
      var d := match e.netDiff case Some(x) => x case None => 1;
      var lo, hi := Bound(e.fl, e.outOfRange, d, e.minFactor), Bound(e.fl, e.outOfRange, d, e.maxFactor);
      lo <= hi ==> lo <= Window(e, n) <= hi && (lo <= n <= hi ==> Window(e, n) == n)
  {
  }

  /** What GetSharesForPPLNS may return for a window. */
  ghost predicate Selection(e: Env, window: Uint64, r: Option<seq<Share>>) {
    match e.fetched
    case None => r == None
    case Some(all) =>
      if all == [] then r == Some([])
      else exists k: nat :: StopsAt(all, window, k) && r == Some(all[k..])
  }

  /** The tracked window in units of share difficulty. */
  class Manager {
    var currentN: Uint64

    constructor (targetShares: Uint64)
      ensures currentN == targetShares
    {
      currentN := targetShares;
    }

    method GetPPLNSWindow(e: Env) returns (window: Uint64)
      modifies this
      ensures currentN == window == Window(e, old(currentN))
    {
      var d := if e.netDiff.Some? then e.netDiff.value else 1;
      var minWindow := Bound(e.fl, e.outOfRange, d, e.minFactor);
      var maxWindow := Bound(e.fl, e.outOfRange, d, e.maxFactor);
      if currentN < minWindow {
        currentN := minWindow;
      } else if currentN > maxWindow {
        currentN := maxWindow;
      }
      return currentN;
    }

    method GetSharesForPPLNS(e: Env) returns (r: Option<seq<Share>>)
      modifies this
      ensures currentN == Window(e, old(currentN)) && Selection(e, currentN, r)
    {
      var window := GetPPLNSWindow(e);
      if e.fetched == None { return None; }
      var selected, start := WalkBack(window, e.fetched.value);
      return Some(selected);
    }

    method GetMinerSharePercentage(e: Env, miner: string) returns (r: Option<real>, ghost selected: Option<seq<Share>>)
      requires Correct(e.fl)
      modifies this
      ensures currentN == Window(e, old(currentN)) && Selection(e, currentN, selected)
      ensures selected == None <==> r == None
      ensures selected.Some? ==> r == Some(SharePercentage(e.fl, selected.value, miner))
    {
      var shares := GetSharesForPPLNS(e);
      selected := shares;
      if shares == None { return None, selected; }
      var p := PercentageOf(e.fl, shares.value, miner);
      r := Some(p);
    }
  }
}
