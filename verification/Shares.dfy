/** Shares as the master stores them, and their totals per miner
    (pkg/ledger/models.go, and the aggregation loops shared by the master's payout code). */
module Shares {
  import opened Binary64
  import opened Sums

  datatype Share = Share(minerAddr: string, workerId: string, difficulty: Uint64, timestamp: int)

  function Total(shares: seq<Share>): nat {
    if shares == [] then 0 else Total(shares[..|shares| - 1]) + shares[|shares| - 1].difficulty
  }

  function DiffOf(shares: seq<Share>, miner: string): nat {
    if shares == [] then 0
    else
      var last := shares[|shares| - 1];
      DiffOf(shares[..|shares| - 1], miner) + (if last.minerAddr == miner then last.difficulty else 0)
  }

  function Miners(shares: seq<Share>): set<string> {
    set i | 0 <= i < |shares| :: shares[i].minerAddr
  }

  function ByMiner(shares: seq<Share>): map<string, nat> {
    map a | a in Miners(shares) :: DiffOf(shares, a)
  }

  lemma {:induction false} DiffOfStranger(shares: seq<Share>, miner: string)
    requires miner !in Miners(shares)
    ensures DiffOf(shares, miner) == 0
  {
    if shares != [] {
      var init := shares[..|shares| - 1];
      assert shares[|shares| - 1].minerAddr in Miners(shares);
      assert Miners(init) <= Miners(shares);
      DiffOfStranger(init, miner);
    }
  }

  lemma ByMinerLast(shares: seq<Share>)
    requires shares != []
    ensures
      var before, last := ByMiner(shares[..|shares| - 1]), shares[|shares| - 1];
      ByMiner(shares) == before[last.minerAddr := Get(before, last.minerAddr) + last.difficulty]
  {
    var init, last := shares[..|shares| - 1], shares[|shares| - 1];
    assert Miners(shares) == Miners(init) + {last.minerAddr};
    if last.minerAddr !in Miners(init) { DiffOfStranger(init, last.minerAddr); }
  }

  /** Splitting the window by miner loses nothing. */
  lemma {:induction false} SumByMiner(shares: seq<Share>)
    ensures Sum(ByMiner(shares)) == Total(shares)
  {
    if shares != [] {
      var init, last := shares[..|shares| - 1], shares[|shares| - 1];
      SumByMiner(init);
      ByMinerLast(shares);
      SumAdd(ByMiner(init), last.minerAddr, last.difficulty);
    } else {
      assert ByMiner(shares) == map[];
    }
  }

  lemma {:induction false} DiffOfAtMostTotal(shares: seq<Share>, miner: string)
    ensures DiffOf(shares, miner) <= Total(shares)
  {
    if shares != [] { DiffOfAtMostTotal(shares[..|shares| - 1], miner); }
  }

  lemma {:induction false} TotalsOfPrefix(shares: seq<Share>, i: nat, a: string)
    requires i < |shares|
    ensures Total(shares[..i + 1]) == Total(shares[..i]) + shares[i].difficulty
    ensures DiffOf(shares[..i + 1], a)
         == DiffOf(shares[..i], a) + (if shares[i].minerAddr == a then shares[i].difficulty else 0)
    ensures Miners(shares[..i + 1]) == Miners(shares[..i]) + {shares[i].minerAddr}
  {
    var s := shares[..i + 1];
    assert s[..i] == shares[..i];
    assert forall m :: m in Miners(shares[..i]) ==> m in Miners(s);
    assert s[i].minerAddr in Miners(s);
  }

  lemma TotalStep(shares: seq<Share>, i: nat)
    requires i < |shares|
    ensures Wrap(Total(shares[..i + 1])) == Wrap(Wrap(Total(shares[..i])) + shares[i].difficulty)
  {
    TotalsOfPrefix(shares, i, shares[i].minerAddr);
    AddModulo(Total(shares[..i]), shares[i].difficulty, Wrap(Total(shares[..i])));
  }

  lemma CounterStep(shares: seq<Share>, i: nat, counter: Uint64)
    requires i < |shares|
    requires
      var a := shares[i].minerAddr;
      counter == if a in Miners(shares[..i]) then Wrap(DiffOf(shares[..i], a)) else 0
    ensures Wrap(DiffOf(shares[..i + 1], shares[i].minerAddr)) == Wrap(counter + shares[i].difficulty)
  {
    var a := shares[i].minerAddr;
    TotalsOfPrefix(shares, i, a);
    AddModulo(DiffOf(shares[..i], a), shares[i].difficulty, Wrap(DiffOf(shares[..i], a)));
    if a !in Miners(shares[..i]) { DiffOfStranger(shares[..i], a); }
  }

  /** The aggregation loop: uint64 counters, so every total is taken modulo 2^64. */
  method Aggregate(shares: seq<Share>) returns (total: Uint64, diffs: map<string, Uint64>)
    ensures total == Wrap(Total(shares))
    ensures diffs.Keys == Miners(shares)
    ensures forall a :: a in diffs ==> diffs[a] == Wrap(DiffOf(shares, a))
  {
    total, diffs := 0, map[];
    for i := 0 to |shares|
      invariant total == Wrap(Total(shares[..i]))
      invariant diffs.Keys == Miners(shares[..i])
      invariant forall a :: a in diffs ==> diffs[a] == Wrap(DiffOf(shares[..i], a))
    {
      var d, m := shares[i].difficulty, shares[i].minerAddr;
      TotalStep(shares, i);
      CounterStep(shares, i, Get(diffs, m));
      total := Wrap(total + d);
      diffs := diffs[m := Wrap(Get(diffs, m) + d)];
      forall a | a in diffs ensures diffs[a] == Wrap(DiffOf(shares[..i + 1], a)) {
        TotalsOfPrefix(shares, i, a);
      }
      TotalsOfPrefix(shares, i, m);
    }
    assert shares[..|shares|] == shares;
  }
}
