/** Crediting a block reward to the stored balances (cmd/master/master.go, from the aggregation of
    shares to the pool fee row). */
module RewardLedger {
  import opened Optional
  import opened Binary64
  import opened Sums
  import opened Shares
  import opened Distribution

  datatype Outcome = FetchFailed | NoShares | ZeroDifficulty | Distributed

  /** A row of the distributions table. */
  datatype Row = Row(height: nat, miner: string, reward: Uint64)

  /** The rewards that reach a balance: positive ones whose ledger operations succeed. */
  function Paid(rewards: map<string, Uint64>, failing: set<string>): map<string, Uint64> {
    map a | a in rewards && rewards[a] > 0 && a !in failing :: rewards[a]
  }

  /** Balances after crediting, in uint64 arithmetic. */
  function Credited(pending: map<string, Uint64>, paid: map<string, Uint64>): map<string, Uint64> {
    map a | a in pending.Keys + paid.Keys :: Wrap(Get(pending, a) + Get(paid, a))
  }

  function FeeRows(fee: Uint64, height: nat, fails: bool): seq<(nat, Uint64)> {
    if fee > 0 && !fails then [(height, fee)] else []
  }

  /** The rows hold the configured percentage of the reward, or none where that is zero or the
      insertion fails. */
  ghost predicate CollectsFee(rows: seq<(nat, Uint64)>, height: nat, reward: Uint64, feePercent: real, fails: bool) {
    if rows == [] then fails || IsPercentage(0, reward, feePercent)
    else !fails && |rows| == 1 && rows[0].0 == height && rows[0].1 > 0 && IsPercentage(rows[0].1, reward, feePercent)
  }

  lemma FeeCollected(fl: real -> real, reward: Uint64, feePercent: real, conv: real -> Uint64, height: nat, fails: bool,
                     before: seq<(nat, Uint64)>)
    requires Correct(fl) && reward < TWO51 && 0.0 <= feePercent <= 100.0
    ensures
      var after := before + FeeRows(FeeAmount(fl, reward, feePercent, conv), height, fails);
      after[..|before|] == before && CollectsFee(after[|before|..], height, reward, feePercent, fails)
  {
    FeeIsPercentage(fl, reward, feePercent, conv);
    var rows := FeeRows(FeeAmount(fl, reward, feePercent, conv), height, fails);
    assert (before + rows)[|before|..] == rows;
  }

  ghost predicate AreRewards(rewards: map<string, Uint64>, fl: real -> real, conv: real -> Uint64, net: Uint64,
                             diffs: map<string, Uint64>, total: Uint64)
    requires fl(total as real) > 0.0
  {
    rewards.Keys == diffs.Keys && forall a :: a in diffs ==> rewards[a] == MinerReward(fl, net, diffs[a], total, conv)
  }

  lemma RewardsOfWindow(shares: seq<Share>, fl: real -> real, conv: real -> Uint64, net: Uint64,
                        diffs: map<string, Uint64>, total: Uint64)
    requires total == Wrap(Total(shares)) && fl(total as real) > 0.0 && diffs.Keys == Miners(shares)
    requires forall a :: a in diffs ==> diffs[a] == Wrap(DiffOf(shares, a))
    ensures AreRewards(Rewards(fl, shares, net, conv), fl, conv, net, diffs, total)
  {
  }

  lemma UnpaidBalance(pending: map<string, Uint64>, paid: map<string, Uint64>, a: string)
    requires a !in paid
    ensures Get(Credited(pending, paid), a) == Get(pending, a)
  {
  }

  lemma CreditAt(pending: map<string, Uint64>, paid: map<string, Uint64>, a: string, r: Uint64, m: string)
    requires a !in paid && m in Credited(pending, paid[a := r])
    ensures m != a ==> m in Credited(pending, paid) && Credited(pending, paid[a := r])[m] == Credited(pending, paid)[m]
    ensures m == a ==> Credited(pending, paid[a := r])[m] == Wrap(Get(pending, a) + r)
  {
    assert m != a ==> Get(paid[a := r], m) == Get(paid, m);
    assert Get(paid[a := r], a) == r;
  }

  lemma CreditOne(pending: map<string, Uint64>, paid: map<string, Uint64>, a: string, r: Uint64)
    requires a !in paid
    ensures Credited(pending, paid[a := r]) == Credited(pending, paid)[a := Wrap(Get(pending, a) + r)]
  {
    var balance := Wrap(Get(pending, a) + r);
    var left, right := Credited(pending, paid[a := r]), Credited(pending, paid)[a := balance];
    assert left.Keys == pending.Keys + paid.Keys + {a} == right.Keys;
    forall m | m in left ensures left[m] == right[m] { CreditAt(pending, paid, a, r, m); }
  }

  lemma PaidNext(rewards: map<string, Uint64>, failing: set<string>, todo: set<string>, m: string)
    requires m in rewards && m in todo
    ensures m !in Paid(rewards - todo, failing)
    ensures Paid(rewards - (todo - {m}), failing) ==
      if rewards[m] > 0 && m !in failing then Paid(rewards - todo, failing)[m := rewards[m]]
      else Paid(rewards - todo, failing)
  {
  }

  /** rows holds one row for each reward of the map and no other. */
  ghost predicate ListsRows(rows: seq<Row>, height: nat, rewards: map<string, Uint64>) {
    && |rows| == |rewards|
    && (forall i :: 0 <= i < |rows| ==>
          rows[i].height == height && rows[i].miner in rewards && rows[i].reward == rewards[rows[i].miner])
    && forall i, j :: 0 <= i < j < |rows| ==> rows[i].miner != rows[j].miner
  }

  lemma ListMore(rows: seq<Row>, height: nat, rewards: map<string, Uint64>, miner: string, reward: Uint64)
    requires ListsRows(rows, height, rewards) && miner !in rewards
    ensures ListsRows(rows + [Row(height, miner, reward)], height, rewards[miner := reward])
  {
    RemoveSize(rewards[miner := reward], miner);
    assert rewards[miner := reward] - {miner} == rewards;
  }

  lemma RowStep(made: seq<Row>, height: nat, rewards: map<string, Uint64>, todo: set<string>, unrecorded: set<string>,
                m: string)
    requires m in rewards && m in todo && ListsRows(made, height, Paid(rewards - todo, unrecorded))
    ensures ListsRows(if rewards[m] > 0 && m !in unrecorded then made + [Row(height, m, rewards[m])] else made,
                      height, Paid(rewards - (todo - {m}), unrecorded))
  {
    PaidNext(rewards, unrecorded, todo, m);
    ListMore(made, height, Paid(rewards - todo, unrecorded), m, rewards[m]);
  }

  /** What has been credited and recorded with some miners still to come. */
  ghost predicate Progress(before: map<string, Uint64>, pending: map<string, Uint64>, made: seq<Row>, height: nat,
                           rewards: map<string, Uint64>, todo: set<string>,
                           unrecorded: set<string>, failing: set<string>) {
    && pending == Credited(before, Paid(rewards - todo, unrecorded + failing))
    && ListsRows(made, height, Paid(rewards - todo, unrecorded))
  }

  lemma NothingPaid(rewards: map<string, Uint64>, failing: set<string>)
    ensures Paid(rewards - rewards.Keys, failing) == map[]
  {
  }

  lemma NothingDone(before: map<string, Uint64>, height: nat, rewards: map<string, Uint64>,
                    unrecorded: set<string>, failing: set<string>)
    ensures Progress(before, before, [], height, rewards, rewards.Keys, unrecorded, failing)
  {
    NothingPaid(rewards, unrecorded);
    NothingPaid(rewards, unrecorded + failing);
    CreditNothing(before);
  }

  lemma AllDone(before: map<string, Uint64>, pending: map<string, Uint64>, made: seq<Row>, height: nat,
                rewards: map<string, Uint64>, unrecorded: set<string>, failing: set<string>)
    requires Progress(before, pending, made, height, rewards, {}, unrecorded, failing)
    ensures pending == Credited(before, Paid(rewards, unrecorded + failing))
    ensures ListsRows(made, height, Paid(rewards, unrecorded))
  {
    assert rewards - {} == rewards;
  }

  class Ledger {
    var pending: map<string, Uint64>          // balances.balance_pending by address
    var distributions: seq<Row>
    var poolFees: seq<(nat, Uint64)>          // pool_fees rows: block height and amount
    var processed: set<nat>                   // heights of blocks marked as processed

    /** A distribution row, unless the reward is zero or creating it fails. */
    method RecordReward(miner: string, reward: Uint64, height: nat, unrecorded: set<string>,
                        ghost rewards: map<string, Uint64>, ghost todo: set<string>,
                        ghost rows: seq<Row>, ghost made: seq<Row>)
      returns (recorded: bool, ghost made': seq<Row>)
      requires miner in rewards && miner in todo && reward == rewards[miner]
      requires distributions == rows + made && ListsRows(made, height, Paid(rewards - todo, unrecorded))
      modifies this`distributions
      ensures recorded <==> reward > 0 && miner !in unrecorded
      ensures distributions == rows + made' && ListsRows(made', height, Paid(rewards - (todo - {miner}), unrecorded))
    {
      RowStep(made, height, rewards, todo, unrecorded, miner);
      recorded, made' := reward > 0 && miner !in unrecorded, made;
      if recorded {
        distributions := distributions + [Row(height, miner, reward)];
        made' := made + [Row(height, miner, reward)];
      }
    }

    /** The new balance, unless there was no row or the balance cannot be read or written. */
    method CreditBalance(miner: string, reward: Uint64, recorded: bool, failing: set<string>,
                         ghost unrecorded: set<string>, ghost before: map<string, Uint64>,
                         ghost rewards: map<string, Uint64>, ghost todo: set<string>)
      requires miner in rewards && miner in todo && reward == rewards[miner]
      requires recorded <==> reward > 0 && miner !in unrecorded
      requires pending == Credited(before, Paid(rewards - todo, unrecorded + failing))
      modifies this`pending
      ensures pending == Credited(before, Paid(rewards - (todo - {miner}), unrecorded + failing))
    {
      PaidNext(rewards, unrecorded + failing, todo, miner);
      if recorded && miner !in failing {
        CreditOne(before, Paid(rewards - todo, unrecorded + failing), miner, reward);
        UnpaidBalance(before, Paid(rewards - todo, unrecorded + failing), miner);
        pending := pending[miner := Wrap(Get(pending, miner) + reward)];
      }
    }

    method CreditMiner(miner: string, reward: Uint64, height: nat, unrecorded: set<string>, failing: set<string>,
                       ghost before: map<string, Uint64>, ghost rewards: map<string, Uint64>, ghost todo: set<string>,
                       ghost rows: seq<Row>, ghost made: seq<Row>)
      returns (ghost made': seq<Row>)
      requires miner in rewards && miner in todo && reward == rewards[miner] && distributions == rows + made
      requires Progress(before, pending, made, height, rewards, todo, unrecorded, failing)
      modifies this`pending, this`distributions
      ensures distributions == rows + made'
      ensures Progress(before, pending, made', height, rewards, todo - {miner}, unrecorded, failing)
    {
      var recorded;
      recorded, made' := RecordReward(miner, reward, height, unrecorded, rewards, todo, rows, made);
      CreditBalance(miner, reward, recorded, failing, unrecorded, before, rewards, todo);
    }

    /** The loop over the miners, in any order. */
    method CreditMiners(fl: real -> real, conv: real -> Uint64, net: Uint64, diffs: map<string, Uint64>,
                        total: Uint64, height: nat, unrecorded: set<string>, failing: set<string>,
                        ghost rewards: map<string, Uint64>)
      returns (ghost made: seq<Row>)
      requires fl(total as real) > 0.0 && AreRewards(rewards, fl, conv, net, diffs, total)
      modifies this`pending, this`distributions
      ensures pending == Credited(old(pending), Paid(rewards, unrecorded + failing))
      ensures distributions == old(distributions) + made && ListsRows(made, height, Paid(rewards, unrecorded))
    {
      var todo := diffs.Keys;
      made := [];
      NothingDone(pending, height, rewards, unrecorded, failing);
      while todo != {}
        invariant todo <= diffs.Keys && distributions == old(distributions) + made
        invariant Progress(old(pending), pending, made, height, rewards, todo, unrecorded, failing)
        decreases todo
      {
        var miner :| miner in todo;
        var minerReward := MinerReward(fl, net, diffs[miner], total, conv);
        made := CreditMiner(miner, minerReward, height, unrecorded, failing, old(pending), rewards, todo,
                            old(distributions), made);
        todo := todo - {miner};
      }
      AllDone(old(pending), pending, made, height, rewards, unrecorded, failing);
    }

    method DistributeOver(fl: real -> real, conv: real -> Uint64, ghost shares: seq<Share>,
                          total: Uint64, diffs: map<string, Uint64>, height: nat,
                          reward: Uint64, feePercent: real, unrecorded: set<string>, failing: set<string>,
                          feeFails: bool, markFails: bool)
      returns (ghost made: seq<Row>)
      requires total == Wrap(Total(shares)) && fl(total as real) > 0.0 && diffs.Keys == Miners(shares)
      requires forall a :: a in diffs ==> diffs[a] == Wrap(DiffOf(shares, a))
      modifies this
      ensures
        var rewards := Rewards(fl, shares, NetReward(fl, reward, feePercent, conv), conv);
        && pending == Credited(old(pending), Paid(rewards, unrecorded + failing))
        && distributions == old(distributions) + made && ListsRows(made, height, Paid(rewards, unrecorded))
        && poolFees == old(poolFees) + FeeRows(FeeAmount(fl, reward, feePercent, conv), height, feeFails)
        && processed == old(processed) + if markFails then {} else {height}
    {
      var net := NetReward(fl, reward, feePercent, conv);
      RewardsOfWindow(shares, fl, conv, net, diffs, total);
      made := CreditMiners(fl, conv, net, diffs, total, height, unrecorded, failing, Rewards(fl, shares, net, conv));
      RecordFee(FeeAmount(fl, reward, feePercent, conv), height, feeFails, markFails);
    }

    method RecordFee(fee: Uint64, height: nat, feeFails: bool, markFails: bool)
      modifies this`poolFees, this`processed
      ensures poolFees == old(poolFees) + FeeRows(fee, height, feeFails)
      ensures processed == old(processed) + if markFails then {} else {height}
    {
      if fee > 0 && !feeFails { poolFees := poolFees + [(height, fee)]; }
      if !markFails { processed := processed + {height}; }
    }

    /** Distributes one block reward over the selected shares. `unrecorded` are the miners for whom
        creating the distribution fails, `failing` those whose balance cannot be read or written. */
    method DistributeBlockReward(fl: real -> real, conv: real -> Uint64, fetched: Option<seq<Share>>, height: nat,
                                 reward: Uint64, feePercent: real, unrecorded: set<string>, failing: set<string>,
                                 feeFails: bool, markFails: bool)
      returns (outcome: Outcome, ghost made: seq<Row>)
      requires Correct(fl)
      modifies this
      ensures outcome ==
        if fetched == None then FetchFailed
        else if fetched.value == [] then NoShares
        else if Wrap(Total(fetched.value)) == 0 then ZeroDifficulty
        else Distributed
      ensures outcome != Distributed ==> unchanged(this)
      ensures outcome == Distributed ==>
        && fl(Wrap(Total(fetched.value)) as real) > 0.0
        && var rewards := Rewards(fl, fetched.value, NetReward(fl, reward, feePercent, conv), conv);
        && pending == Credited(old(pending), Paid(rewards, unrecorded + failing))
        && distributions == old(distributions) + made && ListsRows(made, height, Paid(rewards, unrecorded))
        && poolFees == old(poolFees) + FeeRows(FeeAmount(fl, reward, feePercent, conv), height, feeFails)
        && processed == old(processed) + if markFails then {} else {height}
      ensures outcome == Distributed && reward < TWO51 && 0.0 <= feePercent <= 100.0 ==>
        && |old(poolFees)| <= |poolFees| && poolFees[..|old(poolFees)|] == old(poolFees)
        && CollectsFee(poolFees[|old(poolFees)|..], height, reward, feePercent, feeFails)
    {
      made := [];
      if fetched == None { return FetchFailed, made; }
      var shares := fetched.value;
      if shares == [] { return NoShares, made; }
      var total, diffs := Aggregate(shares);
      if total == 0 { return ZeroDifficulty, made; }
      PositiveTotal(fl, total);
      made := DistributeOver(fl, conv, shares, total, diffs, height, reward, feePercent,
                             unrecorded, failing, feeFails, markFails);
      if reward < TWO51 && 0.0 <= feePercent <= 100.0 {
        FeeCollected(fl, reward, feePercent, conv, height, feeFails, old(poolFees));
      }
      outcome := Distributed;
    }
  }

  lemma PositiveTotal(fl: real -> real, total: Uint64)
    requires Correct(fl) && total > 0
    ensures fl(total as real) > 0.0
  {
  }

  lemma {:induction false} SumPaid(rewards: map<string, Uint64>, failing: set<string>)
    ensures Sum(Paid(rewards, failing)) <= Sum(rewards)
    ensures failing == {} ==> Sum(Paid(rewards, failing)) == Sum(rewards)
    decreases |rewards|
  {
    if rewards == map[] {
      assert Paid(rewards, failing) == map[];
    } else {
      var a :| a in rewards;
      RemoveSize(rewards, a);
      SumPaid(rewards - {a}, failing);
      SumRemove(rewards, a);
      SumPaidLast(rewards, failing, a);
    }
  }

  lemma SumPaidLast(rewards: map<string, Uint64>, failing: set<string>, a: string)
    requires a in rewards
    ensures Sum(Paid(rewards, failing)) == Sum(Paid(rewards - {a}, failing)) + if a in failing then 0 else rewards[a]
  {
    if a in Paid(rewards, failing) {
      SumRemove(Paid(rewards, failing), a);
      assert Paid(rewards, failing) - {a} == Paid(rewards - {a}, failing);
    } else {
      assert Paid(rewards, failing) == Paid(rewards - {a}, failing);
    }
  }

  ghost predicate Fits(pending: map<string, Uint64>, paid: map<string, Uint64>) {
    forall a :: a in paid ==> Get(pending, a) + paid[a] < TWO64
  }

  lemma {:induction false} SumCredited(pending: map<string, Uint64>, paid: map<string, Uint64>)
    requires Fits(pending, paid)
    ensures Sum(Credited(pending, paid)) == Sum(pending) + Sum(paid)
    decreases |paid|
  {
    if paid == map[] {
      CreditNothing(pending);
    } else {
      var a :| a in paid;
      RemoveSize(paid, a);
      SumCredited(pending, paid - {a});
      SumCreditLast(pending, paid, a);
    }
  }

  lemma SumCreditLast(pending: map<string, Uint64>, paid: map<string, Uint64>, a: string)
    requires Fits(pending, paid) && a in paid
    requires Sum(Credited(pending, paid - {a})) == Sum(pending) + Sum(paid - {a})
    ensures Sum(Credited(pending, paid)) == Sum(pending) + Sum(paid)
  {
    SumRemove(paid, a);
    SumCreditOne(pending, paid - {a}, a, paid[a]);
    assert (paid - {a})[a := paid[a]] == paid;
  }

  lemma CreditExact(pending: map<string, Uint64>, paid: map<string, Uint64>, a: string, r: Uint64)
    requires a !in paid && Get(pending, a) + r < TWO64
    ensures Credited(pending, paid[a := r]) == Credited(pending, paid)[a := Get(pending, a) + r]
    ensures Get(Credited(pending, paid), a) == Get(pending, a)
  {
    CreditOne(pending, paid, a, r);
    UnpaidBalance(pending, paid, a);
  }

  lemma CreditNothing(pending: map<string, Uint64>)
    ensures Credited(pending, map[]) == pending
  {
  }

  lemma SumCreditOne(pending: map<string, Uint64>, paid: map<string, Uint64>, a: string, r: Uint64)
    requires a !in paid && Get(pending, a) + r < TWO64
    ensures Sum(Credited(pending, paid[a := r])) == Sum(Credited(pending, paid)) + r
  {
    CreditExact(pending, paid, a, r);
    SumInsert(Credited(pending, paid), a, Get(pending, a) + r);
  }

  lemma CreditsConserved(pending: map<string, Uint64>, rewards: map<string, Uint64>, failing: set<string>)
    requires Sum(rewards) < TWO51
    requires forall a :: a in pending ==> pending[a] < TWO64 - TWO51
    ensures
      var credited := Credited(pending, Paid(rewards, failing));
      && Sum(credited) <= Sum(pending) + Sum(rewards)
      && (failing == {} ==> Sum(credited) == Sum(pending) + Sum(rewards))
      && (forall a :: a in pending ==> a in credited && pending[a] <= credited[a])
  {
    var paid := Paid(rewards, failing);
    forall a | a in paid ensures paid[a] < TWO51 {
      SumRemove(rewards, a);
      SumNonNegative(rewards - {a});
    }
    SumPaid(rewards, failing);
    SumCredited(pending, paid);
  }

  /** Each balance by itself: the reward is added unless the miner's ledger operations fail. */
  lemma BalanceRules(pending: map<string, Uint64>, rewards: map<string, Uint64>, failing: set<string>, a: string)
    requires a in rewards ==> Get(pending, a) + rewards[a] < TWO64
    ensures Get(Credited(pending, Paid(rewards, failing)), a)
         == Get(pending, a) + if a in rewards && a !in failing then rewards[a] else 0
  {
    var paid := Paid(rewards, failing);
    if a !in paid { UnpaidBalance(pending, paid, a); }
  }

  /** What is not paid is exactly what fails. */
  lemma {:induction false} SumUnpaid(rewards: map<string, Uint64>, failing: set<string>)
    ensures Sum(Paid(rewards, failing)) + Sum(map a | a in rewards && a in failing :: rewards[a]) == Sum(rewards)
    decreases |rewards|
  {
    var unpaid := map a | a in rewards && a in failing :: rewards[a];
    if rewards == map[] {
      assert Paid(rewards, failing) == map[] == unpaid;
    } else {
      var a :| a in rewards;
      var rest := rewards - {a};
      RemoveSize(rewards, a);
      SumUnpaid(rest, failing);
      SumRemove(rewards, a);
      SumPaidLast(rewards, failing, a);
      var unpaid' := map m | m in rest && m in failing :: rest[m];
      if a in failing {
        SumRemove(unpaid, a);
        assert unpaid - {a} == unpaid';
      } else {
        assert unpaid == unpaid';
      }
    }
  }

  /** Money is neither created nor lost beyond one atomic unit per miner: the growth of all
      balances plus the fee is at most the reward, and reaches it up to rounding when no ledger
      operation fails. */
  lemma BalancesConserved(fl: real -> real, conv: real -> Uint64, shares: seq<Share>, reward: Uint64,
                          feePercent: real, failing: set<string>, pending: map<string, Uint64>)
    requires Correct(fl) && 0 < Total(shares) < TWO64 && reward < TWO51 && 0.0 <= feePercent <= 100.0
    requires forall a :: a in pending ==> pending[a] < TWO64 - TWO51
    ensures fl(Wrap(Total(shares)) as real) > 0.0
    ensures
      var fee := FeeAmount(fl, reward, feePercent, conv);
      var rewards := Rewards(fl, shares, NetReward(fl, reward, feePercent, conv), conv);
      var credited := Credited(pending, Paid(rewards, failing));
      && Sum(credited) - Sum(pending) + fee <= reward
      && (failing == {} ==> reward - |Miners(shares)| <= Sum(credited) - Sum(pending) + fee)
      && (forall a :: a in pending ==> a in credited && pending[a] <= credited[a])
  {
    RewardConserved(fl, shares, reward, feePercent, conv);
    CreditsConserved(pending, Rewards(fl, shares, NetReward(fl, reward, feePercent, conv), conv), failing);
  }
}
