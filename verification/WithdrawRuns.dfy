/** Any sequence of new payments and non-overlapping payout runs: who is paid, how much, how often. */
module WithdrawRuns {
  import opened Binary64
  import opened Collections
  import opened Sums
  import opened Withdraw

  /** The payments table and every wallet call so far. */
  datatype Pool = Pool(rows: Table, transfers: seq<Transfer>)

  datatype Event =
    | Created(id: Id, recipient: string, amount: Uint64)
    | Ran(answers: Answers, made: seq<Transfer>)

  const EMPTY: Pool := Pool(map[], [])

  ghost predicate Allowed(c: Config, s: Pool, e: Event) {
    match e
    case Created(id, _, _) => id !in s.rows
    case Ran(a, made) => Enumerates(made, Calls(s.rows, c, a))
  }

  ghost function Step(c: Config, s: Pool, e: Event): Pool {
    match e
    case Created(id, recipient, amount) => s.(rows := s.rows[id := Payment(recipient, amount, Pending)])
    case Ran(a, made) => Pool(After(s.rows, c, a), s.transfers + made)
  }

  ghost function Run(c: Config, s: Pool, es: seq<Event>): Pool {
    if es == [] then s else Step(c, Run(c, s, es[..|es| - 1]), es[|es| - 1])
  }

  ghost predicate ValidRun(c: Config, s: Pool, es: seq<Event>) {
    es != [] ==> ValidRun(c, s, es[..|es| - 1]) && Allowed(c, Run(c, s, es[..|es| - 1]), es[|es| - 1])
  }

  ghost predicate UpdatesSucceed(e: Event) {
    e.Ran? ==> forall id :: e.answers.updated(id)
  }

  // ---- One run -----------------------------------------------------------------------------

  /** Exactly the payments of paid recipients whose update succeeded change, to sent. */
  lemma StatusChangesIff(rows: Table, c: Config, a: Answers, id: Id)
    requires id in rows
    ensures id in After(rows, c, a)
    ensures After(rows, c, a)[id] != rows[id]
       <==> rows[id].status == Pending && rows[id].recipient in Paid(rows, c, a) && a.updated(id)
    ensures After(rows, c, a)[id] == rows[id] || After(rows, c, a)[id] == rows[id].(status := Sent)
  {
  }

  function AmountAsked(c: Config, total: Uint64): Uint64 {
    Wrap(total - c.withdrawalFee)
  }

  /** Every transfer is for the total less the fee if and only if the fee is at most the minimum;
      otherwise the subtraction wraps. */
  lemma AmountsRightIff(c: Config)
    ensures (forall total: Uint64 :: total >= c.minWithdrawal ==> AmountAsked(c, total) == total - c.withdrawalFee)
       <==> c.withdrawalFee <= c.minWithdrawal
  {
    if c.withdrawalFee > c.minWithdrawal {
      assert AmountAsked(c, c.minWithdrawal) >= 0;
    }
  }

  // ---- No payment twice --------------------------------------------------------------------

  /** Payments of successful transfers are marked, and belong to one such transfer. */
  ghost predicate PaidOnce(s: Pool) {
    && PaidAreSent(s)
    && forall i, j :: 0 <= i < j < |s.transfers| && s.transfers[i].ok && s.transfers[j].ok ==>
         s.transfers[i].ids !! s.transfers[j].ids
  }

  lemma MadePending(rows: Table, c: Config, a: Answers, made: seq<Transfer>, i: nat)
    requires Enumerates(made, Calls(rows, c, a)) && i < |made|
    ensures made[i].ids == PendingIds(rows, made[i].recipient)
    ensures made[i].ok <==> made[i].recipient in Paid(rows, c, a)
  {
  }

  ghost predicate IdsSent(rows: Table, t: Transfer) {
    t.ok ==> forall id :: id in t.ids ==> id in rows && rows[id].status == Sent
  }

  ghost predicate PaidAreSent(s: Pool) {
    forall t :: t in s.transfers ==> IdsSent(s.rows, t)
  }

  lemma MadeMarked(rows: Table, c: Config, a: Answers, made: seq<Transfer>, i: nat)
    requires Enumerates(made, Calls(rows, c, a)) && i < |made| && forall id :: a.updated(id)
    ensures IdsSent(After(rows, c, a), made[i])
  {
    MadePending(rows, c, a, made, i);
  }

  lemma SentStays(rows: Table, c: Config, a: Answers, t: Transfer)
    requires IdsSent(rows, t)
    ensures IdsSent(After(rows, c, a), t)
  {
  }

  lemma RunMarks(c: Config, s: Pool, a: Answers, made: seq<Transfer>)
    requires PaidAreSent(s) && Enumerates(made, Calls(s.rows, c, a)) && forall id :: a.updated(id)
    ensures PaidAreSent(Pool(After(s.rows, c, a), s.transfers + made))
  {
    forall t | t in s.transfers + made ensures IdsSent(After(s.rows, c, a), t) {
      if t in s.transfers {
        SentStays(s.rows, c, a, t);
      } else {
        var i :| 0 <= i < |made| && made[i] == t;
        MadeMarked(s.rows, c, a, made, i);
      }
    }
  }

  lemma MadeDisjoint(c: Config, s: Pool, a: Answers, made: seq<Transfer>, i: nat, j: nat)
    requires PaidOnce(s) && Enumerates(made, Calls(s.rows, c, a))
    requires i < j < |s.transfers + made| && (s.transfers + made)[i].ok && (s.transfers + made)[j].ok
    ensures (s.transfers + made)[i].ids !! (s.transfers + made)[j].ids
  {
    var n := |s.transfers|;
    if n <= j {
      MadePending(s.rows, c, a, made, j - n);
      if i < n {
        assert IdsSent(s.rows, s.transfers[i]);
      } else {
        MadePending(s.rows, c, a, made, i - n);
        assert made[i - n].recipient != made[j - n].recipient;
      }
    }
  }

  lemma RunPaysOnce(c: Config, s: Pool, a: Answers, made: seq<Transfer>)
    requires PaidOnce(s) && Enumerates(made, Calls(s.rows, c, a)) && forall id :: a.updated(id)
    ensures PaidOnce(Pool(After(s.rows, c, a), s.transfers + made))
  {
    RunMarks(c, s, a, made);
    forall i, j | 0 <= i < j < |s.transfers + made| && (s.transfers + made)[i].ok && (s.transfers + made)[j].ok
      ensures (s.transfers + made)[i].ids !! (s.transfers + made)[j].ids
    {
      MadeDisjoint(c, s, a, made, i, j);
    }
  }

  /** If status updates succeed, no payment is ever part of two successful transfers. */
  lemma {:induction false} NeverPaidTwice(c: Config, es: seq<Event>)
    requires ValidRun(c, EMPTY, es) && forall i :: 0 <= i < |es| ==> UpdatesSucceed(es[i])
    ensures PaidOnce(Run(c, EMPTY, es))
  {
    if es != [] {
      var init, e := es[..|es| - 1], es[|es| - 1];
      NeverPaidTwice(c, init);
      assert UpdatesSucceed(e);
      if e.Ran? {
        RunPaysOnce(c, Run(c, EMPTY, init), e.answers, e.made);
      } else {
        forall t | t in Run(c, EMPTY, init).transfers ensures IdsSent(Run(c, EMPTY, es).rows, t) {
          assert IdsSent(Run(c, EMPTY, init).rows, t);
        }
      }
    }
  }

  // ---- Conservation ------------------------------------------------------------------------

  function SentIds(rows: Table): set<Id> {
    set id | id in rows && rows[id].status == Sent
  }

  ghost function SentTotal(rows: Table): int {
    Sum(Amounts(rows, SentIds(rows)))
  }

  /** What the successful transfers were made for: the amounts and the fees withheld. */
  function Settled(c: Config, ts: seq<Transfer>): int {
    if ts == [] then 0
    else
      var t := ts[|ts| - 1];
      Settled(c, ts[..|ts| - 1]) + if t.ok then t.amount + c.withdrawalFee else 0
  }

  lemma {:induction false} SettledConcat(c: Config, a: seq<Transfer>, b: seq<Transfer>)
    ensures Settled(c, a + b) == Settled(c, a) + Settled(c, b)
  {
    if b == [] {
      assert a + b == a;
    } else {
      assert (a + b)[..|a + b| - 1] == a + b[..|b| - 1];
      SettledConcat(c, a, b[..|b| - 1]);
    }
  }

  lemma MarkedAmounts(rows: Table, marked: set<Id>, ids: set<Id>, updated: Id -> bool)
    ensures Amounts(Marked(rows, marked, updated), ids) == Amounts(rows, ids)
  {
  }

  /** Marking one more recipient's payments moves what was due into the sent total. */
  lemma MarkRecipient(rows: Table, rs: set<string>, r: string, updated: Id -> bool)
    requires r !in rs && forall id :: updated(id)
    ensures SentTotal(Marked(rows, PendingOf(rows, rs + {r}), updated))
         == SentTotal(Marked(rows, PendingOf(rows, rs), updated)) + Due(rows, r)
  {
    var one, two := PendingOf(rows, rs), PendingOf(rows, rs + {r});
    var before, after := SentIds(Marked(rows, one, updated)), SentIds(Marked(rows, two, updated));
    assert after == before + PendingIds(rows, r);
    assert Amounts(rows, after) == Amounts(rows, before) + Amounts(rows, PendingIds(rows, r));
    SumDisjoint(Amounts(rows, before), Amounts(rows, PendingIds(rows, r)));
    MarkedAmounts(rows, one, before, updated);
    MarkedAmounts(rows, two, after, updated);
  }

  ghost predicate NoOverflow(rows: Table) {
    forall r :: r in Recipients(rows) ==> 0 <= Due(rows, r) < TWO64
  }

  function Oks(ts: seq<Transfer>): set<string> {
    set t | t in ts && t.ok :: t.recipient
  }

  lemma CallSettles(rows: Table, c: Config, a: Answers, t: Transfer)
    requires c.withdrawalFee <= c.minWithdrawal && NoOverflow(rows)
    requires t.recipient in Calls(rows, c, a) && t == Calls(rows, c, a)[t.recipient]
    ensures t.amount + c.withdrawalFee == Due(rows, t.recipient)
  {
  }

  lemma {:induction false} PrefixSettles(rows: Table, c: Config, a: Answers, made: seq<Transfer>, k: nat)
    requires c.withdrawalFee <= c.minWithdrawal && NoOverflow(rows) && forall id :: a.updated(id)
    requires Enumerates(made, Calls(rows, c, a)) && k <= |made|
    ensures SentTotal(Marked(rows, PendingOf(rows, Oks(made[..k])), a.updated))
         == SentTotal(rows) + Settled(c, made[..k])
  {
    if k == 0 {
      assert PendingOf(rows, Oks(made[..0])) == {};
      assert Marked(rows, {}, a.updated) == rows;
    } else {
      var t := made[k - 1];
      PrefixSettles(rows, c, a, made, k - 1);
      assert made[..k] == made[..k - 1] + [t];
      assert made[..k][..k - 1] == made[..k - 1];
      if t.ok {
        assert Oks(made[..k]) == Oks(made[..k - 1]) + {t.recipient};
        MarkRecipient(rows, Oks(made[..k - 1]), t.recipient, a.updated);
        CallSettles(rows, c, a, t);
      } else {
        assert Oks(made[..k]) == Oks(made[..k - 1]);
      }
    }
  }

  lemma AllPaid(rows: Table, c: Config, a: Answers, made: seq<Transfer>)
    requires Enumerates(made, Calls(rows, c, a))
    ensures Oks(made) == Paid(rows, c, a)
  {
    forall i | 0 <= i < |made| ensures made[i].ok <==> made[i].recipient in Paid(rows, c, a) {
      MadePending(rows, c, a, made, i);
    }
    EnumeratesAll(made, Calls(rows, c, a));
    forall r | r in Paid(rows, c, a) ensures r in Oks(made) {
      assert r in Calls(rows, c, a);
    }
  }

  /** A list of distinct keys as long as the map has them all. */
  lemma EnumeratesAll(made: seq<Transfer>, calls: map<string, Transfer>)
    requires Enumerates(made, calls)
    ensures forall r :: r in calls ==> exists i :: 0 <= i < |made| && made[i].recipient == r
  {
    var seen := set i | 0 <= i < |made| :: made[i].recipient;
    SeenSize(made, |made|);
    SubsetSize(seen, calls.Keys);
  }

  lemma {:induction false} SeenSize(made: seq<Transfer>, k: nat)
    requires k <= |made| && forall i, j :: 0 <= i < j < |made| ==> made[i].recipient != made[j].recipient
    ensures |set i | 0 <= i < k :: made[i].recipient| == k
  {
    if k > 0 {
      SeenSize(made, k - 1);
      var before, after := (set i | 0 <= i < k - 1 :: made[i].recipient), (set i | 0 <= i < k :: made[i].recipient);
      assert after == before + {made[k - 1].recipient};
    }
  }

  lemma RunSettles(rows: Table, c: Config, a: Answers, made: seq<Transfer>)
    requires c.withdrawalFee <= c.minWithdrawal && NoOverflow(rows) && forall id :: a.updated(id)
    requires Enumerates(made, Calls(rows, c, a))
    ensures SentTotal(After(rows, c, a)) == SentTotal(rows) + Settled(c, made)
  {
    PrefixSettles(rows, c, a, made, |made|);
    assert made[..|made|] == made;
    AllPaid(rows, c, a, made);
  }

  lemma CreatedKeepsSent(rows: Table, id: Id, recipient: string, amount: Uint64)
    requires id !in rows
    ensures SentTotal(rows[id := Payment(recipient, amount, Pending)]) == SentTotal(rows)
  {
    var rows' := rows[id := Payment(recipient, amount, Pending)];
    assert SentIds(rows') == SentIds(rows);
    assert Amounts(rows', SentIds(rows)) == Amounts(rows, SentIds(rows));
  }

  ghost predicate RunsWithoutOverflow(c: Config, es: seq<Event>) {
    forall i :: 0 <= i < |es| && es[i].Ran? ==> NoOverflow(Run(c, EMPTY, es[..i]).rows)
  }

  /** Over any run the payments marked as sent are worth exactly what the wallet paid out plus the
      fees withheld. */
  lemma {:induction false} PayoutsConserved(c: Config, es: seq<Event>)
    requires ValidRun(c, EMPTY, es) && forall i :: 0 <= i < |es| ==> UpdatesSucceed(es[i])
    requires c.withdrawalFee <= c.minWithdrawal && RunsWithoutOverflow(c, es)
    ensures SentTotal(Run(c, EMPTY, es).rows) == Settled(c, Run(c, EMPTY, es).transfers)
  {
    if es == [] {
      assert Amounts(EMPTY.rows, SentIds(EMPTY.rows)) == map[];
    } else {
      var init, e := es[..|es| - 1], es[|es| - 1];
      var s := Run(c, EMPTY, init);
      forall i | 0 <= i < |init| && init[i].Ran? ensures NoOverflow(Run(c, EMPTY, init[..i]).rows) {
        assert init[..i] == es[..i] && init[i] == es[i];
      }
      PayoutsConserved(c, init);
      assert UpdatesSucceed(e);
      match e
      case Created(id, recipient, amount) => CreatedKeepsSent(s.rows, id, recipient, amount);
      case Ran(a, made) =>
        RunSettles(s.rows, c, a, made);
        SettledConcat(c, s.transfers, made);
    }
  }

  // ---- Failed updates ----------------------------------------------------------------------

  ghost predicate NothingUpdated(e: Event) {
    e.Ran? && forall id :: !e.answers.updated(id)
  }

  lemma NothingMarked(rows: Table, c: Config, a: Answers)
    requires forall id :: !a.updated(id)
    ensures After(rows, c, a) == rows
  {
  }

  /** While no update succeeds, every run asks the wallet for the same transfers again, whatever the
      wallet answers. */
  lemma {:induction false} FailedUpdatesRepeat(c: Config, s: Pool, es: seq<Event>)
    requires ValidRun(c, s, es) && forall i :: 0 <= i < |es| ==> NothingUpdated(es[i])
    ensures Run(c, s, es).rows == s.rows
    ensures forall i :: 0 <= i < |es| ==> es[i].Ran? && Enumerates(es[i].made, Calls(s.rows, c, es[i].answers))
  {
    if es != [] {
      var init, e := es[..|es| - 1], es[|es| - 1];
      FailedUpdatesRepeat(c, s, init);
      assert NothingUpdated(e);
      NothingMarked(s.rows, c, e.answers);
      assert es == init + [e];
    }
  }

  /** A successful transfer made between two states held the payment. */
  ghost predicate PaidSince(before: Pool, after: Pool, id: Id) {
    exists i :: |before.transfers| <= i < |after.transfers| && after.transfers[i].ok && id in after.transfers[i].ids
  }

  ghost predicate IsSent(s: Pool, id: Id) {
    id in s.rows && s.rows[id].status == Sent
  }

  lemma StepKeepsSent(c: Config, s: Pool, e: Event, id: Id)
    requires Allowed(c, s, e) && IsSent(s, id)
    ensures IsSent(Step(c, s, e), id)
    ensures |s.transfers| <= |Step(c, s, e).transfers|
    ensures forall i :: 0 <= i < |s.transfers| ==> Step(c, s, e).transfers[i] == s.transfers[i]
    ensures !PaidSince(s, Step(c, s, e), id)
  {
    if e.Ran? {
      forall i | 0 <= i < |e.made| ensures id !in e.made[i].ids { MadePending(s.rows, c, e.answers, e.made, i); }
    }
  }

  /** A payment marked as sent is in no later transfer. */
  lemma {:induction false} SentIsFinal(c: Config, s: Pool, es: seq<Event>, id: Id)
    requires ValidRun(c, s, es) && IsSent(s, id)
    ensures IsSent(Run(c, s, es), id) && |s.transfers| <= |Run(c, s, es).transfers|
    ensures !PaidSince(s, Run(c, s, es), id)
  {
    if es != [] {
      var init := es[..|es| - 1];
      SentIsFinal(c, s, init, id);
      StepKeepsSent(c, Run(c, s, init), es[|es| - 1], id);
    }
  }

  lemma {:induction false} SomeOrder(calls: map<string, Transfer>) returns (made: seq<Transfer>)
    requires forall r :: r in calls ==> calls[r].recipient == r
    ensures Enumerates(made, calls)
    decreases |calls|
  {
    if calls == map[] {
      made := [];
    } else {
      var r :| r in calls;
      RemoveSize(calls, r);
      var rest := SomeOrder(calls - {r});
      made := rest + [calls[r]];
      EnumerateMore(rest, calls, {r}, r);
      assert calls - ({r} - {r}) == calls;
    }
  }

  lemma DueAfterCreation(rows: Table, id: Id, r: string, amount: Uint64)
    requires id !in rows
    ensures Due(rows[id := Payment(r, amount, Pending)], r) == Due(rows, r) + amount
  {
    var rows' := rows[id := Payment(r, amount, Pending)];
    var before := Amounts(rows, PendingIds(rows, r));
    assert PendingIds(rows', r) == PendingIds(rows, r) + {id};
    assert Amounts(rows', PendingIds(rows', r)) == before[id := amount as int];
    SumInsert(before, id, amount as int);
    assert before - {id} == before;
  }

  /** What a new payment must add for the sum to reach the minimum. */
  function Missing(c: Config, sum: Uint64): (x: Uint64)
    ensures c.minWithdrawal <= Wrap(sum + x)
  {
    if sum >= c.minWithdrawal then 0 else c.minWithdrawal - sum
  }

  const ALL_WELL: Answers := Answers(_ => true, _ => true)

  lemma ReachesAgain(c: Config, rows: Table, id: Id, next: Id) returns (rows': Table)
    requires id in rows && rows[id].status == Pending && next !in rows
    ensures rows' == rows[next := Payment(rows[id].recipient, Missing(c, Wrap(Due(rows, rows[id].recipient))), Pending)]
    ensures id in rows' && rows'[id] == rows[id] && Reaches(rows', c, rows[id].recipient)
  {
    var r := rows[id].recipient;
    var sum := Wrap(Due(rows, r));
    var x := Missing(c, sum);
    rows' := rows[next := Payment(r, x, Pending)];
    DueAfterCreation(rows, next, r, x);
    AddModulo(Due(rows, r), x, sum);
    assert rows'[id].recipient in Recipients(rows');
  }

  lemma RunPays(c: Config, s: Pool, id: Id) returns (made: seq<Transfer>)
    requires id in s.rows && s.rows[id].status == Pending && Reaches(s.rows, c, s.rows[id].recipient)
    ensures Enumerates(made, Calls(s.rows, c, ALL_WELL))
    ensures PaidSince(s, Step(c, s, Ran(ALL_WELL, made)), id)
  {
    var r, calls := s.rows[id].recipient, Calls(s.rows, c, ALL_WELL);
    made := SomeOrder(calls);
    EnumeratesAll(made, calls);
    assert r in calls;
    var i :| 0 <= i < |made| && made[i].recipient == r;
    MadePending(s.rows, c, ALL_WELL, made, i);
    assert (s.transfers + made)[|s.transfers| + i] == made[i];
  }

  /** A pending payment can always be paid: one more payment brings its recipient over the minimum. */
  lemma PendingCanBePaid(c: Config, s: Pool, id: Id) returns (es: seq<Event>)
    requires id in s.rows && s.rows[id].status == Pending
    ensures ValidRun(c, s, es) && PaidSince(s, Run(c, s, es), id)
  {
    var next := Above(s.rows.Keys);
    var rows' := ReachesAgain(c, s.rows, id, next);
    var r := s.rows[id].recipient;
    var created := Created(next, r, Missing(c, Wrap(Due(s.rows, r))));
    var s' := Pool(rows', s.transfers);
    var made := RunPays(c, s', id);
    RunSteps(c, s, [], created);
    assert [] + [created] == [created];
    assert Run(c, s, [created]) == s';
    RunSteps(c, s, [created], Ran(ALL_WELL, made));
    es := [created] + [Ran(ALL_WELL, made)];
  }

  /** No continuation of new payments and runs pays it. */
  ghost predicate NeverAgain(c: Config, s: Pool, id: Id) {
    forall es :: ValidRun(c, s, es) ==> !PaidSince(s, Run(c, s, es), id)
  }

  lemma NeverAgainIff(c: Config, s: Pool, id: Id)
    requires id in s.rows
    ensures IsSent(s, id) <==> NeverAgain(c, s, id)
  {
    if IsSent(s, id) {
      forall es | ValidRun(c, s, es) ensures !PaidSince(s, Run(c, s, es), id) { SentIsFinal(c, s, es, id); }
    } else {
      var es := PendingCanBePaid(c, s, id);
    }
  }

  /** After a payment was part of a successful transfer, nothing that can happen pays it again if and
      only if marking it succeeded. */
  lemma PaidAgainIff(c: Config, s: Pool, a: Answers, made: seq<Transfer>, id: Id)
    requires Enumerates(made, Calls(s.rows, c, a)) && id in PendingOf(s.rows, Paid(s.rows, c, a))
    ensures a.updated(id) <==> NeverAgain(c, Step(c, s, Ran(a, made)), id)
  {
    StatusChangesIff(s.rows, c, a, id);
    NeverAgainIff(c, Step(c, s, Ran(a, made)), id);
  }

  /** One payment, two runs, the wallet pays both times because the first update failed. */
  lemma FailedUpdatePaysTwice(c: Config, amount: Uint64)
    requires c.minWithdrawal <= amount
    ensures
      var rows: Table := map[0 := Payment("miner", amount, Pending)];
      var a := Answers(_ => true, _ => false);
      var t := Transfer("miner", AmountAsked(c, amount), true, {0});
      var es := [Created(0, "miner", amount), Ran(a, [t]), Ran(a, [t])];
      ValidRun(c, EMPTY, es) && Run(c, EMPTY, es) == Pool(rows, [t, t])
  {
    var rows: Table := map[0 := Payment("miner", amount, Pending)];
    var a := Answers(_ => true, _ => false);
    var t := Transfer("miner", AmountAsked(c, amount), true, {0});
    var es := [Created(0, "miner", amount), Ran(a, [t]), Ran(a, [t])];
    OnePaymentCalls(c, a, amount);
    NothingMarked(rows, c, a);
    RunSteps(c, EMPTY, [], es[0]);
    assert [] + [es[0]] == [es[0]];
    assert Run(c, EMPTY, [es[0]]) == Pool(rows, []);
    RunSteps(c, EMPTY, [es[0]], es[1]);
    assert [es[0]] + [es[1]] == [es[0], es[1]];
    assert Run(c, EMPTY, [es[0], es[1]]) == Pool(rows, [t]);
    RunSteps(c, EMPTY, [es[0], es[1]], es[2]);
    assert [es[0], es[1]] + [es[2]] == es;
  }

  lemma RunSteps(c: Config, s: Pool, es: seq<Event>, e: Event)
    ensures Run(c, s, es + [e]) == Step(c, Run(c, s, es), e)
    ensures ValidRun(c, s, es + [e]) <==> ValidRun(c, s, es) && Allowed(c, Run(c, s, es), e)
  {
    assert (es + [e])[..|es|] == es;
  }

  lemma OnePaymentCalls(c: Config, a: Answers, amount: Uint64)
    requires c.minWithdrawal <= amount && a.transferred("miner")
    ensures Enumerates([Transfer("miner", AmountAsked(c, amount), true, {0})],
                       Calls(map[0 := Payment("miner", amount, Pending)], c, a))
  {
    var rows: Table := map[0 := Payment("miner", amount, Pending)];
    assert PendingIds(rows, "miner") == {0};
    var amounts: map<Id, int> := map[0 := amount];
    assert Amounts(rows, {0}) == amounts;
    SumRemove(amounts, 0);
    assert amounts - {0} == map[];
    assert Due(rows, "miner") == amount;
    assert Recipients(rows) == {"miner"} by { assert rows[0].recipient in Recipients(rows); }
    assert Reaches(rows, c, "miner");
    assert Calls(rows, c, a).Keys == {"miner"};
  }
}
