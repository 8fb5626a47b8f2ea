/** Paying out pending payments (cmd/master/withdraw.go). The payments table is a map from payment
    id to row; wallet and ledger answers are parameters. */
module Withdraw {
  import opened Optional
  import opened Binary64
  import opened Collections
  import opened Sums

  type Id = nat
  datatype Status = Pending | Sent
  datatype Payment = Payment(recipient: string, amount: Uint64, status: Status)
  type Table = map<Id, Payment>

  /** The threshold and the fee in atomic units. */
  datatype Config = Config(minWithdrawal: Uint64, withdrawalFee: Uint64)

  /** One call of the wallet: whom and how much it was asked to pay, whether it did, and the
      payments the amount was computed from. */
  datatype Transfer = Transfer(recipient: string, amount: Uint64, ok: bool, ids: set<Id>)

  /** What the outside world answers during one run. A run asks the wallet at most once per
      recipient and updates a payment at most once. */
  datatype Answers = Answers(transferred: string -> bool, updated: Id -> bool)

  // ---- What one run does -------------------------------------------------------------------

  function PendingIds(rows: Table, r: string): set<Id> {
    set id | id in rows && rows[id].status == Pending && rows[id].recipient == r
  }

  function Recipients(rows: Table): set<string> {
    set id | id in rows && rows[id].status == Pending :: rows[id].recipient
  }

  function Amounts(rows: Table, ids: set<Id>): map<Id, int> {
    map id | id in ids && id in rows :: rows[id].amount
  }

  /** What a recipient is owed. */
  ghost function Due(rows: Table, r: string): int {
    Sum(Amounts(rows, PendingIds(rows, r)))
  }

  ghost predicate Reaches(rows: Table, c: Config, r: string) {
    r in Recipients(rows) && Wrap(Due(rows, r)) >= c.minWithdrawal
  }

  ghost function CallFor(rows: Table, c: Config, a: Answers, r: string): Transfer {
    Transfer(r, Wrap(Wrap(Due(rows, r)) - c.withdrawalFee), a.transferred(r), PendingIds(rows, r))
  }

  /** The wallet calls of one run, by recipient. */
  ghost function Calls(rows: Table, c: Config, a: Answers): map<string, Transfer> {
    map r | r in Recipients(rows) && Reaches(rows, c, r) :: CallFor(rows, c, a, r)
  }

  ghost function Paid(rows: Table, c: Config, a: Answers): set<string> {
    set r | r in Recipients(rows) && Reaches(rows, c, r) && a.transferred(r)
  }

  function Marked(rows: Table, ids: set<Id>, updated: Id -> bool): Table {
    map id | id in rows :: if id in ids && updated(id) then rows[id].(status := Sent) else rows[id]
  }

  function PendingOf(rows: Table, rs: set<string>): set<Id> {
    set id | id in rows && rows[id].status == Pending && rows[id].recipient in rs
  }

  /** The table after one run. */
  ghost function After(rows: Table, c: Config, a: Answers): Table {
    Marked(rows, PendingOf(rows, Paid(rows, c, a)), a.updated)
  }

  /** ts lists the given calls, each once, in some order. */
  ghost predicate Enumerates(ts: seq<Transfer>, calls: map<string, Transfer>) {
    && |ts| == |calls|
    && (forall i :: 0 <= i < |ts| ==> ts[i].recipient in calls && ts[i] == calls[ts[i].recipient])
    && forall i, j :: 0 <= i < j < |ts| ==> ts[i].recipient != ts[j].recipient
  }

  // ---- The run itself ----------------------------------------------------------------------

  /** The pending query's answer: every pending payment, once. */
  ghost predicate Lists(rows: Table, ids: seq<Id>) {
    && (forall i :: 0 <= i < |ids| ==> ids[i] in rows && rows[ids[i]].status == Pending)
    && (forall i, j :: 0 <= i < j < |ids| ==> ids[i] != ids[j])
    && forall id :: id in rows && rows[id].status == Pending ==> id in ids
  }

  /** The payments of one recipient, in listing order. */
  function For(rows: Table, ids: seq<Id>, r: string): seq<Id>
    requires forall i :: 0 <= i < |ids| ==> ids[i] in rows
  {
    if ids == [] then []
    else
      var last := ids[|ids| - 1];
      For(rows, ids[..|ids| - 1], r) + if rows[last].recipient == r then [last] else []
  }

  lemma {:induction false} ForElements(rows: Table, ids: seq<Id>, r: string)
    requires forall i :: 0 <= i < |ids| ==> ids[i] in rows
    requires forall i, j :: 0 <= i < j < |ids| ==> ids[i] != ids[j]
    ensures forall id :: id in For(rows, ids, r) <==> id in ids && rows[id].recipient == r
    ensures forall i, j :: 0 <= i < j < |For(rows, ids, r)| ==> For(rows, ids, r)[i] != For(rows, ids, r)[j]
  {
    if ids != [] {
      var init, last := ids[..|ids| - 1], ids[|ids| - 1];
      ForElements(rows, init, r);
      assert ids == init + [last];
      assert last !in init;
    }
  }

  method Group(rows: Table, ids: seq<Id>) returns (groups: map<string, seq<Id>>)
    requires forall i :: 0 <= i < |ids| ==> ids[i] in rows
    ensures forall r :: r in groups <==> For(rows, ids, r) != []
    ensures forall r :: r in groups ==> groups[r] == For(rows, ids, r)
  {
    groups := map[];
    for i := 0 to |ids|
      invariant forall r :: r in groups <==> For(rows, ids[..i], r) != []
      invariant forall r :: r in groups ==> groups[r] == For(rows, ids[..i], r)
    {
      var r := rows[ids[i]].recipient;
      assert ids[..i + 1][..i] == ids[..i];
      groups := groups[r := (if r in groups then groups[r] else []) + [ids[i]]];
    }
    assert ids[..|ids|] == ids;
  }

  /** The total of one recipient's payments, modulo 2^64, whatever their order. */
  method TotalAmount(rows: Table, ids: seq<Id>) returns (total: Uint64)
    requires forall id :: id in ids ==> id in rows
    requires forall i, j :: 0 <= i < j < |ids| ==> ids[i] != ids[j]
    ensures total == Wrap(Sum(Amounts(rows, Elements(ids))))
  {
    total := 0;
    ghost var exact: int := 0;
    assert Amounts(rows, Elements(ids[..0])) == map[];
    for i := 0 to |ids|
      invariant exact == Sum(Amounts(rows, Elements(ids[..i])))
      invariant total == Wrap(exact)
    {
      AmountsStep(rows, ids, i);
      var amount := rows[ids[i]].amount;
      AddModulo(exact, amount, total);
      total := Wrap(total + amount);
      exact := exact + amount;
    }
    assert ids[..|ids|] == ids;
  }

  lemma AddAmount(rows: Table, ids: set<Id>, id: Id)
    requires id in rows && id !in ids
    ensures Sum(Amounts(rows, ids + {id})) == Sum(Amounts(rows, ids)) + rows[id].amount
  {
    var before := Amounts(rows, ids);
    assert Amounts(rows, ids + {id}) == before[id := rows[id].amount];
    SumInsert(before, id, rows[id].amount);
  }

  lemma AmountsStep(rows: Table, ids: seq<Id>, i: nat)
    requires i < |ids| && ids[i] in rows
    requires forall i, j :: 0 <= i < j < |ids| ==> ids[i] != ids[j]
    ensures Sum(Amounts(rows, Elements(ids[..i + 1]))) == Sum(Amounts(rows, Elements(ids[..i]))) + rows[ids[i]].amount
  {
    PrefixElements(ids, i);
    AddAmount(rows, Elements(ids[..i]), ids[i]);
  }

  /** The pending payments of r, each once. */
  ghost predicate IsGroup(rows: Table, group: seq<Id>, r: string) {
    && (forall i, j :: 0 <= i < j < |group| ==> group[i] != group[j])
    && forall id :: id in group <==> id in PendingIds(rows, r)
  }

  /** For the listed payments: the groups are the recipients with pending payments. */
  lemma GroupsArePending(rows: Table, ids: seq<Id>, r: string)
    requires Lists(rows, ids)
    ensures For(rows, ids, r) != [] <==> r in Recipients(rows)
    ensures IsGroup(rows, For(rows, ids, r), r)
  {
    ForElements(rows, ids, r);
    var group := For(rows, ids, r);
    forall id ensures id in group <==> id in PendingIds(rows, r) { }
    if group != [] { assert group[0] in group; }
    if r in Recipients(rows) {
      var id :| id in rows && rows[id].status == Pending && rows[id].recipient == r;
      assert id in group;
    }
  }

  /** paid and calls say what the run does for r. */
  ghost predicate Decides(rows: Table, c: Config, a: Answers, paid: set<string>, calls: map<string, Transfer>,
                          r: string) {
    && (r in calls <==> Wrap(Due(rows, r)) >= c.minWithdrawal)
    && (r in calls ==> calls[r] == CallFor(rows, c, a, r))
    && (r in paid <==> r in calls && a.transferred(r))
  }

  ghost predicate Ready(rows: Table, c: Config, a: Answers, groups: map<string, seq<Id>>,
                        paid: set<string>, calls: map<string, Transfer>, r: string) {
    r in groups ==> IsGroup(rows, groups[r], r) && Decides(rows, c, a, paid, calls, r)
  }

  lemma CallsDecide(rows: Table, c: Config, a: Answers, r: string)
    requires r in Recipients(rows)
    ensures Decides(rows, c, a, Paid(rows, c, a), Calls(rows, c, a), r)
  {
  }

  /** The run's state with some recipients still to come. */
  ghost predicate Progress(table: Table, paid: set<string>, calls: map<string, Transfer>, updated: Id -> bool,
                           todo: set<string>, rows: Table, made: seq<Transfer>) {
    && rows == Marked(table, PendingOf(table, paid - todo), updated)
    && Enumerates(made, calls - todo)
  }

  lemma AllToDo(table: Table, paid: set<string>, calls: map<string, Transfer>, updated: Id -> bool, todo: set<string>)
    requires paid <= todo && calls.Keys <= todo
    ensures Progress(table, paid, calls, updated, todo, table, [])
  {
    assert paid - todo == {};
    assert calls - todo == map[];
  }

  lemma AllDone(table: Table, paid: set<string>, calls: map<string, Transfer>, updated: Id -> bool,
                rows: Table, made: seq<Transfer>)
    requires Progress(table, paid, calls, updated, {}, rows, made)
    ensures rows == Marked(table, PendingOf(table, paid), updated) && Enumerates(made, calls)
  {
    assert paid - {} == paid;
    assert calls - {} == calls;
  }

  lemma MarkMore(table: Table, paid: set<string>, r: string, updated: Id -> bool)
    ensures Marked(Marked(table, PendingOf(table, paid), updated), PendingIds(table, r), updated)
         == Marked(table, PendingOf(table, paid + {r}), updated)
  {
  }

  lemma EnumerateMore(made: seq<Transfer>, calls: map<string, Transfer>, todo: set<string>, r: string)
    requires Enumerates(made, calls - todo) && r in todo
    ensures r in calls && calls[r].recipient == r ==> Enumerates(made + [calls[r]], calls - (todo - {r}))
    ensures r !in calls ==> Enumerates(made, calls - (todo - {r}))
  {
    if r in calls {
      assert calls - (todo - {r}) - {r} == calls - todo;
      RemoveSize(calls - (todo - {r}), r);
    } else {
      assert calls - (todo - {r}) == calls - todo;
    }
  }

  lemma MarkStep(table: Table, paid: set<string>, updated: Id -> bool, todo: set<string>, r: string)
    requires r in todo
    ensures Marked(table, PendingOf(table, paid - (todo - {r})), updated)
         == var marked := Marked(table, PendingOf(table, paid - todo), updated);
            if r in paid then Marked(marked, PendingIds(table, r), updated) else marked
  {
    if r in paid {
      MarkMore(table, paid - todo, r, updated);
      assert paid - todo + {r} == paid - (todo - {r});
    } else {
      assert paid - todo == paid - (todo - {r});
    }
  }

  /** One more recipient done. */
  lemma ProgressStep(table: Table, paid: set<string>, calls: map<string, Transfer>, updated: Id -> bool,
                     todo: set<string>, rows: Table, made: seq<Transfer>, r: string)
    requires Progress(table, paid, calls, updated, todo, rows, made) && r in todo
    requires r in calls ==> calls[r].recipient == r
    ensures Progress(table, paid, calls, updated, todo - {r},
                     if r in paid then Marked(rows, PendingIds(table, r), updated) else rows,
                     if r in calls then made + [calls[r]] else made)
  {
    EnumerateMore(made, calls, todo, r);
    MarkStep(table, paid, updated, todo, r);
  }

  class Master {
    var rows: Table
    var transfers: seq<Transfer>

    constructor ()
      ensures rows == map[] && transfers == []
    {
      rows, transfers := map[], [];
    }

    /** Queues a payment under the next id. */
    method CreatePayment(id: Id, recipient: string, amount: Uint64)
      requires id !in rows
      modifies this`rows
      ensures rows == old(rows)[id := Payment(recipient, amount, Pending)]
    {
      rows := rows[id := Payment(recipient, amount, Pending)];
    }

    /** The status updates after a transfer; one that fails is only logged. */
    method MarkSent(ids: seq<Id>, updated: Id -> bool)
      requires forall i :: 0 <= i < |ids| ==> ids[i] in rows
      modifies this`rows
      ensures rows == Marked(old(rows), Elements(ids), updated)
    {
      for i := 0 to |ids|
        invariant rows == Marked(old(rows), Elements(ids[..i]), updated)
      {
        var id := ids[i];
        PrefixElements(ids, i);
        if updated(id) { rows := rows[id := rows[id].(status := Sent)]; }
      }
      assert ids[..|ids|] == ids;
    }

    /** sendPayment: the wallet is asked for the total less the withdrawal fee. */
    method SendPayment(c: Config, recipient: string, total: Uint64, a: Answers, group: seq<Id>) returns (ok: bool)
      modifies this`transfers
      ensures ok == a.transferred(recipient)
      ensures transfers == old(transfers) + [Transfer(recipient, Wrap(total - c.withdrawalFee), ok, Elements(group))]
    {
      ok := a.transferred(recipient);
      transfers := transfers + [Transfer(recipient, Wrap(total - c.withdrawalFee), ok, Elements(group))];
    }

    /** One recipient's turn, with the payments as they were listed. */
    method PayRecipient(c: Config, a: Answers, table: Table, r: string, group: seq<Id>)
      requires table.Keys == rows.Keys
      requires IsGroup(table, group, r)
      modifies this
      ensures Wrap(Due(table, r)) < c.minWithdrawal ==> rows == old(rows) && transfers == old(transfers)
      ensures Wrap(Due(table, r)) >= c.minWithdrawal ==>
        && transfers == old(transfers) + [CallFor(table, c, a, r)]
        && rows == if a.transferred(r) then Marked(old(rows), PendingIds(table, r), a.updated) else old(rows)
    {
      assert Elements(group) == PendingIds(table, r);
      var total := TotalAmount(table, group);
      if total < c.minWithdrawal { return; }
      var ok := SendPayment(c, r, total, a, group);
      if !ok { return; }
      MarkSent(group, a.updated);
    }

    method PayNext(c: Config, a: Answers, table: Table, r: string, group: seq<Id>,
                   ghost paid: set<string>, ghost calls: map<string, Transfer>, ghost todo: set<string>,
                   ghost before: seq<Transfer>, ghost made: seq<Transfer>)
      returns (ghost made': seq<Transfer>)
      requires transfers == before + made
      requires table.Keys == rows.Keys && r in todo && Decides(table, c, a, paid, calls, r)
      requires IsGroup(table, group, r)
      requires Progress(table, paid, calls, a.updated, todo, rows, made)
      modifies this
      ensures rows.Keys == table.Keys
      ensures transfers == before + made'
      ensures Progress(table, paid, calls, a.updated, todo - {r}, rows, made')
    {
      ProgressStep(table, paid, calls, a.updated, todo, rows, made, r);
      PayRecipient(c, a, table, r, group);
      made' := if r in calls then made + [calls[r]] else made;
    }

    /** The loop over the groups, in whatever order the map is visited. */
    method PayGroups(c: Config, a: Answers, groups: map<string, seq<Id>>,
                     ghost paid: set<string>, ghost calls: map<string, Transfer>)
      requires paid <= groups.Keys && calls.Keys <= groups.Keys
      requires forall r {:trigger Ready(rows, c, a, groups, paid, calls, r)} ::
        Ready(rows, c, a, groups, paid, calls, r)
      modifies this
      ensures rows == Marked(old(rows), PendingOf(old(rows), paid), a.updated)
      ensures |old(transfers)| <= |transfers| && transfers[..|old(transfers)|] == old(transfers)
      ensures Enumerates(transfers[|old(transfers)|..], calls)
    {
      var table, todo := rows, groups.Keys;
      ghost var made: seq<Transfer> := [];
      AllToDo(table, paid, calls, a.updated, todo);
      while todo != {}
        invariant todo <= groups.Keys && rows.Keys == table.Keys
        invariant transfers == old(transfers) + made
        invariant Progress(table, paid, calls, a.updated, todo, rows, made)
        decreases todo
      {
        var r :| r in todo;
        assert Ready(table, c, a, groups, paid, calls, r);
        made := PayNext(c, a, table, r, groups[r], paid, calls, todo, old(transfers), made);
        todo := todo - {r};
      }
      AllDone(table, paid, calls, a.updated, rows, made);
      assert transfers[|old(transfers)|..] == made;
    }

    /** One run, with the pending payments as the ledger lists them. */
    method Withdraw(c: Config, listing: Option<seq<Id>>, a: Answers)
      requires listing.Some? ==> Lists(rows, listing.value)
      modifies this
      ensures listing == None ==> rows == old(rows) && transfers == old(transfers)
      ensures listing.Some? ==>
        && rows == After(old(rows), c, a)
        && |old(transfers)| <= |transfers| && transfers[..|old(transfers)|] == old(transfers)
        && Enumerates(transfers[|old(transfers)|..], Calls(old(rows), c, a))
    {
      if listing == None { return; }
      var groups := Group(rows, listing.value);
      forall r ensures r in groups <==> r in Recipients(rows) { GroupsArePending(rows, listing.value, r); }
      forall r | r in groups
        ensures Ready(rows, c, a, groups, Paid(rows, c, a), Calls(rows, c, a), r)
      {
        GroupsArePending(rows, listing.value, r);
        CallsDecide(rows, c, a, r);
      }
      PayGroups(c, a, groups, Paid(rows, c, a), Calls(rows, c, a));
    }
  }
}
