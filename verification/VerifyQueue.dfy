/** The slave's verification queue (cmd/slave/verify_queue.go): a table of shares, concurrent
    workers that claim them in transactions, and running statistics. One action is one atomic
    step: an SQL statement or transaction, or a critical section of the statistics mutex. */
module VerifyQueue {
  import opened Optional

  type Time = int

  datatype Share = Share(params: string, expected: string)
  datatype Status = Pending | Processing | Verified | Failed
  datatype Row = Row(share: Share, submittedAt: Time, status: Status, completedAt: Option<Time>)
  datatype Stats = Stats(verified: nat, failed: nat, avg: nat, max: nat)

  /** What a worker carries between its atomic steps: the row it claimed, then the outcome it has
      yet to add to the statistics (a duration when verified). */
  datatype Phase = Busy(id: nat) | Reporting(duration: Option<nat>)

  datatype State = State(rows: map<nat, Row>, nextId: nat, workers: map<nat, Phase>, stats: Stats)

  const EMPTY: State := State(map[], 0, map[], Stats(0, 0, 0, 0))

  /** What verifying a claimed share can come to. */
  datatype Result = InvalidData | PowError | Pow(value: string)

  datatype Action =
    | Submit(share: Share, at: Time)
    | Claim(worker: nat, id: nat)
    | Complete(worker: nat, result: Result, at: Time, duration: nat, updated: bool)
    | Report(worker: nat)
    | Cleanup(cutoff: Time)

  /** SELECT ... WHERE status = 'pending' ORDER BY submitted_at LIMIT 1; ties in any order. */
  ghost predicate IsNext(rows: map<nat, Row>, id: nat) {
    && id in rows && rows[id].status == Pending
    && forall k :: k in rows && rows[k].status == Pending ==> rows[id].submittedAt <= rows[k].submittedAt
  }

  ghost predicate Enabled(s: State, a: Action) {
    match a
    case Submit(_, _) => true
    case Claim(w, id) => w !in s.workers && IsNext(s.rows, id)
    case Complete(w, _, _, _, _) => w in s.workers && s.workers[w].Busy? && s.workers[w].id in s.rows
    case Report(w) => w in s.workers && s.workers[w].Reporting?
    case Cleanup(_) => true
  }

  function Matches(row: Row, result: Result): bool {
    result == Pow(row.share.expected)
  }

  function WithDuration(stats: Stats, d: nat): Stats {
    Stats(stats.verified + 1, stats.failed,
          if stats.avg == 0 then d else (stats.avg + d) / 2,
          if d > stats.max then d else stats.max)
  }

  function Old(row: Row, cutoff: Time): bool {
    row.status in {Verified, Failed} && row.completedAt.Some? && row.completedAt.value < cutoff
  }

  ghost function Next(s: State, a: Action): State
    requires Enabled(s, a)
  {
    match a
    case Submit(share, at) =>
      s.(rows := s.rows[s.nextId := Row(share, at, Pending, None)], nextId := s.nextId + 1)
    case Claim(w, id) =>
      s.(rows := s.rows[id := s.rows[id].(status := Processing)], workers := s.workers[w := Busy(id)])
    case Complete(w, result, at, duration, updated) =>
      var id := s.workers[w].id;
      var ok := Matches(s.rows[id], result);
      var done := s.rows[id].(status := if ok then Verified else Failed, completedAt := Some(at));
      s.(rows := if updated then s.rows[id := done] else s.rows,
         workers := s.workers[w := Reporting(if ok then Some(duration) else None)])
    case Report(w) =>
      s.(workers := s.workers - {w},
         stats := match s.workers[w].duration
                  case Some(d) => WithDuration(s.stats, d)
                  case None => s.stats.(failed := s.stats.failed + 1))
    case Cleanup(cutoff) =>
      s.(rows := map id | id in s.rows && !Old(s.rows[id], cutoff) :: s.rows[id])
  }

  /** Each step is enabled when it is taken. */
  ghost predicate ValidRun(s: State, run: seq<Action>)
    decreases |run|
  {
    run != [] ==> Enabled(s, run[0]) && ValidRun(Next(s, run[0]), run[1..])
  }

  ghost function Run(s: State, run: seq<Action>): State
    requires ValidRun(s, run)
    decreases |run|
  {
    if run == [] then s else Run(Next(s, run[0]), run[1..])
  }

  // ---- What every step keeps ---------------------------------------------------------------

  /** Row ids are never reused, a busy worker owns its processing row alone, and the average
      verification time is at most the maximum. */
  ghost predicate Consistent(s: State) {
    && (forall id :: id in s.rows ==> id < s.nextId)
    && (forall w :: w in s.workers && s.workers[w].Busy? ==>
          s.workers[w].id in s.rows && s.rows[s.workers[w].id].status == Processing)
    && (forall v, w :: v in s.workers && w in s.workers && s.workers[v].Busy? && s.workers[w].Busy? && v != w ==>
          s.workers[v].id != s.workers[w].id)
    && s.stats.avg <= s.stats.max
  }

  lemma StepConsistent(s: State, a: Action)
    requires Consistent(s) && Enabled(s, a)
    ensures Consistent(Next(s, a))
  {
  }

  lemma {:induction false} AlwaysConsistent(s: State, run: seq<Action>)
    requires Consistent(s) && ValidRun(s, run)
    ensures Consistent(Run(s, run))
    decreases |run|
  {
    if run != [] {
      StepConsistent(s, run[0]);
      AlwaysConsistent(Next(s, run[0]), run[1..]);
    }
  }

  /** The only ways a row's status can change in one step, and the only rows that can vanish. */
  lemma StepTransitions(s: State, a: Action, id: nat)
    requires Consistent(s) && Enabled(s, a) && id in s.rows
    ensures
      var s' := Next(s, a);
      if id !in s'.rows then a.Cleanup? && s.rows[id].status in {Verified, Failed}
      else
        && s'.rows[id].share == s.rows[id].share && s'.rows[id].submittedAt == s.rows[id].submittedAt
        && (s'.rows[id].status != s.rows[id].status ==>
              match s'.rows[id].status
              case Pending => false
              case Processing => s.rows[id].status == Pending && a.Claim? && a.id == id
              case Verified => s.rows[id].status == Processing && a.Complete? && s.workers[a.worker] == Busy(id)
                               && a.result == Pow(s.rows[id].share.expected)
              case Failed => s.rows[id].status == Processing && a.Complete? && s.workers[a.worker] == Busy(id)
                             && a.result != Pow(s.rows[id].share.expected))
  {
  }

  function Rank(status: Status): nat {
    match status
    case Pending => 0
    case Processing => 1
    case Verified => 2
    case Failed => 2
  }

  /** Over a whole run a row only moves forward, and an id that is gone stays gone. */
  lemma {:induction false} RowsMoveForward(s: State, run: seq<Action>, id: nat)
    requires Consistent(s) && ValidRun(s, run) && id < s.nextId
    ensures id < Run(s, run).nextId
    ensures id in Run(s, run).rows ==>
      && id in s.rows
      && Rank(s.rows[id].status) <= Rank(Run(s, run).rows[id].status)
      && (Rank(s.rows[id].status) == 2 ==> s.rows[id].status == Run(s, run).rows[id].status)
      && s.rows[id].share == Run(s, run).rows[id].share
      && s.rows[id].submittedAt == Run(s, run).rows[id].submittedAt
    decreases |run|
  {
    if run != [] {
      StepConsistent(s, run[0]);
      if id in s.rows { StepTransitions(s, run[0], id); }
      RowsMoveForward(Next(s, run[0]), run[1..], id);
    }
  }

  /** The state before step i of a run. */
  ghost function At(s: State, run: seq<Action>, i: nat): State
    requires ValidRun(s, run) && i <= |run|
    decreases i
  {
    if i == 0 then s else At(Next(s, run[0]), run[1..], i - 1)
  }

  lemma {:induction false} AtSplits(s: State, run: seq<Action>, i: nat)
    requires Consistent(s) && ValidRun(s, run) && i <= |run|
    ensures Consistent(At(s, run, i)) && ValidRun(At(s, run, i), run[i..])
    ensures i < |run| ==> Enabled(At(s, run, i), run[i])
    decreases i
  {
    if i == 0 {
      assert run[0..] == run;
    } else {
      StepConsistent(s, run[0]);
      AtSplits(Next(s, run[0]), run[1..], i - 1);
      assert run[1..][i - 1..] == run[i..];
    }
  }

  lemma {:induction false} AtIsRun(s: State, run: seq<Action>, i: nat, j: nat)
    requires Consistent(s) && ValidRun(s, run) && i <= j <= |run|
    ensures ValidRun(At(s, run, i), run[i..j]) && Run(At(s, run, i), run[i..j]) == At(s, run, j)
    decreases i, j
  {
    if i > 0 {
      StepConsistent(s, run[0]);
      AtIsRun(Next(s, run[0]), run[1..], i - 1, j - 1);
      assert run[1..][i - 1..j - 1] == run[i..j];
    } else if j > 0 {
      StepConsistent(s, run[0]);
      AtIsRun(Next(s, run[0]), run[1..], 0, j - 1);
      assert run[0..j][1..] == run[1..][0..j - 1];
    }
  }

  lemma {:induction false} AtNext(s: State, run: seq<Action>, i: nat)
    requires Consistent(s) && ValidRun(s, run) && i < |run|
    ensures Enabled(At(s, run, i), run[i]) && At(s, run, i + 1) == Next(At(s, run, i), run[i])
    decreases i
  {
    if i == 0 {
      assert At(Next(s, run[0]), run[1..], 0) == Next(s, run[0]);
    } else {
      StepConsistent(s, run[0]);
      AtNext(Next(s, run[0]), run[1..], i - 1);
    }
  }

  /** Between two points of a run. */
  lemma ForwardBetween(s: State, run: seq<Action>, i: nat, j: nat, id: nat)
    requires Consistent(s) && ValidRun(s, run) && i <= j <= |run| && id < At(s, run, i).nextId
    ensures id in At(s, run, j).rows ==>
      && id in At(s, run, i).rows
      && Rank(At(s, run, i).rows[id].status) <= Rank(At(s, run, j).rows[id].status)
  {
    AtSplits(s, run, i);
    AtIsRun(s, run, i, j);
    RowsMoveForward(At(s, run, i), run[i..j], id);
  }

  /** Two claims of a run never take the same row, and the earlier one took a row submitted no
      later than any row that was waiting at the time. */
  lemma ClaimsInOrder(run: seq<Action>, i: nat, j: nat)
    requires ValidRun(EMPTY, run) && i < j < |run| && run[i].Claim? && run[j].Claim?
    ensures run[i].id != run[j].id
    ensures
      var before := At(EMPTY, run, i);
      && run[i].id in before.rows
      && (run[j].id in before.rows ==>
            before.rows[run[i].id].submittedAt <= before.rows[run[j].id].submittedAt)
  {
    AtSplits(EMPTY, run, i);
    AtNext(EMPTY, run, i);
    AtNext(EMPTY, run, j);
    ForwardBetween(EMPTY, run, i + 1, j, run[i].id);
    if run[j].id in At(EMPTY, run, i).rows { ForwardBetween(EMPTY, run, i, j, run[j].id); }
  }

  /** Where a row that was not there before comes from. */
  lemma {:induction false} RowOrigin(s: State, run: seq<Action>, id: nat) returns (k: nat)
    requires Consistent(s) && ValidRun(s, run) && id !in s.rows && id in Run(s, run).rows
    ensures k < |run| && run[k].Submit? && run[k].at == Run(s, run).rows[id].submittedAt
    decreases |run|
  {
    var s' := Next(s, run[0]);
    StepConsistent(s, run[0]);
    if id in s'.rows {
      RowsMoveForward(s', run[1..], id);
      k := 0;
    } else {
      var j := RowOrigin(s', run[1..], id);
      k := j + 1;
    }
  }

  /** Submit times never go back. */
  ghost predicate SubmitsInOrder(run: seq<Action>) {
    forall i, j :: 0 <= i < j < |run| && run[i].Submit? && run[j].Submit? ==> run[i].at <= run[j].at
  }

  lemma RowAt(run: seq<Action>, i: nat, id: nat) returns (k: nat)
    requires ValidRun(EMPTY, run) && i <= |run| && id in At(EMPTY, run, i).rows
    ensures k < i && run[k].Submit? && run[k].at == At(EMPTY, run, i).rows[id].submittedAt
  {
    AtIsRun(EMPTY, run, 0, i);
    k := RowOrigin(EMPTY, run[0..i], id);
  }

  lemma RowBetween(run: seq<Action>, i: nat, j: nat, id: nat) returns (k: nat)
    requires ValidRun(EMPTY, run) && i <= j <= |run| && id !in At(EMPTY, run, i).rows && id in At(EMPTY, run, j).rows
    ensures i <= k < j && run[k].Submit? && run[k].at == At(EMPTY, run, j).rows[id].submittedAt
  {
    AtSplits(EMPTY, run, i);
    AtIsRun(EMPTY, run, i, j);
    var m := RowOrigin(At(EMPTY, run, i), run[i..j], id);
    k := i + m;
  }

  /** With submit times in order, claims follow submission order over the whole run, whether the later
      row was there at the earlier claim or not. */
  lemma ClaimsFollowSubmission(run: seq<Action>, i: nat, j: nat)
    requires ValidRun(EMPTY, run) && SubmitsInOrder(run) && i < j < |run| && run[i].Claim? && run[j].Claim?
    ensures run[i].id in At(EMPTY, run, i).rows && run[j].id in At(EMPTY, run, j).rows
    ensures At(EMPTY, run, i).rows[run[i].id].submittedAt <= At(EMPTY, run, j).rows[run[j].id].submittedAt
  {
    ClaimsInOrder(run, i, j);
    AtNext(EMPTY, run, j);
    AtSplits(EMPTY, run, i);
    if run[j].id in At(EMPTY, run, i).rows {
      AtIsRun(EMPTY, run, i, j);
      RowsMoveForward(At(EMPTY, run, i), run[i..j], run[j].id);
    } else {
      var k := RowAt(run, i, run[i].id);
      var m := RowBetween(run, i, j, run[j].id);
    }
  }

  /** A verified row was verified by a worker that had claimed it and got the proof of work the
      share announced. */
  lemma {:induction false} VerifiedHadProof(s: State, run: seq<Action>, id: nat) returns (i: nat)
    requires Consistent(s) && ValidRun(s, run)
    requires id in Run(s, run).rows && Run(s, run).rows[id].status == Verified
    requires id in s.rows ==> s.rows[id].status != Verified
    ensures i < |run| && run[i].Complete?
    ensures var before := At(s, run, i);
      && run[i].worker in before.workers && before.workers[run[i].worker] == Busy(id) && id in before.rows
      && run[i].result == Pow(before.rows[id].share.expected)
    decreases |run|
  {
    assert run != [];
    var s' := Next(s, run[0]);
    StepConsistent(s, run[0]);
    if id in s.rows { StepTransitions(s, run[0], id); }
    if id in s'.rows && s'.rows[id].status == Verified {
      assert At(s, run, 0) == s;
      i := 0;
    } else {
      var k := VerifiedHadProof(s', run[1..], id);
      i := k + 1;
    }
  }

  function Claims(run: seq<Action>): nat {
    if run == [] then 0 else (if run[0].Claim? then 1 else 0) + Claims(run[1..])
  }

  /** Every claim is accounted for: verified, failed, or still with a worker. */
  lemma {:induction false} ClaimsAccounted(s: State, run: seq<Action>)
    requires ValidRun(s, run)
    ensures
      var s' := Run(s, run);
      s'.stats.verified + s'.stats.failed + |s'.workers|
      == s.stats.verified + s.stats.failed + |s.workers| + Claims(run)
    decreases |run|
  {
    if run != [] {
      StepAccounted(s, run[0]);
      ClaimsAccounted(Next(s, run[0]), run[1..]);
    }
  }

  lemma StepAccounted(s: State, a: Action)
    requires Enabled(s, a)
    ensures
      var s' := Next(s, a);
      s'.stats.verified + s'.stats.failed + |s'.workers|
      == s.stats.verified + s.stats.failed + |s.workers| + if a.Claim? then 1 else 0
  {
    if a.Claim? || a.Complete? {
      WorkerCount(s.workers, a.worker, Next(s, a).workers[a.worker]);
    } else if a.Report? {
      WorkerCount(s.workers, a.worker, s.workers[a.worker]);
    }
  }

  lemma WorkerCount(workers: map<nat, Phase>, w: nat, phase: Phase)
    ensures |workers[w := phase]| == |workers| + if w in workers then 0 else 1
    ensures w in workers ==> |workers - {w}| == |workers| - 1
  {
    assert workers[w := phase].Keys == workers.Keys + {w};
    if w in workers { assert workers.Keys == (workers - {w}).Keys + {w}; }
  }

  // ---- What each step does -----------------------------------------------------------------

  ghost predicate OthersKept(s: State, s': State, id: nat) {
    forall k :: k != id ==> (k in s'.rows <==> k in s.rows) && (k in s.rows ==> s'.rows[k] == s.rows[k])
  }

  /** A submitted share waits under a new id. */
  lemma SubmitRules(s: State, share: Share, at: Time)
    requires Consistent(s)
    ensures
      var s' := Next(s, Submit(share, at));
      && s.nextId !in s.rows && s.nextId in s'.rows && s'.rows[s.nextId] == Row(share, at, Pending, None)
      && s'.nextId == s.nextId + 1 && OthersKept(s, s', s.nextId) && s'.workers == s.workers && s'.stats == s.stats
  {
  }

  /** A free worker can claim whenever a row is pending. */
  lemma {:induction false} SomeRowIsNext(s: State, w: nat, pending: set<nat>) returns (id: nat)
    requires w !in s.workers && pending != {} && forall k :: k in pending ==> k in s.rows && s.rows[k].status == Pending
    requires forall k :: k in s.rows && s.rows[k].status == Pending && k !in pending ==>
      exists m :: m in pending && s.rows[m].submittedAt <= s.rows[k].submittedAt
    ensures Enabled(s, Claim(w, id))
    decreases |pending|
  {
    var a :| a in pending;
    if pending == {a} {
      id := a;
    } else {
      var b :| b in pending && b != a;
      var later := if s.rows[a].submittedAt <= s.rows[b].submittedAt then b else a;
      var earlier := if later == b then a else b;
      forall k | k in s.rows && s.rows[k].status == Pending && k !in pending - {later}
        ensures exists m :: m in pending - {later} && s.rows[m].submittedAt <= s.rows[k].submittedAt
      {
        if k == later {
          assert earlier in pending - {later};
        } else {
          var m :| m in pending && s.rows[m].submittedAt <= s.rows[k].submittedAt;
          assert if m == later then earlier in pending - {later} else m in pending - {later};
        }
      }
      id := SomeRowIsNext(s, w, pending - {later});
    }
  }

  lemma ClaimPossible(s: State, w: nat) returns (id: nat)
    requires w !in s.workers && exists k :: k in s.rows && s.rows[k].status == Pending
    ensures Enabled(s, Claim(w, id))
  {
    var pending := set k | k in s.rows && s.rows[k].status == Pending;
    var k :| k in s.rows && s.rows[k].status == Pending;
    assert k in pending;
    id := SomeRowIsNext(s, w, pending);
  }

  /** A claimed row is being processed, by that worker. */
  lemma ClaimRules(s: State, w: nat, id: nat)
    requires Consistent(s) && Enabled(s, Claim(w, id))
    ensures
      var s' := Next(s, Claim(w, id));
      && var row := s.rows[id];
      && id in s'.rows && s'.rows[id] == Row(row.share, row.submittedAt, Processing, row.completedAt)
      && s'.workers == s.workers[w := Busy(id)]
      && OthersKept(s, s', id) && s'.nextId == s.nextId && s'.stats == s.stats
  {
  }

  /** A completed row is verified if the proof of work is the announced one, failed if not, with the
      time of completion; only a failed update leaves it as it was. */
  lemma CompleteRules(s: State, w: nat, result: Result, at: Time, duration: nat, updated: bool)
    requires Consistent(s) && Enabled(s, Complete(w, result, at, duration, updated))
    ensures
      var s' := Next(s, Complete(w, result, at, duration, updated));
      var id := s.workers[w].id;
      var proved := result.Pow? && result.value == s.rows[id].share.expected;
      && id in s'.rows && s'.rows[id].share == s.rows[id].share && s'.rows[id].submittedAt == s.rows[id].submittedAt
      && (updated ==> s'.rows[id].completedAt == Some(at))
      && (updated && proved ==> s'.rows[id].status == Verified)
      && (updated && !proved ==> s'.rows[id].status == Failed)
      && (!updated ==> s'.rows == s.rows)
      && (proved ==> s'.workers == s.workers[w := Reporting(Some(duration))])
      && (!proved ==> s'.workers == s.workers[w := Reporting(None)])
      && OthersKept(s, s', id) && s'.nextId == s.nextId && s'.stats == s.stats
  {
  }

  /** A report frees the worker and counts one outcome: the maximum is the larger of the two, the
      average the rounded-down middle, or the duration itself when it was zero. */
  lemma ReportRules(s: State, w: nat)
    requires Enabled(s, Report(w))
    ensures
      var s' := Next(s, Report(w));
      var before, after := s.stats, s'.stats;
      && s'.rows == s.rows && s'.nextId == s.nextId && s'.workers == s.workers - {w}
      && match s.workers[w].duration
         case None => after.failed == before.failed + 1 && after.verified == before.verified
                      && after.avg == before.avg && after.max == before.max
         case Some(d) =>
           && after.verified == before.verified + 1 && after.failed == before.failed
           && after.max >= before.max && after.max >= d && (after.max == before.max || after.max == d)
           && (before.avg == 0 ==> after.avg == d)
           && (before.avg > 0 ==> 2 * after.avg <= before.avg + d <= 2 * after.avg + 1)
  {
  }

  /** Cleanup removes exactly the verified and failed rows completed before the cutoff. */
  lemma CleanupRules(s: State, cutoff: Time, id: nat)
    ensures
      var s' := Next(s, Cleanup(cutoff));
      && s'.workers == s.workers && s'.nextId == s.nextId && s'.stats == s.stats
      && (id in s'.rows ==> id in s.rows && s'.rows[id] == s.rows[id])
      && (id in s.rows && id !in s'.rows <==>
            && id in s.rows && (s.rows[id].status == Verified || s.rows[id].status == Failed)
            && s.rows[id].completedAt.Some? && s.rows[id].completedAt.value < cutoff)
  {
  }

  // ---- No row is stuck ---------------------------------------------------------------------

  ghost predicate Updates(a: Action) {
    a.Complete? ==> a.updated
  }

  /** Every row being processed is with a worker. */
  ghost predicate Attended(s: State) {
    forall id :: id in s.rows && s.rows[id].status == Processing ==>
      exists w :: w in s.workers && s.workers[w] == Busy(id)
  }

  lemma StepAttended(s: State, a: Action)
    requires Consistent(s) && Attended(s) && Enabled(s, a) && Updates(a)
    ensures Attended(Next(s, a))
  {
    var s' := Next(s, a);
    forall id | id in s'.rows && s'.rows[id].status == Processing
      ensures exists w :: w in s'.workers && s'.workers[w] == Busy(id)
    {
      if a.Claim? && a.id == id {
        assert s'.workers[a.worker] == Busy(id);
      } else {
        assert id in s.rows && s.rows[id].status == Processing;
        var w :| w in s.workers && s.workers[w] == Busy(id);
        assert s'.workers[w] == Busy(id);
      }
    }
  }

  /** While updates succeed, a claimed row still in the table is with a busy worker or finished. */
  lemma {:induction false} NoRowStuck(s: State, run: seq<Action>, id: nat)
    requires Consistent(s) && Attended(s) && ValidRun(s, run) && forall i :: 0 <= i < |run| ==> Updates(run[i])
    ensures Attended(Run(s, run))
    ensures id in Run(s, run).rows && Run(s, run).rows[id].status != Pending ==>
      || Run(s, run).rows[id].status in {Verified, Failed}
      || exists w :: w in Run(s, run).workers && Run(s, run).workers[w] == Busy(id)
    decreases |run|
  {
    if run != [] {
      StepConsistent(s, run[0]);
      StepAttended(s, run[0]);
      NoRowStuck(Next(s, run[0]), run[1..], id);
    }
  }

  // ---- The counters ------------------------------------------------------------------------

  /** A completion with the announced proof of work. */
  ghost predicate Proves(s: State, a: Action)
    requires Enabled(s, a)
  {
    a.Complete? && a.result == Pow(s.rows[s.workers[a.worker].id].share.expected)
  }

  /** How many completions of a run proved their share, and how many did not. */
  ghost function Completions(s: State, run: seq<Action>, proved: bool): nat
    requires ValidRun(s, run)
    decreases |run|
  {
    if run == [] then 0
    else
      (if run[0].Complete? && Proves(s, run[0]) == proved then 1 else 0)
      + Completions(Next(s, run[0]), run[1..], proved)
  }

  /** A worker in this phase has such an outcome to report. */
  ghost predicate Waits(phase: Phase, proved: bool) {
    phase.Reporting? && phase.duration.Some? == proved
  }

  /** The workers yet to report such an outcome. */
  ghost function Unreported(workers: map<nat, Phase>, proved: bool): set<nat> {
    set w | w in workers && Waits(workers[w], proved)
  }

  ghost function Counted(s: State, proved: bool): nat {
    (if proved then s.stats.verified else s.stats.failed) + |Unreported(s.workers, proved)|
  }

  lemma UnreportedUpdate(workers: map<nat, Phase>, w: nat, phase: Phase, proved: bool)
    requires w in workers ==> !Waits(workers[w], proved)
    ensures |Unreported(workers[w := phase], proved)|
         == |Unreported(workers, proved)| + if Waits(phase, proved) then 1 else 0
  {
    var before, after := Unreported(workers, proved), Unreported(workers[w := phase], proved);
    forall v ensures v in after <==> v in before || (v == w && Waits(phase, proved)) {
      if v != w { assert workers[w := phase].Keys == workers.Keys + {w}; }
    }
    assert w !in before;
    if Waits(phase, proved) { assert after == before + {w}; } else { assert after == before; }
  }

  lemma UnreportedRemove(workers: map<nat, Phase>, w: nat, proved: bool)
    requires w in workers
    ensures |Unreported(workers, proved)|
         == |Unreported(workers - {w}, proved)| + if Waits(workers[w], proved) then 1 else 0
  {
    UnreportedUpdate(workers - {w}, w, workers[w], proved);
    assert (workers - {w})[w := workers[w]] == workers;
  }

  lemma CompleteCounted(s: State, a: Action, proved: bool)
    requires Consistent(s) && Enabled(s, a) && a.Complete?
    ensures Counted(Next(s, a), proved) == Counted(s, proved) + if Proves(s, a) == proved then 1 else 0
  {
    CompleteRules(s, a.worker, a.result, a.at, a.duration, a.updated);
    UnreportedUpdate(s.workers, a.worker, Reporting(if Proves(s, a) then Some(a.duration) else None), proved);
  }

  lemma ReportCounted(s: State, w: nat, proved: bool)
    requires Enabled(s, Report(w))
    ensures Counted(Next(s, Report(w)), proved) == Counted(s, proved)
  {
    ReportRules(s, w);
    UnreportedRemove(s.workers, w, proved);
  }

  lemma StepCounted(s: State, a: Action, proved: bool)
    requires Consistent(s) && Enabled(s, a)
    ensures Counted(Next(s, a), proved)
         == Counted(s, proved) + if a.Complete? && Proves(s, a) == proved then 1 else 0
  {
    match a
    case Complete(_, _, _, _, _) => CompleteCounted(s, a, proved);
    case Report(w) => ReportCounted(s, w, proved);
    case Claim(w, id) => UnreportedUpdate(s.workers, w, Busy(id), proved);
    case Submit(_, _) =>
    case Cleanup(_) =>
  }

  /** Verified and failed count the completions that proved their share and those that did not, once
      they are reported. */
  lemma {:induction false} OutcomesCounted(s: State, run: seq<Action>, proved: bool)
    requires Consistent(s) && ValidRun(s, run)
    ensures Counted(Run(s, run), proved) == Counted(s, proved) + Completions(s, run, proved)
    decreases |run|
  {
    if run != [] {
      StepConsistent(s, run[0]);
      StepCounted(s, run[0], proved);
      OutcomesCounted(Next(s, run[0]), run[1..], proved);
    }
  }

  // ---- The table and the statistics --------------------------------------------------------

  /** The queue with its workers; what a worker holds between two steps is ghost state. */
  class Queue {
    var rows: map<nat, Row>
    var nextId: nat
    var stats: Stats
    ghost var workers: map<nat, Phase>

    ghost function Value(): State
      reads this
    {
      State(rows, nextId, workers, stats)
    }

    constructor ()
      ensures Value() == EMPTY
    {
      rows, nextId, stats, workers := map[], 0, Stats(0, 0, 0, 0), map[];
    }

    method Submit(share: Share, at: Time)
      modifies this
      ensures Value() == Next(old(Value()), Action.Submit(share, at))
    {
      rows, nextId := rows[nextId := Row(share, at, Pending, None)], nextId + 1;
    }

    /** The transaction that picks the next row and marks it as processing. */
    method ClaimNext(ghost worker: nat) returns (id: Option<nat>)
      requires Consistent(Value()) && worker !in workers
      modifies this
      ensures id.None? ==> Value() == old(Value()) && forall k :: k in rows ==> rows[k].status != Pending
      ensures id.Some? ==>
        Enabled(old(Value()), Claim(worker, id.value)) && Value() == Next(old(Value()), Claim(worker, id.value))
    {
      id := None;
      for k := 0 to nextId
        invariant Value() == old(Value())
        invariant id.None? ==> forall j :: j in rows && j < k ==> rows[j].status != Pending
        invariant id.Some? ==> id.value in rows && rows[id.value].status == Pending
        invariant id.Some? ==> forall j :: j in rows && j < k && rows[j].status == Pending ==>
                                 rows[id.value].submittedAt <= rows[j].submittedAt
      {
        if k in rows && rows[k].status == Pending
           && (id.None? || rows[k].submittedAt < rows[id.value].submittedAt) {
          id := Some(k);
        }
      }
      if id.Some? {
        rows := rows[id.value := rows[id.value].(status := Processing)];
        workers := workers[worker := Busy(id.value)];
      }
    }

    /** The comparison with the announced result, and the row's final update unless it fails. */
    method Finish(ghost worker: nat, id: nat, result: Result, at: Time, ghost duration: nat, updated: bool)
      returns (ok: bool)
      requires Consistent(Value()) && worker in workers && workers[worker] == Busy(id)
      modifies this
      ensures ok == Matches(old(rows)[id], result)
      ensures Value() == Next(old(Value()), Complete(worker, result, at, duration, updated))
    {
      ok := result.Pow? && result.value == rows[id].share.expected;
      workers := workers[worker := Reporting(if ok then Some(duration) else None)];
      if updated {
        rows := rows[id := rows[id].(status := if ok then Verified else Failed, completedAt := Some(at))];
      }
    }

    method UpdateStats(ghost worker: nat, duration: nat)
      requires worker in workers && workers[worker] == Reporting(Some(duration))
      modifies this
      ensures Value() == Next(old(Value()), Report(worker))
    {
      var avg := if stats.avg == 0 then duration else (stats.avg + duration) / 2;
      var max := if duration > stats.max then duration else stats.max;
      stats := Stats(stats.verified + 1, stats.failed, avg, max);
      workers := workers - {worker};
    }

    /** The counter at the end of markFailed. */
    method CountFailed(ghost worker: nat)
      requires worker in workers && workers[worker] == Reporting(None)
      modifies this
      ensures Value() == Next(old(Value()), Report(worker))
    {
      stats := stats.(failed := stats.failed + 1);
      workers := workers - {worker};
    }

    method RemoveOld(cutoff: Time)
      modifies this
      ensures Value() == Next(old(Value()), Cleanup(cutoff))
    {
      var todo := rows.Keys;
      while todo != {}
        invariant todo <= old(rows).Keys && nextId == old(nextId) && workers == old(workers) && stats == old(stats)
        invariant rows == map id | id in old(rows) && (id in todo || !Old(old(rows)[id], cutoff)) :: old(rows)[id]
        decreases todo
      {
        var id :| id in todo;
        if Old(rows[id], cutoff) { rows := rows - {id}; }
        todo := todo - {id};
      }
    }
  }
}
