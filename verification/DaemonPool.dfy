/** The round-robin pool of daemon connections (cmd/slave/daemon_pool.go). Creating a connection
    and calling the daemon are outside: their outcomes are parameters. */
module DaemonPool {
  import opened Optional

  type Time = int
  datatype Connection = Connection(client: nat, createdAt: Time)

  function NextSlot(current: nat, n: nat): (r: nat)
    requires n > 0
    ensures r < n && (current < n ==> r == if current + 1 == n then 0 else current + 1)
  {
    (current + 1) % n
  }

  /** The slot after i picks. */
  function SlotAfter(current: nat, n: nat, i: nat): (r: nat)
    requires current < n
    ensures r < n
  {
    if i == 0 then current else NextSlot(SlotAfter(current, n, i - 1), n)
  }

  lemma {:induction false} SlotWithinCycle(current: nat, n: nat, i: nat)
    requires current < n && i <= n
    ensures SlotAfter(current, n, i) == if current + i < n then current + i else current + i - n
  {
    if i > 0 { SlotWithinCycle(current, n, i - 1); }
  }

  /** The first pick that reaches a slot. */
  function Reached(current: nat, n: nat, slot: nat): (r: nat)
    requires current < n && slot < n
    ensures 1 <= r <= n && SlotAfter(current, n, r) == slot
  {
    var r := if slot > current then slot - current else slot - current + n;
    SlotWithinCycle(current, n, r);
    r
  }

  // ---- Fairness of the rotation ------------------------------------------------------------

  datatype State = State(connections: seq<Connection>, current: nat, recycled: nat)

  /** A pick or a tick of the recycler, each with the clock and the connection that could be made. */
  datatype Event = Pick(now: Time, spare: Option<Connection>) | Tick(spare: Option<Connection>)

  ghost predicate Valid(s: State) {
    s.connections != [] ==> s.current < |s.connections| && s.recycled < |s.connections|
  }

  function Replaced(connections: seq<Connection>, slot: nat, spare: Option<Connection>): (r: seq<Connection>)
    requires slot < |connections|
    ensures |r| == |connections|
  {
    if spare.Some? then connections[slot := spare.value] else connections
  }

  function Step(s: State, e: Event, maxAge: Time): State
    requires Valid(s)
  {
    if s.connections == [] then s
    else match e
      case Pick(now, spare) =>
        var slot := NextSlot(s.current, |s.connections|);
        var aged := now - s.connections[slot].createdAt > maxAge;
        s.(current := slot, connections := if aged then Replaced(s.connections, slot, spare) else s.connections)
      case Tick(spare) =>
        s.(connections := Replaced(s.connections, s.recycled, spare), recycled := NextSlot(s.recycled, |s.connections|))
  }

  function Run(s: State, es: seq<Event>, maxAge: Time): (r: State)
    requires Valid(s)
    ensures Valid(r) && |r.connections| == |s.connections|
  {
    if es == [] then s else Step(Run(s, es[..|es| - 1], maxAge), es[|es| - 1], maxAge)
  }

  /** How often a run picks a slot. */
  function Picks(s: State, es: seq<Event>, maxAge: Time, slot: nat): nat
    requires Valid(s)
  {
    if es == [] then 0
    else
      var init := es[..|es| - 1];
      Picks(s, init, maxAge, slot)
      + if es[|es| - 1].Pick? && Run(s, es, maxAge).current == slot then 1 else 0
  }

  /** slot lies on the way from start to current. */
  predicate OnTheWay(start: nat, current: nat, slot: nat) {
    if start <= current then start < slot <= current else slot > start || slot <= current
  }

  /** Complete rounds plus the slots passed in the current one. */
  lemma {:induction false} PicksByRounds(s: State, es: seq<Event>, maxAge: Time) returns (rounds: nat)
    requires Valid(s) && s.connections != []
    ensures forall slot :: 0 <= slot < |s.connections| ==>
      Picks(s, es, maxAge, slot)
        == rounds + if OnTheWay(s.current, Run(s, es, maxAge).current, slot) then 1 else 0
  {
    if es == [] {
      rounds := 0;
    } else {
      rounds := PicksByRounds(s, es[..|es| - 1], maxAge);
      if es[|es| - 1].Pick? && Run(s, es, maxAge).current == s.current { rounds := rounds + 1; }
    }
  }

  /** Whatever is recycled or replaced in between, two slots' pick counts differ by at most one. */
  lemma PicksBalanced(s: State, es: seq<Event>, maxAge: Time, i: nat, j: nat)
    requires Valid(s) && i < |s.connections| && j < |s.connections|
    ensures Picks(s, es, maxAge, i) <= Picks(s, es, maxAge, j) + 1
  {
    var rounds := PicksByRounds(s, es, maxAge);
  }

  // ---- Age of the connections --------------------------------------------------------------

  /** A pick moves one slot on; the picked connection is replaced exactly if it is too old and another
      could be made, and no other connection changes. */
  lemma PickRules(s: State, now: Time, spare: Option<Connection>, maxAge: Time, slot: nat)
    requires Valid(s) && slot < |s.connections|
    ensures
      var s' := Step(s, Pick(now, spare), maxAge);
      && s'.current == (if s.current + 1 == |s.connections| then 0 else s.current + 1)
      && s'.recycled == s.recycled && |s'.connections| == |s.connections|
      && (slot != s'.current ==> s'.connections[slot] == s.connections[slot])
      && (slot == s'.current ==>
            s'.connections[slot] ==
              if now - s.connections[slot].createdAt > maxAge && spare.Some? then spare.value else s.connections[slot])
  {
  }

  /** Hence a picked connection is too old only if none could be made. */
  lemma PickedIsFresh(s: State, now: Time, spare: Option<Connection>, maxAge: Time)
    requires Valid(s) && s.connections != [] && (spare.Some? ==> now - spare.value.createdAt <= maxAge)
    ensures
      var s' := Step(s, Pick(now, spare), maxAge);
      s'.current < |s'.connections| && (now - s'.connections[s'.current].createdAt > maxAge ==> spare == None)
  {
  }

  /** Ticks in a row, each with a connection to put in. */
  function Ticks(spares: seq<Connection>): seq<Event> {
    if spares == [] then [] else Ticks(spares[..|spares| - 1]) + [Tick(Some(spares[|spares| - 1]))]
  }

  /** The recycler goes round: after k ticks it has replaced the k slots from where it stood. */
  lemma {:induction false} TicksReplace(s: State, spares: seq<Connection>, maxAge: Time, i: nat)
    requires Valid(s) && s.connections != [] && i < |spares| <= |s.connections|
    ensures Run(s, Ticks(spares), maxAge).recycled == SlotAfter(s.recycled, |s.connections|, |spares|)
    ensures Run(s, Ticks(spares), maxAge).connections[SlotAfter(s.recycled, |s.connections|, i)] == spares[i]
    decreases |spares|
  {
    var n, k := |s.connections|, |spares| - 1;
    var init := spares[..k];
    assert Ticks(spares)[..|Ticks(spares)| - 1] == Ticks(init);
    SlotWithinCycle(s.recycled, n, k);
    if k > 0 { TicksReplace(s, init, maxAge, if i < k then i else 0); }
    if i < k { SlotWithinCycle(s.recycled, n, i); }
  }

  /** A full round of the recycler replaces every connection. */
  lemma RoundReplacesAll(s: State, spares: seq<Connection>, maxAge: Time, slot: nat)
    requires Valid(s) && s.connections != [] && |spares| == |s.connections| && slot < |spares|
    ensures exists i :: 0 <= i < |spares| && Run(s, Ticks(spares), maxAge).connections[slot] == spares[i]
  {
    var n := |spares|;
    var i := if slot >= s.recycled then slot - s.recycled else slot - s.recycled + n;
    SlotWithinCycle(s.recycled, n, i);
    TicksReplace(s, spares, maxAge, i);
  }

  // ---- Retrying ----------------------------------------------------------------------------

  datatype Outcome = Success | ConnectionError | OtherError
  datatype Result = Succeeded | NoConnections | AllFailed | Failed

  /** The calls one ExecuteWithRetry makes, as slots in order, and its result: f(k, slot) is the
      outcome of the k-th call, made on that slot's client. */
  ghost predicate Execution(f: (nat, nat) -> Outcome, n: nat, current: nat, calls: seq<nat>, r: Result)
    requires n > 0 ==> current < n
  {
    && |calls| <= n + 1
    && (n > 0 ==> forall k :: 0 <= k < |calls| ==> calls[k] == SlotAfter(current, n, k + 1))
    && (forall k :: 0 <= k < |calls| - 1 ==> f(k, calls[k]) == ConnectionError)
    && match r
       case NoConnections => n == 0 && calls == []
       case AllFailed => n > 0 && |calls| == n + 1 && f(n, calls[n]) == ConnectionError
       case Succeeded => n > 0 && calls != [] && f(|calls| - 1, calls[|calls| - 1]) == Success
       case Failed => n > 0 && calls != [] && f(|calls| - 1, calls[|calls| - 1]) == OtherError
  }

  /** "All connections failed" is reported only after every slot was tried. */
  lemma AllSlotsTried(f: (nat, nat) -> Outcome, n: nat, current: nat, calls: seq<nat>, slot: nat)
    requires current < n && slot < n && Execution(f, n, current, calls, AllFailed)
    ensures slot in calls
    ensures exists k :: 0 <= k < |calls| && calls[k] == slot && f(k, slot) == ConnectionError
  {
    var k := Reached(current, n, slot) - 1;
    assert calls[k] == slot;
  }

  /** The outcome of the k-th call, if it is made. */
  function Answer(f: (nat, nat) -> Outcome, n: nat, current: nat, k: nat): Outcome
    requires current < n
  {
    f(k, SlotAfter(current, n, k + 1))
  }

  ghost predicate FirstSuccess(f: (nat, nat) -> Outcome, n: nat, current: nat, k: nat)
    requires current < n
  {
    && Answer(f, n, current, k) == Success
    && forall j :: 0 <= j < k ==> Answer(f, n, current, j) == ConnectionError
  }

  lemma ReachesFirstSuccess(f: (nat, nat) -> Outcome, n: nat, current: nat, calls: seq<nat>, r: Result, k: nat)
    requires current < n && Execution(f, n, current, calls, r) && k <= n && FirstSuccess(f, n, current, k)
    ensures r == Succeeded
  {
    var last := |calls| - 1;
    assert calls[last] == SlotAfter(current, n, last + 1);
    if last < k { assert Answer(f, n, current, last) == ConnectionError; }
    if k < last { assert calls[k] == SlotAfter(current, n, k + 1); }
  }

  /** The call succeeds if and only if some client among the next len + 1 picks would answer with a
      success, and all those before it with connection errors. */
  lemma SucceedsIff(f: (nat, nat) -> Outcome, n: nat, current: nat, calls: seq<nat>, r: Result)
    requires current < n && Execution(f, n, current, calls, r)
    ensures r == Succeeded <==> exists k: nat :: k <= n && FirstSuccess(f, n, current, k)
  {
    if r == Succeeded {
      forall j | 0 <= j < |calls| - 1 ensures Answer(f, n, current, j) == ConnectionError {
        assert calls[j] == SlotAfter(current, n, j + 1);
      }
      assert FirstSuccess(f, n, current, |calls| - 1);
    }
    if k: nat :| k <= n && FirstSuccess(f, n, current, k) {
      ReachesFirstSuccess(f, n, current, calls, r, k);
    }
  }

  /** One working slot is enough, as long as what fails is the connection. */
  lemma WorkingSlotSuffices(f: (nat, nat) -> Outcome, n: nat, current: nat, calls: seq<nat>, r: Result, slot: nat)
    requires current < n && slot < n && Execution(f, n, current, calls, r)
    requires forall k :: f(k, slot) == Success
    requires forall k :: 0 <= k < |calls| ==> f(k, calls[k]) != OtherError
    ensures r == Succeeded
  {
    if r == AllFailed { AllSlotsTried(f, n, current, calls, slot); }
  }

  class Pool {
    var connections: seq<Connection>
    var current: nat
    var recycled: nat
    const maxAge: Time

    ghost predicate Ok()
      reads this
    {
      Valid(View())
    }

    ghost function View(): State
      reads this
    {
      State(connections, current, recycled)
    }

    constructor (created: seq<Connection>, maxAge: Time)
      ensures Ok() && View() == State(created, 0, 0) && this.maxAge == maxAge
    {
      connections, current, recycled := created, 0, 0;
      this.maxAge := maxAge;
    }

    method Get(now: Time, spare: Option<Connection>) returns (client: Option<nat>)
      requires Ok()
      modifies this
      ensures Ok() && View() == Step(old(View()), Pick(now, spare), maxAge)
      ensures client == if connections == [] then None else Some(connections[current].client)
    {
      if |connections| == 0 { return None; }
      current := (current + 1) % |connections|;
      if now - connections[current].createdAt > maxAge && spare.Some? {
        connections := connections[current := spare.value];
      }
      client := Some(connections[current].client);
    }

    method RecycleTick(spare: Option<Connection>)
      requires Ok()
      modifies this
      ensures Ok() && View() == Step(old(View()), Tick(spare), maxAge)
    {
      if |connections| > 0 {
        if spare.Some? { connections := connections[recycled := spare.value]; }
        recycled := (recycled + 1) % |connections|;
      }
    }

    /** f is the function to run; the clock and new connections are those seen at each attempt. */
    method ExecuteWithRetry(f: (nat, nat) -> Outcome, now: nat -> Time, spare: nat -> Option<Connection>)
      returns (r: Result, calls: seq<nat>)
      requires Ok()
      modifies this
      ensures Ok() && |connections| == |old(connections)|
      ensures Execution(f, |old(connections)|, old(current), calls, r)
      ensures connections != [] ==> current == SlotAfter(old(current), |connections|, |calls|)
    {
      calls := [];
      var attempts, maxAttempts := 0, |connections| + 1;
      while attempts < maxAttempts
        invariant Ok() && |connections| == |old(connections)|
        invariant |calls| == attempts <= maxAttempts && (connections == [] ==> attempts == 0)
        invariant connections != [] ==> current == SlotAfter(old(current), |connections|, attempts)
        invariant connections != [] ==>
          forall k :: 0 <= k < attempts ==> calls[k] == SlotAfter(old(current), |connections|, k + 1)
        invariant forall k :: 0 <= k < attempts ==> f(k, calls[k]) == ConnectionError
      {
        var client := Get(now(attempts), spare(attempts));
        if client == None { return NoConnections, calls; }
        calls := calls + [current];
        match f(attempts, current)
        case Success => return Succeeded, calls;
        case ConnectionError => attempts := attempts + 1;
        case OtherError => return Failed, calls;
      }
      r := AllFailed;
    }
  }
}
