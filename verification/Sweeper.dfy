/** The breach sweeper over a table of clocks, and the ticket transitions that latch through the same table. */
module Sweeper {
  // A sweep claims a batch of the overdue, unlocked rows in due order, latches each and writes
  // one event per clock latched.

  import opened Wrappers
  import opened Calendars
  import opened SlaClock
  import opened SlaTheorems

  type Table = map<nat, Clock>

  /** The WHERE clause of the sweep at database time `now`. */
  predicate Swept(k: Clock, now: int) {
    k.metAt.None? && k.breachedAt.None? && k.pausedAt.None? && k.dueAt < now
  }

  /** The rows swept are those that would have been breached a minute ago. */
  lemma SweptMeans(k: Clock, now: int)
    ensures Swept(k, now) <==> Latch(k, now - 1).1
  {
  }

  function Backlog(table: Table, now: int): set<nat> {
    set id | id in table && Swept(table[id], now)
  }

  /** What the claiming query answers: the `batch` earliest due of the overdue rows nobody else holds. */
  predicate IsClaim(table: Table, now: int, batch: nat, locked: set<nat>, claimed: seq<nat>) {
    && (forall i :: 0 <= i < |claimed| ==> claimed[i] in Backlog(table, now) - locked)
    && (forall i, j :: 0 <= i < j < |claimed| ==> claimed[i] != claimed[j])
    && (forall i, id :: 0 <= i < |claimed| && id in Backlog(table, now) - locked && id !in claimed ==>
          table[claimed[i]].dueAt <= table[id].dueAt)
    && |claimed| <= batch
    && (|claimed| < batch ==> forall id :: id in Backlog(table, now) - locked ==> id in claimed)
  }

  /** The table after the rows of a claim went through the latch. */
  function AfterSweep(table: Table, claimed: seq<nat>, now: int): Table {
    map id | id in table :: if id in claimed then Latch(table[id], now).0 else table[id]
  }

  /** Distinct rows of the table, which is all the loop needs to know of a claim. */
  predicate Rows(table: Table, claimed: seq<nat>) {
    && (forall j :: 0 <= j < |claimed| ==> claimed[j] in table)
    && (forall j, k :: 0 <= j < k < |claimed| ==> claimed[j] != claimed[k])
  }

  /** The ids whose latch fired, in claim order. */
  function Latched(table: Table, claimed: seq<nat>, now: int): seq<nat>
    requires Rows(table, claimed)
  {
    if claimed == [] then []
    else
      var id := claimed[|claimed| - 1];
      Latched(table, claimed[..|claimed| - 1], now) + if Latch(table[id], now).1 then [id] else []
  }

  /** Every breached clock has had its one event, and no other clock any. */
  ghost predicate EventsMatch(clocks: Table, breaches: seq<nat>) {
    && (forall id :: id in clocks ==> Sound(clocks[id]))
    && (forall id :: multiset(breaches)[id] == if id in clocks && clocks[id].breachedAt.Some? then 1 else 0)
  }

  /** A step that latches is matched by one event, a step that does not by none. */
  lemma StepMatches(clocks: Table, breaches: seq<nat>, id: nat, c: Calendar, e: Event)
    requires EventsMatch(clocks, breaches) && id in clocks && Step(clocks[id], c, e).Some?
    ensures var next := Step(clocks[id], c, e).value;
            EventsMatch(clocks[id := next],
              if clocks[id].breachedAt.None? && next.breachedAt.Some? then breaches + [id] else breaches)
  {
    BreachFreezes(clocks[id], c, e);
  }

  lemma LatchOne(table: Table, claimed: seq<nat>, i: nat, now: int)
    requires i < |claimed| && Rows(table, claimed)
    ensures Rows(table, claimed[..i])
    ensures claimed[i] in AfterSweep(table, claimed[..i], now)
    ensures AfterSweep(table, claimed[..i], now)[claimed[i]] == table[claimed[i]]
    ensures AfterSweep(table, claimed[..i + 1], now)
            == AfterSweep(table, claimed[..i], now)[claimed[i] := Latch(table[claimed[i]], now).0]
    ensures Latched(table, claimed[..i + 1], now)
            == Latched(table, claimed[..i], now) + if Latch(table[claimed[i]], now).1 then [claimed[i]] else []
  {
    hide Latch;
    var before := AfterSweep(table, claimed[..i], now);
    assert claimed[..i + 1][..i] == claimed[..i];
    assert forall x :: x in claimed[..i + 1] <==> x in claimed[..i] || x == claimed[i];
    assert AfterSweep(table, claimed[..i + 1], now) == before[claimed[i] := Latch(table[claimed[i]], now).0];
  }

  lemma LatchMatches(clocks: Table, breaches: seq<nat>, id: nat, now: int)
    requires EventsMatch(clocks, breaches) && id in clocks
    ensures Latch(clocks[id], now).1 ==>
              EventsMatch(clocks[id := Latch(clocks[id], now).0], breaches + [id])
    ensures !Latch(clocks[id], now).1 ==> clocks[id := Latch(clocks[id], now).0] == clocks
  {
    StepMatches(clocks, breaches, id, WallClock, Event(DoLatch, now));
  }

  lemma NothingSwept(table: Table, now: int)
    ensures AfterSweep(table, [], now) == table
  {}

  class ClockTable {
    var clocks: Table
    /** One entry for every breach event written: audit, outbox and notification. */
    var breaches: seq<nat>

    ghost predicate Valid()
      reads this
    {
      EventsMatch(clocks, breaches)
    }

    constructor ()
      ensures Valid() && clocks == map[] && breaches == []
    {
      clocks := map[];
      breaches := [];
    }

    /** A ticket gets a clock. */
    method Start(id: nat, k: Clock)
      requires Valid() && id !in clocks && k.breachedAt.None?
      modifies this
      ensures Valid() && clocks == old(clocks)[id := k] && breaches == old(breaches)
    {
      clocks := clocks[id := k];
    }

    /** One clock step of a ticket transition; an event is written when it latches. */
    method Apply(id: nat, c: Calendar, e: Event) returns (ok: bool)
      requires Valid() && id in clocks
      modifies this
      ensures Valid()
      ensures ok == Step(old(clocks)[id], c, e).Some?
      ensures clocks == if ok then old(clocks)[id := Step(old(clocks)[id], c, e).value] else old(clocks)
      ensures breaches == old(breaches)
        + if old(clocks)[id].breachedAt.None? && clocks[id].breachedAt.Some? then [id] else []
    {
      var next := Step(clocks[id], c, e);
      if next.None? { return false; }
      StepMatches(clocks, breaches, id, c, e);
      if clocks[id].breachedAt.None? && next.value.breachedAt.Some? {
        breaches := breaches + [id];
      }
      clocks := clocks[id := next.value];
      return true;
    }

    /** Entering a pausing state: every transition latches before it pauses. */
    method PauseTicket(id: nat, c: Calendar, now: int)
      requires Valid() && id in clocks
      modifies this
      ensures Valid() && clocks == old(clocks)[id := Pause(Latch(old(clocks)[id], now).0, now)]
      ensures IsLive(old(clocks)[id]) && old(clocks)[id].pausedAt.None? && old(clocks)[id].dueAt <= now ==>
                clocks[id].breachedAt == Some(now) && breaches == old(breaches) + [id]
    {
      hide EventsMatch;
      var _ := Apply(id, c, Event(DoLatch, now));
      var _ := Apply(id, c, Event(DoPause, now));
    }

    /** One sweep: `dbNow` is the database's clock, `now` the worker's. */
    method Sweep(dbNow: int, now: int, batch: nat, ghost locked: set<nat>, claimed: seq<nat>) returns (latched: nat)
      requires Valid() && IsClaim(clocks, dbNow, batch, locked, claimed)
      modifies this
      ensures Valid() && Rows(old(clocks), claimed)
      ensures clocks == AfterSweep(old(clocks), claimed, now)
      ensures breaches == old(breaches) + Latched(old(clocks), claimed, now)
      ensures latched == |Latched(old(clocks), claimed, now)|
    {
      hide Latch, AfterSweep, EventsMatch;
      ghost var table := clocks;
      NothingSwept(table, now);
      assert Rows(table, claimed);
      latched := 0;
      for i := 0 to |claimed|
        invariant Rows(table, claimed) && Rows(table, claimed[..i])
        invariant Valid()
        invariant clocks == AfterSweep(table, claimed[..i], now)
        invariant breaches == old(breaches) + Latched(table, claimed[..i], now)
        invariant latched == |Latched(table, claimed[..i], now)|
      {
        var id := claimed[i];
        LatchOne(table, claimed, i, now);
        LatchMatches(clocks, breaches, id, now);
        assert Rows(table, claimed[..i + 1]);
        var result := Latch(clocks[id], now);
        if !result.1 { continue; }
        clocks := clocks[id := result.0];
        breaches := breaches + [id];
        latched := latched + 1;
      }
      assert claimed[..|claimed|] == claimed;
    }
  }

  // ---- Sweeping empties the backlog --------------------------------------------------

  /** A sweep at `dbNow` works off whatever was overdue at any earlier `d`, a whole batch at a time. */
  lemma SweepShrinksBacklog(table: Table, d: int, dbNow: int, now: int, batch: nat, claimed: seq<nat>)
    requires IsClaim(table, dbNow, batch, {}, claimed) && d <= dbNow && d <= now
    ensures Backlog(AfterSweep(table, claimed, now), d) == Backlog(table, d) - Taken(claimed)
    ensures |Backlog(AfterSweep(table, claimed, now), d)| == Max(0, |Backlog(table, d)| - batch)
  {
    DistinctCount(claimed);
    assert Backlog(AfterSweep(table, claimed, now), d) == Backlog(table, d) - Taken(claimed);
    ClaimCovers(table, d, dbNow, batch, claimed);
    if Backlog(table, d) <= Taken(claimed) {
      SubsetCount(Backlog(table, d), Taken(claimed));
      assert Backlog(table, d) - Taken(claimed) == {};
    }
  }

  function Taken(claimed: seq<nat>): set<nat> { set i | 0 <= i < |claimed| :: claimed[i] }

  /** A claim takes all that was overdue at `d`, or is a full batch of just that. */
  lemma ClaimCovers(table: Table, d: int, dbNow: int, batch: nat, claimed: seq<nat>)
    requires IsClaim(table, dbNow, batch, {}, claimed) && d <= dbNow
    ensures Backlog(table, d) <= Taken(claimed) || (Taken(claimed) <= Backlog(table, d) && |claimed| == batch)
  {
    if left :| left in Backlog(table, d) && left !in Taken(claimed) {
      assert left !in claimed && left in Backlog(table, dbNow);
      forall id | id in Taken(claimed) ensures id in Backlog(table, d) {
        var i :| 0 <= i < |claimed| && claimed[i] == id;
        assert table[claimed[i]].dueAt <= table[left].dueAt;
      }
    }
  }

  lemma {:induction false} DistinctCount(s: seq<nat>)
    requires forall i, j :: 0 <= i < j < |s| ==> s[i] != s[j]
    ensures |Taken(s)| == |s|
  {
    if s != [] {
      var init := s[..|s| - 1];
      DistinctCount(init);
      assert Taken(s) == Taken(init) + {s[|s| - 1]};
    }
  }

  lemma SubsetCount(a: set<nat>, b: set<nat>)
    requires a <= b
    ensures |a| <= |b|
  {
    assert b == a + (b - a);
  }

  // ---- Sweeps among ticket operations ---------------------------------------------------

  /** What the service does to a clock; every operation but a priority change latches first. */
  datatype Operation = Hold | Unhold | Met | Reprioritise(target: int)

  function Operated(k: Clock, c: Calendar, op: Operation, now: int): Option<Clock> {
    match op
    case Hold => Some(Pause(Latch(k, now).0, now))
    case Unhold =>
      (match Resume(Latch(k, now).0, c, now)
       case None => None
       case Some(back) => Some(Latch(back.0, now).0))
    case Met => Some(MarkMet(Latch(k, now).0, now))
    case Reprioritise(target) => Restamp(k, target, c, now)
  }

  /** An operation that throws is rolled back. */
  function AfterOperation(table: Table, id: nat, c: Calendar, op: Operation, now: int): Table {
    if id !in table || Operated(table[id], c, op, now).None? then table
    else table[id := Operated(table[id], c, op, now).value]
  }

  /** A sweep, a ticket operation on one clock or a clock that is new. */
  datatype Action =
    | Sweeping(dbNow: int, now: int, claimed: seq<nat>)
    | Operating(id: nat, c: Calendar, op: Operation, at: int)
    | Starting(id: nat, k: Clock)

  function Acted(table: Table, action: Action): Table {
    match action
    case Sweeping(_, now, claimed) => AfterSweep(table, claimed, now)
    case Operating(id, c, op, at) => AfterOperation(table, id, c, op, at)
    case Starting(id, k) => if id in table then table else table[id := k]
  }

  function After(table: Table, actions: seq<Action>): Table {
    if actions == [] then table else Acted(After(table, actions[..|actions| - 1]), actions[|actions| - 1])
  }

  /** Everything happens at `d` or later by the clock it reads, and every sweep claims what the table then offers. */
  predicate Actions(table: Table, d: int, batch: nat, actions: seq<Action>) {
    actions != [] ==>
      var init, last := actions[..|actions| - 1], actions[|actions| - 1];
      Actions(table, d, batch, init) && Possible(After(table, init), d, batch, last)
  }

  predicate Possible(table: Table, d: int, batch: nat, action: Action) {
    match action
    case Sweeping(dbNow, now, claimed) => d <= dbNow && d <= now && IsClaim(table, dbNow, batch, {}, claimed)
    case Operating(_, _, _, at) => d <= at
    case Starting(_, k) => d <= k.dueAt
  }

  function Sweeps(actions: seq<Action>): nat {
    if actions == [] then 0 else Sweeps(actions[..|actions| - 1]) + if actions[|actions| - 1].Sweeping? then 1 else 0
  }

  /** No operation makes a clock overdue at `d`; one that was stays so, is breached or had its priority changed. */
  lemma OperationOnBacklog(k: Clock, c: Calendar, op: Operation, d: int, now: int)
    requires d <= now && Operated(k, c, op, now).Some?
    ensures var after := Operated(k, c, op, now).value;
            && (Swept(after, d) ==> Swept(k, d))
            && (Swept(k, d) ==> after.breachedAt.Some? || op.Reprioritise?)
            && (k.breachedAt.Some? ==> after.breachedAt.Some?)
  {
    hide Working, Count, Sight;
  }

  /** What an action may do to the clocks that were overdue at `d`. */
  predicate Worked(table: Table, after: Table, d: int, batch: nat, action: Action) {
    && |Backlog(after, d)| <= Max(0, |Backlog(table, d)| - if action.Sweeping? then batch else 0)
    && table.Keys <= after.Keys
    && (forall id :: id in Backlog(table, d) ==>
          id in Backlog(after, d) || after[id].breachedAt.Some? || Reprioritises(action, id))
    && (forall id :: id in table && table[id].breachedAt.Some? ==> after[id].breachedAt.Some?)
  }

  lemma SweepWorks(table: Table, d: int, batch: nat, dbNow: int, now: int, claimed: seq<nat>)
    requires Possible(table, d, batch, Sweeping(dbNow, now, claimed))
    ensures Worked(table, AfterSweep(table, claimed, now), d, batch, Sweeping(dbNow, now, claimed))
  {
    hide IsClaim, Backlog, AfterSweep;
    SweepShrinksBacklog(table, d, dbNow, now, batch, claimed);
    forall id | id in table
      ensures id in AfterSweep(table, claimed, now)
      ensures table[id].breachedAt.Some? ==> AfterSweep(table, claimed, now)[id].breachedAt.Some?
      ensures id in Backlog(table, d) ==>
                id in Backlog(AfterSweep(table, claimed, now), d) || AfterSweep(table, claimed, now)[id].breachedAt.Some?
    {
      SweptRow(table, claimed, now, d, id);
    }
    BacklogRows(table, d);
  }

  lemma BacklogRows(table: Table, d: int)
    ensures Backlog(table, d) <= table.Keys
  {
  }

  lemma SweptRow(table: Table, claimed: seq<nat>, now: int, d: int, id: nat)
    requires id in table && d <= now
    ensures id in AfterSweep(table, claimed, now)
    ensures table[id].breachedAt.Some? ==> AfterSweep(table, claimed, now)[id].breachedAt.Some?
    ensures id in Backlog(table, d) ==>
              id in Backlog(AfterSweep(table, claimed, now), d) || AfterSweep(table, claimed, now)[id].breachedAt.Some?
  {
    if id !in claimed { assert AfterSweep(table, claimed, now)[id] == table[id]; }
  }

  lemma OperationWorks(table: Table, d: int, batch: nat, id: nat, c: Calendar, op: Operation, at: int)
    requires d <= at
    ensures Worked(table, AfterOperation(table, id, c, op, at), d, batch, Operating(id, c, op, at))
  {
    var after := AfterOperation(table, id, c, op, at);
    if id in table && Operated(table[id], c, op, at).Some? { OperationOnBacklog(table[id], c, op, d, at); }
    hide Operated, Swept;
    assert Backlog(after, d) <= Backlog(table, d);
    SubsetCount(Backlog(after, d), Backlog(table, d));
  }

  lemma ActionWorks(table: Table, d: int, batch: nat, action: Action)
    requires Possible(table, d, batch, action)
    ensures Worked(table, Acted(table, action), d, batch, action)
  {
    hide IsClaim, AfterSweep, AfterOperation, Worked;
    match action
    case Sweeping(dbNow, now, claimed) => SweepWorks(table, d, batch, dbNow, now, claimed);
    case Operating(id, c, op, at) => OperationWorks(table, d, batch, id, c, op, at);
    case Starting(id, k) => StartWorks(table, d, batch, id, k);
  }

  lemma StartWorks(table: Table, d: int, batch: nat, id: nat, k: Clock)
    requires d <= k.dueAt
    ensures Worked(table, if id in table then table else table[id := k], d, batch, Starting(id, k))
  {
    var after := if id in table then table else table[id := k];
    assert Backlog(after, d) == Backlog(table, d);
  }

  predicate Reprioritises(action: Action, id: nat) {
    action.Operating? && action.id == id && action.op.Reprioritise?
  }

  predicate SomeReprioritised(actions: seq<Action>, id: nat) {
    exists i :: 0 <= i < |actions| && Reprioritises(actions[i], id)
  }

  /** Among any operations each sweep takes a full batch off what was overdue at `d`, until nothing is left of it. */
  lemma {:induction false} SweepsCount(table: Table, d: int, batch: nat, actions: seq<Action>)
    requires Actions(table, d, batch, actions)
    ensures |Backlog(After(table, actions), d)| <= Max(0, |Backlog(table, d)| - Sweeps(actions) * batch)
    ensures table.Keys <= After(table, actions).Keys
    ensures forall id :: id in Backlog(table, d) ==>
              || id in Backlog(After(table, actions), d) || After(table, actions)[id].breachedAt.Some?
              || SomeReprioritised(actions, id)
  {
    hide Acted, Backlog, Possible, Reprioritises;
    if actions != [] {
      var init, last := actions[..|actions| - 1], actions[|actions| - 1];
      SweepsCount(table, d, batch, init);
      ActionWorks(After(table, init), d, batch, last);
      SweepsMore(actions, batch);
      BacklogRows(table, d);
      forall id ensures SomeReprioritised(actions, id) <==> SomeReprioritised(init, id) || Reprioritises(last, id) {
        ReprioritisedLast(actions, id);
      }
      hide SomeReprioritised, Sweeps;
      assert After(table, actions) == Acted(After(table, init), last);
    }
  }

  lemma SweepsMore(actions: seq<Action>, batch: nat)
    requires actions != []
    ensures Sweeps(actions) * batch
            == Sweeps(actions[..|actions| - 1]) * batch + if actions[|actions| - 1].Sweeping? then batch else 0
  {
    OneMoreBatch(Sweeps(actions[..|actions| - 1]), batch);
  }

  lemma OneMoreBatch(n: nat, batch: nat)
    ensures (n + 1) * batch == n * batch + batch
  {
  }

  lemma ReprioritisedLast(actions: seq<Action>, id: nat)
    requires actions != []
    ensures SomeReprioritised(actions, id)
            <==> SomeReprioritised(actions[..|actions| - 1], id) || Reprioritises(actions[|actions| - 1], id)
  {
    hide Reprioritises;
    var init := actions[..|actions| - 1];
    if SomeReprioritised(init, id) {
      var i :| 0 <= i < |init| && Reprioritises(init[i], id);
      assert Reprioritises(actions[i], id);
    }
  }

  /**
   * Enough sweeps of any batch size, whatever operations come between, leave nothing unlatched
   * that was overdue at `d`, unless its priority was changed before a sweep came to it.
   */
  lemma SweepsDrain(table: Table, d: int, batch: nat, actions: seq<Action>)
    requires Actions(table, d, batch, actions) && Sweeps(actions) * batch >= |Backlog(table, d)|
    ensures forall id :: id in Backlog(table, d) ==>
              && id in After(table, actions)
              && (After(table, actions)[id].breachedAt.Some? || SomeReprioritised(actions, id))
  {
    hide IsClaim, Actions;
    SweepsCount(table, d, batch, actions);
    assert |Backlog(After(table, actions), d)| == 0;
    assert Backlog(After(table, actions), d) == {};
  }
}
