/** The outbox dispatcher: several workers, any transaction of which may be rolled back at any point. */
module Outbox {
  // A tick is one database transaction: it takes the rows still to be sent, oldest id first and none
  // that another transaction holds, hands each to the handlers and settles it.

  import opened Wrappers

  const MAX_ATTEMPTS := 5

  datatype Outcome = Ok | Failed(error: string)

  datatype Row = Row(eventType: string, attempts: nat, dispatched: bool, lastError: Option<string>)

  datatype Letter = Letter(outboxId: nat, error: string, attempts: nat)

  /** `log` is a history variable: the outcomes of the committed passes over each row. */
  datatype Store = Store(rows: map<nat, Row>, letters: seq<Letter>, log: map<nat, seq<Outcome>>)

  /** A row as the claiming query read it. */
  datatype Claimed = Claimed(id: nat, row: Row)

  // ---- Settling one row ----------------------------------------------------------

  function Settle(s: Store, c: Claimed, outcome: Outcome): Store
    requires c.id in s.rows && c.id in s.log
  {
    var log := s.log[c.id := s.log[c.id] + [outcome]];
    match outcome
    case Ok =>
      var row := s.rows[c.id];
      Store(s.rows[c.id := row.(dispatched := true, attempts := row.attempts + 1)], s.letters, log)
    case Failed(error) =>
      var attempts := c.row.attempts + 1;
      var row := s.rows[c.id].(attempts := attempts, lastError := Some(error));
      if attempts >= MAX_ATTEMPTS then
        Store(s.rows[c.id := row.(dispatched := true)], s.letters + [Letter(c.id, error, attempts)], log)
      else
        Store(s.rows[c.id := row], s.letters, log)
  }

  /** What one pass over a row leaves: it is done with or counted against it, and the last failure is kept with it. */
  lemma SettleMeans(s: Store, c: Claimed, outcome: Outcome)
    requires c.id in s.rows && c.id in s.log && s.rows[c.id] == c.row && !c.row.dispatched
    ensures var after := Settle(s, c, outcome); var row := after.rows[c.id];
            && row.eventType == c.row.eventType && row.attempts == c.row.attempts + 1
            && (row.dispatched <==> outcome.Ok? || c.row.attempts + 1 >= 5)
            && row.lastError == (if outcome.Failed? then Some(outcome.error) else c.row.lastError)
            && (outcome.Ok? || c.row.attempts < 4 ==> after.letters == s.letters)
            && (outcome.Failed? && c.row.attempts >= 4 ==>
                  after.letters == s.letters + [Letter(c.id, outcome.error, c.row.attempts + 1)])
            && after.log[c.id] == s.log[c.id] + [outcome]
  {
  }

  /** Every id is one the store knows. */
  predicate Known(s: Store, claimed: seq<Claimed>) {
    s.rows.Keys == s.log.Keys && forall i :: 0 <= i < |claimed| ==> claimed[i].id in s.rows
  }

  function SettleAll(s: Store, claimed: seq<Claimed>, outcomes: seq<Outcome>): (r: Store)
    requires Known(s, claimed) && |outcomes| <= |claimed|
    ensures r.rows.Keys == r.log.Keys == s.rows.Keys
    decreases |outcomes|
  {
    if outcomes == [] then s
    else
      var n := |outcomes| - 1;
      Settle(SettleAll(s, claimed, outcomes[..n]), claimed[n], outcomes[n])
  }

  lemma SettleNothing(s: Store, claimed: seq<Claimed>)
    requires Known(s, claimed)
    ensures SettleAll(s, claimed, []) == s
  {}

  lemma SettleNext(s: Store, claimed: seq<Claimed>, outcomes: seq<Outcome>, n: nat)
    requires Known(s, claimed) && n < |outcomes| <= |claimed|
    ensures claimed[n].id in SettleAll(s, claimed, outcomes[..n]).log
    ensures SettleAll(s, claimed, outcomes[..n + 1])
            == Settle(SettleAll(s, claimed, outcomes[..n]), claimed[n], outcomes[n])
  {
    assert outcomes[..n + 1][..n] == outcomes[..n];
  }

  // ---- What every committed state satisfies ------------------------------------------

  function LettersFor(letters: seq<Letter>, id: nat): seq<Letter> {
    if letters == [] then []
    else
      LettersFor(letters[..|letters| - 1], id)
      + if letters[|letters| - 1].outboxId == id then [letters[|letters| - 1]] else []
  }

  predicate GaveUp(passes: seq<Outcome>) {
    |passes| == MAX_ATTEMPTS && passes[MAX_ATTEMPTS - 1].Failed?
  }

  predicate Delivered(passes: seq<Outcome>) {
    passes != [] && passes[|passes| - 1].Ok?
  }

  /** A row and its letters are determined by the outcomes of its passes. */
  predicate RowMatches(s: Store, id: nat)
    requires id in s.rows && id in s.log
  {
    var row, passes := s.rows[id], s.log[id];
    && row.attempts == |passes| <= MAX_ATTEMPTS
    && (forall i :: 0 <= i < |passes| - 1 ==> passes[i].Failed?)
    && (row.dispatched <==> Delivered(passes) || GaveUp(passes))
    && LettersFor(s.letters, id)
       == if GaveUp(passes) then [Letter(id, passes[MAX_ATTEMPTS - 1].error, MAX_ATTEMPTS)] else []
  }

  predicate StoreOk(s: Store) {
    s.rows.Keys == s.log.Keys && LettersKnown(s) && forall id :: id in s.rows ==> RowMatches(s, id)
  }

  /** Nothing is in the dead letters but rows of the table. */
  predicate LettersKnown(s: Store) { forall i :: 0 <= i < |s.letters| ==> s.letters[i].outboxId in s.rows }

  /** Distinct undispatched rows, read as they still are. */
  predicate Current(s: Store, claimed: seq<Claimed>) {
    && (forall i :: 0 <= i < |claimed| ==>
          claimed[i].id in s.rows && s.rows[claimed[i].id] == claimed[i].row && !claimed[i].row.dispatched)
    && (forall i, j :: 0 <= i < j < |claimed| ==> claimed[i].id != claimed[j].id)
  }

  lemma LettersForAppend(letters: seq<Letter>, last: Letter, id: nat)
    ensures LettersFor(letters + [last], id) == LettersFor(letters, id) + if last.outboxId == id then [last] else []
  {
    assert (letters + [last])[..|letters|] == letters;
  }

  lemma PassesGrow(passes: seq<Outcome>, outcome: Outcome)
    requires |passes| <= MAX_ATTEMPTS && forall i :: 0 <= i < |passes| - 1 ==> passes[i].Failed?
    requires !Delivered(passes) && !GaveUp(passes)
    ensures |passes| < MAX_ATTEMPTS
    ensures forall i :: 0 <= i < |passes| ==> (passes + [outcome])[i].Failed?
    ensures Delivered(passes + [outcome]) <==> outcome.Ok?
    ensures GaveUp(passes + [outcome]) <==> outcome.Failed? && |passes| + 1 == MAX_ATTEMPTS
  {
    assert passes != [] ==> passes[|passes| - 1].Failed?;
  }

  lemma SettleOwn(s: Store, c: Claimed, outcome: Outcome)
    requires c.id in s.rows && c.id in s.log && RowMatches(s, c.id)
    requires s.rows[c.id] == c.row && !c.row.dispatched
    ensures RowMatches(Settle(s, c, outcome), c.id)
  {
    var passes := s.log[c.id];
    PassesGrow(passes, outcome);
    assert (passes + [outcome])[|passes|] == outcome;
    assert LettersFor(s.letters, c.id) == [];
    if outcome.Failed? {
      LettersForAppend(s.letters, Letter(c.id, outcome.error, c.row.attempts + 1), c.id);
    }
    hide LettersFor, Delivered, GaveUp;
  }

  lemma SettleOther(s: Store, c: Claimed, outcome: Outcome, id: nat)
    requires c.id in s.rows && c.id in s.log && id != c.id
    requires id in s.rows && id in s.log && RowMatches(s, id)
    ensures Settle(s, c, outcome).rows[id] == s.rows[id] && RowMatches(Settle(s, c, outcome), id)
  {
    if outcome.Failed? {
      LettersForAppend(s.letters, Letter(c.id, outcome.error, c.row.attempts + 1), id);
      assert LettersFor(s.letters, id) + [] == LettersFor(s.letters, id);
    }
  }

  lemma SettleKeeps(s: Store, c: Claimed, outcome: Outcome)
    requires StoreOk(s) && c.id in s.rows && s.rows[c.id] == c.row && !c.row.dispatched
    ensures StoreOk(Settle(s, c, outcome))
    ensures forall id :: id in s.rows && id != c.id ==> Settle(s, c, outcome).rows[id] == s.rows[id]
  {
    hide RowMatches;
    var after := Settle(s, c, outcome);
    forall id | id in s.rows
      ensures id in after.log && RowMatches(after, id) && (id != c.id ==> after.rows[id] == s.rows[id])
    {
      if id == c.id { SettleOwn(s, c, outcome); } else { SettleOther(s, c, outcome, id); }
    }
  }

  lemma {:induction false} SettleAllKeeps(s: Store, claimed: seq<Claimed>, outcomes: seq<Outcome>)
    requires StoreOk(s) && Current(s, claimed) && |outcomes| <= |claimed|
    ensures StoreOk(SettleAll(s, claimed, outcomes))
    ensures forall i :: |outcomes| <= i < |claimed| ==>
              SettleAll(s, claimed, outcomes).rows[claimed[i].id] == claimed[i].row
    ensures forall id :: id in s.rows && (forall i :: 0 <= i < |outcomes| ==> claimed[i].id != id) ==>
              SettleAll(s, claimed, outcomes).rows[id] == s.rows[id]
  {
    hide RowMatches, Settle;
    if outcomes != [] {
      var n := |outcomes| - 1;
      SettleAllKeeps(s, claimed, outcomes[..n]);
      SettleKeeps(SettleAll(s, claimed, outcomes[..n]), claimed[n], outcomes[n]);
    }
  }

  // ---- Several workers -------------------------------------------------------------------

  /** A transaction in flight: what it claimed and how its passes went so far. */
  datatype Tx = Tx(claimed: seq<Claimed>, outcomes: seq<Outcome>)

  datatype System = System(store: Store, inflight: map<nat, Tx>)

  datatype Step =
    | Insert(id: nat, eventType: string)
    | Begin(worker: nat, limit: nat, claimed: seq<Claimed>)
    | Pass(worker: nat, outcome: Outcome)
    | Commit(worker: nat)
    | Rollback(worker: nat)

  predicate Locked(inflight: map<nat, Tx>, id: nat) {
    exists w, i :: w in inflight && 0 <= i < |inflight[w].claimed| && inflight[w].claimed[i].id == id
  }

  /** The claiming query: the first `limit` undispatched rows in id order that nobody holds. */
  predicate IsClaim(sys: System, limit: nat, claimed: seq<Claimed>) {
    && Current(sys.store, claimed)
    && (forall i :: 0 <= i < |claimed| ==> !Locked(sys.inflight, claimed[i].id))
    && (forall i, j :: 0 <= i < j < |claimed| ==> claimed[i].id < claimed[j].id)
    && |claimed| <= limit
    && (forall id :: id in sys.store.rows && !sys.store.rows[id].dispatched && !Locked(sys.inflight, id) ==>
          (exists i :: 0 <= i < |claimed| && claimed[i].id == id)
          || (|claimed| == limit && forall i :: 0 <= i < |claimed| ==> claimed[i].id < id))
  }

  predicate Enabled(sys: System, step: Step) {
    match step
    case Insert(id, _) => id !in sys.store.rows
    case Begin(w, limit, claimed) => w !in sys.inflight && IsClaim(sys, limit, claimed)
    case Pass(w, _) => w in sys.inflight && |sys.inflight[w].outcomes| < |sys.inflight[w].claimed|
    case Commit(w) =>
      && w in sys.inflight && |sys.inflight[w].outcomes| == |sys.inflight[w].claimed|
      && Known(sys.store, sys.inflight[w].claimed)
    case Rollback(w) => w in sys.inflight
  }

  /** A producer's new row becomes visible; ids need not do so in order. */
  function Added(s: Store, id: nat, eventType: string): Store {
    s.(rows := s.rows[id := Row(eventType, 0, false, None)], log := s.log[id := []])
  }

  lemma AddedKeeps(s: Store, id: nat, eventType: string)
    requires StoreOk(s) && id !in s.rows
    ensures StoreOk(Added(s, id, eventType))
  {
    hide RowMatches;
    NoLetters(s.letters, id);
    AddedRow(s, id, eventType);
    forall i | i in s.rows ensures RowMatches(Added(s, id, eventType), i) { AddedSpares(s, id, eventType, i); }
  }

  lemma AddedRow(s: Store, id: nat, eventType: string)
    requires LettersFor(s.letters, id) == []
    ensures RowMatches(Added(s, id, eventType), id)
  {
    hide LettersFor;
  }

  lemma AddedSpares(s: Store, id: nat, eventType: string, i: nat)
    requires i != id && i in s.rows && i in s.log && RowMatches(s, i)
    ensures RowMatches(Added(s, id, eventType), i)
  {
    hide LettersFor;
  }

  lemma {:induction false} NoLetters(letters: seq<Letter>, id: nat)
    requires forall i :: 0 <= i < |letters| ==> letters[i].outboxId != id
    ensures LettersFor(letters, id) == []
  {
    if letters != [] { NoLetters(letters[..|letters| - 1], id); }
  }

  function Next(sys: System, step: Step): System
    requires Enabled(sys, step)
  {
    match step
    case Insert(id, eventType) => sys.(store := Added(sys.store, id, eventType))
    case Begin(w, _, claimed) => sys.(inflight := sys.inflight[w := Tx(claimed, [])])
    case Pass(w, outcome) =>
      var tx := sys.inflight[w];
      sys.(inflight := sys.inflight[w := tx.(outcomes := tx.outcomes + [outcome])])
    case Commit(w) =>
      System(SettleAll(sys.store, sys.inflight[w].claimed, sys.inflight[w].outcomes), sys.inflight - {w})
    case Rollback(w) => sys.(inflight := sys.inflight - {w})
  }

  /** Claims handled by a worker so far. */
  function Working(sys: System, w: nat, claimed: seq<Claimed>, outcomes: seq<Outcome>): System {
    sys.(inflight := sys.inflight[w := Tx(claimed, outcomes)])
  }

  /** A pass that is rolled back leaves nothing behind: tables, letters and locks are as they were before the claim. */
  lemma RollbackLeavesNothing(sys: System, w: nat, limit: nat, claimed: seq<Claimed>, outcomes: seq<Outcome>)
    requires Enabled(sys, Begin(w, limit, claimed)) && |outcomes| <= |claimed|
    ensures Reach(sys, [Begin(w, limit, claimed)] + Passes(w, outcomes) + [Rollback(w)]) == Some(sys)
  {
    hide Reach, IsClaim, Passes;
    PassesRun(sys, w, limit, claimed, outcomes);
    ReachNext(sys, [Begin(w, limit, claimed)] + Passes(w, outcomes), Rollback(w));
    assert sys.inflight[w := Tx(claimed, outcomes)] - {w} == sys.inflight;
  }

  lemma {:induction false} PassesRun(sys: System, w: nat, limit: nat, claimed: seq<Claimed>, outcomes: seq<Outcome>)
    requires Enabled(sys, Begin(w, limit, claimed)) && |outcomes| <= |claimed|
    ensures Reach(sys, [Begin(w, limit, claimed)] + Passes(w, outcomes)) == Some(Working(sys, w, claimed, outcomes))
    decreases |outcomes|
  {
    hide IsClaim;
    var begin := [Begin(w, limit, claimed)];
    if outcomes == [] {
      ReachNext(sys, [], begin[0]);
      assert [] + begin == begin + Passes(w, outcomes);
    } else {
      hide Reach;
      var n := |outcomes| - 1;
      PassesRun(sys, w, limit, claimed, outcomes[..n]);
      ReachNext(sys, begin + Passes(w, outcomes[..n]), Pass(w, outcomes[n]));
      assert begin + Passes(w, outcomes[..n]) + [Pass(w, outcomes[n])] == begin + Passes(w, outcomes);
      OneMorePass(sys, w, claimed, outcomes);
    }
  }

  lemma OneMorePass(sys: System, w: nat, claimed: seq<Claimed>, outcomes: seq<Outcome>)
    requires 0 < |outcomes| <= |claimed|
    ensures var n := |outcomes| - 1; var before := Working(sys, w, claimed, outcomes[..n]);
            && Enabled(before, Pass(w, outcomes[n]))
            && Next(before, Pass(w, outcomes[n])) == Working(sys, w, claimed, outcomes)
  {
    assert outcomes[..|outcomes| - 1] + [outcomes[|outcomes| - 1]] == outcomes;
  }

  function Passes(w: nat, outcomes: seq<Outcome>): seq<Step> {
    seq(|outcomes|, i requires 0 <= i < |outcomes| => Pass(w, outcomes[i]))
  }

  lemma ReachNext(sys: System, steps: seq<Step>, step: Step)
    ensures Reach(sys, steps + [step])
            == if Reach(sys, steps).Some? && Enabled(Reach(sys, steps).value, step)
               then Some(Next(Reach(sys, steps).value, step)) else None
  {
    assert (steps + [step])[..|steps|] == steps;
  }

  /** Nobody's claims overlap, and what anybody claimed is still as it was read. */
  predicate Invariant(sys: System) {
    && StoreOk(sys.store)
    && (forall w :: w in sys.inflight ==>
          Current(sys.store, sys.inflight[w].claimed) && |sys.inflight[w].outcomes| <= |sys.inflight[w].claimed|)
    && (forall v, w, i, j ::
          v in sys.inflight && w in sys.inflight && v != w
          && 0 <= i < |sys.inflight[v].claimed| && 0 <= j < |sys.inflight[w].claimed| ==>
            sys.inflight[v].claimed[i].id != sys.inflight[w].claimed[j].id)
  }

  /** Settling one worker's rows leaves another worker's claims as they were read. */
  lemma CommitSpares(s: Store, mine: Tx, other: Tx)
    requires StoreOk(s) && Current(s, mine.claimed) && Current(s, other.claimed)
    requires |mine.outcomes| <= |mine.claimed|
    requires forall i, j :: 0 <= i < |mine.claimed| && 0 <= j < |other.claimed| ==>
               mine.claimed[i].id != other.claimed[j].id
    ensures Current(SettleAll(s, mine.claimed, mine.outcomes), other.claimed)
  {
    hide RowMatches;
    SettleAllKeeps(s, mine.claimed, mine.outcomes);
  }

  lemma NextKeeps(sys: System, step: Step)
    requires Invariant(sys) && Enabled(sys, step)
    ensures Invariant(Next(sys, step))
  {
    hide RowMatches, SettleAll, StoreOk;
    if step.Insert? {
      AddedKeeps(sys.store, step.id, step.eventType);
    } else if step.Commit? {
      var tx := sys.inflight[step.worker];
      SettleAllKeeps(sys.store, tx.claimed, tx.outcomes);
      forall w | w in sys.inflight && w != step.worker
        ensures Current(SettleAll(sys.store, tx.claimed, tx.outcomes), sys.inflight[w].claimed)
      {
        CommitSpares(sys.store, tx, sys.inflight[w]);
      }
    }
  }

  function Reach(sys: System, steps: seq<Step>): Option<System> {
    if steps == [] then Some(sys)
    else match Reach(sys, steps[..|steps| - 1])
      case None => None
      case Some(before) =>
        if Enabled(before, steps[|steps| - 1]) then Some(Next(before, steps[|steps| - 1])) else None
  }

  lemma {:induction false} ReachKeeps(sys: System, steps: seq<Step>)
    requires Invariant(sys) && Reach(sys, steps).Some?
    ensures Invariant(Reach(sys, steps).value)
  {
    if steps != [] {
      ReachKeeps(sys, steps[..|steps| - 1]);
      NextKeeps(Reach(sys, steps[..|steps| - 1]).value, steps[|steps| - 1]);
    }
  }

  /** In every interleaving with rollbacks: a settled row was delivered or has its one dead letter, never both. */
  lemma EveryRowSettlesOneWay(rows: map<nat, Row>, steps: seq<Step>, sys: System, id: nat)
    requires forall i :: i in rows ==> rows[i].attempts == 0 && !rows[i].dispatched
    requires Reach(System(Store(rows, [], map i | i in rows :: []), map[]), steps) == Some(sys)
    requires id in sys.store.rows
    ensures id in sys.store.log
    ensures var row, passes := sys.store.rows[id], sys.store.log[id];
            && row.attempts == |passes| <= MAX_ATTEMPTS
            && (!row.dispatched ==> row.attempts < MAX_ATTEMPTS)
            && (row.dispatched ==> Delivered(passes) != GaveUp(passes))
            && (Delivered(passes) ==> row.dispatched && LettersFor(sys.store.letters, id) == [])
            && (GaveUp(passes) ==> row.dispatched && LettersFor(sys.store.letters, id)
                                     == [Letter(id, passes[4].error, 5)])
  {
    var s := Store(rows, [], map i | i in rows :: []);
    FreshStore(rows);
    hide StoreOk, Reach, RowMatches;
    ReachKeeps(System(s, map[]), steps);
    SettledRow(sys.store, id);
  }

  lemma FreshStore(rows: map<nat, Row>)
    requires forall i :: i in rows ==> rows[i].attempts == 0 && !rows[i].dispatched
    ensures Invariant(System(Store(rows, [], map i | i in rows :: []), map[]))
  {
    var s := Store(rows, [], map i | i in rows :: []);
    forall i | i in rows ensures RowMatches(s, i) {}
  }

  lemma SettledRow(s: Store, id: nat)
    requires StoreOk(s) && id in s.rows
    ensures id in s.log
    ensures var row, passes := s.rows[id], s.log[id];
            && row.attempts == |passes| <= MAX_ATTEMPTS
            && (!row.dispatched ==> row.attempts < MAX_ATTEMPTS)
            && (row.dispatched ==> Delivered(passes) != GaveUp(passes))
            && (Delivered(passes) ==> row.dispatched && LettersFor(s.letters, id) == [])
            && (GaveUp(passes) ==> row.dispatched && LettersFor(s.letters, id) == [Letter(id, passes[4].error, 5)])
  {
    hide LettersKnown, LettersFor;
    assert RowMatches(s, id);
  }

  // ---- Progress --------------------------------------------------------------------------

  /** Passes the undispatched rows below `n` can still take. */
  function Left(rows: map<nat, Row>, n: nat): nat {
    if n == 0 then 0
    else
      Left(rows, n - 1)
      + if n - 1 in rows && !rows[n - 1].dispatched && rows[n - 1].attempts < MAX_ATTEMPTS
        then MAX_ATTEMPTS - rows[n - 1].attempts else 0
  }

  function Waiting(rows: map<nat, Row>, n: nat): nat {
    if n == 0 then 0
    else Waiting(rows, n - 1) + if n - 1 in rows && !rows[n - 1].dispatched then 1 else 0
  }

  /** A row that still waits has passes left. */
  predicate Unspent(rows: map<nat, Row>) {
    forall id :: id in rows && !rows[id].dispatched ==> rows[id].attempts < MAX_ATTEMPTS
  }

  lemma StoreUnspent(s: Store)
    requires StoreOk(s)
    ensures Unspent(s.rows)
  {
    forall id | id in s.rows && !s.rows[id].dispatched ensures s.rows[id].attempts < MAX_ATTEMPTS {
      assert RowMatches(s, id);
    }
  }

  predicate AllDispatched(rows: map<nat, Row>, n: nat) {
    forall id :: id in rows && id < n ==> rows[id].dispatched
  }

  lemma {:induction false} LeftBounds(rows: map<nat, Row>, n: nat)
    ensures Left(rows, n) <= MAX_ATTEMPTS * Waiting(rows, n)
    ensures Unspent(rows) ==> (Left(rows, n) == 0 <==> AllDispatched(rows, n))
  {
    if n > 0 { LeftBounds(rows, n - 1); }
  }

  lemma {:induction false} LeftFalls(rows: map<nat, Row>, rows': map<nat, Row>, id: nat, n: nat)
    requires id in rows && id in rows' && !rows[id].dispatched && rows[id].attempts < MAX_ATTEMPTS
    requires rows' == rows[id := rows'[id]] && rows'[id].attempts == rows[id].attempts + 1
    ensures id < n ==> Left(rows', n) < Left(rows, n)
    ensures id >= n ==> Left(rows', n) == Left(rows, n)
  {
    if n > 0 { LeftFalls(rows, rows', id, n - 1); }
  }

  lemma PassFalls(s: Store, c: Claimed, outcome: Outcome, n: nat)
    requires StoreOk(s) && c.id in s.rows && s.rows[c.id] == c.row && !c.row.dispatched && c.id < n
    ensures Left(Settle(s, c, outcome).rows, n) < Left(s.rows, n)
  {
    hide LettersKnown, RowMatches, Left;
    StoreUnspent(s);
    LeftFalls(s.rows, Settle(s, c, outcome).rows, c.id, n);
  }

  predicate Below(rows: map<nat, Row>, n: nat) {
    forall id :: id in rows ==> id < n
  }

  /** Committing `k` passes takes at least `k` off what is left. */
  lemma {:induction false} CommitFalls(s: Store, claimed: seq<Claimed>, outcomes: seq<Outcome>, n: nat)
    requires StoreOk(s) && Current(s, claimed) && |outcomes| <= |claimed| && Below(s.rows, n)
    ensures Left(SettleAll(s, claimed, outcomes).rows, n) + |outcomes| <= Left(s.rows, n)
  {
    hide RowMatches, Settle, Left;
    if outcomes != [] {
      var k := |outcomes| - 1;
      CommitFalls(s, claimed, outcomes[..k], n);
      SettleAllKeeps(s, claimed, outcomes[..k]);
      PassFalls(SettleAll(s, claimed, outcomes[..k]), claimed[k], outcomes[k], n);
    }
  }

  /** A tick that is alone and commits. */
  datatype Tick = Tick(limit: nat, claimed: seq<Claimed>, outcomes: seq<Outcome>)

  predicate TickFits(s: Store, t: Tick) {
    && t.limit >= 1 && |t.outcomes| == |t.claimed|
    && IsClaim(System(s, map[]), t.limit, t.claimed) && Known(s, t.claimed)
  }

  /** A tick over a nonempty backlog makes progress, whatever the handlers do. */
  lemma TickFalls(s: Store, t: Tick, n: nat)
    requires StoreOk(s) && TickFits(s, t) && Below(s.rows, n)
    ensures StoreOk(SettleAll(s, t.claimed, t.outcomes))
    ensures Left(SettleAll(s, t.claimed, t.outcomes).rows, n) < Left(s.rows, n)
            || Left(SettleAll(s, t.claimed, t.outcomes).rows, n) == Left(s.rows, n) == 0
  {
    SettleAllKeeps(s, t.claimed, t.outcomes);
    CommitFalls(s, t.claimed, t.outcomes, n);
    if t.claimed == [] {
      forall id | id in s.rows ensures s.rows[id].dispatched {
        assert !Locked(map[], id);
      }
      StoreUnspent(s);
      LeftBounds(s.rows, n);
    }
  }

  function AfterTicks(s: Store, ticks: seq<Tick>): Option<Store> {
    if ticks == [] then Some(s)
    else match AfterTicks(s, ticks[..|ticks| - 1])
      case None => None
      case Some(before) =>
        var t := ticks[|ticks| - 1];
        if TickFits(before, t) then Some(SettleAll(before, t.claimed, t.outcomes)) else None
  }

  lemma {:induction false} TicksFall(s: Store, ticks: seq<Tick>, n: nat)
    requires StoreOk(s) && AfterTicks(s, ticks).Some? && Below(s.rows, n)
    ensures StoreOk(AfterTicks(s, ticks).value) && AfterTicks(s, ticks).value.rows.Keys == s.rows.Keys
    ensures var after := AfterTicks(s, ticks).value;
            Left(after.rows, n) + |ticks| <= Left(s.rows, n) || Left(after.rows, n) == 0
  {
    hide StoreOk, Left, IsClaim;
    if ticks != [] {
      TicksFall(s, ticks[..|ticks| - 1], n);
      var before, t := AfterTicks(s, ticks[..|ticks| - 1]).value, ticks[|ticks| - 1];
      TickFalls(before, t, n);
    }
  }

  /** Five ticks for each waiting row are enough, whatever the handlers do and however small the batches. */
  lemma TicksDrain(s: Store, ticks: seq<Tick>, n: nat)
    requires StoreOk(s) && AfterTicks(s, ticks).Some? && Below(s.rows, n)
    requires |ticks| >= MAX_ATTEMPTS * Waiting(s.rows, n)
    ensures AllDispatched(AfterTicks(s, ticks).value.rows, n)
  {
    hide StoreOk, Left, IsClaim, AfterTicks;
    TicksFall(s, ticks, n);
    LeftBounds(s.rows, n);
    StoreUnspent(AfterTicks(s, ticks).value);
    LeftBounds(AfterTicks(s, ticks).value.rows, n);
  }

  // ---- The dispatcher ----------------------------------------------------------------------

  datatype Handler = Handler(name: string, matches: string -> bool, handle: nat -> Option<string>)

  /** What the first matching handler that throws says, if one does. */
  function FirstFailure(handlers: seq<Handler>, c: Claimed): Outcome {
    if handlers == [] then Ok
    else
      var h := handlers[0];
      if h.matches(c.row.eventType) && h.handle(c.id).Some? then Failed(h.name + ": " + h.handle(c.id).value)
      else FirstFailure(handlers[1..], c)
  }

  lemma {:induction false} FirstFailureMeaning(handlers: seq<Handler>, c: Claimed)
    ensures FirstFailure(handlers, c).Ok? <==>
              forall h :: h in handlers && h.matches(c.row.eventType) ==> h.handle(c.id).None?
    ensures FirstFailure(handlers, c).Failed? ==>
              exists i :: 0 <= i < |handlers| && FailsAt(handlers, c, i, FirstFailure(handlers, c).error)
  {
    if handlers != [] {
      FirstFailureMeaning(handlers[1..], c);
      assert handlers == [handlers[0]] + handlers[1..];
      var h := handlers[0];
      var outcome := FirstFailure(handlers, c);
      if h.matches(c.row.eventType) && h.handle(c.id).Some? {
        assert FailsAt(handlers, c, 0, outcome.error);
      } else if outcome.Failed? {
        var i :| 0 <= i < |handlers[1..]| && FailsAt(handlers[1..], c, i, outcome.error);
        assert FailsAt(handlers, c, i + 1, outcome.error);
      }
    }
  }

  /** Handler `i` threw this error and no matching handler before it threw any. */
  predicate FailsAt(handlers: seq<Handler>, c: Claimed, i: nat, error: string)
    requires i < |handlers|
  {
    && handlers[i].matches(c.row.eventType) && handlers[i].handle(c.id).Some?
    && error == handlers[i].name + ": " + handlers[i].handle(c.id).value
    && forall j :: 0 <= j < i && handlers[j].matches(c.row.eventType) ==> handlers[j].handle(c.id).None?
  }

  function Outcomes(handlers: seq<Handler>, claimed: seq<Claimed>): seq<Outcome> {
    seq(|claimed|, i requires 0 <= i < |claimed| => FirstFailure(handlers, claimed[i]))
  }

  class Dispatcher {
    var handlers: seq<Handler>
    var running: bool
    /** The committed tables. */
    var store: Store

    constructor (store: Store)
      ensures handlers == [] && !running && this.store == store
    {
      handlers := [];
      running := false;
      this.store := store;
    }

    method Subscribe(name: string, matches: string -> bool, handle: nat -> Option<string>)
      modifies this`handlers
      ensures handlers == old(handlers) + [Handler(name, matches, handle)]
    {
      handlers := handlers + [Handler(name, matches, handle)];
    }

    method Dispatch(c: Claimed) returns (outcome: Outcome)
      ensures outcome == FirstFailure(handlers, c)
    {
      for i := 0 to |handlers|
        invariant FirstFailure(handlers, c) == FirstFailure(handlers[i..], c)
      {
        var handler := handlers[i];
        if !handler.matches(c.row.eventType) { continue; }
        var error := handler.handle(c.id);
        if error.Some? { return Failed(handler.name + ": " + error.value); }
      }
      return Ok;
    }

    /**
     * One pass. `connects` is whether a database connection is had, `crash` the row (or the
     * commit, past the last row) at which the database throws. A crash rolls everything back but
     * still reports the rows it had been through; a failed connection leaves the flag up for good.
     */
    method Tick(connects: bool, claimed: seq<Claimed>, crash: Option<nat>) returns (processed: nat)
      requires Known(store, claimed)
      modifies this`running, this`store
      ensures old(running) || !connects ==> processed == 0 && store == old(store)
      ensures running == (old(running) || !connects)
      ensures !running && (crash.None? || crash.value > |claimed|) ==>
                processed == |claimed| && store == SettleAll(old(store), claimed, Outcomes(handlers, claimed))
      ensures !running && crash.Some? && crash.value <= |claimed| ==>
                processed == crash.value && store == old(store)
    {
      processed := 0;
      if running { return; }
      running := true;
      if !connects { return; }
      hide Settle, SettleAll, FirstFailure;
      SettleNothing(store, claimed);
      var work := store;
      ghost var outcomes := Outcomes(handlers, claimed);
      while processed < |claimed| && crash != Some(processed)
        invariant processed <= |claimed| && (crash.Some? ==> processed <= crash.value || crash.value > |claimed|)
        invariant store == old(store) && running && handlers == old(handlers)
        invariant work == SettleAll(store, claimed, outcomes[..processed])
      {
        SettleNext(store, claimed, outcomes, processed);
        var outcome := Dispatch(claimed[processed]);
        work := Settle(work, claimed[processed], outcome);
        processed := processed + 1;
      }
      if crash != Some(processed) {
        assert outcomes[..processed] == outcomes;
        store := work;
      }
      running := false;
    }
  }
}
