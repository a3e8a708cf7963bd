/**
 * Scheduled jobs under database leases. Workers take and free the lease row of a job at the
 * database's clock, which never goes back; a worker may run late and still release.
 * Times are milliseconds.
 */
module Leases {
  import opened Wrappers

  datatype Lease = Lease(holder: string, until: int)

  function Max(a: int, b: int): int { if a >= b then a else b }

  /** Twice the interval in whole seconds, at least thirty. */
  function LeaseMs(intervalMs: nat): int {
    1000 * Max(30, (intervalMs * 2 + 999) / 1000)
  }

  /** A lease is a whole number of seconds: thirty, or the fewest that hold two intervals where those are more. */
  lemma LeaseLength(intervalMs: nat)
    ensures var ms := LeaseMs(intervalMs);
            && ms % 1000 == 0 && ms >= 30000 && ms >= 2 * intervalMs
            && (ms == 30000 || ms - 1000 < 2 * intervalMs)
  {
  }

  predicate Free(row: Option<Lease>, now: int) { row.None? || row.value.until < now }

  /** The row after a release: only the holder named in it frees it. */
  function Released(row: Option<Lease>, holder: string, now: int): Option<Lease> {
    if row.Some? && row.value.holder == holder then Some(row.value.(until := now)) else row
  }

  class LeaseTable {
    var rows: map<string, Lease>

    constructor ()
      ensures rows == map[]
    {
      rows := map[];
    }

    function Row(job: string): Option<Lease>
      reads this
    {
      if job in rows then Some(rows[job]) else None
    }

    /** The upsert: takes the row when it is absent or has run out. */
    method Acquire(job: string, holder: string, intervalMs: nat, now: int) returns (taken: bool)
      modifies this
      ensures taken == Free(old(Row(job)), now)
      ensures rows == if taken then old(rows)[job := Lease(holder, now + LeaseMs(intervalMs))] else old(rows)
    {
      if job in rows && rows[job].until >= now { return false; }
      rows := rows[job := Lease(holder, now + LeaseMs(intervalMs))];
      return true;
    }

    method Release(job: string, holder: string, now: int)
      modifies this
      ensures Row(job) == Released(old(Row(job)), holder, now)
      ensures forall other :: other != job ==> Row(other) == old(Row(other))
    {
      if job in rows && rows[job].holder == holder {
        rows := rows[job := rows[job].(until := now)];
      }
    }
  }

  // ---- One job, any number of workers ------------------------------------------------

  /** A run in progress: who runs it and how long its lease lasts. */
  datatype Run = Run(holder: string, until: int)

  datatype State = State(row: Option<Lease>, active: map<nat, Run>)

  datatype Step =
    | Take(run: nat, holder: string, intervalMs: nat, at: int)
    | Give(run: nat, at: int)
    | Vanish(run: nat, at: int)

  /** Every run has its own number. A refused take changes nothing; a run may vanish and leave the row as it is. */
  predicate Enabled(s: State, step: Step) {
    match step
    case Take(run, _, _, _) => run !in s.active
    case Give(run, _) => run in s.active
    case Vanish(run, _) => run in s.active
  }

  predicate Starts(s: State, step: Step) { step.Take? && Free(s.row, step.at) }

  function Next(s: State, step: Step): State
    requires Enabled(s, step)
  {
    match step
    case Take(run, holder, intervalMs, at) =>
      var until := at + LeaseMs(intervalMs);
      if Free(s.row, at) then State(Some(Lease(holder, until)), s.active[run := Run(holder, until)]) else s
    case Give(run, at) => State(Released(s.row, s.active[run].holder, at), s.active - {run})
    case Vanish(run, _) => s.(active := s.active - {run})
  }

  /** Nobody who is running has outlived its lease at `at`. */
  predicate OnTime(s: State, at: int) {
    forall run :: run in s.active ==> at <= s.active[run].until
  }

  /** At most one run, and the row is its lease; after one that vanished the row runs out by itself. */
  predicate Exclusive(s: State) {
    forall run :: run in s.active ==>
      && s.row == Some(Lease(s.active[run].holder, s.active[run].until))
      && s.active.Keys == {run}
  }

  lemma ExclusiveStep(s: State, step: Step)
    requires Exclusive(s) && Enabled(s, step) && OnTime(s, step.at)
    ensures Exclusive(Next(s, step))
    ensures Starts(s, step) ==> s.active == map[]
  {
    if Starts(s, step) {
      assert forall run :: run !in s.active;
      assert s.active == map[];
    }
  }

  function After(s: State, steps: seq<Step>): Option<State> {
    if steps == [] then Some(s)
    else match After(s, steps[..|steps| - 1])
      case None => None
      case Some(before) =>
        if Enabled(before, steps[|steps| - 1]) then Some(Next(before, steps[|steps| - 1])) else None
  }

  predicate AlwaysOnTime(s: State, steps: seq<Step>) {
    steps != [] ==>
      && AlwaysOnTime(s, steps[..|steps| - 1])
      && (After(s, steps[..|steps| - 1]).Some? ==>
            OnTime(After(s, steps[..|steps| - 1]).value, steps[|steps| - 1].at))
  }

  /** If every run ends before its lease does, no two runs of the job ever overlap. */
  lemma {:induction false} RunsNeverOverlap(steps: seq<Step>)
    requires After(State(None, map[]), steps).Some? && AlwaysOnTime(State(None, map[]), steps)
    ensures Exclusive(After(State(None, map[]), steps).value)
    ensures |After(State(None, map[]), steps).value.active| <= 1
  {
    var start := State(None, map[]);
    if steps != [] {
      RunsNeverOverlap(steps[..|steps| - 1]);
      ExclusiveStep(After(start, steps[..|steps| - 1]).value, steps[|steps| - 1]);
    }
    AtMostOne(After(start, steps).value);
  }

  lemma AtMostOne(s: State)
    requires Exclusive(s)
    ensures |s.active| <= 1
  {
    if run :| run in s.active { assert s.active.Keys == {run} && |s.active.Keys| == 1; }
    else { assert s.active == map[]; }
  }

  // ---- One run on time among late ones ---------------------------------------------------

  /** The row is the lease of run `q`. */
  predicate Holds(s: State, q: nat) {
    q in s.active && s.row == Some(Lease(s.active[q].holder, s.active[q].until))
  }

  predicate Ends(step: Step, q: nat) { !step.Take? && step.run == q }

  /** A late release of another run that carries the same holder name. */
  predicate Twin(s: State, q: nat, step: Step) {
    q in s.active && step.Give? && step.run != q && step.run in s.active && s.active[step.run].holder == s.active[q].holder
  }

  /** While `q` is on time nobody takes its lease, and a late release takes it away exactly when it is a twin's. */
  lemma HeldExactlyWhen(s: State, q: nat, step: Step)
    requires Holds(s, q) && Enabled(s, step) && step.at <= s.active[q].until && !Ends(step, q)
    ensures !Starts(s, step)
    ensures Next(s, step).row == s.row || Twin(s, q, step)
    ensures q in Next(s, step).active && Next(s, step).active[q] == s.active[q]
    ensures step.at < s.active[q].until ==> (Holds(Next(s, step), q) <==> !Twin(s, q, step))
  {}

  /** Steps during which `q` keeps running, on time, and no twin releases. */
  predicate Undisturbed(s: State, q: nat, steps: seq<Step>) {
    steps != [] ==>
      && Undisturbed(s, q, steps[..|steps| - 1])
      && After(s, steps[..|steps| - 1]).Some?
      && var before, step := After(s, steps[..|steps| - 1]).value, steps[|steps| - 1];
         && Enabled(before, step) && !Ends(step, q) && !Twin(before, q, step)
         && (q in before.active ==> step.at <= before.active[q].until)
  }

  /** An on-time run is alone from then on, however late the others are, as long as no twin of it releases. */
  lemma {:induction false} OnTimeRunIsSafe(s: State, q: nat, steps: seq<Step>)
    requires Holds(s, q) && Undisturbed(s, q, steps)
    ensures After(s, steps).Some? && Holds(After(s, steps).value, q)
    ensures After(s, steps).value.active.Keys <= s.active.Keys
    ensures forall i :: 0 <= i < |steps| && After(s, steps[..i]).Some? ==> !Starts(After(s, steps[..i]).value, steps[i])
  {
    if steps != [] {
      var init, last := steps[..|steps| - 1], steps[|steps| - 1];
      OnTimeRunIsSafe(s, q, init);
      HeldExactlyWhen(After(s, init).value, q, last);
      forall i | 0 <= i < |steps| && After(s, steps[..i]).Some?
        ensures !Starts(After(s, steps[..i]).value, steps[i])
      {
        if i < |init| { assert init[..i] == steps[..i] && init[i] == steps[i]; }
      }
    }
  }

  /** Among some steps every release is by a run of another holder than `holder`. */
  predicate OthersRelease(s: State, holder: string, steps: seq<Step>) {
    steps != [] ==>
      && OthersRelease(s, holder, steps[..|steps| - 1])
      && After(s, steps[..|steps| - 1]).Some?
      && var before, step := After(s, steps[..|steps| - 1]).value, steps[|steps| - 1];
         && Enabled(before, step)
         && (step.Give? ==> before.active[step.run].holder != holder)
  }

  /**
   * From the moment a holder has the lease until it runs out, the row stays as it is through
   * every interleaving in which the others release, however late they are, take and vanish.
   */
  lemma {:induction false} LateReleasesSpareOthers(s: State, lease: Lease, steps: seq<Step>)
    requires s.row == Some(lease) && OthersRelease(s, lease.holder, steps)
    requires forall i :: 0 <= i < |steps| ==> steps[i].at <= lease.until
    ensures After(s, steps).Some? && After(s, steps).value.row == Some(lease)
    ensures After(s, steps).value.active.Keys <= s.active.Keys
  {
    if steps != [] { LateReleasesSpareOthers(s, lease, steps[..|steps| - 1]); }
  }

  /**
   * Holders name processes, not runs: a late run of one process frees the lease its own next
   * run holds, and a third run starts beside one that is well within its lease.
   */
  lemma TwinReleaseOverlaps()
    ensures var steps := [Take(1, "p", 1000, 0), Take(2, "p", 1000, 30001), Give(1, 30002), Take(3, "r", 1000, 30003)];
            var s := After(State(None, map[]), steps);
            s.Some? && 2 in s.value.active && 3 in s.value.active && 30003 <= s.value.active[2].until
  {
    var steps := [Take(1, "p", 1000, 0), Take(2, "p", 1000, 30001), Give(1, 30002), Take(3, "r", 1000, 30003)];
    assert steps[..3][..2] == steps[..2] && steps[..2][..1] == steps[..1] && steps[..1][..0] == [];
    assert LeaseMs(1000) == 30000;
    var start := State(None, map[]);
    assert After(start, steps[..1]) == Some(Next(start, steps[0]));
    var s1 := Next(start, steps[0]);
    assert After(start, steps[..2]) == Some(Next(s1, steps[1]));
    var s2 := Next(s1, steps[1]);
    assert After(start, steps[..3]) == Some(Next(s2, steps[2]));
  }
}
