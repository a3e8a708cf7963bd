/** The sync settles after the last edit so long as every write leaves its echoes recognisable. */
module SyncTheorems {
  import opened Wrappers
  import opened SyncMaps
  import opened SyncRules
  import opened SyncProtocol

  // ---- Echoes ------------------------------------------------------------------------------

  /** Every read of our own write that is still to be applied, or still to be polled, will be recognised. */
  predicate EchoesKnown(inst: Instance) {
    && (forall k :: 0 <= k < |inst.inbox| && inst.inbox[k].ours ==> Recognised(inst, inst.inbox[k].record, inst.inbox[k].stamp))
    && (inst.ours && Unpolled(inst) ==> Recognised(inst, inst.record, inst.stamp))
  }

  predicate AllEchoesKnown(w: World) {
    forall i :: 0 <= i < |w.instances| ==> EchoesKnown(w.instances[i])
  }

  /** No read of a write is stamped further ahead of our clock than the tolerance. */
  predicate InTolerance(inst: Instance, stamp: int, now: int) { stamp <= now + inst.tolerance * 1000 }

  /**
   * A write leaves its own echo recognisable, and the echoes still in the inbox too: they are
   * stamped within the tolerance of it and their outbound fields read as it leaves them.
   */
  predicate EchoesSurvive(inst: Instance, body: map<string, string>, stamp: int, now: int) {
    && (Unpolled(inst.(stamp := stamp)) ==> InTolerance(inst, stamp, now))
    && (forall j :: 0 <= j < |inst.inbox| && inst.inbox[j].ours ==>
          && InTolerance(inst, inst.inbox[j].stamp, now)
          && EchoOf(inst.entries, inst.inbox[j].record) == EchoOf(inst.entries, Written(inst.record, body)))
  }

  predicate Orderly(w: World, step: Step)
    requires CanTake(w, step)
  {
    step.Deliver? ==>
      var inst := w.instances[step.i];
      var body := Body(inst, inst.rows[step.k], w.ticket, w.updatedAt);
      body != map[] ==> EchoesSurvive(inst, body, step.stamp, step.now)
  }

  lemma QueuePlaces(instances: seq<Instance>, e: Event, i: nat)
    requires i < |instances|
    ensures QueueAll(instances, e)[i] == Queue(instances[i], i, e)
  {
    if i < |instances| - 1 { QueuePlaces(instances[..|instances| - 1], e, i); }
  }

  lemma WithoutKeeps<T>(s: seq<T>, k: nat)
    requires k < |s|
    ensures forall j :: 0 <= j < |s| - 1 ==> Without(s, k)[j] == s[if j < k then j else j + 1]
  {
  }

  lemma FewerEchoes(inst: Instance, k: nat)
    requires EchoesKnown(inst) && k < |inst.inbox|
    ensures EchoesKnown(inst.(inbox := Without(inst.inbox, k)))
  {
    hide Recognised;
    var less := inst.(inbox := Without(inst.inbox, k));
    WithoutKeeps(inst.inbox, k);
    SameLink(inst, less);
  }

  /** Recognition looks only at what the link remembers. */
  lemma SameLink(a: Instance, b: Instance)
    requires a.entries == b.entries && a.tolerance == b.tolerance
    requires a.lastOutboundAt == b.lastOutboundAt && a.lastHash == b.lastHash
    ensures forall record, stamp :: Recognised(a, record, stamp) == Recognised(b, record, stamp)
  {
  }

  lemma WritesKeepEchoes(inst: Instance, body: map<string, string>, stamp: int, now: int)
    ensures EchoesKnown(Push(inst, body, stamp, now)) <==> EchoesSurvive(inst, body, stamp, now)
  {
    hide EchoOf, Written;
    var after := Push(inst, body, stamp, now);
    assert Recognised(after, after.record, after.stamp) <==> InTolerance(inst, stamp, now);
    assert Unpolled(after) <==> Unpolled(inst.(stamp := stamp));
    forall j | 0 <= j < |inst.inbox| && inst.inbox[j].ours
      ensures Recognised(after, inst.inbox[j].record, inst.inbox[j].stamp) <==>
              InTolerance(inst, inst.inbox[j].stamp, now)
              && EchoOf(inst.entries, inst.inbox[j].record) == EchoOf(inst.entries, Written(inst.record, body))
    {}
    hide Recognised, Unpolled, InTolerance;
  }

  lemma RowsDoNotMatter(inst: Instance, rows: seq<Row>)
    ensures EchoesKnown(inst.(rows := rows)) <==> EchoesKnown(inst)
  {
    SameLink(inst, inst.(rows := rows));
    hide Recognised;
  }

  lemma QueueKeepsEchoes(inst: Instance, i: nat, e: Event)
    requires EchoesKnown(inst)
    ensures EchoesKnown(Queue(inst, i, e))
  {
    RowsDoNotMatter(inst, inst.rows + [Row(e.fields, e.origin, 0)]);
    hide EchoesKnown;
  }

  lemma RowFailureKeepsEchoes(inst: Instance, k: nat, terminal: bool)
    requires EchoesKnown(inst) && k < |inst.rows|
    ensures EchoesKnown(RowFails(inst, k, terminal))
  {
    hide EchoesKnown;
    var after := RowFails(inst, k, terminal);
    RowsDoNotMatter(inst, after.rows);
    assert after == inst.(rows := after.rows);
  }

  lemma ClientEditKeepsEchoes(inst: Instance, record: Record, stamp: int)
    requires EchoesKnown(inst)
    ensures EchoesKnown(inst.(record := record, stamp := stamp, ours := false))
  {
    SameLink(inst, inst.(record := record, stamp := stamp, ours := false));
    hide Recognised;
  }

  lemma PollKeepsEchoes(inst: Instance)
    requires EchoesKnown(inst) && Unpolled(inst)
    ensures EchoesKnown(Polled(inst))
  {
    SameLink(inst, Polled(inst));
    hide Recognised;
  }

  lemma SettlingKeepsEchoes(inst: Instance, k: nat, known: Option<int>)
    requires EchoesKnown(inst) && k < |inst.inbox|
    ensures EchoesKnown(inst.(inbox := Without(inst.inbox, k), lastKnown := known))
  {
    FewerEchoes(inst, k);
    var less := inst.(inbox := Without(inst.inbox, k));
    SameLink(less, less.(lastKnown := known));
    hide Recognised, Without;
  }

  lemma RetryKeepsEchoes(inst: Instance, k: nat, attempts: nat)
    requires EchoesKnown(inst) && k < |inst.inbox|
    ensures EchoesKnown(inst.(inbox := inst.inbox[k := inst.inbox[k].(attempts := attempts)]))
  {
    SameLink(inst, inst.(inbox := inst.inbox[k := inst.inbox[k].(attempts := attempts)]));
    hide Recognised;
  }

  lemma SnapshotFailureKeepsEchoes(inst: Instance, k: nat, terminal: bool)
    requires EchoesKnown(inst) && k < |inst.inbox|
    ensures EchoesKnown(SnapshotFails(inst, k, terminal))
  {
    hide EchoesKnown, Without;
    FewerEchoes(inst, k);
    RetryKeepsEchoes(inst, k, inst.inbox[k].attempts + 1);
  }

  lemma SurviveAlike(a: Instance, b: Instance, body: map<string, string>, stamp: int, now: int)
    requires b == a.(rows := b.rows)
    ensures EchoesSurvive(a, body, stamp, now) <==> EchoesSurvive(b, body, stamp, now)
  {
    hide EchoOf, Written;
  }

  lemma DeliveryKeepsEchoes(w: World, i: nat, k: nat, stamp: int, now: int)
    requires CanTake(w, Deliver(i, k, stamp, now)) && EchoesKnown(w.instances[i])
    ensures EchoesKnown(Delivered(w.instances[i], k, w.ticket, w.updatedAt, stamp, now))
            <==> Orderly(w, Deliver(i, k, stamp, now))
  {
    var inst := w.instances[i];
    var settled := inst.(rows := Without(inst.rows, k));
    RowsDoNotMatter(inst, settled.rows);
    hide Recognised, Body, EchoesKnown, EchoesSurvive;
    SurviveAlike(inst, settled, Body(inst, inst.rows[k], w.ticket, w.updatedAt), stamp, now);
    WritesKeepEchoes(settled, Body(inst, inst.rows[k], w.ticket, w.updatedAt), stamp, now);
  }

  /** No step but a write that its echoes do not survive can make us take our own write for a client's. */
  lemma EchoesKeptExactlyWhen(w: World, step: Step)
    requires AllEchoesKnown(w) && CanTake(w, step)
    ensures AllEchoesKnown(Next(w, step)) <==> Orderly(w, step)
  {
    hide EchoesKnown, Recognised, RowFails, SnapshotFails, Queue, Delivered;
    var v := Next(w, step);
    match step
    case Edit(_, _) =>
    case Dispatch =>
      forall i | 0 <= i < |w.instances| ensures EchoesKnown(v.instances[i]) {
        QueuePlaces(w.instances, w.outbox[0], i);
        QueueKeepsEchoes(w.instances[i], i, w.outbox[0]);
      }
    case ClientEdit(i, record, stamp) =>
      OneChanges(w, v, i);
      ClientEditKeepsEchoes(w.instances[i], record, stamp);
    case DeliverFails(i, k, terminal) =>
      OneChanges(w, v, i);
      RowFailureKeepsEchoes(w.instances[i], k, terminal);
    case Poll(i) =>
      OneChanges(w, v, i);
      PollKeepsEchoes(w.instances[i]);
    case Apply(i, k, _) =>
      OneChanges(w, v, i);
      SettlingKeepsEchoes(w.instances[i], k, w.instances[i].lastKnown);
      SettlingKeepsEchoes(w.instances[i], k, Some(w.instances[i].inbox[k].stamp));
    case ApplyFails(i, k, terminal) =>
      OneChanges(w, v, i);
      SnapshotFailureKeepsEchoes(w.instances[i], k, terminal);
    case Deliver(i, k, stamp, now) =>
      OneChanges(w, v, i);
      DeliveryKeepsEchoes(w, i, k, stamp, now);
  }

  lemma OneChanges(w: World, v: World, i: nat)
    requires AllEchoesKnown(w) && i < |w.instances| == |v.instances|
    requires v.instances == w.instances[i := v.instances[i]]
    ensures AllEchoesKnown(v) <==> EchoesKnown(v.instances[i])
    ensures EchoesKnown(w.instances[i])
  {
    hide EchoesKnown;
  }

  // ---- The measure -------------------------------------------------------------------------

  const ROW_WEIGHT := 11

  function EventWeight(n: nat): nat { ROW_WEIGHT * n + 1 }

  function Left(max: nat, attempts: nat): nat { if attempts < max then max - attempts else 1 }

  /** A row may yet make a write that is to be polled and read back. */
  function WeighRow(r: Row): nat { 6 + Left(MAX_OUTBOUND_ATTEMPTS, r.attempts) }

  /** A client's change may yet become an event for every instance; our own cannot. */
  function WeighSnapshot(s: Snapshot, n: nat): nat {
    (if s.ours then 0 else EventWeight(n)) + Left(MAX_INBOX_ATTEMPTS, s.attempts)
  }

  function WeighRows(rows: seq<Row>): nat {
    if rows == [] then 0 else WeighRows(rows[..|rows| - 1]) + WeighRow(rows[|rows| - 1])
  }

  function WeighInbox(inbox: seq<Snapshot>, n: nat): nat {
    if inbox == [] then 0 else WeighInbox(inbox[..|inbox| - 1], n) + WeighSnapshot(inbox[|inbox| - 1], n)
  }

  function WeighRecord(inst: Instance, n: nat): nat {
    if !Unpolled(inst) then 0 else if inst.ours then 6 else EventWeight(n) + 6
  }

  function Weigh(inst: Instance, n: nat): nat {
    WeighRows(inst.rows) + WeighInbox(inst.inbox, n) + WeighRecord(inst, n)
  }

  function WeighAll(instances: seq<Instance>, n: nat): nat {
    if instances == [] then 0 else WeighAll(instances[..|instances| - 1], n) + Weigh(instances[|instances| - 1], n)
  }

  function Measure(w: World): nat {
    EventWeight(|w.instances|) * |w.outbox| + WeighAll(w.instances, |w.instances|)
  }

  lemma {:induction false} RowOut(rows: seq<Row>, k: nat)
    requires k < |rows|
    ensures WeighRows(Without(rows, k)) == WeighRows(rows) - WeighRow(rows[k])
  {
    var n := |rows| - 1;
    if k < n {
      RowOut(rows[..n], k);
      assert Without(rows, k) == Without(rows[..n], k) + [rows[n]];
      assert Without(rows, k)[..n - 1] == Without(rows[..n], k);
    } else {
      assert Without(rows, k) == rows[..n];
    }
  }

  lemma {:induction false} RowChanged(rows: seq<Row>, k: nat, r: Row)
    requires k < |rows|
    ensures WeighRows(rows[k := r]) == WeighRows(rows) - WeighRow(rows[k]) + WeighRow(r)
  {
    var n := |rows| - 1;
    if k < n {
      RowChanged(rows[..n], k, r);
      assert rows[k := r][..n] == rows[..n][k := r];
    } else {
      assert rows[k := r][..n] == rows[..n];
    }
  }

  lemma {:induction false} SnapshotOut(inbox: seq<Snapshot>, k: nat, n: nat)
    requires k < |inbox|
    ensures WeighInbox(Without(inbox, k), n) == WeighInbox(inbox, n) - WeighSnapshot(inbox[k], n)
  {
    var m := |inbox| - 1;
    if k < m {
      SnapshotOut(inbox[..m], k, n);
      assert Without(inbox, k) == Without(inbox[..m], k) + [inbox[m]];
      assert Without(inbox, k)[..m - 1] == Without(inbox[..m], k);
    } else {
      assert Without(inbox, k) == inbox[..m];
    }
  }

  lemma {:induction false} SnapshotChanged(inbox: seq<Snapshot>, k: nat, s: Snapshot, n: nat)
    requires k < |inbox|
    ensures WeighInbox(inbox[k := s], n) == WeighInbox(inbox, n) - WeighSnapshot(inbox[k], n) + WeighSnapshot(s, n)
  {
    var m := |inbox| - 1;
    if k < m {
      SnapshotChanged(inbox[..m], k, s, n);
      assert inbox[k := s][..m] == inbox[..m][k := s];
    } else {
      assert inbox[k := s][..m] == inbox[..m];
    }
  }

  lemma {:induction false} InstanceChanged(instances: seq<Instance>, i: nat, inst: Instance, n: nat)
    requires i < |instances|
    ensures WeighAll(instances[i := inst], n) == WeighAll(instances, n) - Weigh(instances[i], n) + Weigh(inst, n)
  {
    var m := |instances| - 1;
    if i < m {
      InstanceChanged(instances[..m], i, inst, n);
      assert instances[i := inst][..m] == instances[..m][i := inst];
    } else {
      assert instances[i := inst][..m] == instances[..m];
    }
  }

  lemma {:induction false} QueueingWeighs(instances: seq<Instance>, e: Event, n: nat)
    ensures WeighAll(QueueAll(instances, e), n) <= WeighAll(instances, n) + ROW_WEIGHT * |instances|
  {
    if instances != [] {
      var m := |instances| - 1;
      QueueingWeighs(instances[..m], e, n);
      var queued := Queue(instances[m], m, e);
      assert QueueAll(instances, e)[..m] == QueueAll(instances[..m], e);
      assert Weigh(queued, n) <= Weigh(instances[m], n) + ROW_WEIGHT by {
        var rows := instances[m].rows + [Row(e.fields, e.origin, 0)];
        assert rows[..|rows| - 1] == instances[m].rows;
      }
    }
  }

  // ---- Settling -----------------------------------------------------------------------------

  lemma DeliveryLightens(inst: Instance, k: nat, ticket: map<string, string>, updatedAt: int, stamp: int, now: int, n: nat)
    requires k < |inst.rows|
    ensures Weigh(Delivered(inst, k, ticket, updatedAt, stamp, now), n) < Weigh(inst, n)
  {
    hide Body, EchoOf, Written, WeighRows, WeighInbox;
    RowOut(inst.rows, k);
  }

  lemma InboxWeighs(inst: Instance, inbox: seq<Snapshot>, known: Option<int>, n: nat)
    ensures Weigh(inst.(inbox := inbox), n) == Weigh(inst, n) - WeighInbox(inst.inbox, n) + WeighInbox(inbox, n)
    ensures Weigh(inst.(inbox := inbox, lastKnown := known), n)
            == Weigh(inst, n) - WeighInbox(inst.inbox, n) + WeighInbox(inbox, n)
  {
    hide WeighRows, WeighInbox;
  }

  lemma RowsWeigh(inst: Instance, rows: seq<Row>, n: nat)
    ensures Weigh(inst.(rows := rows), n) == Weigh(inst, n) - WeighRows(inst.rows) + WeighRows(rows)
  {
    hide WeighRows, WeighInbox;
  }

  lemma RowFailureLightens(inst: Instance, k: nat, terminal: bool, n: nat)
    requires k < |inst.rows|
    ensures Weigh(RowFails(inst, k, terminal), n) < Weigh(inst, n)
  {
    hide WeighRows, Without, Weigh;
    var again := inst.rows[k].(attempts := inst.rows[k].attempts + 1);
    RowOut(inst.rows, k);
    RowChanged(inst.rows, k, again);
    RowsWeigh(inst, Without(inst.rows, k), n);
    RowsWeigh(inst, inst.rows[k := again], n);
  }

  lemma SnapshotFailureLightens(inst: Instance, k: nat, terminal: bool, n: nat)
    requires k < |inst.inbox|
    ensures Weigh(SnapshotFails(inst, k, terminal), n) < Weigh(inst, n)
  {
    hide WeighInbox, Without, Weigh, EventWeight;
    var again := inst.inbox[k].(attempts := inst.inbox[k].attempts + 1);
    SnapshotOut(inst.inbox, k, n);
    SnapshotChanged(inst.inbox, k, again, n);
    InboxWeighs(inst, Without(inst.inbox, k), None, n);
    InboxWeighs(inst, inst.inbox[k := again], None, n);
  }

  lemma PollLightens(inst: Instance, n: nat)
    requires Unpolled(inst)
    ensures Weigh(Polled(inst), n) < Weigh(inst, n)
  {
    assert Polled(inst).inbox[..|Polled(inst).inbox| - 1] == inst.inbox;
  }

  /** An inbox row weighs at least the event that applying it may cause. */
  lemma ApplyLightens(w: World, i: nat, k: nat, now: int)
    requires CanTake(w, Apply(i, k, now)) && EchoesKnown(w.instances[i])
    ensures Measure(ApplyTo(w, i, k, now)) < Measure(w)
  {
    hide Applied, WeighInbox, Without, EventWeight, WeighAll, Weigh, Changed;
    var inst, n := w.instances[i], |w.instances|;
    var s, v := inst.inbox[k], ApplyTo(w, i, k, now);
    SnapshotOut(inst.inbox, k, n);
    InboxWeighs(inst, Without(inst.inbox, k), Some(s.stamp), n);
    InstanceChanged(w.instances, i, v.instances[i], n);
    assert s.ours ==> Recognised(inst, s.record, s.stamp);
    hide Recognised;
    assert Weigh(v.instances[i], n) == Weigh(inst, n) - WeighSnapshot(s, n);
    assert |v.instances| == n && |v.outbox| <= |w.outbox| + if s.ours then 0 else 1;
  }

  /** Every automatic step that keeps the echoes known brings the sync nearer to rest. */
  lemma StepFalls(w: World, step: Step)
    requires AllEchoesKnown(w) && CanTake(w, step) && Automatic(step)
    ensures Measure(Next(w, step)) < Measure(w)
  {
    hide Delivered, RowFails, SnapshotFails, Queue, WeighAll, Weigh, AllEchoesKnown;
    var v, n := Next(w, step), |w.instances|;
    match step
    case Dispatch =>
      QueueingWeighs(w.instances, w.outbox[0], n);
      assert |v.outbox| == |w.outbox| - 1;
    case Deliver(i, k, stamp, now) =>
      DeliveryLightens(w.instances[i], k, w.ticket, w.updatedAt, stamp, now, n);
      InstanceChanged(w.instances, i, v.instances[i], n);
    case DeliverFails(i, k, terminal) =>
      RowFailureLightens(w.instances[i], k, terminal, n);
      InstanceChanged(w.instances, i, v.instances[i], n);
    case Poll(i) =>
      PollLightens(w.instances[i], n);
      InstanceChanged(w.instances, i, v.instances[i], n);
    case Apply(i, k, now) =>
      assert EchoesKnown(w.instances[i]) by { KnownThere(w, i); }
      ApplyLightens(w, i, k, now);
    case ApplyFails(i, k, terminal) =>
      SnapshotFailureLightens(w.instances[i], k, terminal, n);
      InstanceChanged(w.instances, i, v.instances[i], n);
    case _ =>
  }

  lemma KnownThere(w: World, i: nat)
    requires AllEchoesKnown(w) && i < |w.instances|
    ensures EchoesKnown(w.instances[i])
  {
  }

  // ---- Runs ------------------------------------------------------------------------------------

  predicate CanRun(w: World, steps: seq<Step>)
    decreases |steps|
  {
    steps != [] ==> CanTake(w, steps[0]) && CanRun(Next(w, steps[0]), steps[1..])
  }

  function After(w: World, steps: seq<Step>): World
    requires CanRun(w, steps)
    decreases |steps|
  {
    if steps == [] then w else After(Next(w, steps[0]), steps[1..])
  }

  predicate OrderlyRun(w: World, steps: seq<Step>)
    requires CanRun(w, steps)
    decreases |steps|
  {
    steps != [] ==> Orderly(w, steps[0]) && OrderlyRun(Next(w, steps[0]), steps[1..])
  }

  lemma {:induction false} RunsJoin(w: World, a: seq<Step>, b: seq<Step>)
    requires CanRun(w, a) && CanRun(After(w, a), b)
    ensures CanRun(w, a + b) && After(w, a + b) == After(After(w, a), b)
    decreases |a|
  {
    hide CanTake, Next;
    if a == [] {
      assert a + b == b;
    } else {
      assert (a + b)[1..] == a[1..] + b;
      RunsJoin(Next(w, a[0]), a[1..], b);
    }
  }

  predicate AllAutomatic(steps: seq<Step>) {
    forall i :: 0 <= i < |steps| ==> Automatic(steps[i])
  }

  lemma {:induction false} RunsKeepEchoes(w: World, steps: seq<Step>)
    requires AllEchoesKnown(w) && CanRun(w, steps) && OrderlyRun(w, steps)
    ensures AllEchoesKnown(After(w, steps))
    decreases |steps|
  {
    hide AllEchoesKnown, Orderly, Next, CanTake;
    if steps != [] {
      EchoesKeptExactlyWhen(w, steps[0]);
      RunsKeepEchoes(Next(w, steps[0]), steps[1..]);
    }
  }

  lemma {:induction false} AutomaticRunsEnd(w: World, steps: seq<Step>)
    requires AllEchoesKnown(w) && CanRun(w, steps) && OrderlyRun(w, steps) && AllAutomatic(steps)
    ensures |steps| + Measure(After(w, steps)) <= Measure(w)
    decreases |steps|
  {
    hide AllEchoesKnown, Orderly, Next, CanTake, Measure;
    if steps != [] {
      EchoesKeptExactlyWhen(w, steps[0]);
      StepFalls(w, steps[0]);
      assert AllAutomatic(steps[1..]);
      AutomaticRunsEnd(Next(w, steps[0]), steps[1..]);
    }
  }

  /** Whatever was edited on either side before, the steps that follow the last edit are no more than the measure. */
  lemma SettlesAfterLastEdit(w: World, past: seq<Step>, rest: seq<Step>)
    requires AllEchoesKnown(w) && CanRun(w, past) && OrderlyRun(w, past)
    requires CanRun(After(w, past), rest) && OrderlyRun(After(w, past), rest) && AllAutomatic(rest)
    ensures |rest| <= Measure(After(w, past))
  {
    RunsKeepEchoes(w, past);
    AutomaticRunsEnd(After(w, past), rest);
  }

  /** Nothing is pending where the connector may act. */
  predicate AtRest(w: World) {
    && w.outbox == []
    && forall i :: 0 <= i < |w.instances| ==> Resting(w.instances[i])
  }

  predicate Resting(inst: Instance) {
    && (SendsOut(inst) ==> inst.rows == [])
    && (Receives(inst) ==> inst.inbox == [])
    && (inst.linked ==> !Unpolled(inst))
  }

  ghost predicate Stuck(w: World) {
    forall step :: CanTake(w, step) && Automatic(step) ==> !Orderly(w, step)
  }

  /** Keeping to orderly steps never leaves work undone: they run out exactly at rest. */
  lemma StuckExactlyAtRest(w: World)
    ensures Stuck(w) <==> AtRest(w)
  {
    hide Orderly, Body, Recognised;
    if Stuck(w) {
      assert w.outbox == [] by {
        if w.outbox != [] { Waiting(w, Dispatch); }
      }
      forall i | 0 <= i < |w.instances| ensures Resting(w.instances[i]) { StuckInstanceRests(w, i); }
    } else {
      var step :| CanTake(w, step) && Automatic(step) && Orderly(w, step);
      assert !AtRest(w);
    }
  }

  lemma Waiting(w: World, step: Step)
    requires CanTake(w, step) && !step.Deliver?
    ensures Orderly(w, step)
  {
  }

  lemma StuckInstanceRests(w: World, i: nat)
    requires Stuck(w) && i < |w.instances|
    ensures Resting(w.instances[i])
  {
    var inst := w.instances[i];
    if inst.linked && Unpolled(inst) {
      Waiting(w, Poll(i));
      assert CanTake(w, Poll(i)) && Automatic(Poll(i));
    } else if Receives(inst) && inst.inbox != [] {
      Waiting(w, Apply(i, 0, 0));
      assert CanTake(w, Apply(i, 0, 0)) && Automatic(Apply(i, 0, 0));
    } else if SendsOut(inst) && inst.rows != [] {
      var step := Deliver(i, 0, 0, 0);
      assert CanTake(w, step) && Automatic(step);
      assert Orderly(w, step) by { assert inst.inbox == []; }
    }
  }

  lemma FourSteps(w: World, a: Step, b: Step, c: Step, d: Step)
    requires CanTake(w, a) && CanTake(Next(w, a), b) && CanTake(Next(Next(w, a), b), c)
    requires CanTake(Next(Next(Next(w, a), b), c), d)
    ensures CanRun(w, [a, b, c, d])
    ensures After(w, [a, b, c, d]) == Next(Next(Next(Next(w, a), b), c), d)
  {
    hide CanTake, Next;
    assert [a, b, c, d][1..] == [b, c, d] && [b, c, d][1..] == [c, d] && [c, d][1..] == [d] && [d][1..] == [];
    var z := Next(Next(Next(Next(w, a), b), c), d);
    assert CanRun(z, []) && After(z, []) == z;
    var y := Next(Next(Next(w, a), b), c);
    assert CanRun(y, [d]) && After(y, [d]) == z;
    var x := Next(Next(w, a), b);
    assert CanRun(x, [c, d]) && After(x, [c, d]) == z;
    assert CanRun(Next(w, a), [b, c, d]) && After(Next(w, a), [b, c, d]) == z;
  }

  lemma TwoSteps(w: World, a: Step, b: Step)
    requires CanTake(w, a) && CanTake(Next(w, a), b)
    ensures CanRun(w, [a, b]) && After(w, [a, b]) == Next(Next(w, a), b)
  {
    hide CanTake, Next;
    assert [a, b][1..] == [b] && [b][1..] == [];
    var z := Next(Next(w, a), b);
    assert CanRun(z, []) && After(z, []) == z;
    assert CanRun(Next(w, a), [b]) && After(Next(w, a), [b]) == z;
  }
}
