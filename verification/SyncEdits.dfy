/** What becomes of one change in the sync: our own write, a client's edit, a change that was applied. */
module SyncEdits {
  import opened Wrappers
  import opened SyncMaps
  import opened SyncRules
  import opened SyncProtocol
  import opened SyncTheorems

  // ---- Our own writes ------------------------------------------------------------------

  /** Applying a read of our own write only takes it off the inbox. */
  lemma OwnWriteIsSkipped(w: World, i: nat, k: nat, now: int)
    requires AllEchoesKnown(w) && CanTake(w, Apply(i, k, now)) && w.instances[i].inbox[k].ours
    ensures Next(w, Apply(i, k, now))
            == w.(instances := w.instances[i := w.instances[i].(inbox := Without(w.instances[i].inbox, k))])
  {
    KnownThere(w, i);
  }

  // ---- Changes that were applied -----------------------------------------------------------

  /** None of the rows stems from the instance that they wait for. */
  predicate ForeignTo(inst: Instance, i: nat) {
    forall k :: 0 <= k < |inst.rows| ==> inst.rows[k].origin != Sync(i)
  }

  lemma FewerForeign(inst: Instance, k: nat, i: nat)
    requires ForeignTo(inst, i) && k < |inst.rows|
    ensures ForeignTo(inst.(rows := Without(inst.rows, k)), i)
  {
    WithoutKeeps(inst.rows, k);
    hide Without;
  }

  lemma RowsAlone(a: Instance, b: Instance, i: nat)
    requires a.rows == b.rows
    ensures ForeignTo(a, i) <==> ForeignTo(b, i)
  {
  }

  lemma RetriedForeign(inst: Instance, k: nat, terminal: bool, i: nat)
    requires ForeignTo(inst, i) && k < |inst.rows|
    ensures ForeignTo(RowFails(inst, k, terminal), i)
  {
    FewerForeign(inst, k, i);
    hide Without;
  }

  lemma QueuedForeign(inst: Instance, i: nat, e: Event)
    requires ForeignTo(inst, i)
    ensures ForeignTo(Queue(inst, i, e), i)
  {
  }

  lemma StepKeepsForeign(w: World, step: Step, i: nat)
    requires CanTake(w, step) && i < |w.instances| && ForeignTo(w.instances[i], i)
    ensures |Next(w, step).instances| == |w.instances| && ForeignTo(Next(w, step).instances[i], i)
  {
    hide Body, Written, EchoOf, Recognised, Applied, Changed, ForeignTo, RowFails, Queue, SnapshotFails, Polled, Without;
    var inst := w.instances[i];
    match step
    case Dispatch =>
      QueuePlaces(w.instances, w.outbox[0], i);
      QueuedForeign(inst, i, w.outbox[0]);
    case Deliver(j, k, _, _) =>
      if j == i {
        FewerForeign(inst, k, i);
        RowsAlone(Next(w, step).instances[i], inst.(rows := Without(inst.rows, k)), i);
      }
    case DeliverFails(j, k, terminal) => if j == i { RetriedForeign(inst, k, terminal, i); }
    case Edit(_, _) =>
    case ClientEdit(_, _, _) => RowsAlone(Next(w, step).instances[i], inst, i);
    case Poll(_) => PollRows(inst); RowsAlone(Next(w, step).instances[i], inst, i);
    case Apply(_, _, _) => RowsAlone(Next(w, step).instances[i], inst, i);
    case ApplyFails(j, k, terminal) =>
      if j == i { FailureRows(inst, k, terminal); }
      RowsAlone(Next(w, step).instances[i], inst, i);
  }

  lemma PollRows(inst: Instance)
    ensures Polled(inst).rows == inst.rows
  {
  }

  lemma FailureRows(inst: Instance, k: nat, terminal: bool)
    requires k < |inst.inbox|
    ensures SnapshotFails(inst, k, terminal).rows == inst.rows
  {
  }

  /** Whatever happens, a change is never queued for the instance whose record brought it in. */
  lemma {:induction false} NeverSentBack(w: World, steps: seq<Step>, i: nat)
    requires CanRun(w, steps) && i < |w.instances| && ForeignTo(w.instances[i], i)
    ensures |After(w, steps).instances| == |w.instances| && ForeignTo(After(w, steps).instances[i], i)
    decreases |steps|
  {
    hide Next, CanTake, ForeignTo;
    if steps != [] {
      StepKeepsForeign(w, steps[0], i);
      NeverSentBack(Next(w, steps[0]), steps[1..], i);
    }
  }

  // ---- A client's edit -------------------------------------------------------------------------

  /**
   * Where an edit of a record is: still on it, written over before it was polled, in inbox row
   * `k`, settled, or gone because the client edited again or the row ended in the dead letters.
   * `mixed` tells that our write came before the poll, `alike` that the edit was stamped within
   * the tolerance of our last write and reads the same in the outbound fields, and `offered` that
   * its fields were put to the per-field rules.
   */
  datatype Fate =
    | OnRecord
    | WrittenOver
    | Waiting(k: nat, mixed: bool)
    | Settled(mixed: bool, alike: bool, offered: bool)
    | EditedAgain
    | DeadLetter

  predicate Writes(w: World, step: Step)
    requires CanTake(w, step)
  {
    && step.Deliver?
    && Body(w.instances[step.i], w.instances[step.i].rows[step.k], w.ticket, w.updatedAt) != map[]
  }

  /** An inbox row is taken off by failing. */
  predicate GivesUp(w: World, step: Step)
    requires CanTake(w, step)
  {
    step.ApplyFails? && (step.terminal || w.instances[step.i].inbox[step.k].attempts + 1 >= MAX_INBOX_ATTEMPTS)
  }

  /** The rules see the fields of an inbox row that is not taken for an echo. */
  predicate Offers(w: World, i: nat, k: nat)
    requires i < |w.instances| && k < |w.instances[i].inbox|
  {
    !Recognised(w.instances[i], w.instances[i].inbox[k].record, w.instances[i].inbox[k].stamp)
  }

  function FateNext(f: Fate, w: World, i: nat, record: Record, stamp: int, step: Step): Fate
    requires i < |w.instances| && CanTake(w, step)
    requires f.Waiting? ==> f.k < |w.instances[i].inbox|
  {
    match f
    case OnRecord =>
      if step.ClientEdit? && step.i == i then EditedAgain
      else if step.Deliver? && step.i == i && Writes(w, step) then WrittenOver
      else if step.Poll? && step.i == i then Waiting(|w.instances[i].inbox|, false)
      else f
    case WrittenOver =>
      if step.ClientEdit? && step.i == i then EditedAgain
      else if step.Poll? && step.i == i then Waiting(|w.instances[i].inbox|, true)
      else f
    case Waiting(k, mixed) =>
      if step.Apply? && step.i == i then
        if step.k == k then Settled(mixed, Recognised(w.instances[i], record, stamp), Offers(w, i, k))
        else if step.k < k then Waiting(k - 1, mixed)
        else f
      else if step.ApplyFails? && step.i == i && GivesUp(w, step) then
        if step.k == k then DeadLetter else if step.k < k then Waiting(k - 1, mixed) else f
      else f
    case _ => f
  }

  /** What the world holds of an edit that has this fate. */
  predicate Tells(f: Fate, inst: Instance, record: Record, stamp: int) {
    match f
    case OnRecord => inst.record == record && inst.stamp == stamp && !inst.ours
    case WrittenOver => inst.ours
    case Waiting(k, mixed) =>
      && k < |inst.inbox| && inst.inbox[k].ours == mixed
      && (!mixed ==> inst.inbox[k].record == record && inst.inbox[k].stamp == stamp)
    case Settled(mixed, alike, offered) => offered <==> !mixed && !alike
    case _ => true
  }

  lemma OtherInstance(w: World, i: nat, step: Step)
    requires i < |w.instances| && CanTake(w, step)
    requires step.Edit? || step.Dispatch? || (!step.Edit? && !step.Dispatch? && step.i != i)
    ensures var inst, after := w.instances[i], Next(w, step).instances;
            && |after| == |w.instances|
            && after[i].inbox == inst.inbox && after[i].record == inst.record && after[i].stamp == inst.stamp
            && after[i].ours == inst.ours
  {
    hide Delivered, RowFails, SnapshotFails, Applied, Recognised, Changed, Polled;
    if step.Dispatch? { QueuePlaces(w.instances, w.outbox[0], i); }
  }

  lemma FateTells(f: Fate, w: World, i: nat, record: Record, stamp: int, step: Step)
    requires i < |w.instances| && CanTake(w, step) && EchoesKnown(w.instances[i])
    requires Tells(f, w.instances[i], record, stamp)
    ensures |Next(w, step).instances| == |w.instances|
    ensures Tells(FateNext(f, w, i, record, stamp, step), Next(w, step).instances[i], record, stamp)
  {
    hide Body, Written, EchoOf, Applied, Changed, Recognised;
    if step.Edit? || step.Dispatch? || step.i != i {
      OtherInstance(w, i, step);
      hide Next;
    } else {
      OwnInstance(f, w, i, record, stamp, step);
    }
  }

  lemma OwnInstance(f: Fate, w: World, i: nat, record: Record, stamp: int, step: Step)
    requires i < |w.instances| && CanTake(w, step) && EchoesKnown(w.instances[i])
    requires !step.Edit? && !step.Dispatch? && step.i == i && Tells(f, w.instances[i], record, stamp)
    ensures |Next(w, step).instances| == |w.instances|
    ensures Tells(FateNext(f, w, i, record, stamp, step), Next(w, step).instances[i], record, stamp)
  {
    if step.Apply? {
      ApplyTells(f, w, i, record, stamp, step.k, step.now);
    } else if step.ApplyFails? {
      FailureTells(f, w, i, record, stamp, step.k, step.terminal);
    } else {
      hide Body, Written, EchoOf, Recognised, EchoesKnown;
      if step.Deliver? { DeliveredKeeps(w.instances[i], step.k, w.ticket, w.updatedAt, step.stamp, step.now); }
      hide Delivered;
    }
  }

  lemma DeliveredKeeps(inst: Instance, k: nat, ticket: map<string, string>, updatedAt: int, stamp: int, now: int)
    requires k < |inst.rows|
    ensures var after := Delivered(inst, k, ticket, updatedAt, stamp, now);
            && after.inbox == inst.inbox
            && (Body(inst, inst.rows[k], ticket, updatedAt) == map[] ==>
                  after.record == inst.record && after.stamp == inst.stamp && after.ours == inst.ours)
            && (Body(inst, inst.rows[k], ticket, updatedAt) != map[] ==> after.ours)
  {
    hide Body, Written, EchoOf;
  }

  lemma ApplyKeeps(w: World, i: nat, k: nat, now: int)
    requires CanTake(w, Apply(i, k, now))
    ensures var inst, after := w.instances[i], ApplyTo(w, i, k, now).instances;
            && |after| == |w.instances| && after[i].inbox == Without(inst.inbox, k) && after[i].record == inst.record
            && after[i].stamp == inst.stamp && after[i].ours == inst.ours
  {
    hide Applied, Changed, Recognised, Without;
  }

  lemma ApplyTells(f: Fate, w: World, i: nat, record: Record, stamp: int, k: nat, now: int)
    requires CanTake(w, Apply(i, k, now)) && EchoesKnown(w.instances[i]) && Tells(f, w.instances[i], record, stamp)
    ensures |ApplyTo(w, i, k, now).instances| == |w.instances|
    ensures Tells(FateNext(f, w, i, record, stamp, Apply(i, k, now)), ApplyTo(w, i, k, now).instances[i], record, stamp)
  {
    var inst := w.instances[i];
    ApplyKeeps(w, i, k, now);
    WithoutKeeps(inst.inbox, k);
    assert f.Waiting? && f.k == k && f.mixed ==> Recognised(inst, inst.inbox[k].record, inst.inbox[k].stamp);
    hide EchoesKnown, Without, ApplyTo, Recognised;
  }

  lemma FailureTells(f: Fate, w: World, i: nat, record: Record, stamp: int, k: nat, terminal: bool)
    requires CanTake(w, ApplyFails(i, k, terminal)) && Tells(f, w.instances[i], record, stamp)
    ensures Tells(FateNext(f, w, i, record, stamp, ApplyFails(i, k, terminal)), SnapshotFails(w.instances[i], k, terminal), record, stamp)
  {
    WithoutKeeps(w.instances[i].inbox, k);
    hide Without;
  }

  function FateAfter(f: Fate, w: World, i: nat, record: Record, stamp: int, steps: seq<Step>): Fate
    requires CanRun(w, steps) && i < |w.instances| && AllEchoesKnown(w) && OrderlyRun(w, steps)
    requires Tells(f, w.instances[i], record, stamp)
    decreases |steps|
  {
    if steps == [] then f
    else
      FateTells(f, w, i, record, stamp, steps[0]);
      EchoesKeptExactlyWhen(w, steps[0]);
      FateAfter(FateNext(f, w, i, record, stamp, steps[0]), Next(w, steps[0]), i, record, stamp, steps[1..])
  }

  /**
   * In every orderly run, an edit whose inbox row settles was offered to the rules exactly when it
   * was polled before our next write to the record and did not look like our last one.
   */
  lemma {:induction false} EditOfferedExactlyWhen(
    f: Fate, w: World, i: nat, record: Record, stamp: int, steps: seq<Step>)
    requires CanRun(w, steps) && i < |w.instances| && AllEchoesKnown(w) && OrderlyRun(w, steps)
    requires Tells(f, w.instances[i], record, stamp)
    ensures var end := FateAfter(f, w, i, record, stamp, steps);
            end.Settled? ==> (end.offered <==> !end.mixed && !end.alike)
    decreases |steps|
  {
    if steps != [] {
      FateTells(f, w, i, record, stamp, steps[0]);
      EchoesKeptExactlyWhen(w, steps[0]);
      hide Tells, FateNext, Next, CanTake, Orderly, AllEchoesKnown;
      EditOfferedExactlyWhen(FateNext(f, w, i, record, stamp, steps[0]), Next(w, steps[0]), i, record, stamp, steps[1..]);
    }
  }

  /** From the edit on. */
  lemma EditReachesTheRules(w: World, i: nat, record: Record, stamp: int, steps: seq<Step>)
    requires AllEchoesKnown(w) && CanTake(w, ClientEdit(i, record, stamp))
    requires var e := Next(w, ClientEdit(i, record, stamp)); CanRun(e, steps) && OrderlyRun(e, steps)
    ensures var e := Next(w, ClientEdit(i, record, stamp));
            && AllEchoesKnown(e) && Tells(OnRecord, e.instances[i], record, stamp)
            && var end := FateAfter(OnRecord, e, i, record, stamp, steps);
               end.Settled? ==> (end.offered <==> !end.mixed && !end.alike)
  {
    EchoesKeptExactlyWhen(w, ClientEdit(i, record, stamp));
    var e := Next(w, ClientEdit(i, record, stamp));
    assert Tells(OnRecord, e.instances[i], record, stamp);
    hide Tells, Next, CanTake, Orderly, AllEchoesKnown;
    EditOfferedExactlyWhen(OnRecord, e, i, record, stamp, steps);
  }

  // ---- The two ways to lose an edit -------------------------------------------------------------

  /** A read that looks like our last write leaves nothing but the poll. */
  lemma AlikeIsDropped(w: World, i: nat, later: int)
    requires CanTake(w, Poll(i)) && Receives(w.instances[i])
    requires Recognised(w.instances[i], w.instances[i].record, w.instances[i].stamp)
    ensures var m := |w.instances[i].inbox|;
            && CanTake(Next(w, Poll(i)), Apply(i, m, later))
            && Next(Next(w, Poll(i)), Apply(i, m, later))
               == w.(instances := w.instances[i := w.instances[i].(polledStamp := Some(w.instances[i].stamp))])
  {
    hide Applied, EchoOf;
    var inst, m := w.instances[i], |w.instances[i].inbox|;
    var c := Next(w, Poll(i));
    var polled := c.instances[i];
    assert Recognised(polled, inst.record, inst.stamp);
    assert Without(polled.inbox, m) == inst.inbox;
    assert polled.(inbox := inst.inbox) == inst.(polledStamp := Some(inst.stamp));
    assert Next(c, Apply(i, m, later)).instances == w.instances[i := inst.(polledStamp := Some(inst.stamp))];
  }

  /**
   * A client's edit that we write over before polling it never reaches the ticket: the record
   * then reads as after our write, and the whole inbox row is skipped as an echo.
   */
  lemma UnpolledEditIsLost(w: World, i: nat, record: Record, edited: int, k: nat, stamp: int, now: int, later: int)
    requires CanTake(w, ClientEdit(i, record, edited))
    requires var e := Next(w, ClientEdit(i, record, edited));
             && CanTake(e, Deliver(i, k, stamp, now)) && Writes(e, Deliver(i, k, stamp, now))
             && InTolerance(e.instances[i], stamp, now) && Unpolled(e.instances[i].(stamp := stamp))
    ensures var steps := [ClientEdit(i, record, edited), Deliver(i, k, stamp, now), Poll(i),
                          Apply(i, |w.instances[i].inbox|, later)];
            && CanRun(w, steps)
            && var v := After(w, steps);
               && v.ticket == w.ticket && v.outbox == w.outbox && |v.instances| == |w.instances|
               && v.instances[i].inbox == w.instances[i].inbox && !Unpolled(v.instances[i])
  {
    var e := Next(w, ClientEdit(i, record, edited));
    assert e.instances[i].inbox == w.instances[i].inbox;
    WriteIsAlike(e, i, k, stamp, now);
    var b := Next(e, Deliver(i, k, stamp, now));
    AlikeIsDropped(b, i, later);
    hide Next, CanTake;
    FourSteps(w, ClientEdit(i, record, edited), Deliver(i, k, stamp, now), Poll(i), Apply(i, |w.instances[i].inbox|, later));
  }

  lemma WriteIsAlike(w: World, i: nat, k: nat, stamp: int, now: int)
    requires CanTake(w, Deliver(i, k, stamp, now)) && Writes(w, Deliver(i, k, stamp, now))
    requires InTolerance(w.instances[i], stamp, now) && Unpolled(w.instances[i].(stamp := stamp))
    ensures var b := Next(w, Deliver(i, k, stamp, now));
            && b.ticket == w.ticket && b.outbox == w.outbox && |b.instances| == |w.instances|
            && b.instances[i].inbox == w.instances[i].inbox && CanTake(b, Poll(i)) && Receives(b.instances[i])
            && Recognised(b.instances[i], b.instances[i].record, b.instances[i].stamp) && LinkKnows(b.instances[i])
  {
    hide Body, EchoOf, Written;
  }

  /** An edit of a record that leaves what we hash alone, stamped soon after our last write, is dropped whole though it was polled. */
  lemma InboundOnlyEditIsLost(w: World, i: nat, record: Record, stamp: int, later: int)
    requires CanTake(w, ClientEdit(i, record, stamp)) && Receives(w.instances[i])
    requires Unpolled(w.instances[i].(stamp := stamp)) && Recognised(w.instances[i], record, stamp)
    ensures var e := Next(w, ClientEdit(i, record, stamp));
            var m := |w.instances[i].inbox|;
            && CanTake(e, Poll(i)) && CanTake(Next(e, Poll(i)), Apply(i, m, later))
            && Next(Next(e, Poll(i)), Apply(i, m, later)).ticket == w.ticket
            && Next(Next(e, Poll(i)), Apply(i, m, later)).outbox == w.outbox
            && Next(Next(e, Poll(i)), Apply(i, m, later)).instances[i].inbox == w.instances[i].inbox
  {
    var e := Next(w, ClientEdit(i, record, stamp));
    assert Recognised(e.instances[i], record, stamp);
    hide Recognised;
    AlikeIsDropped(e, i, later);
  }

  predicate Reads(e: Entry, field: string) {
    !e.direction.Out? && (e.external == field || e.transform.Template?)
  }

  /** No entry that reads the field, or is a template, gives a ticket field that is hashed. */
  predicate NotHashed(entries: seq<Entry>, field: string) {
    forall e, o :: e in entries && o in entries && Reads(e, field) && !o.direction.In? ==> e.xms != o.xms
  }

  /** Such an edit is any that changes a field the map only takes in. */
  lemma InboundOnlyReadsAlike(entries: seq<Entry>, record: Record, field: string, raw: Raw)
    requires NotHashed(entries, field)
    ensures EchoOf(entries, record[field := raw]) == EchoOf(entries, record)
  {
    forall o | o in entries && !o.direction.In?
      ensures Read(Patch(entries, record[field := raw]), o.xms) == Read(Patch(entries, record), o.xms)
    {
      PatchIgnores(entries, record, field, raw, o.xms);
    }
  }

  lemma {:induction false} PatchIgnores(entries: seq<Entry>, record: Record, field: string, raw: Raw, x: string)
    requires forall e :: e in entries && Reads(e, field) ==> e.xms != x
    ensures var p, q := Patch(entries, record), Patch(entries, record[field := raw]);
            (x in p <==> x in q) && (x in p ==> p[x] == q[x])
  {
    if entries != [] {
      var n := |entries| - 1;
      PatchIgnores(entries[..n], record, field, raw, x);
      var e := entries[n];
      assert e in entries;
      if !e.direction.Out? && e.xms == x {
        assert Pick(record, e.external) == Pick(record[field := raw], e.external);
        assert ApplyTransform(Pick(record, e.external), e.transform, record)
            == ApplyTransform(Pick(record, e.external), e.transform, record[field := raw]);
      }
    }
  }

  // ---- Newest after a write --------------------------------------------------------------------

  /** The link takes the record's own stamp for the last it knows of, as it does after a write. */
  predicate LinkKnows(inst: Instance) { inst.lastKnown == Some(inst.stamp) }

  /** The client leaves the record alone and every inbox row applied is one of our own. */
  predicate Untouched(w: World, i: nat, steps: seq<Step>)
    requires CanRun(w, steps) && i < |w.instances|
    decreases |steps|
  {
    steps != [] ==>
      && !(steps[0].ClientEdit? && steps[0].i == i)
      && (steps[0].Apply? && steps[0].i == i ==> !Offers(w, i, steps[0].k))
      && |Next(w, steps[0]).instances| == |w.instances|
      && Untouched(Next(w, steps[0]), i, steps[1..])
  }

  lemma StepKeepsLink(w: World, step: Step, i: nat)
    requires CanTake(w, step) && i < |w.instances| && LinkKnows(w.instances[i])
    requires !(step.ClientEdit? && step.i == i) && (step.Apply? && step.i == i ==> !Offers(w, i, step.k))
    ensures |Next(w, step).instances| == |w.instances| && LinkKnows(Next(w, step).instances[i])
  {
    hide Body, Written, EchoOf, Recognised, Applied, Changed;
    if step.Dispatch? { QueuePlaces(w.instances, w.outbox[0], i); }
  }

  /**
   * From our write on, until the client edits again or another of its changes is applied, a field
   * under newest is ours to overwrite, however much newer the client's value is.
   */
  lemma {:induction false} NewestForgets(w: World, i: nat, steps: seq<Step>, xms: Value, external: Value, xmsAt: int)
    requires CanRun(w, steps) && i < |w.instances| && LinkKnows(w.instances[i]) && Untouched(w, i, steps)
    requires Normalise(xms) != Normalise(external)
    ensures |After(w, steps).instances| == |w.instances|
    ensures var inst := After(w, steps).instances[i];
            DecideOutbound(Newest, ExternalChangedSince(inst.lastKnown, inst.stamp, inst.tolerance),
                           xms, external, xmsAt, inst.stamp).go
    decreases |steps|
  {
    hide Next, CanTake;
    if steps != [] {
      StepKeepsLink(w, steps[0], i);
      NewestForgets(Next(w, steps[0]), i, steps[1..], xms, external, xmsAt);
    }
  }
}
