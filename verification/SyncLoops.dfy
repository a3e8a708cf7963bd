/**
 * Where writes may overtake echoes the sync need not settle: two instances that merge one field
 * carry three values round for ever, without another edit.
 *
 * One instance has two reads of our writes in its inbox, the older of a value since overwritten;
 * the other has one. The older read is not recognised, is applied, and is written to the other
 * instance, whose own read is thereby overtaken in turn. Each half lap turns a stale read of
 * one side into a fresh read of the other, so after a lap the values have moved on by one place.
 */
module SyncLoops {
  import opened Wrappers
  import opened Text
  import opened SyncMaps
  import opened SyncRules
  import opened SyncProtocol
  import opened SyncTheorems

  const CATEGORY := Entry("u_category", "category", Both, NoTransform, Some(Merge))

  function Says(v: string): Record { map["u_category" := Plain(Text(v))] }

  function Hash(v: string): Echo { map["category" := v] }

  function Ticket(v: string): map<string, string> { map["category" := v] }

  /** An instance that sends and receives the one field. */
  predicate Merging(inst: Instance) {
    && inst.entries == [CATEGORY] && inst.overrides == map[]
    && inst.mode.Bidirectional? && inst.armed && UPDATED in inst.subscribedEvents && inst.linked
  }

  predicate TwoMerging(w: World) {
    && w.open && |w.instances| == 2 && Merging(w.instances[0]) && Merging(w.instances[1])
  }

  // ---- One step -----------------------------------------------------------------------------

  lemma Reads(v: string)
    ensures Patch([CATEGORY], Says(v)) == map["category" := Text(v)]
    ensures EchoOf([CATEGORY], Says(v)) == Hash(v)
  {
    OneEntry(CATEGORY, map[], None, Says(v));
    var echo := EchoOf([CATEGORY], Says(v));
    assert CATEGORY in [CATEGORY] && !CATEGORY.direction.In?;
    assert echo == Hash(v);
  }

  lemma Writes(inst: Instance, row: Row, v: string, q: string, updatedAt: int)
    requires Merging(inst) && inst.record == Says(q) && row.fields == {"category"}
    ensures Body(inst, row, Ticket(v), updatedAt) == if Trim(v) == Trim(q) then map[] else map["u_category" := v]
  {
    Reads(q);
    var allowed := set e | e in inst.entries && Travels(inst, e, Ticket(v), updatedAt, Asked(row)) :: e.xms;
    assert CATEGORY in inst.entries;
    assert Travels(inst, CATEGORY, Ticket(v), updatedAt, Asked(row)) <==> Trim(v) != Trim(q);
    assert "category" in allowed <==> Trim(v) != Trim(q);
    OneEntry(CATEGORY, Ticket(v), Some(allowed), map[]);
  }

  lemma Delivers(inst: Instance, k: nat, v: string, q: string, updatedAt: int, t: int)
    requires Merging(inst) && k < |inst.rows| && inst.record == Says(q) && inst.rows[k].fields == {"category"}
    ensures var settled := inst.(rows := Without(inst.rows, k));
            Delivered(inst, k, Ticket(v), updatedAt, t, t)
            == if Trim(v) == Trim(q) then settled
               else settled.(record := Says(v), stamp := t, ours := true,
                             lastOutboundAt := Some(t), lastHash := Some(Hash(v)), lastKnown := Some(t))
  {
    Writes(inst, inst.rows[k], v, q, updatedAt);
    assert inst.entries == [CATEGORY];
    hide Body, Trim, Without, Merging, Patch;
    assert Written(Says(q), map["u_category" := v]) == Says(v);
    Reads(v);
    assert Trim(v) != Trim(q) ==> map["u_category" := v] != map[] by { assert "u_category" in map["u_category" := v]; }
    hide EchoOf, Written, Says, Hash, Ticket;
  }

  lemma Arrived(inst: Instance, s: Snapshot, v: string, ticket: map<string, string>, updatedAt: int)
    requires Merging(inst) && s.record == Says(v) && |v| <= 50000
    ensures Applied(inst, s, ticket, updatedAt) == Ticket(v)
  {
    Reads(v);
    assert CATEGORY in inst.entries;
    assert Arrives(inst, CATEGORY, s, ticket, updatedAt);
  }

  lemma Replaced(u: string, v: string)
    requires u != v
    ensures Ticket(u) + Ticket(v) == Ticket(v) && Changed(Ticket(u), Ticket(v)) == {"category"}
  {
    var fields := set x | x in Ticket(v) && (x !in Ticket(u) || Ticket(u)[x] != Ticket(v)[x]);
    assert "category" in fields && fields == {"category"};
  }

  /** A read of a value that is no longer the last written is applied. */
  lemma StaleIsApplied(w: World, i: nat, v: string, u: string, t: int)
    requires TwoMerging(w) && i < 2 && w.instances[i].inbox != [] && w.instances[i].inbox[0].record == Says(v)
    requires w.ticket == Ticket(u) && u != v && |v| <= 50000
    requires w.instances[i].lastHash != Some(Hash(v))
    ensures CanTake(w, Apply(i, 0, t))
    ensures var inst := w.instances[i];
            Next(w, Apply(i, 0, t))
            == w.(ticket := Ticket(v), updatedAt := t, outbox := w.outbox + [Event(Sync(i), {"category"})],
                  instances := w.instances[i := inst.(inbox := Without(inst.inbox, 0), lastKnown := Some(inst.inbox[0].stamp))])
  {
    var inst := w.instances[i];
    Reads(v);
    assert !Recognised(inst, inst.inbox[0].record, inst.inbox[0].stamp);
    Arrived(inst, inst.inbox[0], v, w.ticket, w.updatedAt);
    assert "category" in Ticket(v);
    Replaced(u, v);
    hide Recognised, Applied, Changed, Ticket, Without;
  }

  // ---- States told apart by values alone ---------------------------------------------------

  /**
   * The value a record holds, those its inbox rows hold, how many rows wait, and whether the value
   * was written by us. No record has been polled with a stamp past `t`.
   */
  datatype Desc = Desc(holds: string, seen: seq<string>, waiting: nat, written: bool)

  predicate Fits(inst: Instance, d: Desc, t: int) {
    && Merging(inst) && inst.record == Says(d.holds)
    && |inst.inbox| == |d.seen| && (forall k :: 0 <= k < |d.seen| ==> inst.inbox[k].record == Says(d.seen[k]))
    && |inst.rows| == d.waiting && (forall k :: 0 <= k < d.waiting ==> inst.rows[k].fields == {"category"})
    && (d.written ==> inst.lastHash == Some(Hash(d.holds)))
    && (inst.polledStamp.Some? ==> inst.polledStamp.value <= t)
  }

  predicate Looks(w: World, v: string, d: seq<Desc>, t: int) {
    && w.open && w.ticket == Ticket(v) && w.outbox == [] && |w.instances| == 2 == |d|
    && Fits(w.instances[0], d[0], t) && Fits(w.instances[1], d[1], t)
  }

  lemma FitsLater(inst: Instance, d: Desc, t: int, later: int, known: Option<int>, o: Origin)
    requires Fits(inst, d, t) && t <= later
    ensures Fits(inst, d, later)
    ensures d.seen != [] ==>
              Fits(inst.(inbox := Without(inst.inbox, 0), lastKnown := known), d.(seen := d.seen[1..]), later)
    ensures Fits(inst.(rows := inst.rows + [Row({"category"}, o, 0)]), d.(waiting := d.waiting + 1), later)
  {
    hide Says, Hash;
  }

  lemma FitsWritten(inst: Instance, d: Desc, v: string, before: int, t: int)
    requires Fits(inst, d, before) && d.waiting > 0
    ensures var settled := inst.(rows := Without(inst.rows, 0));
            var less := d.(waiting := d.waiting - 1);
            var pushed := settled.(record := Says(v), stamp := t, ours := true,
                                   lastOutboundAt := Some(t), lastHash := Some(Hash(v)), lastKnown := Some(t));
            && Fits(settled, less, before)
            && Fits(pushed, less.(holds := v, written := true), before)
            && (before < t ==> Unpolled(pushed))
  {
    hide Says, Hash;
  }

  lemma FitsPolled(inst: Instance, d: Desc, before: int, t: int)
    requires Fits(inst, d, before) && inst.stamp == t && before <= t
    ensures Fits(Polled(inst), d.(seen := d.seen + [d.holds]), t)
  {
    hide Says, Hash;
  }

  /** Delivering the first row of an instance writes the ticket's value unless the record has it. */
  lemma Wrote(w: World, j: nat, v: string, d: seq<Desc>, before: int, t: int)
    requires Looks(w, v, d, before) && j < 2 && d[j].waiting > 0 && before < t
    ensures CanTake(w, Deliver(j, 0, t, t))
    ensures var less := d[j].(waiting := d[j].waiting - 1);
            var next := Next(w, Deliver(j, 0, t, t));
            && Looks(next, v, d[j := if Trim(v) == Trim(d[j].holds) then less else less.(holds := v, written := true)], before)
            && (Trim(v) != Trim(d[j].holds) ==> Unpolled(next.instances[j]) && next.instances[j].stamp == t)
  {
    hide Merging, Delivered, Says, Hash, Ticket, Trim, Without, Unpolled;
    var inst := w.instances[j];
    FitsWritten(inst, d[j], v, before, t);
    Delivers(inst, 0, v, d[j].holds, w.updatedAt, t);
    hide Fits;
    assert CanTake(w, Deliver(j, 0, t, t)) by { Sendable(w, j, v, d, before, t); }
  }

  lemma Sendable(w: World, j: nat, v: string, d: seq<Desc>, before: int, t: int)
    requires Looks(w, v, d, before) && j < 2 && d[j].waiting > 0
    ensures CanTake(w, Deliver(j, 0, t, t))
  {
    hide Says, Hash, Ticket;
  }

  lemma WroteAndPolled(w: World, j: nat, v: string, d: seq<Desc>, before: int, t: int)
    requires Looks(w, v, d, before) && j < 2 && d[j].waiting > 0 && Trim(v) != Trim(d[j].holds) && before < t
    ensures CanRun(w, [Deliver(j, 0, t, t), Poll(j)])
    ensures Looks(After(w, [Deliver(j, 0, t, t), Poll(j)]), v,
                  d[j := Desc(v, d[j].seen + [v], d[j].waiting - 1, true)], t)
  {
    hide Delivered, Says, Hash, Ticket, Trim, Without, Unpolled, Polled;
    Wrote(w, j, v, d, before, t);
    var a := Next(w, Deliver(j, 0, t, t));
    FitsPolled(a.instances[j], Desc(v, d[j].seen, d[j].waiting - 1, true), before, t);
    FitsLater(w.instances[1 - j], d[1 - j], before, t, None, User);
    TwoSteps(w, Deliver(j, 0, t, t), Poll(j));
    hide Fits, Merging;
  }

  /** A ticket change on the one field waits at each instance it is not from. */
  lemma Spreads(w: World, origin: Origin, i: nat)
    requires TwoMerging(w) && i < 2 && w.outbox == [Event(origin, {"category"})]
    ensures CanTake(w, Dispatch) && Next(w, Dispatch).outbox == []
    ensures |Next(w, Dispatch).instances| == 2
    ensures Next(w, Dispatch).instances[i]
            == if origin == Sync(i) then w.instances[i]
               else w.instances[i].(rows := w.instances[i].rows + [Row({"category"}, origin, 0)])
  {
    QueuePlaces(w.instances, w.outbox[0], i);
  }

  /** Someone edits the ticket and both instances are to hear of it. */
  lemma EditSpreads(w: World, v: string, u: string, d: seq<Desc>, before: int, t: int)
    requires Looks(w, u, d, before) && u != v
    ensures CanRun(w, [Edit(Ticket(v), t), Dispatch])
    ensures Looks(After(w, [Edit(Ticket(v), t), Dispatch]), v,
                  [d[0].(waiting := d[0].waiting + 1), d[1].(waiting := d[1].waiting + 1)], before)
  {
    Replaced(u, v);
    var a := Next(w, Edit(Ticket(v), t));
    hide Says, Hash, Ticket, Changed;
    assert a.outbox == [Event(User, {"category"})];
    Spreads(a, User, 0);
    Spreads(a, User, 1);
    FitsLater(w.instances[0], d[0], before, before, None, User);
    FitsLater(w.instances[1], d[1], before, before, None, User);
    TwoSteps(w, Edit(Ticket(v), t), Dispatch);
    hide Fits, Merging, Queue;
  }

  /** The oldest read of one instance, no longer the last written, is taken for a client's change. */
  lemma StaleSpreads(w: World, i: nat, u: string, d: seq<Desc>, before: int, t: int)
    requires Looks(w, u, d, before) && i < 2 && d[i].seen != [] && d[i].written
    requires d[i].seen[0] != d[i].holds && d[i].seen[0] != u && |d[i].seen[0]| <= 50000
    ensures CanRun(w, [Apply(i, 0, t), Dispatch])
    ensures Looks(After(w, [Apply(i, 0, t), Dispatch]), d[i].seen[0],
                  d[i := d[i].(seen := d[i].seen[1..])][1 - i := d[1 - i].(waiting := d[1 - i].waiting + 1)], before)
  {
    var v := d[i].seen[0];
    assert Hash(v)["category"] == v && Hash(d[i].holds)["category"] == d[i].holds;
    hide Says, Hash, Ticket, Next, CanTake, Merging, Without;
    StaleIsApplied(w, i, v, u, t);
    var a := Next(w, Apply(i, 0, t));
    assert a.outbox == [Event(Sync(i), {"category"})];
    Spreads(a, Sync(i), 0);
    Spreads(a, Sync(i), 1);
    FitsLater(w.instances[i], d[i], before, before, Some(w.instances[i].inbox[0].stamp), User);
    FitsLater(w.instances[1 - i], d[1 - i], before, before, None, Sync(i));
    TwoSteps(w, Apply(i, 0, t), Dispatch);
    hide Fits, Merging, Without;
  }

  // ---- Round and round ----------------------------------------------------------------------

  /** The first instance has a stale read of `x` and a fresh one of `y`; the second has a read of `z`. */
  predicate Turning(w: World, x: string, y: string, z: string, q: string, t: int) {
    Looks(w, y, [Desc(y, [x, y], 0, true), Desc(q, [z], 0, true)], t)
  }

  predicate Apart(x: string, y: string) { Trim(x) != Trim(y) && |x| <= 50000 && |y| <= 50000 }

  function Half(i: nat, t: int): seq<Step>
    requires i < 2
  {
    [Apply(i, 0, t), Dispatch] + [Deliver(1 - i, 0, t, t), Poll(1 - i)]
  }

  /** A stale read of one instance ends as a fresh read of the other. */
  lemma HalfALap(w: World, i: nat, u: string, d: seq<Desc>, before: int, t: int)
    requires Looks(w, u, d, before) && i < 2 && before < t && d[i].seen != [] && d[i].written && d[1 - i].waiting == 0
    requires d[i].seen[0] != d[i].holds && d[i].seen[0] != u && |d[i].seen[0]| <= 50000
    requires Trim(d[i].seen[0]) != Trim(d[1 - i].holds)
    ensures CanRun(w, Half(i, t))
    ensures var v := d[i].seen[0];
            Looks(After(w, Half(i, t)), v,
                  d[i := d[i].(seen := d[i].seen[1..])][1 - i := Desc(v, d[1 - i].seen + [v], 0, true)], t)
  {
    hide Looks, Trim, CanRun, After;
    TwoDescs(w, u, d, before);
    var v := d[i].seen[0];
    StaleSpreads(w, i, u, d, before, t);
    var mid := After(w, [Apply(i, 0, t), Dispatch]);
    var e := d[i := d[i].(seen := d[i].seen[1..])][1 - i := d[1 - i].(waiting := d[1 - i].waiting + 1)];
    WroteAndPolled(mid, 1 - i, v, e, before, t);
    RunsJoin(w, [Apply(i, 0, t), Dispatch], [Deliver(1 - i, 0, t, t), Poll(1 - i)]);
    assert e[1 - i := Desc(v, e[1 - i].seen + [v], e[1 - i].waiting - 1, true)]
        == d[i := d[i].(seen := d[i].seen[1..])][1 - i := Desc(v, d[1 - i].seen + [v], 0, true)];
  }

  lemma TwoDescs(w: World, u: string, d: seq<Desc>, t: int)
    requires Looks(w, u, d, t)
    ensures |d| == 2
  {
  }

  lemma ALap(w: World, x: string, y: string, z: string, q: string, before: int, t: int)
    requires Turning(w, x, y, z, q, before) && before < t
    requires Apart(x, y) && Apart(y, z) && Apart(x, z) && Trim(q) != Trim(x)
    ensures CanRun(w, Half(0, t) + Half(1, t + 1000))
    ensures Turning(After(w, Half(0, t) + Half(1, t + 1000)), y, z, x, x, t + 1000)
  {
    hide Looks, Trim, CanRun, After, Half;
    var d := [Desc(y, [x, y], 0, true), Desc(q, [z], 0, true)];
    HalfALap(w, 0, y, d, before, t);
    var half := After(w, Half(0, t));
    var e := [Desc(y, [y], 0, true), Desc(x, [z, x], 0, true)];
    assert [x, y][1..] == [y] && [z] + [x] == [z, x];
    assert d[0 := d[0].(seen := d[0].seen[1..])][1 := Desc(x, d[1].seen + [x], 0, true)] == e;
    HalfALap(half, 1, x, e, t, t + 1000);
    RunsJoin(w, Half(0, t), Half(1, t + 1000));
    var f := [Desc(z, [y, z], 0, true), Desc(x, [x], 0, true)];
    assert [z, x][1..] == [x] && [y] + [z] == [y, z];
    assert e[1 := e[1].(seen := e[1].seen[1..])][0 := Desc(z, e[0].seen + [z], 0, true)] == f;
  }

  /** Two writes a lap, a second apart. */
  function Laps(t: int, n: nat): (r: seq<Step>)
    ensures |r| == 8 * n && AllAutomatic(r)
    decreases n
  {
    if n == 0 then [] else Half(0, t) + Half(1, t + 1000) + Laps(t + 2000, n - 1)
  }

  lemma {:induction false} LapsRun(w: World, x: string, y: string, z: string, q: string, before: int, t: int, n: nat)
    requires Turning(w, x, y, z, q, before) && before < t
    requires Apart(x, y) && Apart(y, z) && Apart(x, z) && Trim(q) != Trim(x)
    ensures CanRun(w, Laps(t, n))
    decreases n
  {
    hide Trim, Turning, Half;
    if n > 0 {
      ALap(w, x, y, z, q, before, t);
      var lap := After(w, Half(0, t) + Half(1, t + 1000));
      LapsRun(lap, y, z, x, x, t + 1000, t + 2000, n - 1);
      RunsJoin(w, Half(0, t) + Half(1, t + 1000), Laps(t + 2000, n - 1));
    }
  }

  // ---- How it starts ------------------------------------------------------------------------------

  function EditThenWrite(v: string, j: nat, t: int): seq<Step> {
    [Edit(Ticket(v), t), Dispatch] + [Deliver(j, 0, t, t), Poll(j)]
  }

  lemma EditedAndWritten(w: World, v: string, u: string, j: nat, d: seq<Desc>, before: int, t: int)
    requires Looks(w, u, d, before) && u != v && before < t && j < 2 && Trim(v) != Trim(d[j].holds)
    ensures CanRun(w, EditThenWrite(v, j, t))
    ensures Looks(After(w, EditThenWrite(v, j, t)), v,
                  [d[0].(waiting := d[0].waiting + 1), d[1].(waiting := d[1].waiting + 1)]
                  [j := Desc(v, d[j].seen + [v], d[j].waiting, true)], t)
  {
    hide Looks, Trim, CanRun, After;
    TwoDescs(w, u, d, before);
    EditSpreads(w, v, u, d, before, t);
    var e := [d[0].(waiting := d[0].waiting + 1), d[1].(waiting := d[1].waiting + 1)];
    var mid := After(w, [Edit(Ticket(v), t), Dispatch]);
    WroteAndPolled(mid, j, v, e, before, t);
    RunsJoin(w, [Edit(Ticket(v), t), Dispatch], [Deliver(j, 0, t, t), Poll(j)]);
  }

  /** Rows left behind: the first instance has the value, the second is written to and then has it. */
  function CatchUp(t: int): seq<Step> { [Deliver(0, 0, t, t)] + [Deliver(1, 0, t, t), Deliver(1, 0, t, t)] }

  lemma CaughtUp(w: World, x: string, y: string, z: string, before: int, t: int)
    requires Looks(w, y, [Desc(y, [x, y], 1, true), Desc(z, [z], 2, true)], before) && Trim(y) != Trim(z) && before < t
    ensures CanRun(w, CatchUp(t)) && Turning(After(w, CatchUp(t)), x, y, z, y, before)
  {
    hide Trim, Looks, Next, CanTake;
    var d := [Desc(y, [x, y], 1, true), Desc(z, [z], 2, true)];
    Wrote(w, 0, y, d, before, t);
    var a := Next(w, Deliver(0, 0, t, t));
    var e := [Desc(y, [x, y], 0, true), Desc(z, [z], 2, true)];
    assert d[0 := d[0].(waiting := 0)] == e;
    Wrote(a, 1, y, e, before, t);
    var b := Next(a, Deliver(1, 0, t, t));
    var f := [Desc(y, [x, y], 0, true), Desc(y, [z], 1, true)];
    assert e[1 := e[1].(waiting := 1).(holds := y, written := true)] == f;
    Wrote(b, 1, y, f, before, t);
    assert f[1 := f[1].(waiting := 0)] == [Desc(y, [x, y], 0, true), Desc(y, [z], 0, true)];
    TwoSteps(a, Deliver(1, 0, t, t), Deliver(1, 0, t, t));
    assert CanRun(w, [Deliver(0, 0, t, t)]) && After(w, [Deliver(0, 0, t, t)]) == a;
    RunsJoin(w, [Deliver(0, 0, t, t)], [Deliver(1, 0, t, t), Deliver(1, 0, t, t)]);
  }

  function ThreeEdits(x: string, y: string, z: string, t: int): seq<Step> {
    EditThenWrite(z, 1, t + 1000) + EditThenWrite(x, 0, t + 2000) + EditThenWrite(y, 0, t + 3000) + CatchUp(t + 4000)
  }

  lemma ThreeEditsStart(w: World, a: string, x: string, y: string, z: string, t: int)
    requires Looks(w, a, [Desc(a, [], 0, false), Desc(a, [], 0, false)], t)
    requires Apart(x, y) && Apart(y, z) && Apart(x, z) && Trim(a) != Trim(z) && Trim(a) != Trim(x)
    ensures CanRun(w, ThreeEdits(x, y, z, t))
    ensures Turning(After(w, ThreeEdits(x, y, z, t)), x, y, z, y, t + 3000)
  {
    hide Looks, CanRun, After, EditThenWrite, CatchUp;
    assert z != a && x != z && y != x;
    hide Trim;
    var one, two, three := EditThenWrite(z, 1, t + 1000), EditThenWrite(x, 0, t + 2000), EditThenWrite(y, 0, t + 3000);
    assert [] + [z] == [z] && [] + [x] == [x] && [x] + [y] == [x, y];
    var d := [Desc(a, [], 0, false), Desc(a, [], 0, false)];
    EditedAndWritten(w, z, a, 1, d, t, t + 1000);
    var w1, d1 := After(w, one), [Desc(a, [], 1, false), Desc(z, [z], 0, true)];
    assert [d[0].(waiting := 1), d[1].(waiting := 1)][1 := Desc(z, d[1].seen + [z], 0, true)] == d1;
    EditedAndWritten(w1, x, z, 0, d1, t + 1000, t + 2000);
    var w2, d2 := After(w1, two), [Desc(x, [x], 1, true), Desc(z, [z], 1, true)];
    assert [d1[0].(waiting := 2), d1[1].(waiting := 1)][0 := Desc(x, d1[0].seen + [x], 1, true)] == d2;
    EditedAndWritten(w2, y, x, 0, d2, t + 2000, t + 3000);
    var w3, d3 := After(w2, three), [Desc(y, [x, y], 1, true), Desc(z, [z], 2, true)];
    assert [d2[0].(waiting := 2), d2[1].(waiting := 2)][0 := Desc(y, d2[0].seen + [y], 1, true)] == d3;
    CaughtUp(w3, x, y, z, t + 3000, t + 4000);
    RunsJoin(w, one, two);
    RunsJoin(w, one + two, three);
    RunsJoin(w, one + two + three, CatchUp(t + 4000));
  }

  /**
   * From two records that agree with the ticket, three edits of a merged field are followed by
   * as many automatic steps as one likes when writes overtake the reads of earlier writes.
   */
  lemma NeverSettles(w: World, a: string, x: string, y: string, z: string, t: int, n: nat)
    requires Looks(w, a, [Desc(a, [], 0, false), Desc(a, [], 0, false)], t)
    requires Apart(x, y) && Apart(y, z) && Apart(x, z) && Trim(a) != Trim(z) && Trim(a) != Trim(x)
    ensures CanRun(w, ThreeEdits(x, y, z, t) + Laps(t + 5000, n))
    ensures |Laps(t + 5000, n)| == 8 * n && AllAutomatic(Laps(t + 5000, n))
  {
    hide Looks, Trim, Turning;
    ThreeEditsStart(w, a, x, y, z, t);
    LapsRun(After(w, ThreeEdits(x, y, z, t)), x, y, z, y, t + 3000, t + 5000, n);
    RunsJoin(w, ThreeEdits(x, y, z, t), Laps(t + 5000, n));
  }
}
