/** One ticket linked to a record on each of several instances, with people editing both sides. */
module SyncProtocol {
  // A ticket change becomes queued rows, a row becomes a write to a record, a changed record is
  // polled into the inbox, and an inbox row is skipped as our own echo or applied to the ticket.

  import opened Wrappers
  import opened SyncMaps
  import opened SyncRules

  /** `ours` is a history variable: our own write was the last change to the record read. */
  datatype Snapshot = Snapshot(record: Record, stamp: int, ours: bool, attempts: nat)

  /** A queued change: the ticket fields it touched and where it came from. */
  datatype Row = Row(fields: set<string>, origin: Origin, attempts: nat)

  datatype Event = Event(origin: Origin, fields: set<string>)

  datatype Instance = Instance(
    entries: seq<Entry>,
    overrides: map<string, Policy>,
    tolerance: nat,
    mode: Mode,
    armed: bool,
    subscribedEvents: set<string>,
    syncWorkNotes: bool,
    linked: bool,
    record: Record,
    stamp: int,
    ours: bool,
    polledStamp: Option<int>,
    lastOutboundAt: Option<int>,
    lastHash: Option<Echo>,
    lastKnown: Option<int>,
    inbox: seq<Snapshot>,
    rows: seq<Row>
  )

  datatype World = World(
    ticket: map<string, string>, updatedAt: int, open: bool, outbox: seq<Event>, instances: seq<Instance>)

  const MAX_INBOX_ATTEMPTS := 5
  const UPDATED := "ticket.updated"

  // ---- Deciding per field ------------------------------------------------------------------

  function PolicyOf(inst: Instance, e: Entry): Policy {
    if e.xms in inst.overrides then inst.overrides[e.xms]
    else if e.sor.Some? then e.sor.value
    else if e.xms in XMS_FIELDS then XMS_FIELDS[e.xms]
    else NoPolicy
  }

  function Read(patch: map<string, Value>, field: string): Value {
    if field in patch then patch[field] else Undefined
  }

  function TicketValue(ticket: map<string, string>, field: string): Value {
    if field in ticket then Text(ticket[field]) else Null
  }

  /** The outbound fields of a record in ticket terms, as hashed. */
  function EchoOf(entries: seq<Entry>, record: Record): Echo {
    map e | e in entries && !e.direction.In? :: e.xms := OrEmpty(Read(Patch(entries, record), e.xms))
  }

  // ---- Outbound -------------------------------------------------------------------------------

  function Asked(row: Row): Option<set<string>> { if row.fields == {} then None else Some(row.fields) }

  predicate Travels(inst: Instance, e: Entry, ticket: map<string, string>, updatedAt: int, only: Option<set<string>>) {
    && Chosen(e, ticket, only)
    && DecideOutbound(PolicyOf(inst, e), ExternalChangedSince(inst.lastKnown, inst.stamp, inst.tolerance),
                      Text(ticket[e.xms]), Read(Patch(inst.entries, inst.record), e.xms), updatedAt, inst.stamp).go
  }

  /** What one row writes to the record. */
  function Body(inst: Instance, row: Row, ticket: map<string, string>, updatedAt: int): map<string, string> {
    var allowed := set e | e in inst.entries && Travels(inst, e, ticket, updatedAt, Asked(row)) :: e.xms;
    Translated(inst.entries, ticket, Some(allowed)).body
  }

  /** The record is past the stamp that the last poll of it returned. */
  predicate Unpolled(inst: Instance) { inst.polledStamp.None? || inst.polledStamp.value < inst.stamp }

  /** What a poll does with a record that is new to it. */
  function Polled(inst: Instance): Instance {
    inst.(inbox := inst.inbox + [Snapshot(inst.record, inst.stamp, inst.ours, 0)], polledStamp := Some(inst.stamp))
  }

  function Without<T>(s: seq<T>, k: nat): seq<T>
    requires k < |s|
  {
    s[..k] + s[k + 1..]
  }

  /** Our write, and what the link remembers of it. */
  function Push(inst: Instance, body: map<string, string>, stamp: int, now: int): Instance {
    var record := Written(inst.record, body);
    inst.(record := record, stamp := stamp, ours := true,
          lastOutboundAt := Some(now), lastHash := Some(EchoOf(inst.entries, record)), lastKnown := Some(stamp))
  }

  function Delivered(inst: Instance, k: nat, ticket: map<string, string>, updatedAt: int, stamp: int, now: int): Instance
    requires k < |inst.rows|
  {
    var body := Body(inst, inst.rows[k], ticket, updatedAt);
    var settled := inst.(rows := Without(inst.rows, k));
    if body == map[] then settled else Push(settled, body, stamp, now)
  }

  function Queue(inst: Instance, i: nat, e: Event): Instance {
    if DecideEnqueue(UPDATED, e.origin, i, inst.mode, inst.subscribedEvents, inst.linked, inst.syncWorkNotes, "").None?
    then inst.(rows := inst.rows + [Row(e.fields, e.origin, 0)])
    else inst
  }

  // ---- Inbound ---------------------------------------------------------------------------------

  const APPLIED_FIELDS: set<string> := {"short_description", "description", "category", "impact", "urgency"}

  /** The inbox row is taken for our own write. */
  predicate Recognised(inst: Instance, record: Record, stamp: int) {
    IsReflection(inst.lastOutboundAt, inst.lastHash, stamp, EchoOf(inst.entries, record), inst.tolerance)
  }

  function AppliedText(field: string, v: Value): string {
    var text := if v.Text? then v.text else if v.Null? then "null" else "undefined";
    if IsLevel(field) then text else Cut(text, if field == "short_description" then 300 else 50000)
  }

  predicate Arrives(inst: Instance, e: Entry, s: Snapshot, ticket: map<string, string>, updatedAt: int) {
    && !e.direction.Out? && e.xms in Patch(inst.entries, s.record) && e.xms in APPLIED_FIELDS
    && DecideInbound(PolicyOf(inst, e), false, TicketValue(ticket, e.xms), Patch(inst.entries, s.record)[e.xms],
                     updatedAt, s.stamp).go
  }

  function Applied(inst: Instance, s: Snapshot, ticket: map<string, string>, updatedAt: int): map<string, string> {
    map e | e in inst.entries && Arrives(inst, e, s, ticket, updatedAt)
      :: e.xms := AppliedText(e.xms, Read(Patch(inst.entries, s.record), e.xms))
  }

  /** The fields whose value a patch changes; a patch that changes none still bumps the version. */
  function Changed(ticket: map<string, string>, patch: map<string, string>): set<string> {
    var fields := set x | x in patch && (x !in ticket || ticket[x] != patch[x]);
    if fields == {} then {"version"} else fields
  }

  function PatchTicket(w: World, origin: Origin, patch: map<string, string>, now: int): World {
    w.(ticket := w.ticket + patch, updatedAt := now, outbox := w.outbox + [Event(origin, Changed(w.ticket, patch))])
  }

  // ---- Steps -----------------------------------------------------------------------------------

  datatype Step =
    | Edit(patch: map<string, string>, now: int)
    | ClientEdit(i: nat, record: Record, stamp: int)
    | Dispatch
    | Deliver(i: nat, k: nat, stamp: int, now: int)
    | DeliverFails(i: nat, k: nat, terminal: bool)
    | Poll(i: nat)
    | Apply(i: nat, k: nat, now: int)
    | ApplyFails(i: nat, k: nat, terminal: bool)

  predicate Automatic(step: Step) { !step.Edit? && !step.ClientEdit? }

  predicate Receives(inst: Instance) { inst.linked && inst.armed && !inst.mode.Off? }

  predicate SendsOut(inst: Instance) { inst.linked && inst.armed && inst.mode.Bidirectional? }

  predicate CanTake(w: World, step: Step) {
    match step
    case Edit(_, _) => w.open
    case ClientEdit(i, _, _) => i < |w.instances|
    case Dispatch => w.outbox != []
    case Deliver(i, k, _, _) => i < |w.instances| && SendsOut(w.instances[i]) && k < |w.instances[i].rows|
    case DeliverFails(i, k, _) => i < |w.instances| && SendsOut(w.instances[i]) && k < |w.instances[i].rows|
    case Poll(i) => i < |w.instances| && Unpolled(w.instances[i]) && w.instances[i].linked
    case Apply(i, k, _) => i < |w.instances| && Receives(w.instances[i]) && k < |w.instances[i].inbox|
    case ApplyFails(i, k, _) => i < |w.instances| && Receives(w.instances[i]) && k < |w.instances[i].inbox|
  }

  function RowFails(inst: Instance, k: nat, terminal: bool): Instance
    requires k < |inst.rows|
  {
    var attempts := inst.rows[k].attempts + 1;
    if terminal || OutboundNextAttempt(attempts, 0).None? then inst.(rows := Without(inst.rows, k))
    else inst.(rows := inst.rows[k := inst.rows[k].(attempts := attempts)])
  }

  function SnapshotFails(inst: Instance, k: nat, terminal: bool): Instance
    requires k < |inst.inbox|
  {
    var attempts := inst.inbox[k].attempts + 1;
    if terminal || attempts >= MAX_INBOX_ATTEMPTS then inst.(inbox := Without(inst.inbox, k))
    else inst.(inbox := inst.inbox[k := inst.inbox[k].(attempts := attempts)])
  }

  function ApplyTo(w: World, i: nat, k: nat, now: int): World
    requires i < |w.instances| && k < |w.instances[i].inbox|
  {
    var inst, s := w.instances[i], w.instances[i].inbox[k];
    var settled := inst.(inbox := Without(inst.inbox, k));
    if Recognised(inst, s.record, s.stamp) then w.(instances := w.instances[i := settled])
    else
      var known := w.(instances := w.instances[i := settled.(lastKnown := Some(s.stamp))]);
      var patch := Applied(inst, s, w.ticket, w.updatedAt);
      if patch != map[] && w.open then PatchTicket(known, Sync(i), patch, now) else known
  }

  function QueueAll(instances: seq<Instance>, e: Event): (r: seq<Instance>)
    ensures |r| == |instances|
  {
    if instances == [] then []
    else
      var n := |instances| - 1;
      QueueAll(instances[..n], e) + [Queue(instances[n], n, e)]
  }

  function Next(w: World, step: Step): World
    requires CanTake(w, step)
  {
    match step
    case Edit(patch, now) => PatchTicket(w, User, patch, now)
    case ClientEdit(i, record, stamp) =>
      w.(instances := w.instances[i := w.instances[i].(record := record, stamp := stamp, ours := false)])
    case Dispatch => w.(outbox := w.outbox[1..], instances := QueueAll(w.instances, w.outbox[0]))
    case Deliver(i, k, stamp, now) =>
      w.(instances := w.instances[i := Delivered(w.instances[i], k, w.ticket, w.updatedAt, stamp, now)])
    case DeliverFails(i, k, terminal) => w.(instances := w.instances[i := RowFails(w.instances[i], k, terminal)])
    case Poll(i) => w.(instances := w.instances[i := Polled(w.instances[i])])
    case Apply(i, k, now) => ApplyTo(w, i, k, now)
    case ApplyFails(i, k, terminal) => w.(instances := w.instances[i := SnapshotFails(w.instances[i], k, terminal)])
  }

  // ---- What crosses ----------------------------------------------------------------------------

  /** A change is queued for every instance that is to have it, to be tried from the start. */
  lemma QueueMeans(inst: Instance, i: nat, e: Event)
    ensures var goes := e.origin != Sync(i) && inst.mode.Bidirectional? && "ticket.updated" in inst.subscribedEvents && inst.linked;
            Queue(inst, i, e) == if goes then inst.(rows := inst.rows + [Row(e.fields, e.origin, 0)]) else inst
  {
  }

  /**
   * A record taken for our own write only leaves the inbox. Any other is known from then on, and
   * what is taken of it changes the ticket while it is open, as a change of that instance.
   */
  lemma ApplyMeans(w: World, i: nat, k: nat, now: int, field: string)
    requires i < |w.instances| && k < |w.instances[i].inbox|
    ensures var inst, s, after := w.instances[i], w.instances[i].inbox[k], ApplyTo(w, i, k, now);
            var own, applied := Recognised(inst, s.record, s.stamp), Applied(inst, s, w.ticket, w.updatedAt);
            && |after.instances| == |w.instances| && (forall j :: 0 <= j < |w.instances| && j != i ==> after.instances[j] == w.instances[j])
            && after.instances[i].inbox == inst.inbox[..k] + inst.inbox[k + 1..]
            && after.instances[i].lastKnown == (if own then inst.lastKnown else Some(s.stamp))
            && (own || !w.open || applied == map[] ==>
                  after.ticket == w.ticket && after.outbox == w.outbox && after.updatedAt == w.updatedAt)
            && (!own && w.open && applied != map[] ==>
                  && (field in after.ticket <==> field in w.ticket || field in applied)
                  && (field in applied ==> after.ticket[field] == applied[field])
                  && (field in w.ticket && field !in applied ==> after.ticket[field] == w.ticket[field])
                  && after.updatedAt == now && |after.outbox| == |w.outbox| + 1 && w.outbox <= after.outbox
                  && after.outbox[|w.outbox|].origin == Sync(i)
                  && (field in applied && (field !in w.ticket || w.ticket[field] != applied[field]) ==>
                        field in after.outbox[|w.outbox|].fields))
  {
    hide Recognised, Applied;
  }

  // ---- Failures --------------------------------------------------------------------------------

  /** A row that fails waits for its next attempt in its place, up to five of them; then, or for good, it leaves the others. */
  lemma FailureMeans(inst: Instance, k: nat, terminal: bool)
    requires k < |inst.rows|
    ensures var rows, row := RowFails(inst, k, terminal).rows, inst.rows[k];
            && RowFails(inst, k, terminal) == inst.(rows := rows)
            && (terminal || row.attempts >= 4 ==> rows == inst.rows[..k] + inst.rows[k + 1..])
            && (!terminal && row.attempts < 4 ==>
                  rows == inst.rows[..k] + [Row(row.fields, row.origin, row.attempts + 1)] + inst.rows[k + 1..])
  {
  }

  lemma InboxFailureMeans(inst: Instance, k: nat, terminal: bool)
    requires k < |inst.inbox|
    ensures var inbox, row := SnapshotFails(inst, k, terminal).inbox, inst.inbox[k];
            && SnapshotFails(inst, k, terminal) == inst.(inbox := inbox)
            && (terminal || row.attempts >= 4 ==> inbox == inst.inbox[..k] + inst.inbox[k + 1..])
            && (!terminal && row.attempts < 4 ==>
                  inbox == inst.inbox[..k] + [row.(attempts := row.attempts + 1)] + inst.inbox[k + 1..])
  {
  }

  // ---- What the decisions come to --------------------------------------------------------------

  /** The link's own rule for a field comes first, then the entry's, then the field's default. */
  lemma PolicyMeans(inst: Instance, e: Entry)
    ensures e.xms in inst.overrides ==> PolicyOf(inst, e) == inst.overrides[e.xms]
    ensures e.xms !in inst.overrides && e.sor.Some? ==> PolicyOf(inst, e) == e.sor.value
    ensures e.xms !in inst.overrides && e.sor.None? ==>
              && (PolicyOf(inst, e).External? <==> e.xms == "external_ref" || e.xms == "client_reference")
              && (PolicyOf(inst, e).Newest? <==> e.xms == "client_notes")
              && (PolicyOf(inst, e).Xms? <==> e.xms == "category")
              && (PolicyOf(inst, e).ExternalAtCreateThenXms? <==>
                    e.xms in {"short_description", "description", "requester_email", "requester_name", "impact", "urgency"})
  {
  }

  /** What an entry may write: what differs under the rule of its field, among the fields the change touched if it says which. */
  predicate MayWrite(inst: Instance, e: Entry, row: Row, ticket: map<string, string>, updatedAt: int) {
    && AskedFor(e, ticket, if row.fields == {} then None else Some(row.fields))
    && DecideOutbound(PolicyOf(inst, e), ExternalChangedSince(inst.lastKnown, inst.stamp, inst.tolerance),
                      Text(ticket[e.xms]), Read(Patch(inst.entries, inst.record), e.xms), updatedAt, inst.stamp).go
  }

  lemma BodyMeans(inst: Instance, row: Row, ticket: map<string, string>, updatedAt: int, field: string)
    requires OncePerDirection(inst.entries)
    ensures field in Body(inst, row, ticket, updatedAt)
            <==> exists i :: 0 <= i < |inst.entries| && inst.entries[i].external == field
                   && MayWrite(inst, inst.entries[i], row, ticket, updatedAt)
                   && HasReverse(inst.entries[i].transform, ticket[inst.entries[i].xms])
  {
    var allowed := set e | e in inst.entries && Travels(inst, e, ticket, updatedAt, Asked(row)) :: e.xms;
    OutboundMeans(inst.entries, ticket, Some(allowed), field);
    forall i | 0 <= i < |inst.entries|
      ensures AskedFor(inst.entries[i], ticket, Some(allowed)) <==> MayWrite(inst, inst.entries[i], row, ticket, updatedAt)
    {
      var e := inst.entries[i];
      assert e in inst.entries;
      if AskedFor(e, ticket, Some(allowed)) {
        var o :| o in inst.entries && Travels(inst, o, ticket, updatedAt, Asked(row)) && o.xms == e.xms;
        assert o == e by { OneOutbound(inst.entries, o, e); }
      }
    }
    hide HasReverse, Patch, DecideOutbound, Translated, MayWrite, AskedFor, Travels;
    if SomeWrites(inst.entries, ticket, Some(allowed), field) {
      var i :| 0 <= i < |inst.entries| && inst.entries[i].external == field && WritesBack(inst.entries[i], ticket, Some(allowed));
    }
  }

  lemma OneOutbound(entries: seq<Entry>, a: Entry, b: Entry)
    requires OncePerDirection(entries) && a in entries && b in entries && a.xms == b.xms
    requires !a.direction.In? && !b.direction.In?
    ensures a == b
  {
    var i :| 0 <= i < |entries| && entries[i] == a;
    var j :| 0 <= j < |entries| && entries[j] == b;
  }

  /** A field of the ticket is set where the record's reading of it is one the rules take, to that reading cut to length. */
  lemma AppliedMeans(inst: Instance, s: Snapshot, ticket: map<string, string>, updatedAt: int, field: string)
    ensures var patch, applied := Patch(inst.entries, s.record), Applied(inst, s, ticket, updatedAt);
            && (field in applied <==>
                  && field in {"short_description", "description", "category", "impact", "urgency"} && field in patch
                  && exists i :: 0 <= i < |inst.entries| && inst.entries[i].xms == field && !inst.entries[i].direction.Out?
                       && DecideInbound(PolicyOf(inst, inst.entries[i]), false,
                            if field in ticket then Text(ticket[field]) else Null, patch[field], updatedAt, s.stamp).go)
            && (field in applied && patch[field].Text? ==> applied[field] <= patch[field].text)
            && (field in applied && patch[field].Null? ==> applied[field] == "null")
            && (field in applied && patch[field].Text? && field == "short_description" ==>
                  |applied[field]| == if |patch[field].text| < 300 then |patch[field].text| else 300)
            && (field in applied && patch[field].Text? && (field == "description" || field == "category") ==>
                  |applied[field]| == if |patch[field].text| < 50000 then |patch[field].text| else 50000)
            && (field in applied && patch[field].Text? && (field == "impact" || field == "urgency") ==>
                  applied[field] == patch[field].text)
  {
    hide Patch, DecideInbound, PolicyOf;
    assert forall i :: 0 <= i < |inst.entries| ==> inst.entries[i] in inst.entries;
  }
}
