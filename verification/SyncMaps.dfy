/**
 * Field maps as data: what an external record says in ticket terms, and the record a ticket
 * writes. One entry ties an external field to a ticket field, in one direction or both.
 */
module SyncMaps {
  import opened Wrappers

  datatype Value = Undefined | Null | Text(text: string)

  /** A reference field arrives as a pair of display value and value. */
  datatype Raw = Plain(value: Value) | Reference(display: Value, key: Value)

  type Record = map<string, Raw>

  datatype Direction = In | Out | Both

  datatype Pair = Pair(key: string, value: string)

  datatype Piece = Literal(text: string) | Hole(name: string)

  datatype Transform =
    | NoTransform
    | Lookup(values: seq<Pair>, fallback: Option<string>)
    | Template(pieces: seq<Piece>)
    | Truncate(length: nat)

  datatype Policy = Xms | External | Newest | Merge | ExternalAtCreateThenXms | NoPolicy

  datatype Entry = Entry(external: string, xms: string, direction: Direction, transform: Transform, sor: Option<Policy>)

  const LEVELS: set<string> := {"high", "medium", "low"}

  const XMS_FIELDS: map<string, Policy> := map[
    "short_description" := ExternalAtCreateThenXms,
    "description" := ExternalAtCreateThenXms,
    "requester_email" := ExternalAtCreateThenXms,
    "requester_name" := ExternalAtCreateThenXms,
    "category" := Xms,
    "impact" := ExternalAtCreateThenXms,
    "urgency" := ExternalAtCreateThenXms,
    "external_ref" := External,
    "client_reference" := External,
    "client_notes" := Newest
  ]

  const REQUIRED_FIELDS: set<string> := {"short_description", "requester_email"}

  // ---- Transforms ---------------------------------------------------------------------

  /** Null and undefined read as the empty text. */
  function OrEmpty(v: Value): string {
    if v.Text? then v.text else ""
  }

  function Pick(record: Record, field: string): Value {
    if field !in record then Undefined
    else
      match record[field]
      case Plain(v) => v
      case Reference(display, key) => if display.Text? then display else key
  }

  /** What an object with these properties holds under a key. */
  function Find(values: seq<Pair>, key: string): Option<string> {
    if values == [] then None
    else if values[0].key == key then Some(values[0].value)
    else Find(values[1..], key)
  }

  /** A property of the record put into text. */
  function Shown(record: Record, name: string): string {
    if name !in record then ""
    else if record[name].Reference? then "[object Object]"
    else OrEmpty(record[name].value)
  }

  function Fill(pieces: seq<Piece>, record: Record): string {
    if pieces == [] then ""
    else (if pieces[0].Literal? then pieces[0].text else Shown(record, pieces[0].name)) + Fill(pieces[1..], record)
  }

  function Cut(text: string, length: nat): string {
    if |text| > length then text[..length] else text
  }

  function ApplyTransform(v: Value, t: Transform, record: Record): Value {
    match t
    case NoTransform => v
    case Lookup(values, fallback) =>
      var found := Find(values, OrEmpty(v));
      if found.Some? then Text(found.value)
      else if fallback.Some? then Text(fallback.value)
      else Undefined
    case Template(pieces) => Text(Fill(pieces, record))
    case Truncate(length) => if v.Text? then Text(Cut(v.text, length)) else v
  }

  /** Text order by code unit, as a plain sort compares. */
  predicate AtMost(s: string, t: string) {
    s == "" || (t != "" && (s[0] < t[0] || (s[0] == t[0] && AtMost(s[1..], t[1..]))))
  }

  /** The first, in sorted order, of the keys that hold a value. */
  function LowestKey(values: seq<Pair>, target: string): Option<string> {
    if values == [] then None
    else
      var rest := LowestKey(values[1..], target);
      if values[0].value != target then rest
      else if rest.Some? && !AtMost(values[0].key, rest.value) then rest
      else Some(values[0].key)
  }

  function ReverseTransform(text: string, t: Transform): Option<string> {
    match t
    case NoTransform => Some(text)
    case Lookup(values, _) => LowestKey(values, text)
    case Template(_) => None
    case Truncate(length) => Some(Cut(text, length))
  }

  // ---- Translation ------------------------------------------------------------------------

  function Lower(text: string): string {
    seq(|text|, i requires 0 <= i < |text| => if 'A' <= text[i] <= 'Z' then text[i] - 'A' + 'a' else text[i])
  }

  predicate IsLevel(xms: string) { xms == "impact" || xms == "urgency" }

  /** What one inbound entry contributes to the ticket patch. */
  function PatchWith(patch: map<string, Value>, e: Entry, record: Record): map<string, Value> {
    if e.direction.Out? || Pick(record, e.external).Undefined? then patch
    else
      var value := ApplyTransform(Pick(record, e.external), e.transform, record);
      if !IsLevel(e.xms) then patch[e.xms := value]
      else if Lower(OrEmpty(value)) in LEVELS then patch[e.xms := Text(Lower(OrEmpty(value)))]
      else patch
  }

  function Patch(entries: seq<Entry>, record: Record): map<string, Value> {
    if entries == [] then map[]
    else PatchWith(Patch(entries[..|entries| - 1], record), entries[|entries| - 1], record)
  }

  /** The external fields of inbound entries that the record lacks. */
  function Missing(entries: seq<Entry>, record: Record): seq<string> {
    if entries == [] then []
    else
      var e := entries[|entries| - 1];
      Missing(entries[..|entries| - 1], record)
      + if !e.direction.Out? && Pick(record, e.external).Undefined? then [e.external] else []
  }

  const SYSTEM_FIELDS: set<string> :=
    {"sys_id", "sys_updated_on", "sys_created_on", "sys_updated_by", "sys_created_by", "sys_mod_count"}

  predicate SystemField(name: string) { name in SYSTEM_FIELDS || (|name| >= 4 && name[..4] == "sys_") }

  /** They are all named for the system. */
  lemma SystemFieldMeans(name: string)
    ensures SystemField(name) <==> "sys_" <= name
  {
  }

  /** The record's own fields that no inbound entry reads. */
  function Unmapped(entries: seq<Entry>, record: Record): set<string> {
    set f | f in record && !SystemField(f)
            && forall i :: 0 <= i < |entries| && entries[i].external == f ==> entries[i].direction.Out?
  }

  method TranslateInbound(entries: seq<Entry>, record: Record)
    returns (patch: map<string, Value>, missing: seq<string>, unmapped: set<string>)
    ensures patch == Patch(entries, record) && missing == Missing(entries, record) && unmapped == Unmapped(entries, record)
    ensures OncePerDirection(entries) ==>
              forall i :: 0 <= i < |entries| && !entries[i].direction.Out? ==>
                && (entries[i].external in missing <==> Says(record, entries[i].external, Undefined))
                && ReadsRight(entries[i], record, patch)
  {
    patch, missing := map[], [];
    var mappedExternal: set<string> := {};
    for i := 0 to |entries|
      invariant patch == Patch(entries[..i], record) && missing == Missing(entries[..i], record)
      invariant mappedExternal == set j | 0 <= j < i && !entries[j].direction.Out? :: entries[j].external
    {
      assert entries[..i + 1][..i] == entries[..i];
      var entry := entries[i];
      if entry.direction.Out? { continue; }
      mappedExternal := mappedExternal + {entry.external};
      var raw := Pick(record, entry.external);
      if raw.Undefined? {
        missing := missing + [entry.external];
        continue;
      }
      var value := ApplyTransform(raw, entry.transform, record);
      if IsLevel(entry.xms) {
        var level := Lower(OrEmpty(value));
        if level in LEVELS { patch := patch[entry.xms := Text(level)]; }
        continue;
      }
      patch := patch[entry.xms := value];
    }
    assert entries[..|entries|] == entries;
    unmapped := set f | f in record && f !in mappedExternal && !SystemField(f);
    hide Says, ReadsRight;
    if OncePerDirection(entries) {
      forall i | 0 <= i < |entries| && !entries[i].direction.Out?
        ensures entries[i].external in missing <==> Says(record, entries[i].external, Undefined)
        ensures ReadsRight(entries[i], record, patch)
      {
        MissingMeans(entries, record, entries[i].external);
        EntryReads(entries, record, i);
        PickSays(record, entries[i].external);
      }
    }
  }

  datatype Outbound = Outbound(body: map<string, string>, sent: map<string, string>, unmapped: seq<string>)

  /** The entry writes a value of the ticket, within the fields asked for. */
  predicate Chosen(e: Entry, values: map<string, string>, only: Option<set<string>>) {
    !e.direction.In? && (only.Some? ==> e.xms in only.value) && e.xms in values
  }

  function WriteWith(o: Outbound, e: Entry, values: map<string, string>, only: Option<set<string>>): Outbound {
    if !Chosen(e, values, only) then o
    else
      var reversed := ReverseTransform(values[e.xms], e.transform);
      if reversed.None? then o.(unmapped := o.unmapped + [e.xms])
      else o.(body := o.body[e.external := reversed.value], sent := o.sent[e.xms := values[e.xms]])
  }

  function Translated(entries: seq<Entry>, values: map<string, string>, only: Option<set<string>>): Outbound {
    if entries == [] then Outbound(map[], map[], [])
    else WriteWith(Translated(entries[..|entries| - 1], values, only), entries[|entries| - 1], values, only)
  }

  method TranslateOutbound(entries: seq<Entry>, values: map<string, string>, only: Option<set<string>>)
    returns (body: map<string, string>, sent: map<string, string>, unmapped: seq<string>)
    ensures Outbound(body, sent, unmapped) == Translated(entries, values, only)
  {
    body, sent, unmapped := map[], map[], [];
    for i := 0 to |entries|
      invariant Outbound(body, sent, unmapped) == Translated(entries[..i], values, only)
    {
      assert entries[..i + 1][..i] == entries[..i];
      var entry := entries[i];
      if entry.direction.In? { continue; }
      if only.Some? && entry.xms !in only.value { continue; }
      if entry.xms !in values { continue; }
      var reversed := ReverseTransform(values[entry.xms], entry.transform);
      if reversed.None? {
        unmapped := unmapped + [entry.xms];
        continue;
      }
      body := body[entry.external := reversed.value];
      sent := sent[entry.xms := values[entry.xms]];
    }
    assert entries[..|entries|] == entries;
  }

  /** The record once a body has been written to it. */
  function Written(record: Record, body: map<string, string>): Record {
    map f | f in record.Keys + body.Keys :: if f in body then Plain(Text(body[f])) else record[f]
  }

  // ---- Reversing a transform -----------------------------------------------------------------

  /** The keys of one object. */
  predicate KeysDistinct(values: seq<Pair>) {
    forall i, j :: 0 <= i < j < |values| ==> values[i].key != values[j].key
  }

  predicate Proper(t: Transform) { t.Lookup? ==> KeysDistinct(t.values) }

  lemma {:induction false} AtMostOrders(s: string, t: string, u: string)
    ensures AtMost(s, s)
    ensures AtMost(s, t) || AtMost(t, s)
    ensures AtMost(s, t) && AtMost(t, u) ==> AtMost(s, u)
    ensures AtMost(s, t) && AtMost(t, s) ==> s == t
    decreases |s|
  {
    if s != "" {
      AtMostOrders(s[1..], if t == "" then "" else t[1..], if u == "" then "" else u[1..]);
      if t != "" && AtMost(s, t) && AtMost(t, s) { assert s == [s[0]] + s[1..] && t == [t[0]] + t[1..]; }
    }
  }

  lemma {:induction false} FindFinds(values: seq<Pair>, i: nat)
    requires KeysDistinct(values) && i < |values|
    ensures Find(values, values[i].key) == Some(values[i].value)
  {
    if i > 0 { FindFinds(values[1..], i - 1); }
  }

  /** The key chosen holds the value, and comes before every other that does. */
  lemma {:induction false} LowestKeyIsLeast(values: seq<Pair>, target: string)
    ensures LowestKey(values, target).None? <==> forall i :: 0 <= i < |values| ==> values[i].value != target
    ensures LowestKey(values, target).Some? ==>
              var k := LowestKey(values, target).value;
              && (exists i :: 0 <= i < |values| && values[i] == Pair(k, target))
              && (forall i :: 0 <= i < |values| && values[i].value == target ==> AtMost(k, values[i].key))
  {
    if values != [] {
      var rest := LowestKey(values[1..], target);
      LowestKeyIsLeast(values[1..], target);
      assert forall i :: 1 <= i < |values| ==> values[i] == values[1..][i - 1];
      AtMostOrders(values[0].key, values[0].key, values[0].key);
      if rest.Some? { AtMostOrders(values[0].key, rest.value, values[0].key); }
      forall i | 0 <= i < |values| && values[i].value == target && LowestKey(values, target).Some?
        ensures AtMost(LowestKey(values, target).value, values[i].key)
      {
        if rest.Some? { AtMostOrders(values[0].key, rest.value, values[i].key); }
      }
    }
  }

  /** A ticket value that leaves comes back as itself, unless it was cut on the way out. */
  lemma ReverseReadsBack(text: string, t: Transform, record: Record)
    requires Proper(t) && ReverseTransform(text, t).Some?
    ensures ApplyTransform(Text(ReverseTransform(text, t).value), t, record) == Text(text)
            <==> (t.Truncate? ==> |text| <= t.length)
  {
    if t.Lookup? {
      LowestKeyIsLeast(t.values, text);
      var k := LowestKey(t.values, text).value;
      var i :| 0 <= i < |t.values| && t.values[i] == Pair(k, text);
      FindFinds(t.values, i);
    }
  }

  /** An external value that arrives leaves as itself exactly when no lower one reads the same. */
  lemma LookupComesBackExactlyWhen(raw: string, t: Transform, record: Record)
    requires t.Lookup? && Proper(t) && Find(t.values, raw).Some?
    ensures ReverseTransform(Find(t.values, raw).value, t) == Some(raw)
            <==> forall i :: 0 <= i < |t.values| && t.values[i].value == Find(t.values, raw).value ==> AtMost(raw, t.values[i].key)
  {
    var text := Find(t.values, raw).value;
    FoundIsThere(t.values, raw);
    LowestKeyIsLeast(t.values, text);
    var i :| 0 <= i < |t.values| && t.values[i] == Pair(raw, text);
    var k := LowestKey(t.values, text).value;
    AtMostOrders(raw, k, raw);
  }

  lemma {:induction false} FoundIsThere(values: seq<Pair>, key: string)
    requires Find(values, key).Some?
    ensures exists i :: 0 <= i < |values| && values[i] == Pair(key, Find(values, key).value)
  {
    if values[0].key != key {
      FoundIsThere(values[1..], key);
      var i :| 0 <= i < |values[1..]| && values[1..][i] == Pair(key, Find(values, key).value);
      assert values[i + 1] == Pair(key, Find(values, key).value);
    } else {
      assert values[0] == Pair(key, Find(values, key).value);
    }
  }

  // ---- Writing and reading back ---------------------------------------------------------------

  /** A ticket field has one entry at most in either direction. */
  predicate OncePerDirection(entries: seq<Entry>) {
    forall i, j :: 0 <= i < j < |entries| && entries[i].xms == entries[j].xms ==>
      && (entries[i].direction.Out? || entries[j].direction.Out?)
      && (entries[i].direction.In? || entries[j].direction.In?)
  }

  predicate Sends(e: Entry, values: map<string, string>, only: Option<set<string>>) {
    Chosen(e, values, only) && ReverseTransform(values[e.xms], e.transform).Some?
  }

  /** The last entry that sends to an external field. */
  function LastSender(entries: seq<Entry>, values: map<string, string>, only: Option<set<string>>, external: string)
    : (r: Option<nat>)
    ensures r.Some? ==> r.value < |entries| && entries[r.value].external == external && Sends(entries[r.value], values, only)
  {
    if entries == [] then None
    else
      var n := |entries| - 1;
      if entries[n].external == external && Sends(entries[n], values, only) then Some(n)
      else LastSender(entries[..n], values, only, external)
  }

  /** A body holds what the last to send to a field sends, and nothing where nobody does. */
  lemma {:induction false} BodyHolds(
    entries: seq<Entry>, values: map<string, string>, only: Option<set<string>>, external: string)
    ensures var j := LastSender(entries, values, only, external);
            var body := Translated(entries, values, only).body;
            && (external in body <==> j.Some?)
            && (j.Some? ==> body[external] == ReverseTransform(values[entries[j.value].xms], entries[j.value].transform).value)
  {
    hide ReverseTransform;
    if entries != [] { BodyHolds(entries[..|entries| - 1], values, only, external); }
  }

  lemma {:induction false} SenderIsFound(
    entries: seq<Entry>, values: map<string, string>, only: Option<set<string>>, i: nat)
    requires i < |entries| && Sends(entries[i], values, only)
    ensures LastSender(entries, values, only, entries[i].external).Some?
    ensures LastSender(entries, values, only, entries[i].external).value >= i
    decreases |entries|
  {
    hide Sends;
    var n := |entries| - 1;
    if i < n { SenderIsFound(entries[..n], values, only, i); }
  }

  /** An inbound entry alone decides what its ticket field reads as. */
  lemma {:induction false} PatchReads(entries: seq<Entry>, record: Record, i: nat)
    requires OncePerDirection(entries) && i < |entries| && !entries[i].direction.Out?
    ensures var x, alone := entries[i].xms, PatchWith(map[], entries[i], record);
            && (x in Patch(entries, record) <==> x in alone)
            && (x in alone ==> Patch(entries, record)[x] == alone[x])
  {
    var n := |entries| - 1;
    if i < n {
      PatchReads(entries[..n], record, i);
    } else {
      PatchNames(entries[..n], record, entries[i].xms);
    }
  }

  lemma {:induction false} PatchNames(entries: seq<Entry>, record: Record, x: string)
    ensures x in Patch(entries, record) ==> exists j :: 0 <= j < |entries| && entries[j].xms == x && !entries[j].direction.Out?
  {
    if entries != [] { PatchNames(entries[..|entries| - 1], record, x); }
  }

  /** The value is kept by its own entry: short enough for a cut, and a level where one is wanted. */
  predicate Kept(e: Entry, text: string) {
    && (e.transform.Truncate? ==> |text| <= e.transform.length)
    && (IsLevel(e.xms) ==> text in LEVELS)
  }

  /** What another entry put into the external field happens to read as the ticket value. */
  predicate ReadsAs(e: Entry, out: string, text: string) {
    var value := ApplyTransform(Text(out), e.transform, map[]);
    if IsLevel(e.xms) then text in LEVELS && Lower(OrEmpty(value)) == text else value == Text(text)
  }

  /**
   * A ticket value written through a two-way entry reads back as itself exactly when its entry is
   * the last to write the external field and keeps it, or what the last one wrote reads as it.
   */
  lemma FieldReadsBackExactlyWhen(
    entries: seq<Entry>, values: map<string, string>, only: Option<set<string>>, record: Record, i: nat)
    requires OncePerDirection(entries)
    requires i < |entries| && entries[i].direction.Both? && Sends(entries[i], values, only) && Proper(entries[i].transform)
    ensures LastSender(entries, values, only, entries[i].external).Some?
    ensures var after := Patch(entries, Written(record, Translated(entries, values, only).body));
            var x, j := entries[i].xms, LastSender(entries, values, only, entries[i].external).value;
            x in after && after[x] == Text(values[x])
            <==> if j == i then Kept(entries[i], values[x])
                 else ReadsAs(entries[i], ReverseTransform(values[entries[j].xms], entries[j].transform).value, values[x])
  {
    var e := entries[i];
    SenderIsFound(entries, values, only, i);
    BodyHolds(entries, values, only, e.external);
    var j := LastSender(entries, values, only, e.external).value;
    var out := ReverseTransform(values[entries[j].xms], entries[j].transform).value;
    var written := Written(record, Translated(entries, values, only).body);
    assert Pick(written, e.external) == Text(out);
    PatchReads(entries, written, i);
    assert ApplyTransform(Text(out), e.transform, written) == ApplyTransform(Text(out), e.transform, map[]);
    ReadsAlone(e, out, written, values[e.xms]);
    if j == i { KeptReads(e, values[e.xms]); }
  }

  /** What one entry makes of a text in its external field. */
  lemma ReadsAlone(e: Entry, out: string, record: Record, text: string)
    requires !e.direction.Out? && !e.transform.Template? && Pick(record, e.external) == Text(out)
    ensures var alone := PatchWith(map[], e, record);
            e.xms in alone && alone[e.xms] == Text(text) <==> ReadsAs(e, out, text)
  {
    assert ApplyTransform(Text(out), e.transform, record) == ApplyTransform(Text(out), e.transform, map[]);
  }

  lemma KeptReads(e: Entry, text: string)
    requires Proper(e.transform) && ReverseTransform(text, e.transform).Some?
    ensures ReadsAs(e, ReverseTransform(text, e.transform).value, text) <==> Kept(e, text)
  {
    var out := ReverseTransform(text, e.transform).value;
    ReverseReadsBack(text, e.transform, map[]);
    LevelsAreLower(OrEmpty(ApplyTransform(Text(out), e.transform, map[])));
  }

  lemma LevelsAreLower(text: string)
    ensures text in LEVELS ==> Lower(text) == text
    ensures Lower(text) == text && text !in LEVELS ==> Lower(text) !in LEVELS
  {
  }

  lemma OneEntry(e: Entry, values: map<string, string>, only: Option<set<string>>, record: Record)
    ensures Translated([e], values, only) == WriteWith(Outbound(map[], map[], []), e, values, only)
    ensures Patch([e], record) == PatchWith(map[], e, record)
  {
    assert [e][..0] == [];
    assert Translated([], values, only) == Outbound(map[], map[], []) && Patch([], record) == map[];
  }

  // ---- What an inbound entry reads -------------------------------------------------------------

  /** What a record says under a field: of a reference what it displays, or its key where it displays nothing. */
  predicate Says(record: Record, field: string, v: Value) {
    && (field !in record ==> v.Undefined?)
    && (field in record && record[field].Plain? ==> v == record[field].value)
    && (field in record && record[field].Reference? && record[field].display.Text? ==> v == record[field].display)
    && (field in record && record[field].Reference? && !record[field].display.Text? ==> v == record[field].key)
  }

  lemma PickSays(record: Record, field: string)
    ensures Says(record, field, Pick(record, field))
    ensures forall v :: Says(record, field, v) ==> v == Pick(record, field)
  {
  }

  /** The same text but for its capitals. */
  predicate SameButCase(text: string, low: string) {
    |text| == |low| && forall i :: 0 <= i < |text| ==>
      low[i] as int == text[i] as int + if 'A' <= text[i] <= 'Z' then 32 else 0
  }

  lemma LowerMeans(text: string, low: string)
    ensures Lower(text) == low <==> SameButCase(text, low)
  {
    if SameButCase(text, low) { assert forall i :: 0 <= i < |text| ==> Lower(text)[i] == low[i]; }
  }

  /** A lookup gives what stands under the text, or else its fallback; nothing reads as the empty text. */
  predicate LooksUp(v: Value, values: seq<Pair>, fallback: Option<string>, out: Value) {
    var key := if v.Text? then v.text else "";
    if exists i :: 0 <= i < |values| && values[i].key == key
    then exists i :: 0 <= i < |values| && values[i].key == key && out == Text(values[i].value)
    else if fallback.Some? then out == Text(fallback.value) else out.Undefined?
  }

  /** The longest beginning of a text that is no longer than the length; what is no text is left alone. */
  predicate IsCut(v: Value, length: nat, out: Value) {
    if v.Text? then out.Text? && out.text <= v.text && |out.text| == (if |v.text| < length then |v.text| else length)
    else out == v
  }

  /** What the text of a template is made of, piece by piece. */
  predicate IsFilled(pieces: seq<Piece>, record: Record, out: string) {
    if pieces == [] then out == ""
    else
      exists n :: 0 <= n <= |out| && IsPiece(pieces[0], record, out[..n]) && IsFilled(pieces[1..], record, out[n..])
  }

  predicate IsPiece(piece: Piece, record: Record, out: string) {
    && (piece.Literal? ==> out == piece.text)
    && (piece.Hole? && piece.name in record && record[piece.name].Plain? && record[piece.name].value.Text? ==>
          out == record[piece.name].value.text)
    && (piece.Hole? && piece.name in record && record[piece.name].Plain? && !record[piece.name].value.Text? ==> out == "")
    && (piece.Hole? && piece.name !in record ==> out == "")
  }

  lemma {:induction false} FillFills(pieces: seq<Piece>, record: Record)
    ensures IsFilled(pieces, record, Fill(pieces, record))
  {
    if pieces != [] {
      FillFills(pieces[1..], record);
      var out, rest := Fill(pieces, record), Fill(pieces[1..], record);
      var n := |out| - |rest|;
      assert out[n..] == rest;
      assert IsPiece(pieces[0], record, out[..n]);
    }
  }

  /** What a transform makes of a value. */
  predicate IsTransformed(v: Value, t: Transform, record: Record, out: Value) {
    match t
    case NoTransform => out == v
    case Lookup(values, fallback) => LooksUp(v, values, fallback, out)
    case Template(pieces) => out.Text? && IsFilled(pieces, record, out.text)
    case Truncate(length) => IsCut(v, length, out)
  }

  lemma {:induction false} FindMeans(values: seq<Pair>, key: string)
    ensures Find(values, key).Some? <==> exists i :: 0 <= i < |values| && values[i].key == key
    ensures Find(values, key).Some? ==>
              exists i :: 0 <= i < |values| && values[i].key == key && Find(values, key).value == values[i].value
  {
    if values != [] {
      FindMeans(values[1..], key);
      assert forall i :: 1 <= i < |values| ==> values[i] == values[1..][i - 1];
    }
  }

  lemma TransformMeans(v: Value, t: Transform, record: Record)
    ensures IsTransformed(v, t, record, ApplyTransform(v, t, record))
  {
    if t.Lookup? { FindMeans(t.values, if v.Text? then v.text else ""); }
    if t.Template? { FillFills(t.pieces, record); }
  }

  /** A text that is a level but for its capitals. */
  predicate LevelOf(out: Value, low: string) {
    low in {"high", "medium", "low"} && SameButCase(if out.Text? then out.text else "", low)
  }

  /**
   * A field the record lacks is left out; any other entry puts what its transform makes of what
   * the record says, and in the place of a level only one of the levels.
   */
  ghost predicate ReadsRight(e: Entry, record: Record, patch: map<string, Value>) {
    exists v, out :: Says(record, e.external, v) && IsTransformed(v, e.transform, record, out) && Puts(e, v, out, patch)
  }

  predicate Puts(e: Entry, v: Value, out: Value, patch: map<string, Value>) {
    if v.Undefined? then e.xms !in patch
    else if e.xms == "impact" || e.xms == "urgency" then
      if exists low | low in {"high", "medium", "low"} :: LevelOf(out, low)
      then e.xms in patch && patch[e.xms].Text? && LevelOf(out, patch[e.xms].text)
      else e.xms !in patch
    else e.xms in patch && patch[e.xms] == out
  }

  lemma EntryReads(entries: seq<Entry>, record: Record, i: nat)
    requires OncePerDirection(entries) && i < |entries| && !entries[i].direction.Out?
    ensures ReadsRight(entries[i], record, Patch(entries, record))
  {
    var e := entries[i];
    var v := Pick(record, e.external);
    var out := ApplyTransform(v, e.transform, record);
    PatchReads(entries, record, i);
    PickSays(record, e.external);
    TransformMeans(v, e.transform, record);
    forall low | low in LEVELS ensures LevelOf(out, low) <==> Lower(OrEmpty(out)) == low { LowerMeans(OrEmpty(out), low); }
    hide Pick, ApplyTransform, Lower, IsTransformed, Says, SameButCase, LevelOf;
    assert Puts(e, v, out, Patch(entries, record));
  }

  lemma {:induction false} MissingMeans(entries: seq<Entry>, record: Record, field: string)
    ensures field in Missing(entries, record)
            <==> Pick(record, field).Undefined?
                 && exists i :: 0 <= i < |entries| && !entries[i].direction.Out? && entries[i].external == field
  {
    hide Pick;
    if entries != [] { MissingMeans(entries[..|entries| - 1], record, field); }
  }

  // ---- What an outbound entry writes -------------------------------------------------------------

  /** The text has a way back through the transform, and this is it. */
  predicate Reverses(t: Transform, text: string, out: string) {
    match t
    case NoTransform => out == text
    case Lookup(values, _) =>
      && (exists i :: 0 <= i < |values| && values[i] == Pair(out, text))
      && (forall i :: 0 <= i < |values| && values[i].value == text ==> AtMost(out, values[i].key))
    case Template(_) => false
    case Truncate(length) => out <= text && |out| == if |text| < length then |text| else length
  }

  predicate HasReverse(t: Transform, text: string) {
    !t.Template? && (t.Lookup? ==> exists i :: 0 <= i < |t.values| && t.values[i].value == text)
  }

  /** The entry is outbound, its field is asked for and the ticket has it. */
  predicate AskedFor(e: Entry, values: map<string, string>, only: Option<set<string>>) {
    (e.direction == Out || e.direction == Both) && e.xms in values && (only == None || e.xms in only.value)
  }

  lemma ReverseMeans(t: Transform, text: string)
    ensures ReverseTransform(text, t).Some? <==> HasReverse(t, text)
    ensures ReverseTransform(text, t).Some? ==> Reverses(t, text, ReverseTransform(text, t).value)
  {
    if t.Lookup? { LowestKeyIsLeast(t.values, text); }
  }

  /** An entry asked for that has a way back writes the external field. */
  predicate SomeWrites(entries: seq<Entry>, values: map<string, string>, only: Option<set<string>>, external: string) {
    exists i :: 0 <= i < |entries| && entries[i].external == external && WritesBack(entries[i], values, only)
  }

  predicate SomeSends(entries: seq<Entry>, values: map<string, string>, only: Option<set<string>>, xms: string) {
    exists i :: 0 <= i < |entries| && entries[i].xms == xms && WritesBack(entries[i], values, only)
  }

  /** An entry of the ticket field that is asked for has no way back. */
  predicate SomeLacks(entries: seq<Entry>, values: map<string, string>, only: Option<set<string>>, xms: string) {
    exists i :: 0 <= i < |entries| && entries[i].xms == xms && Lacks(entries[i], values, only)
  }

  predicate Lacks(e: Entry, values: map<string, string>, only: Option<set<string>>) {
    AskedFor(e, values, only) && !HasReverse(e.transform, values[e.xms])
  }

  lemma SomeLast(entries: seq<Entry>, values: map<string, string>, only: Option<set<string>>, name: string)
    requires entries != []
    ensures var init, e := entries[..|entries| - 1], entries[|entries| - 1];
            && (SomeWrites(entries, values, only, name)
                <==> SomeWrites(init, values, only, name) || (e.external == name && WritesBack(e, values, only)))
            && (SomeSends(entries, values, only, name)
                <==> SomeSends(init, values, only, name) || (e.xms == name && WritesBack(e, values, only)))
            && (SomeLacks(entries, values, only, name)
                <==> SomeLacks(init, values, only, name) || (e.xms == name && Lacks(e, values, only)))
  {
    hide WritesBack, Lacks;
    var init := entries[..|entries| - 1];
    assert forall i :: 0 <= i < |init| ==> init[i] == entries[i];
  }

  /**
   * A body writes a field exactly where an entry asked for has a way back for its value, and holds
   * such a way back; what is sent, and what has none, are told apart.
   */
  lemma {:induction false} OutboundMeans(entries: seq<Entry>, values: map<string, string>, only: Option<set<string>>, name: string)
    ensures var o := Translated(entries, values, only);
            && (name in o.body <==> SomeWrites(entries, values, only, name))
            && (name in o.sent <==> SomeSends(entries, values, only, name))
            && (name in o.sent ==> name in values && o.sent[name] == values[name])
            && (name in o.unmapped <==> SomeLacks(entries, values, only, name))
  {
    if entries != [] {
      var n := |entries| - 1;
      OutboundMeans(entries[..n], values, only, name);
      if AskedFor(entries[n], values, only) { ReverseMeans(entries[n].transform, values[entries[n].xms]); }
      SomeLast(entries, values, only, name);
      hide ReverseTransform, HasReverse, SomeWrites, SomeSends, SomeLacks;
    }
  }

  /** What it holds for a field is a way back of the value of the last entry to write there. */
  lemma WrittenReverses(entries: seq<Entry>, values: map<string, string>, only: Option<set<string>>, external: string)
    requires external in Translated(entries, values, only).body
    ensures exists i :: 0 <= i < |entries| && entries[i].external == external && entries[i].xms in values
                        && Reverses(entries[i].transform, values[entries[i].xms], Translated(entries, values, only).body[external])
  {
    BodyHolds(entries, values, only, external);
    var j := LastSender(entries, values, only, external).value;
    ReverseMeans(entries[j].transform, values[entries[j].xms]);
    hide Reverses, ReverseTransform, Translated;
  }

  predicate WritesBack(e: Entry, values: map<string, string>, only: Option<set<string>>) {
    AskedFor(e, values, only) && HasReverse(e.transform, values[e.xms])
  }
}
