/** What a field map version must satisfy before it can be activated. */
module SyncMapCheck {
  import opened Wrappers
  import opened SyncMaps

  datatype Problem =
    | UnknownField(index: nat)
    | NotInDictionary(index: nat)
    | TruncateLength(index: nat)
    | LookupGap(index: nat)
    | RequiredUnmapped(field: string)
    | MappedInboundTwice(field: string)
    | MappedOutboundTwice(field: string)

  predicate SampleCovered(e: Entry, sample: Record)
    requires e.transform.Lookup?
  {
    var v := Pick(sample, e.external);
    v.Text? ==> Find(e.transform.values, v.text).Some?
  }

  /** Every value the samples show is in the lookup, or there is a value for the rest. */
  predicate LookupCovers(e: Entry, samples: seq<Record>) {
    e.transform.Lookup? && e.transform.fallback.None? ==>
      forall k :: 0 <= k < |samples| ==> SampleCovered(e, samples[k])
  }

  predicate EntryOk(e: Entry, dictionary: set<string>, samples: seq<Record>) {
    && e.xms in XMS_FIELDS
    && (dictionary != {} ==> e.external in dictionary)
    && (e.transform.Truncate? ==> e.transform.length > 0)
    && LookupCovers(e, samples)
  }

  predicate MappedInbound(entries: seq<Entry>, field: string) {
    exists i :: 0 <= i < |entries| && !entries[i].direction.Out? && entries[i].xms == field
  }

  predicate Acceptable(entries: seq<Entry>, dictionary: set<string>, samples: seq<Record>) {
    && (forall i :: 0 <= i < |entries| ==> EntryOk(entries[i], dictionary, samples))
    && RequiredMapped(entries)
    && OncePerDirection(entries)
  }

  /** How many entries map the field in one direction. */
  function Times(entries: seq<Entry>, inbound: bool, field: string): nat {
    if entries == [] then 0
    else
      var e := entries[|entries| - 1];
      Times(entries[..|entries| - 1], inbound, field) + if e.xms == field && Counts(e, inbound) then 1 else 0
  }

  predicate Counts(e: Entry, inbound: bool) {
    if inbound then !e.direction.Out? else !e.direction.In?
  }

  predicate CountedUpTo(counts: map<string, nat>, entries: seq<Entry>, inbound: bool) {
    && (forall f :: f in counts ==> counts[f] == Times(entries, inbound, f) > 0)
    && (forall i :: 0 <= i < |entries| && Counts(entries[i], inbound) ==> entries[i].xms in counts)
  }

  function Tally(counts: map<string, nat>, e: Entry, inbound: bool): map<string, nat> {
    if Counts(e, inbound) then counts[e.xms := (if e.xms in counts then counts[e.xms] else 0) + 1] else counts
  }

  lemma TallyCounts(counts: map<string, nat>, entries: seq<Entry>, i: nat, inbound: bool)
    requires i < |entries| && CountedUpTo(counts, entries[..i], inbound)
    ensures CountedUpTo(Tally(counts, entries[i], inbound), entries[..i + 1], inbound)
  {
    assert entries[..i + 1][..i] == entries[..i];
    if entries[i].xms !in counts { NeverCounted(counts, entries[..i], inbound, entries[i].xms); }
  }

  lemma {:induction false} NeverCounted(counts: map<string, nat>, entries: seq<Entry>, inbound: bool, field: string)
    requires field !in counts
    requires forall i :: 0 <= i < |entries| && Counts(entries[i], inbound) ==> entries[i].xms in counts
    ensures Times(entries, inbound, field) == 0
  {
    if entries != [] { NeverCounted(counts, entries[..|entries| - 1], inbound, field); }
  }

  predicate Repeats(entries: seq<Entry>, inbound: bool, field: string) {
    exists i, j :: 0 <= i < j < |entries| && entries[i].xms == entries[j].xms == field
                   && Counts(entries[i], inbound) && Counts(entries[j], inbound)
  }

  lemma {:induction false} TimesMeaning(entries: seq<Entry>, inbound: bool, field: string)
    ensures Times(entries, inbound, field) > 0 <==>
              exists i :: 0 <= i < |entries| && entries[i].xms == field && Counts(entries[i], inbound)
    ensures Times(entries, inbound, field) > 1 <==> Repeats(entries, inbound, field)
  {
    if entries != [] {
      var n := |entries| - 1;
      TimesMeaning(entries[..n], inbound, field);
      hide Counts;
    }
  }

  predicate NoRepeats(entries: seq<Entry>, inbound: bool) {
    forall f :: f in Fields(entries) ==> !Repeats(entries, inbound, f)
  }

  function Fields(entries: seq<Entry>): set<string> { set i | 0 <= i < |entries| :: entries[i].xms }

  lemma OnceMeans(entries: seq<Entry>)
    ensures OncePerDirection(entries) <==> NoRepeats(entries, true) && NoRepeats(entries, false)
  {
    if !OncePerDirection(entries) {
      var i, j :| 0 <= i < j < |entries| && entries[i].xms == entries[j].xms
                  && !((entries[i].direction.Out? || entries[j].direction.Out?)
                       && (entries[i].direction.In? || entries[j].direction.In?));
      assert entries[i].xms in Fields(entries);
      assert Repeats(entries, true, entries[i].xms) || Repeats(entries, false, entries[i].xms);
    }
  }

  method Doubled(counts: map<string, nat>, entries: seq<Entry>, inbound: bool) returns (problems: seq<Problem>)
    requires CountedUpTo(counts, entries, inbound)
    ensures problems == [] <==> NoRepeats(entries, inbound)
  {
    problems := [];
    var left := counts.Keys;
    while left != {}
      invariant left <= counts.Keys
      invariant problems == [] <==> forall f :: f in counts.Keys - left ==> counts[f] <= 1
    {
      assert (forall f :: f !in left) ==> left == {};
      var field :| field in left;
      left := left - {field};
      if counts[field] > 1 {
        problems := problems + [if inbound then MappedInboundTwice(field) else MappedOutboundTwice(field)];
      }
    }
    forall f ensures Repeats(entries, inbound, f) <==> f in counts && counts[f] > 1 {
      TimesMeaning(entries, inbound, f);
    }
    hide Repeats;
    forall f | f in counts && counts[f] > 1 ensures f in Fields(entries) { TimesMeaning(entries, inbound, f); }
  }

  method Gaps(e: Entry, index: nat, samples: seq<Record>) returns (problems: seq<Problem>)
    requires e.transform.Lookup?
    ensures problems == [] <==> LookupCovers(e, samples)
  {
    var gap := false;
    for k := 0 to |samples|
      invariant gap <==> exists j :: 0 <= j < k && !SampleCovered(e, samples[j])
    {
      if !SampleCovered(e, samples[k]) { gap := true; }
    }
    problems := if gap && e.transform.fallback.None? then [LookupGap(index)] else [];
  }

  method EntryProblems(e: Entry, index: nat, dictionary: set<string>, samples: seq<Record>)
    returns (problems: seq<Problem>)
    ensures problems == [] <==> EntryOk(e, dictionary, samples)
  {
    hide LookupCovers;
    problems := [];
    if e.xms !in XMS_FIELDS { problems := problems + [UnknownField(index)]; }
    if dictionary != {} && e.external !in dictionary { problems := problems + [NotInDictionary(index)]; }
    if e.transform.Truncate? && e.transform.length == 0 { problems := problems + [TruncateLength(index)]; }
    OnlyLookups(e, samples);
    if e.transform.Lookup? {
      var gaps := Gaps(e, index, samples);
      problems := problems + gaps;
    }
  }

  predicate RequiredMapped(entries: seq<Entry>) {
    forall f :: f in REQUIRED_FIELDS ==> MappedInbound(entries, f)
  }

  method RequiredProblems(inbound: map<string, nat>, entries: seq<Entry>) returns (problems: seq<Problem>)
    requires CountedUpTo(inbound, entries, true)
    ensures problems == [] <==> RequiredMapped(entries)
  {
    problems := [];
    RequiredCounted(inbound, entries, "short_description");
    RequiredCounted(inbound, entries, "requester_email");
    hide CountedUpTo, MappedInbound;
    if "short_description" !in inbound { problems := problems + [RequiredUnmapped("short_description")]; }
    if "requester_email" !in inbound { problems := problems + [RequiredUnmapped("requester_email")]; }
  }

  /** The blocking problems of a map version; warnings do not block. */
  method ValidateFieldMap(entries: seq<Entry>, dictionary: set<string>, samples: seq<Record>)
    returns (problems: seq<Problem>)
    ensures problems == [] <==> Acceptable(entries, dictionary, samples)
  {
    hide EntryOk, CountedUpTo, NoRepeats, OncePerDirection, RequiredMapped, Tally;
    problems := [];
    var inbound: map<string, nat>, outbound: map<string, nat> := map[], map[];
    NothingCounted(entries);
    for i := 0 to |entries|
      invariant problems == [] <==> forall j :: 0 <= j < i ==> EntryOk(entries[j], dictionary, samples)
      invariant CountedUpTo(inbound, entries[..i], true) && CountedUpTo(outbound, entries[..i], false)
    {
      var entry := entries[i];
      TallyCounts(inbound, entries, i, true);
      TallyCounts(outbound, entries, i, false);
      inbound, outbound := Tally(inbound, entry, true), Tally(outbound, entry, false);
      var found := EntryProblems(entry, i, dictionary, samples);
      problems := problems + found;
    }
    assert entries[..|entries|] == entries;
    var required := RequiredProblems(inbound, entries);
    var twiceIn := Doubled(inbound, entries, true);
    var twiceOut := Doubled(outbound, entries, false);
    problems := problems + required + twiceIn + twiceOut;
    OnceMeans(entries);
  }

  lemma NothingCounted(entries: seq<Entry>)
    ensures CountedUpTo(map[], entries[..0], true) && CountedUpTo(map[], entries[..0], false)
  {
  }

  lemma OnlyLookups(e: Entry, samples: seq<Record>)
    ensures !e.transform.Lookup? ==> LookupCovers(e, samples)
  {
  }

  lemma RequiredCounted(counts: map<string, nat>, entries: seq<Entry>, field: string)
    requires CountedUpTo(counts, entries, true)
    ensures field in counts <==> MappedInbound(entries, field)
  {
    TimesMeaning(entries, true, field);
  }

  const MAIL := Entry("u_mail", "requester_email", In, NoTransform, None)
  const SHORT := Entry("u_text", "short_description", Both, NoTransform, None)
  const LONG := Entry("u_text", "description", Both, NoTransform, None)

  /** An accepted map may still let two ticket fields write one external field; then only the later is kept. */
  lemma AcceptedMapLosesAField(first: string, second: string)
    ensures Acceptable([MAIL, SHORT, LONG], {}, [])
    ensures var values := map["short_description" := first, "description" := second];
            var body := Translated([MAIL, SHORT, LONG], values, None).body;
            var after := Patch([MAIL, SHORT, LONG], Written(map[], body));
            "short_description" in after && after["short_description"] == Text(second)
  {
    SharedIsAcceptable();
    hide Acceptable;
    var values := map["short_description" := first, "description" := second];
    SharedBody(values);
    hide Translated, Patch;
    var written := Written(map[], map["u_text" := second]);
    assert Pick(written, "u_text") == Text(second);
    SharedPatch(written);
  }

  lemma SharedIsAcceptable()
    ensures Acceptable([MAIL, SHORT, LONG], {}, [])
  {
    MappedThere([MAIL, SHORT, LONG], 0);
    MappedThere([MAIL, SHORT, LONG], 1);
    hide MappedInbound;
  }

  lemma SharedBody(values: map<string, string>)
    requires "short_description" in values && "description" in values
    ensures Translated([MAIL, SHORT, LONG], values, None).body == map["u_text" := values["description"]]
  {
    assert [MAIL, SHORT, LONG] == [MAIL] + [SHORT] + [LONG];
    OneEntry(MAIL, values, None, map[]);
    EntryNext([MAIL], SHORT, values, map[]);
    EntryNext([MAIL] + [SHORT], LONG, values, map[]);
    hide Translated;
  }

  lemma SharedPatch(record: Record)
    requires Pick(record, "u_text").Text?
    ensures var patch := Patch([MAIL, SHORT, LONG], record);
            "short_description" in patch && patch["short_description"] == Pick(record, "u_text")
  {
    assert [MAIL, SHORT, LONG] == [MAIL] + [SHORT] + [LONG];
    EntryNext([MAIL], SHORT, map[], record);
    EntryNext([MAIL] + [SHORT], LONG, map[], record);
    hide Patch;
  }

  lemma MappedThere(entries: seq<Entry>, i: nat)
    requires i < |entries| && !entries[i].direction.Out?
    ensures MappedInbound(entries, entries[i].xms)
  {
  }

  lemma EntryNext(entries: seq<Entry>, e: Entry, values: map<string, string>, record: Record)
    ensures Translated(entries + [e], values, None) == WriteWith(Translated(entries, values, None), e, values, None)
    ensures Patch(entries + [e], record) == PatchWith(Patch(entries, record), e, record)
  {
    assert (entries + [e])[..|entries|] == entries;
  }
}
