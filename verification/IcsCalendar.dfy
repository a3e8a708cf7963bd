/** The calendar feed: events to a document, and the document back to its events. */
module IcsCalendar {
  import opened Wrappers
  import opened Ics
  import opened IcsDocument

  datatype Status = Confirmed | Tentative | Cancelled

  /** Instants are given as the UTC stamps the writer prints. */
  datatype Event = Event(
    uid: Bytes,
    start: Bytes,
    end: Bytes,
    summary: Bytes,
    description: Option<Bytes>,
    status: Status,
    sequence: int,
    lastModified: Option<Bytes>,
    transparent: bool
  )

  datatype Options = Options(name: Bytes, stamp: Bytes, productId: Bytes)

  // ---- Words ---------------------------------------------------------------------------

  const VCALENDAR: Bytes := [86, 67, 65, 76, 69, 78, 68, 65, 82]
  const VEVENT: Bytes := [86, 69, 86, 69, 78, 84]
  const VERSION_2: Bytes := [50, 46, 48]
  const GREGORIAN: Bytes := [71, 82, 69, 71, 79, 82, 73, 65, 78]
  const PUBLISH: Bytes := [80, 85, 66, 76, 73, 83, 72]
  const CONFIRMED: Bytes := [67, 79, 78, 70, 73, 82, 77, 69, 68]
  const TENTATIVE: Bytes := [84, 69, 78, 84, 65, 84, 73, 86, 69]
  const CANCELLED: Bytes := [67, 65, 78, 67, 69, 76, 76, 69, 68]
  const TRANSPARENT: Bytes := [84, 82, 65, 78, 83, 80, 65, 82, 69, 78, 84]
  const OPAQUE: Bytes := [79, 80, 65, 81, 85, 69]

  function StatusWord(s: Status): Bytes {
    match s case Confirmed => CONFIRMED case Tentative => TENTATIVE case Cancelled => CANCELLED
  }

  function Decimal(n: nat): Bytes {
    var digit: Byte := 48 + n % 10;
    if n < 10 then [digit] else Decimal(n / 10) + [digit]
  }

  function ReadDecimal(s: Bytes): int {
    if s == [] then 0 else ReadDecimal(s[..|s| - 1]) * 10 + s[|s| - 1] - 48
  }

  predicate Digits(s: Bytes) {
    forall i :: 0 <= i < |s| ==> 48 <= s[i] < 58
  }

  lemma {:induction false} DecimalReadsBack(n: nat)
    ensures ReadDecimal(Decimal(n)) == n && Digits(Decimal(n))
  {
    var digit: Byte := 48 + n % 10;
    if n < 10 {
      assert [digit][..0] == [];
    } else {
      DecimalReadsBack(n / 10);
      assert (Decimal(n / 10) + [digit])[..|Decimal(n / 10)|] == Decimal(n / 10);
    }
  }

  // ---- Writing ---------------------------------------------------------------------------

  function Max(a: int, b: int): int { if a >= b then a else b }

  function Optional(name: string, value: Option<Bytes>): seq<Content> {
    if value.Some? then [Content(name, value.value)] else []
  }

  /** An empty description is left out like a missing one. */
  function Described(e: Event): Option<Bytes> {
    if e.description.Some? && e.description.value != [] then Some(EscapeText(e.description.value)) else None
  }

  function EventContents(e: Event, stamp: Bytes): seq<Content> {
    EventHead(e, stamp) + Optional("DESCRIPTION", Described(e))
    + EventTail(e) + Optional("LAST-MODIFIED", e.lastModified) + [Content("END", VEVENT)]
  }

  function EventHead(e: Event, stamp: Bytes): seq<Content> {
    [Content("BEGIN", VEVENT), Content("UID", EscapeText(e.uid)), Content("DTSTAMP", stamp),
     Content("DTSTART", e.start), Content("DTEND", e.end), Content("SUMMARY", EscapeText(e.summary))]
  }

  function EventTail(e: Event): seq<Content> {
    [Content("STATUS", StatusWord(e.status)), Content("SEQUENCE", Decimal(Max(0, e.sequence))),
     Content("TRANSP", if e.transparent then TRANSPARENT else OPAQUE)]
  }

  function Header(options: Options): seq<Content> {
    [Content("BEGIN", VCALENDAR), Content("VERSION", VERSION_2), Content("PRODID", EscapeText(options.productId)),
     Content("CALSCALE", GREGORIAN), Content("METHOD", PUBLISH), Content("X-WR-CALNAME", EscapeText(options.name))]
  }

  function Body(events: seq<Event>, stamp: Bytes): seq<Content> {
    if events == [] then [] else Body(events[..|events| - 1], stamp) + EventContents(events[|events| - 1], stamp)
  }

  function Contents(events: seq<Event>, options: Options): seq<Content> {
    Header(options) + Body(events, options.stamp) + [Content("END", VCALENDAR)]
  }

  // ---- Reading -----------------------------------------------------------------------------

  /** What a feed says of itself. */
  datatype Feed = Feed(version: string, scale: string, action: string, productId: Bytes, name: Bytes)

  /** An event as it is read, with its time stamp. */
  datatype Entry = Entry(stamp: Bytes, event: Event)

  /** The entries completed and the one being read, the components open, and whether all was well formed. */
  datatype Reader = Reader(feed: Feed, entries: seq<Entry>, current: Entry, open: seq<string>, sound: bool)

  const BLANK := Entry([], Event([], [], [], [], None, Confirmed, 0, None, false))

  const START := Reader(Feed("", "", "", [], []), [], BLANK, [], true)

  /** A calendar stands alone and an event in a calendar. */
  predicate Nests(open: seq<string>, component: string) {
    (component == "VCALENDAR" && open == []) || (component == "VEVENT" && open == ["VCALENDAR"])
  }

  function Begin(r: Reader, component: string): Reader {
    r.(current := BLANK, open := r.open + [component], sound := r.sound && Nests(r.open, component))
  }

  function End(r: Reader, component: string): Reader {
    r.(entries := if component == "VEVENT" then r.entries + [r.current] else r.entries,
       open := if r.open == [] then [] else r.open[..|r.open| - 1],
       sound := r.sound && r.open != [] && r.open[|r.open| - 1] == component)
  }

  /** One property of the feed or of the event, in whatever order they come. */
  function Take(r: Reader, c: Content): Reader {
    var word := Decode(c.value);
    if c.name == "BEGIN" then Begin(r, word)
    else if c.name == "END" then End(r, word)
    else if c.name == "VERSION" then r.(feed := r.feed.(version := word))
    else if c.name == "CALSCALE" then r.(feed := r.feed.(scale := word))
    else if c.name == "METHOD" then r.(feed := r.feed.(action := word))
    else if c.name == "PRODID" then r.(feed := r.feed.(productId := UnescapeText(c.value)))
    else if c.name == "X-WR-CALNAME" then r.(feed := r.feed.(name := UnescapeText(c.value)))
    else if c.name == "DTSTAMP" then r.(current := r.current.(stamp := c.value))
    else if c.name == "STATUS" then
      r.(current := r.current.(event := r.current.event.(status := ReadStatus(word))),
         sound := r.sound && word in ["CONFIRMED", "TENTATIVE", "CANCELLED"])
    else if c.name == "TRANSP" then
      r.(current := r.current.(event := r.current.event.(transparent := word == "TRANSPARENT")),
         sound := r.sound && word in ["TRANSPARENT", "OPAQUE"])
    else r.(current := r.current.(event := TakeField(r.current.event, c)))
  }

  function ReadStatus(word: string): Status {
    if word == "TENTATIVE" then Tentative else if word == "CANCELLED" then Cancelled else Confirmed
  }

  function TakeField(e: Event, c: Content): Event {
    if c.name == "UID" then e.(uid := UnescapeText(c.value))
    else if c.name == "DTSTART" then e.(start := c.value)
    else if c.name == "DTEND" then e.(end := c.value)
    else if c.name == "SUMMARY" then e.(summary := UnescapeText(c.value))
    else if c.name == "DESCRIPTION" then e.(description := Some(UnescapeText(c.value)))
    else if c.name == "SEQUENCE" then e.(sequence := ReadDecimal(c.value))
    else if c.name == "LAST-MODIFIED" then e.(lastModified := Some(c.value))
    else e
  }

  function TakeAll(r: Reader, contents: seq<Content>): Reader
    decreases |contents|
  {
    if contents == [] then r else TakeAll(Take(r, contents[0]), contents[1..])
  }

  function ReadCalendar(document: Bytes): Reader {
    TakeAll(START, ReadDocument(document))
  }

  /** What survives the document: line breaks as line feeds, no empty description, no negative sequence. */
  function Published(e: Event): Event {
    e.(uid := Normalised(e.uid),
       summary := Normalised(e.summary),
       description := if e.description.Some? && e.description.value != [] then Some(Normalised(e.description.value))
                      else None,
       sequence := if e.sequence < 0 then 0 else e.sequence)
  }

  function PublishedAll(events: seq<Event>, stamp: Bytes): seq<Entry> {
    seq(|events|, i requires 0 <= i < |events| => Entry(stamp, Published(events[i])))
  }

  lemma {:induction false} TakeAppend(r: Reader, first: seq<Content>, second: seq<Content>)
    ensures TakeAll(r, first + second) == TakeAll(TakeAll(r, first), second)
    decreases |first|
  {
    if first == [] {
      assert first + second == second;
    } else {
      assert (first + second)[1..] == first[1..] + second;
      TakeAppend(Take(r, first[0]), first[1..], second);
    }
  }

  lemma TakeOne(r: Reader, c: Content)
    ensures TakeAll(r, [c]) == Take(r, c)
  {
    var rest := [c][1..];
    assert rest == [] && TakeAll(Take(r, c), rest) == Take(r, c);
  }

  lemma {:induction false} TakeFirst(r: Reader, c: Content, rest: seq<Content>)
    ensures TakeAll(r, [c] + rest) == TakeAll(Take(r, c), rest)
  {
    assert ([c] + rest)[1..] == rest;
  }

  /** A reader inside a calendar and outside its events. */
  predicate InCalendar(r: Reader) { r.sound && r.open == ["VCALENDAR"] }

  lemma EventReadsBack(r: Reader, e: Event, stamp: Bytes)
    requires InCalendar(r)
    ensures var read := Entry(stamp, Published(e));
            TakeAll(r, EventContents(e, stamp)) == r.(entries := r.entries + [read], current := read)
  {
    hide TakeAll, EventHead, EventTail, Normalised, EscapeText, Optional;
    var described, modified := Optional("DESCRIPTION", Described(e)), Optional("LAST-MODIFIED", e.lastModified);
    HeadReads(r, e, stamp);
    var r1 := TakeAll(r, EventHead(e, stamp));
    DescriptionReads(r1, e);
    var r2 := TakeAll(r1, described);
    TailReads(r2, e);
    var r3 := TakeAll(r2, EventTail(e));
    ModifiedReads(r3, e);
    EndReads(TakeAll(r3, modified), r.open);
    FiveParts(r, EventHead(e, stamp), described, EventTail(e), modified, [Content("END", VEVENT)]);
  }

  lemma FiveParts(r: Reader, a: seq<Content>, b: seq<Content>, c: seq<Content>, d: seq<Content>, e: seq<Content>)
    ensures TakeAll(r, a + b + c + d + e) == TakeAll(TakeAll(TakeAll(TakeAll(TakeAll(r, a), b), c), d), e)
  {
    hide TakeAll;
    TakeAppend(r, a, b);
    TakeAppend(r, a + b, c);
    TakeAppend(r, a + b + c, d);
    TakeAppend(r, a + b + c + d, e);
  }

  lemma DescriptionReads(r: Reader, e: Event)
    requires r.current.event.description == None
    ensures TakeAll(r, Optional("DESCRIPTION", Described(e)))
            == r.(current := r.current.(event := r.current.event.(description := Published(e).description)))
  {
    hide TakeAll, EscapeText, UnescapeText, Normalised;
    TakeOptional(r, "DESCRIPTION", Described(e));
    if e.description.Some? { EscapeReadsBack(e.description.value); }
  }

  lemma ModifiedReads(r: Reader, e: Event)
    requires r.current.event.lastModified == None
    ensures TakeAll(r, Optional("LAST-MODIFIED", e.lastModified))
            == r.(current := r.current.(event := r.current.event.(lastModified := e.lastModified)))
  {
    hide TakeAll;
    TakeOptional(r, "LAST-MODIFIED", e.lastModified);
  }

  lemma EndReads(r: Reader, outer: seq<string>)
    requires r.sound && r.open == outer + ["VEVENT"]
    ensures TakeAll(r, [Content("END", VEVENT)]) == r.(entries := r.entries + [r.current], open := outer)
  {
    hide TakeAll;
    WordsRead();
    TakeOne(r, Content("END", VEVENT));
    assert r.open[..|r.open| - 1] == outer;
  }

  lemma WordsRead()
    ensures Decode(VCALENDAR) == "VCALENDAR" && Decode(VEVENT) == "VEVENT" && Decode(VERSION_2) == "2.0"
    ensures Decode(GREGORIAN) == "GREGORIAN" && Decode(PUBLISH) == "PUBLISH"
    ensures Decode(TRANSPARENT) == "TRANSPARENT" && Decode(OPAQUE) == "OPAQUE"
    ensures Decode(CONFIRMED) == "CONFIRMED" && Decode(TENTATIVE) == "TENTATIVE" && Decode(CANCELLED) == "CANCELLED"
  {
  }

  lemma TakeOptional(r: Reader, name: string, value: Option<Bytes>)
    ensures TakeAll(r, Optional(name, value)) == if value.Some? then Take(r, Content(name, value.value)) else r
  {
    if value.Some? { TakeOne(r, Content(name, value.value)); }
  }

  lemma HeadReads(r: Reader, e: Event, stamp: Bytes)
    requires InCalendar(r)
    ensures TakeAll(r, EventHead(e, stamp))
            == r.(current := Entry(stamp, BLANK.event.(uid := Normalised(e.uid), start := e.start, end := e.end,
                                                       summary := Normalised(e.summary))),
                  open := r.open + ["VEVENT"])
  {
    hide EscapeText, UnescapeText, Normalised, TakeAll;
    WordsRead();
    EscapeReadsBack(e.uid);
    EscapeReadsBack(e.summary);
    SixContents(r, EventHead(e, stamp));
  }

  lemma SixContents(r: Reader, c: seq<Content>)
    requires |c| == 6
    ensures TakeAll(r, c) == Take(Take(Take(Take(Take(Take(r, c[0]), c[1]), c[2]), c[3]), c[4]), c[5])
  {
    hide Take;
    TakeThree(r, c[..3]);
    TakeThree(TakeAll(r, c[..3]), c[3..]);
    assert c == c[..3] + c[3..];
    TakeAppend(r, c[..3], c[3..]);
  }

  lemma TakeThree(r: Reader, c: seq<Content>)
    requires |c| == 3
    ensures TakeAll(r, c) == Take(Take(Take(r, c[0]), c[1]), c[2])
  {
    hide Take, TakeAll;
    assert c == [c[0]] + ([c[1]] + [c[2]]);
    TakeFirst(r, c[0], [c[1]] + [c[2]]);
    TakeFirst(Take(r, c[0]), c[1], [c[2]]);
    TakeOne(Take(Take(r, c[0]), c[1]), c[2]);
  }

  lemma TailReads(r: Reader, e: Event)
    ensures TakeAll(r, EventTail(e))
            == r.(current := r.current.(event := r.current.event.(
                    status := e.status, sequence := if e.sequence < 0 then 0 else e.sequence,
                    transparent := e.transparent)))
  {
    hide TakeAll, Decimal, ReadDecimal;
    DecimalReadsBack(Max(0, e.sequence));
    StatusReadsBack(e.status);
    WordsRead();
    TakeThree(r, EventTail(e));
  }

  lemma StatusReadsBack(s: Status)
    ensures ReadStatus(Decode(StatusWord(s))) == s
  {
    WordsRead();
  }

  lemma HeaderReads(options: Options)
    ensures TakeAll(START, Header(options))
            == START.(feed := Feed("2.0", "GREGORIAN", "PUBLISH", Normalised(options.productId), Normalised(options.name)),
                      open := ["VCALENDAR"])
  {
    hide EscapeText, UnescapeText, Normalised, TakeAll;
    WordsRead();
    EscapeReadsBack(options.productId);
    EscapeReadsBack(options.name);
    SixContents(START, Header(options));
  }

  lemma {:induction false} BodyReads(r: Reader, events: seq<Event>, stamp: Bytes)
    requires InCalendar(r)
    ensures var after := TakeAll(r, Body(events, stamp));
            after.feed == r.feed && InCalendar(after) && after.entries == r.entries + PublishedAll(events, stamp)
  {
    if events != [] {
      hide TakeAll, EventContents, Published, PublishedAll;
      var init, last := events[..|events| - 1], events[|events| - 1];
      BodyReads(r, init, stamp);
      TakeAppend(r, Body(init, stamp), EventContents(last, stamp));
      EventReadsBack(TakeAll(r, Body(init, stamp)), last, stamp);
      PublishedNext(r.entries, events, stamp);
    }
  }

  lemma PublishedNext(entries: seq<Entry>, events: seq<Event>, stamp: Bytes)
    requires events != []
    ensures entries + PublishedAll(events[..|events| - 1], stamp) + [Entry(stamp, Published(events[|events| - 1]))]
            == entries + PublishedAll(events, stamp)
  {
    hide Published;
    assert PublishedAll(events, stamp)
        == PublishedAll(events[..|events| - 1], stamp) + [Entry(stamp, Published(events[|events| - 1]))];
  }

  /** The contents of a feed read back to what it says of itself and its events, well formed and all closed. */
  lemma ContentsReadBack(events: seq<Event>, options: Options)
    ensures ReadsAs(TakeAll(START, Contents(events, options)), events, options)
  {
    hide TakeAll, Body, Header, Normalised;
    var end := Content("END", VCALENDAR);
    HeaderReads(options);
    var r1 := TakeAll(START, Header(options));
    BodyReads(r1, events, options.stamp);
    var r2 := TakeAll(r1, Body(events, options.stamp));
    TakeAppend(START, Header(options), Body(events, options.stamp));
    TakeAppend(START, Header(options) + Body(events, options.stamp), [end]);
    WordsRead();
    TakeOne(r2, end);
    assert [] + PublishedAll(events, options.stamp) == PublishedAll(events, options.stamp);
  }

  predicate ReadsAs(r: Reader, events: seq<Event>, options: Options) {
    && r.sound && r.open == []
    && r.feed == Feed("2.0", "GREGORIAN", "PUBLISH", Normalised(options.productId), Normalised(options.name))
    && r.entries == PublishedAll(events, options.stamp)
  }

  // ---- Every line can be written ------------------------------------------------------------

  /** Stamps are digits and the letters T and Z; texts are whole characters. */
  predicate Printable(e: Event) {
    && Whole(e.uid) && Whole(e.summary) && (e.description.Some? ==> Whole(e.description.value))
    && Stamp(e.start) && Stamp(e.end) && (e.lastModified.Some? ==> Stamp(e.lastModified.value))
  }

  predicate Stamp(s: Bytes) { Ascii(s) && NoBreaks(s) }

  predicate PrintableOptions(o: Options) { Whole(o.name) && Whole(o.productId) && Stamp(o.stamp) }

  predicate AllClean(contents: seq<Content>) {
    forall i :: 0 <= i < |contents| ==> Clean(contents[i])
  }

  lemma TextClean(name: string, text: Bytes)
    requires PlainName(name) && Whole(text)
    ensures Clean(Content(name, EscapeText(text)))
  {
    EscapeReadsBack(text);
    EscapeWhole(text);
  }

  lemma WordClean(name: string, word: Bytes)
    requires PlainName(name) && Stamp(word)
    ensures Clean(Content(name, word))
  {
    AsciiWhole(word);
  }

  lemma CleanConcat(a: seq<Content>, b: seq<Content>)
    requires AllClean(a) && AllClean(b)
    ensures AllClean(a + b)
  {}

  lemma HeadClean(e: Event, stamp: Bytes)
    requires Printable(e) && Stamp(stamp)
    ensures AllClean(EventHead(e, stamp)) && AllClean([Content("END", VEVENT)])
  {
    hide Clean, EscapeText, Whole;
    WordClean("BEGIN", VEVENT);
    WordClean("END", VEVENT);
    TextClean("UID", e.uid);
    TextClean("SUMMARY", e.summary);
    WordClean("DTSTAMP", stamp);
    WordClean("DTSTART", e.start);
    WordClean("DTEND", e.end);
  }

  lemma TailClean(e: Event)
    ensures AllClean(EventTail(e))
  {
    hide Clean, Decimal;
    DecimalReadsBack(Max(0, e.sequence));
    WordClean("STATUS", StatusWord(e.status));
    WordClean("SEQUENCE", Decimal(Max(0, e.sequence)));
    WordClean("TRANSP", if e.transparent then TRANSPARENT else OPAQUE);
  }

  lemma EventClean(e: Event, stamp: Bytes)
    requires Printable(e) && Stamp(stamp)
    ensures AllClean(EventContents(e, stamp))
  {
    hide Clean, EscapeText, Whole, EventHead, EventTail;
    HeadClean(e, stamp);
    TailClean(e);
    if e.description.Some? { TextClean("DESCRIPTION", e.description.value); }
    if e.lastModified.Some? { WordClean("LAST-MODIFIED", e.lastModified.value); }
    var described, modified := Optional("DESCRIPTION", Described(e)), Optional("LAST-MODIFIED", e.lastModified);
    CleanConcat(EventHead(e, stamp), described);
    CleanConcat(EventHead(e, stamp) + described, EventTail(e));
    CleanConcat(EventHead(e, stamp) + described + EventTail(e), modified);
    CleanConcat(EventHead(e, stamp) + described + EventTail(e) + modified, [Content("END", VEVENT)]);
  }

  lemma StampOf(o: Options)
    ensures PrintableOptions(o) ==> Stamp(o.stamp)
  {}

  lemma HeaderClean(o: Options)
    requires PrintableOptions(o)
    ensures AllClean(Header(o)) && Clean(Content("END", VCALENDAR))
  {
    hide Clean, EscapeText, Whole;
    WordClean("BEGIN", VCALENDAR);
    WordClean("VERSION", VERSION_2);
    TextClean("PRODID", o.productId);
    WordClean("CALSCALE", GREGORIAN);
    WordClean("METHOD", PUBLISH);
    TextClean("X-WR-CALNAME", o.name);
    WordClean("END", VCALENDAR);
  }

  /** The writer: what a reader that unfolds, splits and unescapes gets is the feed. */
  method WriteCalendar(events: seq<Event>, options: Options) returns (document: Bytes)
    requires PrintableOptions(options) && forall i :: 0 <= i < |events| ==> Printable(events[i])
    ensures ReadsAs(ReadCalendar(document), events, options)
    ensures forall line :: line in SplitLines(document) ==> |line| <= 75 && Whole(line)
  {
    hide Header, EventContents, Clean, Printable, PrintableOptions, TakeAll, ReadDocument, SplitLines, Whole;
    var lines := Header(options);
    HeaderClean(options);
    assert PrintableOptions(options) ==> Stamp(options.stamp) by { StampOf(options); }
    for i := 0 to |events|
      invariant lines == Header(options) + Body(events[..i], options.stamp) && AllClean(lines)
    {
      EventClean(events[i], options.stamp);
      BodyNext(events, i, options);
      CleanConcat(lines, EventContents(events[i], options.stamp));
      lines := lines + EventContents(events[i], options.stamp);
    }
    assert events[..|events|] == events;
    CleanConcat(lines, [Content("END", VCALENDAR)]);
    lines := lines + [Content("END", VCALENDAR)];
    document := FoldAll(lines);
    ContentsReadBack(events, options);
  }

  lemma BodyNext(events: seq<Event>, i: nat, options: Options)
    requires i < |events|
    ensures Header(options) + Body(events[..i + 1], options.stamp)
            == Header(options) + Body(events[..i], options.stamp) + EventContents(events[i], options.stamp)
  {
    hide Header, EventContents;
    assert events[..i + 1][..i] == events[..i];
  }

  /** `lines.map(foldLine)`, joined and closed. */
  method FoldAll(contents: seq<Content>) returns (document: Bytes)
    requires AllClean(contents)
    ensures ReadDocument(document) == contents
    ensures forall line :: line in SplitLines(document) ==> |line| <= 75 && Whole(line)
  {
    hide Render, Folded, JoinFolded;
    document := [];
    ghost var folds: seq<seq<Bytes>> := [];
    ghost var lines := Lines(contents);
    for i := 0 to |contents|
      invariant document == Document(folds) && FoldsOf(folds, lines[..i])
    {
      RenderReadsBack(contents[i]);
      var folded, parts := FoldLine(Render(contents[i]));
      assert (folds + [parts])[..|folds|] == folds;
      document := document + folded + CRLF;
      folds := folds + [parts];
    }
    assert lines[..|contents|] == lines;
    DocumentReadsBack(folds, contents);
    forall i | 0 <= i < |lines| ensures NoBreaks(lines[i]) { RenderReadsBack(contents[i]); }
    PhysicalLinesFit(folds, lines);
  }
}
