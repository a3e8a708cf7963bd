/**
 * The iCalendar document: content lines folded and joined, and the reading that gives the
 * events back.
 */
module IcsDocument {
  import opened Wrappers
  import opened Ics

  const CRLF: Bytes := [CR, LF]

  // ---- Whole characters are kept -----------------------------------------------------

  lemma {:induction false} WholeConcat(s: Bytes, t: Bytes)
    requires Whole(s) && Whole(t)
    ensures Whole(s + t)
    decreases |s|
  {
    if s == [] {
      assert s + t == t;
    } else {
      var w := Width(s[0]);
      WholeConcat(s[w..], t);
      assert (s + t)[w..] == s[w..] + t;
      assert forall i :: 1 <= i < w ==> (s + t)[i] == s[i];
    }
  }

  // ---- Texts are whole characters ------------------------------------------------------

  type CodePoint = c: int | 0 <= c < 0x110000

  /** The octets of a code point (section 3 of RFC 3629). */
  function Utf8(c: CodePoint): Bytes {
    if c < 0x80 then [c]
    else if c < 0x800 then [0xC0 + c / 64, 0x80 + c % 64]
    else if c < 0x1_0000 then [0xE0 + c / 4096, 0x80 + c / 64 % 64, 0x80 + c % 64]
    else [0xF0 + c / 262144, 0x80 + c / 4096 % 64, 0x80 + c / 64 % 64, 0x80 + c % 64]
  }

  function Octets(text: seq<CodePoint>): Bytes {
    if text == [] then [] else Utf8(text[0]) + Octets(text[1..])
  }

  lemma {:induction false} TextIsWhole(text: seq<CodePoint>)
    ensures Whole(Octets(text))
  {
    if text != [] {
      TextIsWhole(text[1..]);
      CharacterIsWhole(text[0]);
      WholeConcat(Utf8(text[0]), Octets(text[1..]));
    }
  }

  lemma CharacterIsWhole(c: CodePoint)
    ensures Whole(Utf8(c)) && Width(Utf8(c)[0]) == |Utf8(c)|
  {
    var octets := Utf8(c);
    assert octets[|octets|..] == [];
  }

  /** Nothing but the first octet of a character can be cut in front of. */
  lemma CharacterContinues(c: CodePoint, i: nat)
    requires i < |Utf8(c)|
    ensures Continues(Utf8(c)[i]) <==> i > 0
  {
  }

  predicate Ascii(s: Bytes) {
    forall i :: 0 <= i < |s| ==> s[i] < 0x80
  }

  lemma {:induction false} AsciiWhole(s: Bytes)
    requires Ascii(s)
    ensures Whole(s)
  {
    if s != [] { AsciiWhole(s[1..]); }
  }

  predicate High(s: Bytes) {
    forall i :: 0 <= i < |s| ==> s[i] >= 0x80
  }

  /** Octets outside ASCII pass the replacements untouched. */
  lemma {:induction false} HighGuard(s: Bytes, t: Bytes)
    requires High(s)
    ensures GuardAll(s + t) == s + GuardAll(t)
    decreases |s|
  {
    if s == [] {
      assert s + t == t;
    } else {
      hide GuardAll;
      assert s + t == [s[0]] + (s[1..] + t);
      HighGuard(s[1..], t);
      GuardCons(s[0], s[1..] + t);
      assert [s[0]] + (s[1..] + GuardAll(t)) == s + GuardAll(t);
    }
  }

  lemma {:induction false} HighBreaks(s: Bytes, t: Bytes)
    requires High(s)
    ensures ReplaceBreaks(s + t, ESCAPED_BREAK) == s + ReplaceBreaks(t, ESCAPED_BREAK)
    decreases |s|
  {
    if s == [] {
      assert s + t == t;
    } else {
      hide ReplaceBreaks;
      assert s + t == [s[0]] + (s[1..] + t);
      HighBreaks(s[1..], t);
      BreaklessHead(s[0], s[1..] + t, ESCAPED_BREAK);
      assert [s[0]] + (s[1..] + ReplaceBreaks(t, ESCAPED_BREAK)) == s + ReplaceBreaks(t, ESCAPED_BREAK);
    }
  }

  lemma {:induction false} GuardWhole(s: Bytes)
    requires Whole(s)
    ensures Whole(GuardAll(s))
    decreases |s|
  {
    if s != [] {
      var w := Width(s[0]);
      GuardWhole(s[w..]);
      if w == 1 {
        AsciiWhole(Guarded(s[0]));
        WholeConcat(Guarded(s[0]), GuardAll(s[1..]));
      } else {
        assert s == s[..w] + s[w..];
        HighGuard(s[..w], s[w..]);
        OneCharacter(s);
        WholeConcat(s[..w], GuardAll(s[w..]));
      }
    }
  }

  lemma OneCharacter(s: Bytes)
    requires Whole(s) && s != []
    ensures Whole(s[..Width(s[0])])
  {
    var c := s[..Width(s[0])];
    assert c[Width(c[0])..] == [];
  }

  lemma {:induction false} BreaksWhole(s: Bytes)
    requires Whole(s)
    ensures Whole(ReplaceBreaks(s, ESCAPED_BREAK))
    decreases |s|
  {
    if s != [] {
      var w := Width(s[0]);
      AsciiWhole(ESCAPED_BREAK);
      if |s| >= 2 && s[0] == CR && s[1] == LF {
        assert s[1..][Width(LF)..] == s[2..] && Whole(s[1..]);
        BreaksWhole(s[2..]);
        WholeConcat(ESCAPED_BREAK, ReplaceBreaks(s[2..], ESCAPED_BREAK));
      } else if w == 1 {
        BreaksWhole(s[1..]);
        AsciiWhole([s[0]]);
        WholeConcat(if s[0] == CR || s[0] == LF then ESCAPED_BREAK else [s[0]], ReplaceBreaks(s[1..], ESCAPED_BREAK));
      } else {
        assert s == s[..w] + s[w..];
        HighBreaks(s[..w], s[w..]);
        OneCharacter(s);
        BreaksWhole(s[w..]);
        WholeConcat(s[..w], ReplaceBreaks(s[w..], ESCAPED_BREAK));
      }
    }
  }

  lemma EscapeWhole(s: Bytes)
    requires Whole(s)
    ensures Whole(EscapeText(s))
  {
    ReplacementsGuard(s);
    GuardWhole(s);
    BreaksWhole(GuardAll(s));
  }

  // ---- Content lines -------------------------------------------------------------------

  /** A property: its name and its value as it stands on the line. */
  datatype Content = Content(name: string, value: Bytes)

  predicate Letter(c: char) { 'A' <= c <= 'Z' || c == '-' }

  predicate PlainName(name: string) {
    name != "" && forall i :: 0 <= i < |name| ==> Letter(name[i])
  }

  function Encode(name: string): (r: Bytes)
    requires forall i :: 0 <= i < |name| ==> Letter(name[i])
    ensures |r| == |name| && forall i :: 0 <= i < |r| ==> r[i] == name[i] as int
  {
    if name == "" then []
    else
      assert Letter(name[0]);
      var octet: Byte := name[0] as int;
      [octet] + Encode(name[1..])
  }

  function Decode(octets: Bytes): string {
    seq(|octets|, i requires 0 <= i < |octets| => octets[i] as char)
  }

  lemma SeparatorsAre()
    ensures Decode([TAB, LF, CR, SPACE, COMMA, COLON, SEMICOLON, BACKSLASH, UPPER_N, LOWER_N]) == "\t\n\r ,:;\\Nn"
  {
  }

  predicate Clean(c: Content) {
    PlainName(c.name) && NoBreaks(c.value) && Whole(c.value)
  }

  function Render(c: Content): Bytes
    requires Clean(c)
  {
    Encode(c.name) + [COLON] + c.value
  }

  /** The name is what stands in front of the first colon. */
  function Colon(line: Bytes): (n: nat)
    ensures n <= |line| && (n < |line| ==> line[n] == COLON) && forall i :: 0 <= i < n ==> line[i] != COLON
  {
    if line == [] || line[0] == COLON then 0 else 1 + Colon(line[1..])
  }

  function ReadLine(line: Bytes): Content {
    var n := Colon(line);
    Content(Decode(line[..n]), if n < |line| then line[n + 1..] else [])
  }

  lemma RenderReadsBack(c: Content)
    requires Clean(c)
    ensures ReadLine(Render(c)) == c
    ensures NoBreaks(Render(c)) && Whole(Render(c)) && Render(c) != []
    ensures Render(c)[0] != SPACE && Render(c)[0] != TAB
  {
    var line, name := Render(c), Encode(c.name);
    assert forall i :: 0 <= i < |name| ==> line[i] == name[i] != COLON;
    assert line[|name|] == COLON;
    assert Colon(line) == |name|;
    assert line[..|name|] == name && line[|name| + 1..] == c.value;
    assert Decode(name) == c.name;
    AsciiWhole(name + [COLON]);
    WholeConcat(name + [COLON], c.value);
  }

  // ---- The document ------------------------------------------------------------------------

  /** The lines between line breaks. */
  function SplitLines(s: Bytes): seq<Bytes>
    decreases |s|
  {
    var n := Break(s);
    if n + 2 > |s| then [] else [s[..n]] + SplitLines(s[n + 2..])
  }

  /** The position of the first line break, or the length. */
  function Break(s: Bytes): (n: nat)
    ensures n <= |s|
    ensures n + 2 <= |s| ==> s[n] == CR && s[n + 1] == LF
  {
    if |s| < 2 then |s| else if s[0] == CR && s[1] == LF then 0 else 1 + Break(s[1..])
  }

  lemma {:induction false} BreakAfter(line: Bytes, t: Bytes)
    requires NoBreaks(line)
    ensures Break(line + CRLF + t) == |line|
  {
    var s := line + CRLF + t;
    if line != [] {
      BreakAfter(line[1..], t);
      assert s[1..] == line[1..] + CRLF + t;
    }
  }

  lemma SplitFirst(line: Bytes, t: Bytes)
    requires NoBreaks(line)
    ensures SplitLines(line + CRLF + t) == [line] + SplitLines(t)
  {
    BreakAfter(line, t);
    var s := line + CRLF + t;
    assert s[..|line|] == line && s[|line| + 2..] == t;
  }

  /** Lines one after another, each closed by a line break. */
  function Closed(lines: seq<Bytes>): Bytes {
    if lines == [] then [] else Closed(lines[..|lines| - 1]) + lines[|lines| - 1] + CRLF
  }

  /** The physical lines of one folded line. */
  function Physical(parts: seq<Bytes>): seq<Bytes> {
    if parts == [] then []
    else if |parts| == 1 then [parts[0]]
    else Physical(parts[..|parts| - 1]) + [[SPACE] + parts[|parts| - 1]]
  }

  lemma {:induction false} ClosedAppend(first: seq<Bytes>, second: seq<Bytes>)
    ensures Closed(first + second) == Closed(first) + Closed(second)
    decreases |second|
  {
    if second == [] {
      assert first + second == first && Closed(first) + [] == Closed(first);
    } else {
      var all := first + second;
      assert all[..|all| - 1] == first + second[..|second| - 1];
      ClosedAppend(first, second[..|second| - 1]);
    }
  }

  lemma ClosedOne(line: Bytes)
    ensures Closed([line]) == line + CRLF
  {
    var lines := [line];
    assert lines[..0] == [] && [] + line == line;
  }

  /** A folded line and its break are its physical lines, closed. */
  lemma {:induction false} JoinedIsPhysical(parts: seq<Bytes>)
    requires parts != []
    ensures JoinFolded(parts) + CRLF == Closed(Physical(parts))
  {
    var init, last := parts[..|parts| - 1], parts[|parts| - 1];
    if |parts| == 1 {
      ClosedOne(last);
    } else {
      JoinedIsPhysical(init);
      ClosedAppend(Physical(init), [[SPACE] + last]);
      ClosedOne([SPACE] + last);
      assert JoinFolded(parts) + CRLF == JoinFolded(init) + CRLF + ([SPACE] + last + CRLF);
    }
  }

  lemma {:induction false} SplitClosed(lines: seq<Bytes>, t: Bytes)
    requires forall i :: 0 <= i < |lines| ==> NoBreaks(lines[i])
    ensures SplitLines(Closed(lines) + t) == lines + SplitLines(t)
    decreases |lines|
  {
    if lines == [] {
      assert [] + t == t && [] + SplitLines(t) == SplitLines(t);
    } else {
      hide SplitLines, NoBreaks;
      var init, last := lines[..|lines| - 1], lines[|lines| - 1];
      SplitClosed(init, last + CRLF + t);
      SplitFirst(last, t);
      Regroup(Closed(init), last, CRLF, t);
      RegroupLines(init, last, SplitLines(t));
      hide Closed;
      assert init + [last] == lines;
    }
  }

  lemma RegroupLines(a: seq<Bytes>, line: Bytes, b: seq<Bytes>)
    ensures a + ([line] + b) == a + [line] + b
  {}

  lemma Regroup(a: Bytes, b: Bytes, c: Bytes, d: Bytes)
    ensures a + b + c + d == a + (b + c + d) == a + (b + (c + d))
  {}

  // ---- Writing and reading whole documents ---------------------------------------------------

  function Lines(contents: seq<Content>): seq<Bytes>
    requires forall i :: 0 <= i < |contents| ==> Clean(contents[i])
  {
    seq(|contents|, i requires 0 <= i < |contents| => Render(contents[i]))
  }

  /** Every line folded and closed, in order. */
  function Document(folds: seq<seq<Bytes>>): Bytes {
    if folds == [] then [] else Document(folds[..|folds| - 1]) + JoinFolded(folds[|folds| - 1]) + CRLF
  }

  predicate FoldsOf(folds: seq<seq<Bytes>>, lines: seq<Bytes>) {
    |folds| == |lines| && forall i :: 0 <= i < |folds| ==> folds[i] != [] && Folded(folds[i], lines[i])
  }

  /** A line a reader cannot mistake for the rest of the line before it. */
  predicate Starts(line: Bytes) {
    NoBreaks(line) && line != [] && line[0] != SPACE && line[0] != TAB
  }

  function ReadDocument(document: Bytes): seq<Content> {
    var lines := SplitLines(Unfold(document));
    seq(|lines|, i requires 0 <= i < |lines| => ReadLine(lines[i]))
  }

  lemma {:induction false} FoldedStarts(parts: seq<Bytes>, line: Bytes)
    requires Folded(parts, line) && parts != [] && line != []
    ensures JoinFolded(parts) != [] && JoinFolded(parts)[0] == line[0]
  {
    FirstPart(parts);
    assert Concat(parts) == line;
  }

  lemma {:induction false} FirstPart(parts: seq<Bytes>)
    requires parts != [] && parts[0] != []
    ensures Concat(parts) != [] && Concat(parts)[0] == parts[0][0]
    ensures JoinFolded(parts) != [] && JoinFolded(parts)[0] == parts[0][0]
  {
    if |parts| > 1 {
      FirstPart(parts[..|parts| - 1]);
    } else {
      assert parts[..0] == [] && Concat(parts) == [] + parts[0];
    }
  }

  /** The breaks between lines survive unfolding, the breaks inside them do not. */
  lemma {:induction false} UnfoldDocument(folds: seq<seq<Bytes>>, lines: seq<Bytes>, t: Bytes)
    requires FoldsOf(folds, lines) && forall i :: 0 <= i < |lines| ==> Starts(lines[i])
    requires t == [] || (t[0] != SPACE && t[0] != TAB)
    ensures Unfold(Document(folds) + t) == Closed(lines) + Unfold(t)
    decreases |folds|
  {
    if folds == [] {
      assert Document(folds) + t == t && Closed(lines) + Unfold(t) == Unfold(t);
    } else {
      var init, last := folds[..|folds| - 1], folds[|folds| - 1];
      var initLines, line := lines[..|lines| - 1], lines[|lines| - 1];
      FoldedStarts(last, line);
      hide Unfold, Folded, JoinFolded, NoBreaks;
      var rest := JoinFolded(last) + (CRLF + t);
      assert rest[0] == line[0];
      UnfoldDocument(init, initLines, rest);
      FoldReadsBack(last, line, CRLF + t);
      UnfoldBreakKept(t);
      Regroup(Document(init), JoinFolded(last), CRLF, t);
      Regroup(Closed(initLines), line, CRLF, Unfold(t));
    }
  }

  lemma UnfoldBreakKept(t: Bytes)
    requires t == [] || (t[0] != SPACE && t[0] != TAB)
    ensures Unfold(CRLF + t) == CRLF + Unfold(t)
  {
    hide Unfold;
    UnfoldStays(LF, t);
    UnfoldStays(CR, [LF] + t);
    TwoInFront(CR, LF, t);
    TwoInFront(CR, LF, Unfold(t));
  }

  lemma UnfoldStays(b: Byte, t: Bytes)
    requires b == CR ==> |t| < 2 || t[0] != LF || (t[1] != SPACE && t[1] != TAB)
    ensures Unfold([b] + t) == [b] + Unfold(t)
  {
    assert ([b] + t)[1..] == t;
  }

  /** What is written is read: the same properties in the same order. */
  lemma DocumentReadsBack(folds: seq<seq<Bytes>>, contents: seq<Content>)
    requires forall i :: 0 <= i < |contents| ==> Clean(contents[i])
    requires FoldsOf(folds, Lines(contents))
    ensures ReadDocument(Document(folds)) == contents
  {
    hide Unfold, SplitLines, ReadLine, Render, Starts;
    var lines := Lines(contents);
    forall i | 0 <= i < |lines| ensures Starts(lines[i]) && NoBreaks(lines[i]) && ReadLine(lines[i]) == contents[i] {
      RenderReadsBack(contents[i]);
      RenderStarts(contents[i]);
    }
    UnfoldDocument(folds, lines, []);
    assert Document(folds) + [] == Document(folds);
    NothingLeft();
    SplitClosed(lines, []);
    assert lines + [] == lines && Closed(lines) + [] == Closed(lines);
  }

  lemma RenderStarts(c: Content)
    requires Clean(c)
    ensures Starts(Render(c))
  {
    RenderReadsBack(c);
  }

  lemma NothingLeft()
    ensures Unfold([]) == [] && SplitLines([]) == []
  {}

  /** No physical line of the document is longer than 75 octets or splits a character. */
  lemma {:induction false} PhysicalLinesFit(folds: seq<seq<Bytes>>, lines: seq<Bytes>)
    requires FoldsOf(folds, lines) && forall i :: 0 <= i < |lines| ==> NoBreaks(lines[i])
    ensures exists physical :: Document(folds) == Closed(physical) && SplitLines(Document(folds)) == physical
              && forall p :: p in physical ==> |p| <= 75 && Whole(p) && NoBreaks(p)
  {
    var physical := PhysicalLines(folds, lines);
    NothingLeft();
    SplitClosed(physical, []);
    assert Closed(physical) + [] == Closed(physical) && physical + [] == physical;
  }

  lemma {:induction false} PhysicalLines(folds: seq<seq<Bytes>>, lines: seq<Bytes>) returns (physical: seq<Bytes>)
    requires FoldsOf(folds, lines) && forall i :: 0 <= i < |lines| ==> NoBreaks(lines[i])
    ensures Document(folds) == Closed(physical)
    ensures forall p :: p in physical ==> |p| <= 75 && Whole(p) && NoBreaks(p)
    decreases |folds|
  {
    if folds == [] { return []; }
    hide Closed, Physical, JoinFolded, NoBreaks, Whole;
    var init, last := folds[..|folds| - 1], folds[|folds| - 1];
    var before := PhysicalLines(init, lines[..|lines| - 1]);
    ConcatNoBreaks(last);
    PhysicalFit(last);
    JoinedIsPhysical(last);
    physical := before + Physical(last);
    ClosedAppend(before, Physical(last));
    assert Document(init) + JoinFolded(last) + CRLF == Document(init) + (JoinFolded(last) + CRLF);
  }

  lemma {:induction false} PhysicalFit(parts: seq<Bytes>)
    requires forall i :: 0 <= i < |parts| ==>
               Whole(parts[i]) && NoBreaks(parts[i]) && |parts[i]| <= (if i == 0 then 75 else 74)
    ensures forall p :: p in Physical(parts) ==> |p| <= 75 && Whole(p) && NoBreaks(p)
  {
    if |parts| > 1 {
      var last := parts[|parts| - 1];
      PhysicalFit(parts[..|parts| - 1]);
      AsciiWhole([SPACE]);
      WholeConcat([SPACE], last);
      assert forall i :: 1 <= i < |[SPACE] + last| ==> ([SPACE] + last)[i] == last[i - 1];
    }
  }
}
