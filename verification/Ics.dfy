/**
 * The iCalendar writer, on the UTF-8 octets of its text: escaping, folding at 75 octets and
 * the document, with the readings of RFC 5545 (sections 3.1 and 3.3.11) that undo them.
 */
module Ics {
  import opened Wrappers

  type Byte = b: int | 0 <= b < 256
  type Bytes = seq<Byte>

  const TAB: Byte := 9
  const LF: Byte := 10
  const CR: Byte := 13
  const SPACE: Byte := 32
  const COMMA: Byte := 44
  const COLON: Byte := 58
  const SEMICOLON: Byte := 59
  const BACKSLASH: Byte := 92
  const UPPER_N: Byte := 78
  const LOWER_N: Byte := 110

  // ---- Characters ------------------------------------------------------------------

  predicate Continues(b: Byte) { 0x80 <= b < 0xC0 }

  /** Octets of the character a lead octet begins; 0 for an octet that begins none. */
  function Width(lead: Byte): nat {
    if lead < 0x80 then 1
    else if 0xC0 <= lead < 0xE0 then 2
    else if 0xE0 <= lead < 0xF0 then 3
    else if 0xF0 <= lead < 0xF8 then 4
    else 0
  }

  /** A sequence of whole characters; every valid UTF-8 text is one. */
  predicate Whole(s: Bytes) {
    s != [] ==>
      && 0 < Width(s[0]) <= |s|
      && (forall i :: 1 <= i < Width(s[0]) ==> Continues(s[i]))
      && Whole(s[Width(s[0])..])
  }

  /** A cut in front of an octet that continues nothing is a cut between characters. */
  lemma {:induction false} CutBetween(s: Bytes, n: nat)
    requires Whole(s) && n <= |s| && (n < |s| ==> !Continues(s[n]))
    ensures Whole(s[..n]) && Whole(s[n..])
    decreases |s|
  {
    if n > 0 {
      var w := Width(s[0]);
      assert n >= w;
      Slices(s, w, n);
      assert n < |s| ==> s[w..][n - w] == s[n];
      CutBetween(s[w..], n - w);
    } else {
      assert s[..0] == [] && s[0..] == s;
    }
  }

  lemma Slices(s: Bytes, w: nat, n: nat)
    requires w <= n <= |s|
    ensures s[w..][n - w..] == s[n..] && s[..n][w..] == s[w..][..n - w]
  {}

  lemma Leads(s: Bytes)
    requires Whole(s) && s != []
    ensures !Continues(s[0])
  {}

  /** No more than three octets in a row continue a character. */
  lemma {:induction false} LeadNearby(s: Bytes, n: nat)
    requires Whole(s) && 4 <= n < |s|
    ensures !Continues(s[n]) || !Continues(s[n - 1]) || !Continues(s[n - 2]) || !Continues(s[n - 3])
    decreases |s|
  {
    var w := Width(s[0]);
    if n >= w + 4 {
      LeadNearby(s[w..], n - w);
      assert s[w..][n - w] == s[n] && s[w..][n - w - 1] == s[n - 1];
      assert s[w..][n - w - 2] == s[n - 2] && s[w..][n - w - 3] == s[n - 3];
    } else if n >= w {
      var rest := s[w..];
      Leads(rest);
      assert rest[0] == s[w];
    }
  }

  // ---- Folding ------------------------------------------------------------------------

  function Concat(parts: seq<Bytes>): Bytes {
    if parts == [] then [] else Concat(parts[..|parts| - 1]) + parts[|parts| - 1]
  }

  /** The parts with a line break and one space between them. */
  function JoinFolded(parts: seq<Bytes>): Bytes {
    if parts == [] then []
    else if |parts| == 1 then parts[0]
    else JoinFolded(parts[..|parts| - 1]) + [CR, LF, SPACE] + parts[|parts| - 1]
  }

  /** Physical lines of at most 75 octets, the space of a continuation included, cut between characters. */
  predicate Folded(parts: seq<Bytes>, line: Bytes) {
    && Concat(parts) == line
    && (forall i :: 0 <= i < |parts| ==>
          Whole(parts[i]) && |parts[i]| <= (if i == 0 then 75 else 74) && (line != [] ==> parts[i] != []))
  }

  /** How much of the rest goes on this physical line: the limit, or up to three octets less. */
  method CutLength(line: Bytes, offset: nat, limit: nat) returns (take: nat)
    requires offset < |line| && Whole(line[offset..]) && 4 <= limit
    ensures 1 <= take <= limit && offset + take <= |line|
    ensures offset + take == |line| || !Continues(line[offset + take])
    ensures take < limit - 3 ==> offset + take == |line|
  {
    ghost var rest := line[offset..];
    take := if limit <= |line| - offset then limit else |line| - offset;
    ghost var most := take;
    while take > 1 && offset + take < |line| && Continues(line[offset + take])
      invariant 1 <= take <= most <= |rest|
      invariant take < most ==> most == limit < |rest| && take >= most - 3
      invariant forall i :: take < i <= most && i < |rest| ==> Continues(rest[i])
    {
      assert rest[take] == line[offset + take];
      if take == most - 3 { LeadNearby(rest, most); }
      take := take - 1;
    }
    if take < |rest| {
      assert rest[take] == line[offset + take];
      if Continues(rest[take]) { LeadNearby(rest, most); }
    }
  }

  /** Pieces laid so far: they fit, and they are the line up to `offset`. */
  predicate Laid(pieces: seq<Bytes>, line: Bytes, offset: nat) {
    && offset <= |line| && Whole(line[offset..])
    && Concat(pieces) == line[..offset]
    && (pieces == [] <==> offset == 0)
    && forall i :: 0 <= i < |pieces| ==>
         Whole(pieces[i]) && |pieces[i]| <= (if i == 0 then 75 else 74) && pieces[i] != []
  }

  lemma LayOne(pieces: seq<Bytes>, line: Bytes, offset: nat, take: nat)
    requires Laid(pieces, line, offset) && 1 <= take <= (if pieces == [] then 75 else 74)
    requires offset + take <= |line| && (offset + take == |line| || !Continues(line[offset + take]))
    ensures Laid(pieces + [line[offset..offset + take]], line, offset + take) && Whole(line[offset + take..])
  {
    hide Whole;
    var rest := line[offset..];
    assert take < |rest| ==> rest[take] == line[offset + take];
    CutBetween(rest, take);
    assert rest[..take] == line[offset..offset + take] && rest[take..] == line[offset + take..];
    assert line[..offset] + line[offset..offset + take] == line[..offset + take];
    ConcatLast(pieces, rest[..take]);
  }

  lemma ConcatLast(parts: seq<Bytes>, last: Bytes)
    ensures Concat(parts + [last]) == Concat(parts) + last
  {
    assert (parts + [last])[..|parts|] == parts;
  }

  method FoldLine(line: Bytes) returns (folded: Bytes, ghost parts: seq<Bytes>)
    requires Whole(line)
    ensures folded == JoinFolded(parts) && Folded(parts, line) && parts != []
    ensures |line| <= 75 ==> folded == line
  {
    if |line| <= 75 {
      OnePart(line);
      return line, [line];
    }
    hide Laid, Whole, Folded, JoinFolded;
    var pieces: seq<Bytes> := [];
    var offset := 0;
    var limit := 75;
    LaidNothing(line);
    while offset < |line|
      invariant Laid(pieces, line, offset) && limit == (if pieces == [] then 75 else 74)
      invariant offset <= |line| && Whole(line[offset..])
      decreases |line| - offset
    {
      var take := CutLength(line, offset, limit);
      LayOne(pieces, line, offset, take);
      pieces := pieces + [line[offset..offset + take]];
      offset := offset + take;
      limit := 74;
    }
    LaidAll(pieces, line);
    return JoinFolded(pieces), pieces;
  }

  lemma OnePart(line: Bytes)
    requires Whole(line) && |line| <= 75
    ensures JoinFolded([line]) == line && Folded([line], line)
  {
    assert [line][..0] == [] && Concat([]) + line == line;
  }

  lemma LaidNothing(line: Bytes)
    requires Whole(line)
    ensures Laid([], line, 0) && line[0..] == line
  {}

  lemma LaidAll(pieces: seq<Bytes>, line: Bytes)
    requires Laid(pieces, line, |line|) && line != []
    ensures Folded(pieces, line) && pieces != []
  {
    assert line[..|line|] == line;
  }

  // ---- Unfolding ------------------------------------------------------------------------

  /** A line break directly followed by one white-space octet is removed (section 3.1). */
  function Unfold(s: Bytes): Bytes {
    if |s| >= 3 && s[0] == CR && s[1] == LF && (s[2] == SPACE || s[2] == TAB) then Unfold(s[3..])
    else if s == [] then []
    else [s[0]] + Unfold(s[1..])
  }

  predicate NoBreaks(s: Bytes) {
    forall i :: 0 <= i < |s| ==> s[i] != CR && s[i] != LF
  }

  lemma {:induction false} UnfoldPlain(s: Bytes, t: Bytes)
    requires NoBreaks(s)
    ensures Unfold(s + t) == s + Unfold(t)
    decreases |s|
  {
    if s == [] {
      assert s + t == t && s + Unfold(t) == Unfold(t);
    } else {
      assert (s + t)[1..] == s[1..] + t;
      UnfoldPlain(s[1..], t);
      assert [s[0]] + (s[1..] + Unfold(t)) == s + Unfold(t);
    }
  }

  lemma {:induction false} ConcatNoBreaks(parts: seq<Bytes>)
    requires NoBreaks(Concat(parts))
    ensures forall i :: 0 <= i < |parts| ==> NoBreaks(parts[i])
  {
    if parts != [] {
      var init, last := parts[..|parts| - 1], parts[|parts| - 1];
      var all := Concat(parts);
      assert forall i :: 0 <= i < |Concat(init)| ==> all[i] == Concat(init)[i];
      assert forall i :: 0 <= i < |last| ==> all[|Concat(init)| + i] == last[i];
      ConcatNoBreaks(init);
    }
  }

  lemma UnfoldBreak(t: Bytes)
    ensures Unfold([CR, LF, SPACE] + t) == Unfold(t)
  {
    assert ([CR, LF, SPACE] + t)[3..] == t;
  }

  /** Unfolding what was folded gives the line back, whatever follows it. */
  lemma {:induction false} UnfoldJoined(parts: seq<Bytes>, t: Bytes)
    requires parts != [] && forall i :: 0 <= i < |parts| ==> NoBreaks(parts[i])
    ensures Unfold(JoinFolded(parts) + t) == Concat(parts) + Unfold(t)
    decreases |parts|
  {
    hide Unfold, NoBreaks;
    var init, last := parts[..|parts| - 1], parts[|parts| - 1];
    UnfoldPlain(last, t);
    if |parts| == 1 {
      assert Concat([]) + last == last && init == [];
    } else {
      UnfoldJoined(init, [CR, LF, SPACE] + (last + t));
      UnfoldBreak(last + t);
      assert JoinFolded(parts) + t == JoinFolded(init) + ([CR, LF, SPACE] + (last + t));
      assert Concat(init) + (last + Unfold(t)) == Concat(init) + last + Unfold(t);
    }
  }

  /** Folding and unfolding: the line again, in physical lines within the limit. */
  lemma FoldReadsBack(parts: seq<Bytes>, line: Bytes, t: Bytes)
    requires Folded(parts, line) && parts != [] && NoBreaks(line)
    ensures Unfold(JoinFolded(parts) + t) == line + Unfold(t)
    ensures Unfold(JoinFolded(parts)) == line
  {
    ConcatNoBreaks(parts);
    UnfoldJoined(parts, t);
    UnfoldJoined(parts, []);
    assert JoinFolded(parts) + [] == JoinFolded(parts) && Concat(parts) + [] == line;
  }

  // ---- Escaping ---------------------------------------------------------------------------

  /** One replace-all of a single octet. */
  function Replace(s: Bytes, b: Byte, with: Bytes): Bytes {
    if s == [] then [] else (if s[0] == b then with else [s[0]]) + Replace(s[1..], b, with)
  }

  /** Carriage return with line feed, or either alone, by one replacement. */
  function ReplaceBreaks(s: Bytes, with: Bytes): Bytes {
    if s == [] then []
    else if |s| >= 2 && s[0] == CR && s[1] == LF then with + ReplaceBreaks(s[2..], with)
    else if s[0] == CR || s[0] == LF then with + ReplaceBreaks(s[1..], with)
    else [s[0]] + ReplaceBreaks(s[1..], with)
  }

  function EscapeText(s: Bytes): Bytes {
    ReplaceBreaks(
      Replace(
        Replace(Replace(s, BACKSLASH, [BACKSLASH, BACKSLASH]), SEMICOLON, [BACKSLASH, SEMICOLON]),
        COMMA, [BACKSLASH, COMMA]),
      [BACKSLASH, LOWER_N])
  }

  /** The reading of an escaped TEXT value (section 3.3.11). */
  function UnescapeText(s: Bytes): Bytes {
    if s == [] then []
    else if |s| >= 2 && s[0] == BACKSLASH then
      [if s[1] == LOWER_N || s[1] == UPPER_N then LF else s[1]] + UnescapeText(s[2..])
    else [s[0]] + UnescapeText(s[1..])
  }

  /** Every line break as a single line feed. */
  function Normalised(s: Bytes): Bytes { ReplaceBreaks(s, [LF]) }

  /** The octet-by-octet effect of the first three replacements. */
  function Guarded(b: Byte): Bytes {
    if b == BACKSLASH || b == SEMICOLON || b == COMMA then [BACKSLASH, b] else [b]
  }

  function GuardAll(s: Bytes): Bytes {
    if s == [] then [] else Guarded(s[0]) + GuardAll(s[1..])
  }

  lemma {:induction false} ReplaceAppend(s: Bytes, t: Bytes, b: Byte, with: Bytes)
    ensures Replace(s + t, b, with) == Replace(s, b, with) + Replace(t, b, with)
  {
    if s == [] {
      assert s + t == t;
    } else {
      assert (s + t)[1..] == s[1..] + t;
      ReplaceAppend(s[1..], t, b, with);
    }
  }

  lemma ReplaceOne(x: Byte, b: Byte, with: Bytes)
    ensures Replace([x], b, with) == if x == b then with else [x]
  {
    assert [x][1..] == [] && Replace([], b, with) == [];
  }

  /** The replacements in a row never touch each other's output. */
  lemma {:induction false} ReplacementsGuard(s: Bytes)
    ensures Replace(
              Replace(Replace(s, BACKSLASH, [BACKSLASH, BACKSLASH]), SEMICOLON, [BACKSLASH, SEMICOLON]),
              COMMA, [BACKSLASH, COMMA])
            == GuardAll(s)
  {
    if s != [] {
      var x, rest := s[0], s[1..];
      ReplacementsGuard(rest);
      var first := if x == BACKSLASH then [BACKSLASH, BACKSLASH] else [x];
      var second := if x == SEMICOLON then [BACKSLASH, SEMICOLON] else first;
      var r1 := Replace(rest, BACKSLASH, [BACKSLASH, BACKSLASH]);
      var r2 := Replace(r1, SEMICOLON, [BACKSLASH, SEMICOLON]);
      ReplaceAppend(first, r1, SEMICOLON, [BACKSLASH, SEMICOLON]);
      ReplaceShort(first, SEMICOLON, [BACKSLASH, SEMICOLON]);
      ReplaceAppend(second, r2, COMMA, [BACKSLASH, COMMA]);
      ReplaceShort(second, COMMA, [BACKSLASH, COMMA]);
    }
  }

  lemma ReplaceShort(s: Bytes, b: Byte, with: Bytes)
    requires 1 <= |s| <= 2
    ensures |s| == 1 ==> Replace(s, b, with) == if s[0] == b then with else s
    ensures |s| == 2 ==> Replace(s, b, with) == (if s[0] == b then with else [s[0]]) + (if s[1] == b then with else [s[1]])
  {
    ReplaceOne(s[0], b, with);
    if |s| == 1 {
      assert s == [s[0]];
    } else {
      ReplaceOne(s[1], b, with);
      assert s == [s[0]] + [s[1]];
      ReplaceAppend([s[0]], [s[1]], b, with);
    }
  }

  /** Escaping loses nothing but the kind of line break. */
  lemma {:induction false} EscapeReadsBack(s: Bytes)
    ensures UnescapeText(EscapeText(s)) == Normalised(s)
    ensures NoBreaks(EscapeText(s))
  {
    ReplacementsGuard(s);
    GuardedReadsBack(s);
    BreaksGone(GuardAll(s), ESCAPED_BREAK);
  }

  lemma {:induction false} BreaksGone(s: Bytes, with: Bytes)
    requires NoBreaks(with)
    ensures NoBreaks(ReplaceBreaks(s, with))
    decreases |s|
  {
    if s != [] {
      BreaksGone(s[1..], with);
      if |s| >= 2 { BreaksGone(s[2..], with); }
    }
  }

  const ESCAPED_BREAK: Bytes := [BACKSLASH, LOWER_N]

  lemma {:induction false} GuardedReadsBack(s: Bytes)
    ensures UnescapeText(ReplaceBreaks(GuardAll(s), ESCAPED_BREAK)) == Normalised(s)
    decreases |s|
  {
    if s != [] {
      if |s| >= 2 && s[0] == CR && s[1] == LF {
        GuardedReadsBack(s[2..]);
        assert s == [CR, LF] + s[2..];
        BreakPair(s[2..], [LF]);
        GuardPair(s);
        BreakPair(GuardAll(s[2..]), ESCAPED_BREAK);
        PutEscape(ESCAPED_BREAK, ReplaceBreaks(GuardAll(s[2..]), ESCAPED_BREAK));
      } else if s[0] == CR || s[0] == LF {
        GuardedReadsBack(s[1..]);
        GuardBreak(s);
        PutEscape(ESCAPED_BREAK, ReplaceBreaks(GuardAll(s[1..]), ESCAPED_BREAK));
      } else {
        GuardedReadsBack(s[1..]);
        GuardOther(s);
        hide UnescapeText, GuardAll;
        if Guarded(s[0]) == [s[0]] {
          PutPlain(s[0], ReplaceBreaks(GuardAll(s[1..]), ESCAPED_BREAK));
        } else {
          PutEscape([BACKSLASH, s[0]], ReplaceBreaks(GuardAll(s[1..]), ESCAPED_BREAK));
        }
      }
    }
  }

  lemma BreakPair(t: Bytes, with: Bytes)
    ensures ReplaceBreaks([CR, LF] + t, with) == with + ReplaceBreaks(t, with)
  {
    assert ([CR, LF] + t)[2..] == t;
  }

  lemma GuardCons(b: Byte, t: Bytes)
    ensures GuardAll([b] + t) == Guarded(b) + GuardAll(t)
  {
    assert ([b] + t)[1..] == t;
  }

  lemma GuardPair(s: Bytes)
    requires |s| >= 2 && s[0] == CR && s[1] == LF
    ensures GuardAll(s) == [CR, LF] + GuardAll(s[2..])
  {
    hide GuardAll;
    var t := s[2..];
    assert s == [CR, LF] + t;
    GuardCons(LF, t);
    GuardCons(CR, [LF] + t);
    TwoInFront(CR, LF, t);
    TwoInFront(CR, LF, GuardAll(t));
  }

  lemma TwoInFront(a: Byte, b: Byte, t: Bytes)
    ensures [a] + ([b] + t) == [a, b] + t
  {}

  lemma GuardBreak(s: Bytes)
    requires s != [] && (s[0] == CR || s[0] == LF) && !(|s| >= 2 && s[0] == CR && s[1] == LF)
    ensures ReplaceBreaks(GuardAll(s), ESCAPED_BREAK) == ESCAPED_BREAK + ReplaceBreaks(GuardAll(s[1..]), ESCAPED_BREAK)
  {
    var t := GuardAll(s[1..]);
    GuardPlain(s);
    if s[1..] != [] { GuardFirst(s[1..]); }
    hide GuardAll;
    BreakAlone(s[0], t);
  }

  lemma GuardPlain(s: Bytes)
    requires s != [] && Guarded(s[0]) == [s[0]]
    ensures GuardAll(s) == [s[0]] + GuardAll(s[1..])
  {
  }

  lemma BreakAlone(b: Byte, t: Bytes)
    requires b == LF || (b == CR && !(t != [] && t[0] == LF))
    ensures ReplaceBreaks([b] + t, ESCAPED_BREAK) == ESCAPED_BREAK + ReplaceBreaks(t, ESCAPED_BREAK)
  {
    assert ([b] + t)[1..] == t;
  }

  lemma GuardOther(s: Bytes)
    requires s != [] && s[0] != CR && s[0] != LF
    ensures ReplaceBreaks(GuardAll(s), ESCAPED_BREAK)
            == Guarded(s[0]) + ReplaceBreaks(GuardAll(s[1..]), ESCAPED_BREAK)
  {
    hide ReplaceBreaks, GuardAll;
    var b, t := s[0], GuardAll(s[1..]);
    GuardCons(b, s[1..]);
    assert s == [b] + s[1..];
    BreaklessHead(b, t, ESCAPED_BREAK);
    if Guarded(b) != [b] {
      assert [BACKSLASH, b] + t == [BACKSLASH] + ([b] + t);
      BreaklessHead(BACKSLASH, [b] + t, ESCAPED_BREAK);
      assert [BACKSLASH] + ([b] + ReplaceBreaks(t, ESCAPED_BREAK)) == [BACKSLASH, b] + ReplaceBreaks(t, ESCAPED_BREAK);
    }
  }

  lemma BreaklessHead(b: Byte, t: Bytes, with: Bytes)
    requires b != CR && b != LF
    ensures ReplaceBreaks([b] + t, with) == [b] + ReplaceBreaks(t, with)
  {
    assert ([b] + t)[1..] == t;
  }

  lemma PutPlain(b: Byte, rest: Bytes)
    requires b != BACKSLASH
    ensures UnescapeText([b] + rest) == [b] + UnescapeText(rest)
  {
    assert ([b] + rest)[1..] == rest;
  }

  lemma GuardFirst(s: Bytes)
    requires s != []
    ensures GuardAll(s) != [] && (GuardAll(s)[0] == LF <==> s[0] == LF)
  {}

  lemma PutEscape(pair: Bytes, rest: Bytes)
    requires |pair| == 2 && pair[0] == BACKSLASH
    ensures UnescapeText(pair + rest)
            == [if pair[1] == LOWER_N || pair[1] == UPPER_N then LF else pair[1]] + UnescapeText(rest)
  {
    assert (pair + rest)[2..] == rest;
  }

  // ---- No bare separator is left -------------------------------------------------------------

  /** Each comma and each semicolon has a backslash in front of it. */
  predicate NoBareSeparator(s: Bytes) {
    forall i :: 0 <= i < |s| && (s[i] == 44 || s[i] == 59) ==> i > 0 && s[i - 1] == 92
  }

  lemma EscapeGuards(s: Bytes)
    ensures NoBareSeparator(EscapeText(s))
  {
    ReplacementsGuard(s);
    GuardedIsSafe(s);
  }

  lemma {:induction false} GuardedIsSafe(s: Bytes)
    ensures NoBareSeparator(ReplaceBreaks(GuardAll(s), ESCAPED_BREAK))
    decreases |s|
  {
    if s != [] {
      if |s| >= 2 && s[0] == CR && s[1] == LF {
        GuardedIsSafe(s[2..]);
        GuardPair(s);
        BreakPair(GuardAll(s[2..]), ESCAPED_BREAK);
        SafeInFront(ESCAPED_BREAK, ReplaceBreaks(GuardAll(s[2..]), ESCAPED_BREAK));
      } else {
        GuardedIsSafe(s[1..]);
        if s[0] == CR || s[0] == LF { GuardBreak(s); } else { GuardOther(s); }
        var first := if s[0] == CR || s[0] == LF then ESCAPED_BREAK else Guarded(s[0]);
        SafeInFront(first, ReplaceBreaks(GuardAll(s[1..]), ESCAPED_BREAK));
      }
    }
  }

  lemma SafeInFront(a: Bytes, b: Bytes)
    requires NoBareSeparator(a) && NoBareSeparator(b)
    ensures NoBareSeparator(a + b)
  {
    forall i | 0 <= i < |a + b| && ((a + b)[i] == 44 || (a + b)[i] == 59) ensures i > 0 && (a + b)[i - 1] == 92 {
      if i >= |a| { assert b[i - |a|] == (a + b)[i] && i - |a| > 0; }
    }
  }

  // ---- What the normalised text is ---------------------------------------------------------

  /** A line without breaks and the break after it. */
  datatype Broken = Broken(line: Bytes, end: Bytes)

  function Spell(parts: seq<Broken>, last: Bytes): Bytes {
    if parts == [] then last else parts[0].line + parts[0].end + Spell(parts[1..], last)
  }

  /** A break is a carriage return, a line feed or the two in a row, so none may end in the middle of the two. */
  predicate Proper(parts: seq<Broken>, last: Bytes) {
    if parts == [] then NoBreaks(last)
    else
      && NoBreaks(parts[0].line)
      && (parts[0].end == [13, 10] || parts[0].end == [10]
          || (parts[0].end == [13] && !([10] <= Spell(parts[1..], last))))
      && Proper(parts[1..], last)
  }

  function WithFeeds(parts: seq<Broken>): seq<Broken> {
    seq(|parts|, i requires 0 <= i < |parts| => Broken(parts[i].line, [10]))
  }

  /** However the lines of a text are broken, each break becomes one line feed and nothing else changes. */
  lemma {:induction false} BreaksBecomeFeeds(parts: seq<Broken>, last: Bytes)
    requires Proper(parts, last)
    ensures Normalised(Spell(parts, last)) == Spell(WithFeeds(parts), last)
    decreases |parts|
  {
    if parts == [] {
      PlainStays(last, []);
      assert last + [] == last;
    } else {
      BreaksBecomeFeeds(parts[1..], last);
      assert WithFeeds(parts)[0] == Broken(parts[0].line, [10]) && WithFeeds(parts)[1..] == WithFeeds(parts[1..]);
      hide ReplaceBreaks, NoBreaks, WithFeeds;
      LineAndBreak(parts[0], Spell(parts[1..], last));
    }
  }

  lemma LineAndBreak(p: Broken, rest: Bytes)
    requires NoBreaks(p.line) && (p.end == [13, 10] || p.end == [10] || (p.end == [13] && !([10] <= rest)))
    ensures ReplaceBreaks(p.line + p.end + rest, [LF]) == p.line + [10] + ReplaceBreaks(rest, [LF])
  {
    hide ReplaceBreaks, NoBreaks;
    PlainStays(p.line, p.end + rest);
    OneBreak(p.end, rest);
    assert p.line + p.end + rest == p.line + (p.end + rest);
    assert p.line + ([LF] + ReplaceBreaks(rest, [LF])) == p.line + [LF] + ReplaceBreaks(rest, [LF]);
  }

  lemma OneBreak(end: Bytes, rest: Bytes)
    requires end == [13, 10] || end == [10] || (end == [13] && !([10] <= rest))
    ensures ReplaceBreaks(end + rest, [LF]) == [10] + ReplaceBreaks(rest, [LF])
  {
    assert (end + rest)[|end|..] == rest;
  }

  lemma {:induction false} PlainStays(s: Bytes, t: Bytes)
    requires NoBreaks(s)
    ensures ReplaceBreaks(s + t, [LF]) == s + ReplaceBreaks(t, [LF])
    decreases |s|
  {
    if s == [] {
      assert s + t == t;
    } else {
      assert (s + t)[1..] == s[1..] + t;
      PlainStays(s[1..], t);
      assert [s[0]] + (s[1..] + ReplaceBreaks(t, [LF])) == s + ReplaceBreaks(t, [LF]);
    }
  }
}
