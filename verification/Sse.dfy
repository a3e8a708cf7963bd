/** The incremental parser of a server-sent event stream, which reads the same whatever the chunks. */
module Sse {
  // A frame is the payload handed to the JSON reader. The reference reading splits the whole text
  // into complete lines and groups their data between blank lines (a subset of section 9.2.6 of
  // the WHATWG HTML Standard).

  import opened Wrappers
  import opened Text

  // ---- Text ---------------------------------------------------------------------

  /** The position of the first line feed, or the length of the text. */
  function Find(s: string): (n: nat)
    ensures n <= |s| && (n < |s| ==> s[n] == '\n') && forall i :: 0 <= i < n ==> s[i] != '\n'
  {
    if s == "" || s[0] == '\n' then 0 else 1 + Find(s[1..])
  }

  predicate StartsWith(s: string, prefix: string) {
    |prefix| <= |s| && s[..|prefix|] == prefix
  }

  function StripReturn(line: string): string {
    if line != "" && line[|line| - 1] == '\r' then line[..|line| - 1] else line
  }

  function StripSpace(s: string): string {
    if s != "" && s[0] == ' ' then s[1..] else s
  }

  function Join(lines: seq<string>): string {
    if lines == [] then "" else if |lines| == 1 then lines[0] else lines[0] + "\n" + Join(lines[1..])
  }

  // ---- The parser ---------------------------------------------------------------

  datatype State = State(frames: seq<string>, buffer: string, data: seq<string>)

  /** What one complete line does. */
  function Line(line: string, data: seq<string>): (seq<string>, seq<string>) {
    if line == "" then (if data != [] then ([Join(data)], []) else ([], data))
    else if StartsWith(line, ":") then ([], data)
    else if StartsWith(line, "data:") then ([], data + [StripSpace(line[5..])])
    else ([], data)
  }

  /** Reading off complete lines until the buffer holds none. */
  function Drain(buffer: string, data: seq<string>): State
    decreases |buffer|
  {
    var n := Find(buffer);
    if n == |buffer| then State([], buffer, data)
    else
      var out := Line(StripReturn(buffer[..n]), data);
      var rest := Drain(buffer[n + 1..], out.1);
      rest.(frames := out.0 + rest.frames)
  }

  /** What an unfinished stream leaves behind when it ends. */
  function Flush(buffer: string, data: seq<string>): seq<string> {
    var tail := Trim(buffer);
    var all := if StartsWith(tail, "data:") then data + [StripSpace(tail[5..])] else data;
    if all != [] then [Join(all)] else []
  }

  lemma DrainStep(buffer: string, data: seq<string>, frames: seq<string>)
    requires Find(buffer) < |buffer|
    ensures var n := Find(buffer);
            var out := Line(StripReturn(buffer[..n]), data);
            var rest := Drain(buffer[n + 1..], out.1);
            Drain(buffer, data).(frames := frames + Drain(buffer, data).frames)
            == rest.(frames := frames + out.0 + rest.frames)
  {
    hide Line, StripReturn, Find;
    var n := Find(buffer);
    var out := Line(StripReturn(buffer[..n]), data);
    var rest := Drain(buffer[n + 1..], out.1);
    assert frames + (out.0 + rest.frames) == frames + out.0 + rest.frames;
  }

  lemma DrainDone(buffer: string, data: seq<string>)
    ensures Find(buffer) == |buffer| ==> Drain(buffer, data) == State([], buffer, data)
  {}

  class SseParser {
    var buffer: string
    var dataLines: seq<string>

    constructor ()
      ensures buffer == "" && dataLines == []
    {
      buffer := "";
      dataLines := [];
    }

    /** Takes in more text and hands out every frame that is now whole. */
    method Push(chunk: string) returns (frames: seq<string>)
      modifies this
      ensures State(frames, buffer, dataLines) == Drain(old(buffer) + chunk, old(dataLines))
    {
      hide Drain, Join, StripSpace, StripReturn, Find;
      buffer := buffer + chunk;
      frames := [];
      var index := Find(buffer);
      ghost var all := Drain(buffer, dataLines);
      while index < |buffer|
        invariant index == Find(buffer)
        invariant all == Drain(buffer, dataLines).(frames := frames + Drain(buffer, dataLines).frames)
        decreases |buffer|
      {
        var line := StripReturn(buffer[..index]);
        ghost var out := Line(line, dataLines);
        ghost var rest := Drain(buffer[index + 1..], out.1);
        assert all == rest.(frames := frames + out.0 + rest.frames) by { DrainStep(buffer, dataLines, frames); }
        buffer := buffer[index + 1..];
        index := Find(buffer);
        if line == "" {
          if |dataLines| > 0 {
            frames := frames + [Join(dataLines)];
            dataLines := [];
          }
          continue;
        }
        if StartsWith(line, ":") { continue; }
        if StartsWith(line, "data:") { dataLines := dataLines + [StripSpace(line[5..])]; }
      }
      DrainDone(buffer, dataLines);
    }

    /** The stream is over: a frame still open is handed out as it stands. */
    method End() returns (frames: seq<string>)
      modifies this
      ensures frames == Flush(old(buffer), old(dataLines)) && buffer == "" && dataLines == []
    {
      frames := [];
      var tail := Trim(buffer);
      if StartsWith(tail, "data:") { dataLines := dataLines + [StripSpace(tail[5..])]; }
      if |dataLines| > 0 { frames := frames + [Join(dataLines)]; }
      buffer := "";
      dataLines := [];
    }
  }

  /** The frame that says the answer is complete. */
  predicate IsDone(frame: string) { Trim(frame) == "[DONE]" }

  /** It is those six characters and no others but white space around them. */
  lemma DoneMeans(frame: string)
    ensures IsDone(frame) <==> exists a :: MarkedAt(frame, a)
  {
    hide IsSpace;
    var from := StartTrims(frame);
    var upTo := EndTrims(frame[from..]);
    assert frame[from..][..upTo] == frame[from..from + upTo];
    forall i | 0 <= i < |frame| && !(from <= i < from + upTo) ensures IsSpace(frame[i]) {
      if i >= from { assert frame[i] == frame[from..][i - from]; }
    }
    assert Outside(frame, from, from + upTo);
    if IsDone(frame) { assert MarkedAt(frame, from); }
    if a :| MarkedAt(frame, a) {
      assert frame[a] == frame[a..a + 6][0] == '[' && frame[a + 5] == frame[a..a + 6][5] == ']';
      BracketsStay();
      assert from == a;
      assert frame[from..][5] == ']' && upTo >= 6;
      assert forall i :: a + 6 <= i < |frame| ==> frame[from..][i - a] == frame[i];
    }
  }

  predicate MarkedAt(frame: string, a: int) {
    0 <= a <= |frame| - 6 && frame[a..a + 6] == "[DONE]" && Outside(frame, a, a + 6)
  }

  lemma BracketsStay()
    ensures !IsSpace('[') && !IsSpace(']')
  {
  }

  predicate SomeDone(frames: seq<string>) { exists i :: 0 <= i < |frames| && IsDone(frames[i]) }

  /** How many chunks are read: none after the one that completes a done frame. */
  function ChunksRead(chunks: seq<string>): (k: nat)
    ensures k <= |chunks|
  {
    if chunks == [] then 0
    else
      var before := ChunksRead(chunks[..|chunks| - 1]);
      if SomeDone(PushAll(chunks[..|chunks| - 1]).frames) then before else |chunks|
  }

  /** The frames handled: those of the chunks read and, where no done frame came, of what was left open. */
  function Handled(chunks: seq<string>): seq<string> {
    var s := PushAll(chunks[..ChunksRead(chunks)]);
    if SomeDone(s.frames) then s.frames else s.frames + Flush(s.buffer, s.data)
  }

  /** Draining a stream up to the done frame or its end. */
  method Consume(chunks: seq<string>) returns (frames: seq<string>)
    ensures frames == Handled(chunks)
  {
    hide Drain, Flush, IsDone;
    var parser := new SseParser();
    frames := [];
    var done := false;
    var i := 0;
    while i < |chunks| && !done
      invariant i <= |chunks| && ChunksRead(chunks[..i]) == i
      invariant State(frames, parser.buffer, parser.dataLines) == PushAll(chunks[..i])
      invariant done == SomeDone(frames)
    {
      PushNext(chunks, i);
      assert chunks[..i + 1][..i] == chunks[..i];
      ghost var before := PushAll(chunks[..i]);
      var more := parser.Push(chunks[i]);
      assert State(more, parser.buffer, parser.dataLines) == Drain(before.buffer + chunks[i], before.data);
      for j := 0 to |more|
        invariant State(frames + more, parser.buffer, parser.dataLines) == PushAll(chunks[..i + 1])
        invariant done == SomeDone(frames + more[..j])
      {
        SomeDoneNext(frames + more[..j], more[j]);
        assert frames + more[..j] + [more[j]] == frames + more[..j + 1];
        if IsDone(more[j]) { done := true; }
      }
      assert more[..|more|] == more;
      frames := frames + more;
      i := i + 1;
    }
    StopsReading(chunks, i);
    assert chunks[..i][..ChunksRead(chunks[..i])] == chunks[..i];
    if !done {
      var last := parser.End();
      frames := frames + last;
    }
  }

  lemma SomeDoneNext(frames: seq<string>, frame: string)
    ensures SomeDone(frames + [frame]) <==> SomeDone(frames) || IsDone(frame)
  {
    hide IsDone;
    if SomeDone(frames) {
      var i :| 0 <= i < |frames| && IsDone(frames[i]);
      assert IsDone((frames + [frame])[i]);
    }
    if IsDone(frame) { assert IsDone((frames + [frame])[|frames|]); }
  }

  lemma {:induction false} StopsReading(chunks: seq<string>, i: nat)
    requires i <= |chunks| && ChunksRead(chunks[..i]) == i
    requires i < |chunks| ==> SomeDone(PushAll(chunks[..i]).frames)
    ensures ChunksRead(chunks) == i
    decreases |chunks|
  {
    hide SomeDone, PushAll, Drain;
    if i < |chunks| {
      var n := |chunks| - 1;
      assert chunks[..n][..i] == chunks[..i];
      StillDone(chunks[..n], i);
      StopsReading(chunks[..n], i);
    } else {
      assert chunks[..i] == chunks;
    }
  }

  lemma PushNext(chunks: seq<string>, i: nat)
    requires i < |chunks|
    ensures var before := PushAll(chunks[..i]);
            var after := Drain(before.buffer + chunks[i], before.data);
            PushAll(chunks[..i + 1]) == after.(frames := before.frames + after.frames)
    ensures PushAll(chunks[..i]).frames <= PushAll(chunks[..i + 1]).frames
  {
    hide Drain;
    assert chunks[..i + 1][..i] == chunks[..i];
  }

  lemma DoneStays(frames: seq<string>, more: seq<string>)
    requires frames <= more && SomeDone(frames)
    ensures SomeDone(more)
  {
    hide IsDone;
    var i :| 0 <= i < |frames| && IsDone(frames[i]);
    assert IsDone(more[i]);
  }

  lemma {:induction false} StillDone(chunks: seq<string>, i: nat)
    requires i <= |chunks| && SomeDone(PushAll(chunks[..i]).frames)
    ensures SomeDone(PushAll(chunks).frames)
    decreases |chunks|
  {
    hide Drain, IsDone, PushAll, SomeDone;
    if i < |chunks| {
      var n := |chunks| - 1;
      assert chunks[..n][..i] == chunks[..i];
      StillDone(chunks[..n], i);
      PushNext(chunks, n);
      assert chunks[..n + 1] == chunks;
      DoneStays(PushAll(chunks[..n]).frames, PushAll(chunks).frames);
    } else {
      assert chunks[..i] == chunks;
    }
  }

  // ---- Chunking ------------------------------------------------------------------

  function Concat(chunks: seq<string>): string {
    if chunks == [] then "" else Concat(chunks[..|chunks| - 1]) + chunks[|chunks| - 1]
  }

  function PushAll(chunks: seq<string>): State {
    if chunks == [] then State([], "", [])
    else
      var before := PushAll(chunks[..|chunks| - 1]);
      var after := Drain(before.buffer + chunks[|chunks| - 1], before.data);
      after.(frames := before.frames + after.frames)
  }

  lemma FindAppend(s: string, t: string)
    ensures Find(s) < |s| ==> Find(s + t) == Find(s)
  {
    var n := Find(s);
    if n < |s| {
      assert forall i :: 0 <= i < n ==> (s + t)[i] == s[i];
      FindIs(s + t, n);
    }
  }

  lemma DrainFirst(buffer: string, data: seq<string>)
    requires Find(buffer) < |buffer|
    ensures var out := Line(StripReturn(buffer[..Find(buffer)]), data);
            var rest := Drain(buffer[Find(buffer) + 1..], out.1);
            Drain(buffer, data) == rest.(frames := out.0 + rest.frames)
  {
    hide Line, StripReturn, Find;
  }

  /** More text later is the same as that text at once. */
  lemma {:induction false} DrainAppend(buffer: string, data: seq<string>, more: string)
    ensures var first := Drain(buffer, data);
            var second := Drain(first.buffer + more, first.data);
            Drain(buffer + more, data) == second.(frames := first.frames + second.frames)
    decreases |buffer|
  {
    hide Line, StripReturn, Drain, Find;
    var n := Find(buffer);
    if n == |buffer| {
      DrainDone(buffer, data);
      assert [] + Drain(buffer + more, data).frames == Drain(buffer + more, data).frames;
    } else {
      FindAppend(buffer, more);
      DrainFirst(buffer, data);
      DrainFirst(buffer + more, data);
      assert (buffer + more)[..n] == buffer[..n] && (buffer + more)[n + 1..] == buffer[n + 1..] + more;
      var out := Line(StripReturn(buffer[..n]), data);
      DrainAppend(buffer[n + 1..], out.1, more);
      var first := Drain(buffer[n + 1..], out.1);
      var second := Drain(first.buffer + more, first.data);
      assert out.0 + (first.frames + second.frames) == out.0 + first.frames + second.frames;
    }
  }

  lemma {:induction false} ChunksDoNotMatter(chunks: seq<string>)
    ensures PushAll(chunks) == Drain(Concat(chunks), [])
  {
    if chunks != [] {
      ChunksDoNotMatter(chunks[..|chunks| - 1]);
      DrainAppend(Concat(chunks[..|chunks| - 1]), [], chunks[|chunks| - 1]);
    }
  }

  // ---- The reference reading ---------------------------------------------------------

  /** The complete lines of a text, each without its line feed and one carriage return. */
  function Lines(text: string): seq<string>
    decreases |text|
  {
    var n := Find(text);
    if n == |text| then [] else [StripReturn(text[..n])] + Lines(text[n + 1..])
  }

  function Rest(text: string): string
    decreases |text|
  {
    var n := Find(text);
    if n == |text| then text else Rest(text[n + 1..])
  }

  /** The payloads of the data lines among some lines. */
  function DataOf(lines: seq<string>): seq<string> {
    if lines == [] then []
    else
      (if StartsWith(lines[0], "data:") then [StripSpace(lines[0][5..])] else []) + DataOf(lines[1..])
  }

  /** How many lines come before the first blank one. */
  function BlockLength(lines: seq<string>): (n: nat)
    ensures n <= |lines|
    ensures n < |lines| ==> lines[n] == ""
  {
    if lines == [] || lines[0] == "" then 0 else 1 + BlockLength(lines[1..])
  }

  /** One event for each block closed by a blank line that carries data. */
  function Events(lines: seq<string>): seq<string>
    decreases |lines|
  {
    var n := BlockLength(lines);
    if n == |lines| then []
    else
      (if DataOf(lines[..n]) != [] then [Join(DataOf(lines[..n]))] else []) + Events(lines[n + 1..])
  }

  /** The data of the block no blank line has closed yet. */
  function OpenData(lines: seq<string>): seq<string>
    decreases |lines|
  {
    var n := BlockLength(lines);
    if n == |lines| then DataOf(lines) else OpenData(lines[n + 1..])
  }

  /** Running the line rule over lines, which is what draining does with them. */
  function Fold(lines: seq<string>, data: seq<string>): (seq<string>, seq<string>)
    decreases |lines|
  {
    if lines == [] then ([], data)
    else
      var out := Line(lines[0], data);
      var rest := Fold(lines[1..], out.1);
      (out.0 + rest.0, rest.1)
  }

  lemma {:induction false} DrainFolds(text: string, data: seq<string>)
    ensures Drain(text, data) == State(Fold(Lines(text), data).0, Rest(text), Fold(Lines(text), data).1)
    decreases |text|
  {
    var n := Find(text);
    if n < |text| {
      var line := StripReturn(text[..n]);
      DrainFolds(text[n + 1..], Line(line, data).1);
      assert Lines(text)[1..] == Lines(text[n + 1..]);
    }
  }

  /** Inside a block lines only add data. */
  lemma {:induction false} FoldBlock(lines: seq<string>, data: seq<string>)
    requires BlockLength(lines) == |lines|
    ensures Fold(lines, data) == ([], data + DataOf(lines))
    decreases |lines|
  {
    if lines != [] {
      var out := Line(lines[0], data);
      FoldBlock(lines[1..], out.1);
      if StartsWith(lines[0], ":") { assert lines[0][..1][0] == ':' && lines[0][0] == ':'; }
      if StartsWith(lines[0], "data:") { assert lines[0][..5][0] == 'd' && lines[0][0] == 'd'; }
      var own := if StartsWith(lines[0], "data:") then [StripSpace(lines[0][5..])] else [];
      assert out.0 == [] && out.1 == data + own;
      assert data + own + DataOf(lines[1..]) == data + (own + DataOf(lines[1..]));
    } else {
      assert data + [] == data;
    }
  }

  lemma {:induction false} FoldAppend(first: seq<string>, second: seq<string>, data: seq<string>)
    ensures var a := Fold(first, data);
            Fold(first + second, data) == (a.0 + Fold(second, a.1).0, Fold(second, a.1).1)
    decreases |first|
  {
    if first == [] {
      assert first + second == second;
      assert [] + Fold(second, data).0 == Fold(second, data).0;
    } else {
      assert (first + second)[1..] == first[1..] + second;
      var out := Line(first[0], data);
      FoldAppend(first[1..], second, out.1);
      var a := Fold(first[1..], out.1);
      assert out.0 + (a.0 + Fold(second, a.1).0) == out.0 + a.0 + Fold(second, a.1).0;
    }
  }

  lemma {:induction false} BlockPrefix(lines: seq<string>)
    ensures BlockLength(lines[..BlockLength(lines)]) == BlockLength(lines)
  {
    if lines != [] && lines[0] != "" {
      BlockPrefix(lines[1..]);
      assert lines[..BlockLength(lines)][1..] == lines[1..][..BlockLength(lines[1..])];
    }
  }

  lemma FoldFirst(lines: seq<string>, data: seq<string>)
    requires lines != []
    ensures var out := Line(lines[0], data);
            var rest := Fold(lines[1..], out.1);
            Fold(lines, data) == (out.0 + rest.0, rest.1)
  {
    hide Line;
  }

  lemma {:induction false} FoldIsEvents(lines: seq<string>)
    ensures Fold(lines, []) == (Events(lines), OpenData(lines))
    decreases |lines|
  {
    hide Join, StripSpace, DataOf, Fold, BlockLength, StartsWith;
    var n := BlockLength(lines);
    var block := lines[..n];
    BlockPrefix(lines);
    FoldBlock(block, []);
    assert [] + DataOf(block) == DataOf(block);
    assert lines == block + lines[n..];
    FoldAppend(block, lines[n..], []);
    if n < |lines| {
      FoldIsEvents(lines[n + 1..]);
      assert lines[n..][0] == "" && lines[n..][1..] == lines[n + 1..];
      var out := Line("", DataOf(block));
      assert out == (if DataOf(block) != [] then [Join(DataOf(block))] else [], []);
      FoldFirst(lines[n..], DataOf(block));
      assert Fold(lines[n..], DataOf(block)) == (out.0 + Events(lines[n + 1..]), OpenData(lines[n + 1..]));
      assert [] + (out.0 + Events(lines[n + 1..])) == Events(lines);
    } else {
      assert block == lines;
    }
  }

  /** The parser reads what the reference reads: events, open data and unfinished line. */
  lemma ParserIsReference(chunks: seq<string>)
    ensures var lines := Lines(Concat(chunks));
            PushAll(chunks) == State(Events(lines), Rest(Concat(chunks)), OpenData(lines))
  {
    ChunksDoNotMatter(chunks);
    DrainFolds(Concat(chunks), []);
    FoldIsEvents(Lines(Concat(chunks)));
  }

  // ---- The writer ------------------------------------------------------------------------

  predicate OneLine(payload: string) {
    forall i :: 0 <= i < |payload| ==> payload[i] != '\n' && payload[i] != '\r'
  }

  function Write(payloads: seq<string>): string {
    if payloads == [] then "" else "data: " + payloads[0] + "\n\n" + Write(payloads[1..])
  }

  lemma FindIs(s: string, n: nat)
    requires n < |s| && s[n] == '\n' && forall i :: 0 <= i < n ==> s[i] != '\n'
    ensures Find(s) == n
  {}

  lemma DrainOnePayload(payload: string, more: string)
    requires OneLine(payload)
    ensures var rest := Drain(more, []);
            Drain("data: " + payload + "\n\n" + more, []) == rest.(frames := [payload] + rest.frames)
  {
    var line := "data: " + payload;
    var text := line + "\n\n" + more;
    var blank := "\n" + more;
    assert forall i :: 0 <= i < |line| ==> line[i] != '\n' && line[i] != '\r';
    FindIs(text, |line|);
    assert text[..|line|] == line && text[|line| + 1..] == blank;
    assert StripReturn(line) == line && line[..5] == "data:" && StripSpace(line[5..]) == payload;
    FindIs(blank, 0);
    assert blank[1..] == more && blank[..0] == "";
    assert line[..1] == "d" && [] + [payload] == [payload];
    assert Line(line, []) == ([], [payload]);
    assert Join([payload]) == payload;
    assert Line("", [payload]) == ([payload], []);
    var rest := Drain(more, []);
    assert [] + ([payload] + rest.frames) == [payload] + rest.frames;
  }

  lemma {:induction false} DrainWritten(payloads: seq<string>)
    requires forall p :: p in payloads ==> OneLine(p)
    ensures Drain(Write(payloads), []) == State(payloads, "", [])
  {
    if payloads != [] {
      DrainWritten(payloads[1..]);
      DrainOnePayload(payloads[0], Write(payloads[1..]));
      assert "data: " + payloads[0] + "\n\n" + Write(payloads[1..]) == Write(payloads);
      assert [payloads[0]] + payloads[1..] == payloads;
    }
  }

  /** Whatever the network does to the chunks, the reader gets the writer's payloads and nothing at the end. */
  lemma WrittenStreamReadsBack(payloads: seq<string>, chunks: seq<string>)
    requires forall p :: p in payloads ==> OneLine(p)
    requires Concat(chunks) == Write(payloads)
    ensures PushAll(chunks) == State(payloads, "", [])
    ensures Flush(PushAll(chunks).buffer, PushAll(chunks).data) == []
  {
    ChunksDoNotMatter(chunks);
    DrainWritten(payloads);
  }

  /** A last frame cut off before its line feed still arrives, without white space at its end. */
  lemma CutFrameArrives(payload: string)
    requires OneLine(payload)
    ensures Flush("data: " + payload, []) == [TrimEnd(payload)]
    ensures Flush("data: " + payload, []) == [payload] <==> payload == "" || !IsSpace(payload[|payload| - 1])
  {
    var text := "data: " + payload;
    assert text == "data:" + (" " + payload) && TrimStart(text) == text;
    assert Trim(text) == "data:" + TrimEnd(" " + payload) by { TrimEndAfter("data:", " " + payload); }
    FlushOne(text, TrimEnd(" " + payload));
    assert StripSpace(TrimEnd(" " + payload)) == TrimEnd(payload) by { SpaceFirst(payload); }
    TrimEndShorter(payload);
  }

  lemma FlushOne(text: string, tail: string)
    requires Trim(text) == "data:" + tail
    ensures Flush(text, []) == [StripSpace(tail)]
  {
    assert Trim(text)[..5] == "data:" && Trim(text)[5..] == tail;
    assert [] + [StripSpace(tail)] == [StripSpace(tail)];
  }

  lemma {:induction false} SpaceFirst(s: string)
    ensures TrimEnd(" " + s) == if TrimEnd(s) == "" then "" else " " + TrimEnd(s)
    decreases |s|
  {
    if s == "" {
      assert (" " + s)[..0] == "";
    } else if IsSpace(s[|s| - 1]) {
      assert (" " + s)[..|s|] == " " + s[..|s| - 1];
      SpaceFirst(s[..|s| - 1]);
    }
  }

  // ---- After the done frame --------------------------------------------------------------

  /** No data is open and no data line follows in a text, finished or not. */
  predicate Quiet(data: seq<string>, text: string) {
    data == [] && DataOf(Lines(text)) == [] && !StartsWith(Trim(Rest(text)), "data:")
  }

  lemma {:induction false} QuietLines(lines: seq<string>, data: seq<string>)
    ensures Fold(lines, data).0 == [] && Fold(lines, data).1 == [] <==> data == [] && DataOf(lines) == []
    decreases |lines|
  {
    hide Join, StripSpace;
    if lines != [] {
      assert StartsWith(lines[0], ":") ==> lines[0][..1][0] == ':';
      assert StartsWith(lines[0], "data:") ==> lines[0][..5][0] == 'd';
      QuietLines(lines[1..], Line(lines[0], data).1);
    }
  }

  lemma QuietExactlyWhen(text: string, data: seq<string>)
    ensures Drain(text, data).frames + Flush(Drain(text, data).buffer, Drain(text, data).data) == []
            <==> Quiet(data, text)
  {
    DrainFolds(text, data);
    QuietLines(Lines(text), data);
    hide Join, StripSpace, Fold, Lines, Rest, Drain, DataOf, Trim;
  }

  lemma {:induction false} PushSplits(first: seq<string>, second: seq<string>)
    ensures var a := PushAll(first);
            var b := Drain(a.buffer + Concat(second), a.data);
            PushAll(first + second) == b.(frames := a.frames + b.frames)
  {
    ChunksDoNotMatter(first);
    ChunksDoNotMatter(first + second);
    DrainAppend(Concat(first), [], Concat(second));
    ConcatJoins(first, second);
    hide Drain, PushAll;
  }

  lemma {:induction false} ConcatJoins(first: seq<string>, second: seq<string>)
    ensures Concat(first + second) == Concat(first) + Concat(second)
    decreases |second|
  {
    if second == [] {
      assert first + second == first;
    } else {
      var n := |second| - 1;
      assert (first + second)[..|first| + n] == first + second[..n];
      ConcatJoins(first, second[..n]);
    }
  }

  /** Every frame the whole text has, the one left open by its end included. */
  function WholeText(text: string): seq<string> {
    Drain(text, []).frames + Flush(Drain(text, []).buffer, Drain(text, []).data)
  }

  /**
   * What is handled is the whole text's frames exactly when no done frame stops the reading, or
   * the chunk that completes it leaves no data open and no data line follows.
   */
  lemma ConsumesAllExactlyWhen(chunks: seq<string>)
    ensures var k := ChunksRead(chunks);
            var s := PushAll(chunks[..k]);
            Handled(chunks) == WholeText(Concat(chunks))
            <==> (SomeDone(s.frames) ==> Quiet(s.data, s.buffer + Concat(chunks[k..])))
    ensures Handled(chunks) <= WholeText(Concat(chunks))
  {
    hide Drain, PushAll, Flush, Quiet, SomeDone, ChunksRead, Concat;
    var k := ChunksRead(chunks);
    var s := PushAll(chunks[..k]);
    assert chunks == chunks[..k] + chunks[k..];
    PushSplits(chunks[..k], chunks[k..]);
    ChunksDoNotMatter(chunks);
    NotDoneReadsAll(chunks);
    var text := s.buffer + Concat(chunks[k..]);
    QuietExactlyWhen(text, s.data);
    if SomeDone(s.frames) {
      var d := Drain(text, s.data);
      assert WholeText(Concat(chunks)) == s.frames + (d.frames + Flush(d.buffer, d.data));
    } else {
      assert chunks[..k] == chunks;
    }
  }

  lemma {:induction false} NotDoneReadsAll(chunks: seq<string>)
    ensures !SomeDone(PushAll(chunks[..ChunksRead(chunks)]).frames) ==> ChunksRead(chunks) == |chunks|
  {
    hide Drain, IsDone;
    if chunks != [] {
      var n := |chunks| - 1;
      if SomeDone(PushAll(chunks[..n]).frames) {
        NotDoneReadsAll(chunks[..n]);
        var k := ChunksRead(chunks[..n]);
        assert chunks[..n][..k] == chunks[..k];
        assert k == n ==> chunks[..n][..k] == chunks[..n];
      }
    }
  }

  /** The same text in one chunk and in two: what follows the done frame is handled or not. */
  lemma ConsumeSeesTheChunks(done: string, more: string)
    requires OneLine(done) && OneLine(more) && IsDone(done)
    ensures Concat([Write([done]), Write([more])]) == Concat([Write([done]) + Write([more])])
    ensures Handled([Write([done]), Write([more])]) == [done]
    ensures Handled([Write([done]) + Write([more])]) == [done, more]
  {
    var first, second := Write([done]), Write([more]);
    WriteTwo(done, more);
    DrainWritten([done]);
    DrainWritten([done, more]);
    StopsAtDone(first, second, [done]);
    HandlesOne(first + second, [done, more]);
    hide Drain, Write, PushAll, Handled;
    assert [first, second][..1] == [first] && [first, second][..1][..0] == [];
    assert Concat([first]) == first by { OneChunk(first); }
    OneChunk(first + second);
  }

  lemma HandlesOne(text: string, frames: seq<string>)
    requires Drain(text, []) == State(frames, "", []) && |frames| > 0 && IsDone(frames[0])
    ensures Handled([text]) == frames
  {
    PushOne(text);
    ReadOne(text);
    assert SomeDone(frames);
    hide Drain, IsDone, PushAll, ChunksRead, Flush;
  }

  lemma StopsAtDone(first: string, second: string, frames: seq<string>)
    requires Drain(first, []) == State(frames, "", []) && |frames| > 0 && IsDone(frames[0])
    ensures Handled([first, second]) == frames
  {
    PushOne(first);
    ReadOne(first);
    assert SomeDone(frames);
    hide Drain, IsDone, PushAll, ChunksRead, Flush, SomeDone;
    assert [first, second][..1] == [first];
    StopsReading([first, second], 1);
  }

  lemma OneChunk(text: string)
    ensures Concat([text]) == text
  {
    assert [text][..0] == [];
  }

  lemma ReadOne(text: string)
    ensures ChunksRead([text]) == 1 && [text][..1] == [text]
  {
    hide Drain, IsDone;
    assert [text][..0] == [];
    assert PushAll([]).frames == [];
  }

  lemma PushOne(text: string)
    ensures PushAll([text]) == Drain(text, [])
  {
    OneChunk(text);
    ChunksDoNotMatter([text]);
  }

  lemma WriteTwo(first: string, second: string)
    ensures Write([first, second]) == Write([first]) + Write([second])
  {
    assert [first, second][1..] == [second] && [first][1..] == [];
  }

  // ---- Any writer ------------------------------------------------------------------------

  /**
   * A line another writer may send: data with or without a space after the colon, or a line that
   * is neither data nor blank, which is passed over. It ends in a line feed or in CR LF.
   */
  datatype Sent = Data(text: string, spaced: bool, crlf: bool) | Other(text: string, crlf: bool)

  /** Lines up to a blank one, which has its own ending. */
  datatype Block = Block(lines: seq<Sent>, crlf: bool)

  predicate Sendable(line: Sent) {
    && OneLine(line.text)
    && (line.Data? && !line.spaced ==> line.text == "" || line.text[0] != ' ')
    && (line.Other? ==> line.text != "" && !(|line.text| >= 5 && line.text[..5] == "data:"))
  }

  predicate SendableBlock(b: Block) { forall i :: 0 <= i < |b.lines| ==> Sendable(b.lines[i]) }

  function End(crlf: bool): string { if crlf then "\r\n" else "\n" }

  function LineOf(line: Sent): string {
    match line
    case Data(text, spaced, _) => (if spaced then "data: " else "data:") + text
    case Other(text, _) => text
  }

  function SendLines(lines: seq<Sent>): string {
    if lines == [] then "" else LineOf(lines[0]) + End(lines[0].crlf) + SendLines(lines[1..])
  }

  function SendAll(blocks: seq<Block>): string {
    if blocks == [] then "" else SendLines(blocks[0].lines) + End(blocks[0].crlf) + SendAll(blocks[1..])
  }

  /** The data of a block, its lines parted by line feeds; None where it has no data line. */
  function Payload(lines: seq<Sent>): Option<string> {
    if lines == [] then None
    else
      var before, last := Payload(lines[..|lines| - 1]), lines[|lines| - 1];
      if last.Other? then before
      else if before.None? then Some(last.text)
      else Some(before.value + "\n" + last.text)
  }

  function Payloads(blocks: seq<Block>): seq<string> {
    if blocks == [] then []
    else (if Payload(blocks[0].lines).Some? then [Payload(blocks[0].lines).value] else []) + Payloads(blocks[1..])
  }

  lemma DrainLine(line: string, crlf: bool, more: string, data: seq<string>)
    requires OneLine(line)
    ensures var out := Line(line, data);
            var rest := Drain(more, out.1);
            Drain(line + End(crlf) + more, data) == rest.(frames := out.0 + rest.frames)
  {
    hide Line, Drain;
    var whole := if crlf then line + "\r" else line;
    var text := line + End(crlf) + more;
    assert text == whole + "\n" + more;
    assert forall i :: 0 <= i < |whole| ==> whole[i] != '\n';
    FindIs(text, |whole|);
    DrainFirst(text, data);
    assert text[..|whole|] == whole && text[|whole| + 1..] == more;
    assert StripReturn(whole) == line by { Stripped(line, crlf); }
  }

  lemma Stripped(line: string, crlf: bool)
    requires OneLine(line)
    ensures StripReturn(if crlf then line + "\r" else line) == line
  {
  }

  /** The texts of the data lines. */
  function Texts(lines: seq<Sent>): seq<string> {
    if lines == [] then [] else (if lines[0].Data? then [lines[0].text] else []) + Texts(lines[1..])
  }

  lemma LineTaken(line: Sent, data: seq<string>)
    requires Sendable(line)
    ensures Line(LineOf(line), data) == ([], data + if line.Data? then [line.text] else []) && OneLine(LineOf(line))
  {
    if line.Data? {
      DataLine((if line.spaced then " " else "") + line.text, data);
      assert StripSpace((if line.spaced then " " else "") + line.text) == line.text;
      assert LineOf(line) == "data:" + ((if line.spaced then " " else "") + line.text);
    } else {
      assert data + [] == data;
    }
  }

  lemma DataLine(rest: string, data: seq<string>)
    ensures Line("data:" + rest, data) == ([], data + [StripSpace(rest)])
  {
    var raw := "data:" + rest;
    assert raw[..5] == "data:" && raw[5..] == rest && raw[0] == 'd';
  }

  lemma {:induction false} DrainLines(lines: seq<Sent>, more: string, data: seq<string>)
    requires forall i :: 0 <= i < |lines| ==> Sendable(lines[i])
    ensures Drain(SendLines(lines) + more, data) == Drain(more, data + Texts(lines))
    decreases |lines|
  {
    hide Drain, Line, LineOf, Sendable, OneLine, End;
    if lines == [] {
      assert "" + more == more && data + [] == data;
    } else {
      SendFirst(lines, more, data);
      hide SendLines, Texts;
      var first, rest := lines[0], SendLines(lines[1..]) + more;
      LineTaken(first, data);
      DrainLine(LineOf(first), first.crlf, rest, data);
      var taken := data + if first.Data? then [first.text] else [];
      DrainLines(lines[1..], more, taken);
      assert [] + Drain(rest, taken).frames == Drain(rest, taken).frames;
    }
  }

  lemma SendFirst(lines: seq<Sent>, more: string, data: seq<string>)
    requires lines != []
    ensures SendLines(lines) + more == LineOf(lines[0]) + End(lines[0].crlf) + (SendLines(lines[1..]) + more)
    ensures data + Texts(lines) == data + (if lines[0].Data? then [lines[0].text] else []) + Texts(lines[1..])
  {
    hide LineOf, End;
    Regroup(LineOf(lines[0]), End(lines[0].crlf), SendLines(lines[1..]), more);
    RegroupData(data, if lines[0].Data? then [lines[0].text] else [], Texts(lines[1..]));
    assert SendLines(lines) == LineOf(lines[0]) + End(lines[0].crlf) + SendLines(lines[1..]);
    assert Texts(lines) == (if lines[0].Data? then [lines[0].text] else []) + Texts(lines[1..]);
    hide SendLines, Texts;
  }

  lemma Regroup(a: string, b: string, c: string, d: string)
    ensures a + b + c + d == a + b + (c + d)
  {
  }

  lemma RegroupData(a: seq<string>, b: seq<string>, c: seq<string>)
    ensures a + (b + c) == a + b + c
  {
  }

  lemma {:induction false} JoinLast(lines: seq<string>, last: string)
    ensures Join(lines + [last]) == if lines == [] then last else Join(lines) + "\n" + last
  {
    if |lines| > 1 {
      JoinLast(lines[1..], last);
      assert (lines + [last])[1..] == lines[1..] + [last];
      assert lines[0] + "\n" + (Join(lines[1..]) + "\n" + last) == lines[0] + "\n" + Join(lines[1..]) + "\n" + last;
    }
  }

  lemma {:induction false} TextsLast(lines: seq<Sent>, last: Sent)
    ensures Texts(lines + [last]) == Texts(lines) + if last.Data? then [last.text] else []
  {
    if lines == [] {
      assert [last][1..] == [];
    } else {
      TextsLast(lines[1..], last);
      assert (lines + [last])[1..] == lines[1..] + [last];
    }
  }

  lemma {:induction false} PayloadIsJoin(lines: seq<Sent>)
    ensures Payload(lines) == if Texts(lines) == [] then None else Some(Join(Texts(lines)))
    decreases |lines|
  {
    hide Join;
    if lines != [] {
      var n := |lines| - 1;
      PayloadIsJoin(lines[..n]);
      TextsLast(lines[..n], lines[n]);
      assert lines == lines[..n] + [lines[n]];
      if lines[n].Data? { JoinLast(Texts(lines[..n]), lines[n].text); } else { assert Texts(lines[..n]) + [] == Texts(lines[..n]); }
    }
  }

  lemma {:induction false} DrainBlocks(blocks: seq<Block>)
    requires forall i :: 0 <= i < |blocks| ==> SendableBlock(blocks[i])
    ensures Drain(SendAll(blocks), []) == State(Payloads(blocks), "", [])
    decreases |blocks|
  {
    hide Drain, Join, SendLines, Texts, Sendable, Payload;
    if blocks == [] {
      DrainNothing();
    } else {
      var b, rest := blocks[0], SendAll(blocks[1..]);
      DrainBlocks(blocks[1..]);
      assert SendableBlock(b);
      DrainLines(b.lines, End(b.crlf) + rest, []);
      assert SendAll(blocks) == SendLines(b.lines) + (End(b.crlf) + rest);
      assert [] + Texts(b.lines) == Texts(b.lines);
      DrainLine("", b.crlf, rest, Texts(b.lines));
      assert "" + End(b.crlf) + rest == End(b.crlf) + rest;
      PayloadIsJoin(b.lines);
    }
  }

  lemma DrainNothing()
    ensures Drain("", []) == State([], "", [])
  {
  }

  /** Whoever writes the lines and however the network cuts them, each block's data arrives whole and in order. */
  lemma AnyWriterReadsBack(blocks: seq<Block>, chunks: seq<string>)
    requires forall i :: 0 <= i < |blocks| ==> SendableBlock(blocks[i])
    requires Concat(chunks) == SendAll(blocks)
    ensures PushAll(chunks) == State(Payloads(blocks), "", [])
  {
    ChunksDoNotMatter(chunks);
    DrainBlocks(blocks);
  }
}
