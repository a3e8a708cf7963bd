/**
 * CSV cells out and lines in: a cell is kept from being read as a formula and quoted where
 * it must be (section 2 of RFC 4180); the importer's line splitter is a character loop.
 */
module Csv {
  import opened Text

  // ---- Writing ------------------------------------------------------------------

  predicate LooksLikeFormula(text: string) {
    text != "" && text[0] in {'=', '+', '-', '@', '\t', '\r'}
  }

  function NeutraliseFormula(text: string): string {
    if LooksLikeFormula(text) then "'" + text else text
  }

  predicate NeedsQuotes(text: string) {
    exists i :: 0 <= i < |text| && text[i] in {'"', ',', '\n', '\r'}
  }

  function DoubleQuotes(text: string): string {
    if text == "" then "" else (if text[0] == '"' then "\"\"" else [text[0]]) + DoubleQuotes(text[1..])
  }

  function CsvCell(text: string): string {
    var safe := NeutraliseFormula(text);
    if NeedsQuotes(safe) then "\"" + DoubleQuotes(safe) + "\"" else safe
  }

  function Row(cells: seq<string>): string
    requires cells != []
  {
    if |cells| == 1 then CsvCell(cells[0]) else CsvCell(cells[0]) + "," + Row(cells[1..])
  }

  // ---- Splitting ------------------------------------------------------------------

  /** What the loop makes of the rest of a line. */
  function Scan(text: string, current: string, quoted: bool): seq<string>
    decreases |text|
  {
    if text == "" then [current]
    else if quoted then
      if text[0] == '"' && |text| > 1 && text[1] == '"' then Scan(text[2..], current + "\"", true)
      else if text[0] == '"' then Scan(text[1..], current, false)
      else Scan(text[1..], current + [text[0]], true)
    else if text[0] == '"' then Scan(text[1..], current, true)
    else if text[0] == ',' then [current] + Scan(text[1..], "", false)
    else Scan(text[1..], current + [text[0]], false)
  }

  function TrimAll(cells: seq<string>): seq<string> {
    seq(|cells|, i requires 0 <= i < |cells| => Trim(cells[i]))
  }

  method SplitCsvLine(text: string) returns (trimmed: seq<string>)
    ensures trimmed == TrimAll(Scan(text, "", false))
  {
    var cells: seq<string> := [];
    var current := "";
    var quoted := false;
    var index := 0;
    while index < |text|
      invariant 0 <= index <= |text|
      invariant Scan(text, "", false) == cells + Scan(text[index..], current, quoted)
    {
      var c := text[index];
      ghost var rest := text[index..];
      assert rest[1..] == text[index + 1..];
      if quoted {
        if c == '"' && index + 1 < |text| && text[index + 1] == '"' {
          assert rest[2..] == text[index + 2..];
          current := current + "\"";
          index := index + 1;
        } else if c == '"' {
          quoted := false;
        } else {
          current := current + [c];
        }
      } else if c == '"' {
        quoted := true;
      } else if c == ',' {
        assert cells + ([current] + Scan(rest[1..], "", false)) == cells + [current] + Scan(rest[1..], "", false);
        cells := cells + [current];
        current := "";
      } else {
        current := current + [c];
      }
      index := index + 1;
    }
    assert text[index..] == "";
    cells := cells + [current];
    return TrimAll(cells);
  }

  // ---- Round trip -------------------------------------------------------------------

  predicate Plain(text: string) {
    forall i :: 0 <= i < |text| ==> text[i] != '"' && text[i] != ','
  }

  lemma {:induction false} ScanPlain(text: string, rest: string, current: string)
    requires Plain(text)
    ensures Scan(text + rest, current, false) == Scan(rest, current + text, false)
    decreases |text|
  {
    if text == "" {
      assert text + rest == rest && current + text == current;
    } else {
      assert (text + rest)[1..] == text[1..] + rest;
      ScanPlain(text[1..], rest, current + [text[0]]);
      assert current + [text[0]] + text[1..] == current + text;
    }
  }

  /** Inside quotes everything is taken as it stands, up to a quote that is not doubled. */
  lemma {:induction false} ScanQuoted(text: string, rest: string, current: string)
    requires rest == "" || rest[0] != '"'
    ensures Scan(DoubleQuotes(text) + "\"" + rest, current, true) == Scan(rest, current + text, false)
    decreases |text|
  {
    var all := DoubleQuotes(text) + "\"" + rest;
    if text == "" {
      assert all[1..] == rest && current + text == current;
      assert |all| > 1 ==> all[1] == rest[0];
    } else {
      var tail := DoubleQuotes(text[1..]) + "\"" + rest;
      ScanQuoted(text[1..], rest, current + [text[0]]);
      assert current + [text[0]] + text[1..] == current + text;
      if text[0] == '"' {
        assert all == "\"\"" + tail && all[2..] == tail;
      } else {
        assert all == [text[0]] + tail && all[1..] == tail;
      }
    }
  }

  lemma ScanCell(cell: string, rest: string)
    requires rest == "" || rest[0] == ','
    ensures Scan(CsvCell(cell) + rest, "", false) == Scan(rest, NeutraliseFormula(cell), false)
  {
    hide Scan, DoubleQuotes, LooksLikeFormula;
    var safe := NeutraliseFormula(cell);
    assert "" + safe == safe;
    if NeedsQuotes(safe) {
      assert CsvCell(cell) + rest == "\"" + (DoubleQuotes(safe) + "\"" + rest);
      ScanOpens(DoubleQuotes(safe) + "\"" + rest);
      ScanQuoted(safe, rest, "");
    } else {
      ScanPlain(safe, rest, "");
    }
  }

  lemma ScanOpens(text: string)
    ensures Scan("\"" + text, "", false) == Scan(text, "", true)
  {
    assert ("\"" + text)[1..] == text;
  }

  function NeutraliseAll(cells: seq<string>): seq<string> {
    seq(|cells|, i requires 0 <= i < |cells| => NeutraliseFormula(cells[i]))
  }

  lemma {:induction false} ScanRow(cells: seq<string>)
    requires cells != []
    ensures Scan(Row(cells), "", false) == NeutraliseAll(cells)
    decreases |cells|
  {
    if |cells| == 1 {
      assert Row(cells) + "" == Row(cells);
      ScanCell(cells[0], "");
    } else {
      ScanRow(cells[1..]);
      var rest := "," + Row(cells[1..]);
      assert Row(cells) == CsvCell(cells[0]) + rest && rest[1..] == Row(cells[1..]);
      ScanCell(cells[0], rest);
      assert [NeutraliseFormula(cells[0])] + NeutraliseAll(cells[1..]) == NeutraliseAll(cells);
    }
  }

  /** A written row splits into its cells again, neutralised and trimmed, whatever they hold. */
  predicate StartsAFormula(cell: string) {
    cell != "" && (cell[0] == '=' || cell[0] == '+' || cell[0] == '-' || cell[0] == '@' || cell[0] == '\t' || cell[0] == '\r')
  }

  lemma RowSplitsBack(cells: seq<string>)
    requires cells != []
    ensures TrimAll(Scan(Row(cells), "", false)) == TrimAll(NeutraliseAll(cells))
    ensures |NeutraliseAll(cells)| == |cells|
    ensures forall i :: 0 <= i < |cells| ==>
              && NeutraliseAll(cells)[i] == (if StartsAFormula(cells[i]) then "'" + cells[i] else cells[i])
              && !StartsAFormula(NeutraliseAll(cells)[i])
  {
    ScanRow(cells);
  }

  /** A cell comes back as it was exactly when it is trimmed already and is no formula. */
  lemma CellSurvivesExactlyWhen(cell: string)
    ensures Trim(NeutraliseFormula(cell)) == cell <==> !StartsAFormula(cell) && Trim(cell) == cell
  {
    if LooksLikeFormula(cell) {
      TrimEndAfter("'", cell);
      assert TrimStart("'" + cell) == "'" + cell;
      assert Trim("'" + cell)[0] == '\'';
    }
  }
}
