/**
 * Reading CSV (apps/worker/src/leads/two-gis-csv.ts; section 2 of RFC 4180)
 * and the quoted writer beside it (apps/worker/src/leads-brief.ts).
 */
module Csv {
  const QUOTE := '\"'

  /** The loop's variables. */
  datatype Scan = Scan(rows: seq<seq<string>>, row: seq<string>, field: string, inQuotes: bool)

  const START := Scan([], [], "", false)

  /** `field.replace(/\r$/, "")`. */
  function StripCr(field: string): string {
    if field != "" && field[|field| - 1] == '\r' then field[..|field| - 1] else field
  }

  /** One character outside quotes. */
  function Outside(c: char, s: Scan): Scan {
    if c == QUOTE then s.(inQuotes := true)
    else if c == ',' then s.(row := s.row + [s.field], field := "")
    else if c == '\n' then s.(rows := s.rows + [s.row + [StripCr(s.field)]], row := [], field := "")
    else s.(field := s.field + [c])
  }

  /** Read the rest of the text. */
  function ScanText(text: string, s: Scan): Scan
    decreases |text|
  {
    if text == "" then s
    else if !s.inQuotes then ScanText(text[1..], Outside(text[0], s))
    else if text[0] == QUOTE && |text| > 1 && text[1] == QUOTE then
      ScanText(text[2..], s.(field := s.field + [QUOTE]))
    else if text[0] == QUOTE then ScanText(text[1..], s.(inQuotes := false))
    else ScanText(text[1..], s.(field := s.field + [text[0]]))
  }

  function Finish(s: Scan): seq<seq<string>> {
    if s.field != "" || s.row != [] then s.rows + [s.row + [StripCr(s.field)]] else s.rows
  }

  function Parse(text: string): seq<seq<string>> {
    Finish(ScanText(text, START))
  }

  method ParseCsv(text: string) returns (rows: seq<seq<string>>)
    ensures rows == Parse(text)
  {
    rows := [];
    var row: seq<string>, field, inQuotes, index := [], "", false, 0;
    while index < |text|
      invariant index <= |text|
      invariant ScanText(text[index..], Scan(rows, row, field, inQuotes)) == ScanText(text, START)
    {
      var c := text[index];
      assert text[index..][1..] == text[index + 1..];
      if inQuotes {
        if c == QUOTE && index + 1 < |text| && text[index + 1] == QUOTE {
          assert text[index..][2..] == text[index + 2..];
          field := field + [QUOTE];
          index := index + 1;
        } else if c == QUOTE {
          inQuotes := false;
        } else {
          field := field + [c];
        }
      } else if c == QUOTE {
        inQuotes := true;
      } else if c == ',' {
        row, field := row + [field], "";
      } else if c == '\n' {
        rows, row, field := rows + [row + [StripCr(field)]], [], "";
      } else {
        field := field + [c];
      }
      index := index + 1;
    }
    assert text[index..] == "";
    if field != "" || |row| > 0 {
      rows := rows + [row + [StripCr(field)]];
    }
  }

  // ---- Writers

  /** `replaceAll('"', '""')`. */
  function Escape(value: string): string {
    if value == "" then ""
    else (if value[0] == QUOTE then [QUOTE, QUOTE] else [value[0]]) + Escape(value[1..])
  }

  function Cell(value: string): string {
    [QUOTE] + Escape(value) + [QUOTE]
  }

  /** A cell as some writer puts it down: in quotes or bare. */
  datatype StyledCell = StyledCell(value: string, isQuoted: bool)

  /** A row and how it is broken off: with a carriage return or without. */
  datatype Line = Line(cells: seq<StyledCell>, isCrLf: bool)

  /** A cell may stand bare when it holds no quote, comma or line break. */
  predicate IsWritable(c: StyledCell) {
    c.isQuoted || (QUOTE !in c.value && ',' !in c.value && '\n' !in c.value)
  }

  ghost predicate AreWritable(lines: seq<Line>) {
    forall i, j :: 0 <= i < |lines| && 0 <= j < |lines[i].cells| ==> IsWritable(lines[i].cells[j])
  }

  function CellText(c: StyledCell): string {
    if c.isQuoted then Cell(c.value) else c.value
  }

  function JoinCells(cells: seq<StyledCell>): string {
    if cells == [] then ""
    else if |cells| == 1 then CellText(cells[0])
    else CellText(cells[0]) + "," + JoinCells(cells[1..])
  }

  function Break(isCrLf: bool): string {
    if isCrLf then "\r\n" else "\n"
  }

  /** Line by line; the last one may go without its break. */
  function WriteLines(lines: seq<Line>, hasFinalBreak: bool): string {
    if lines == [] then ""
    else if |lines| == 1 && !hasFinalBreak then JoinCells(lines[0].cells)
    else JoinCells(lines[0].cells) + Break(lines[0].isCrLf) + WriteLines(lines[1..], hasFinalBreak)
  }

  function QuotedLine(row: seq<string>): Line {
    Line(seq(|row|, i requires 0 <= i < |row| => StyledCell(row[i], true)), false)
  }

  /** The repository's writer: every cell in quotes, a newline after every row. */
  function Write(rows: seq<seq<string>>): string {
    WriteLines(seq(|rows|, i requires 0 <= i < |rows| => QuotedLine(rows[i])), true)
  }

  // ---- Reading back what was written

  /** Outside quotes a bare text is taken as it stands. */
  lemma {:induction false} ScanBare(value: string, rest: string, s: Scan)
    requires !s.inQuotes && QUOTE !in value && ',' !in value && '\n' !in value
    ensures ScanText(value + rest, s) == ScanText(rest, s.(field := s.field + value))
    decreases |value|
  {
    if value == "" {
      assert value + rest == rest && s.field + value == s.field;
    } else {
      assert (value + rest)[1..] == value[1..] + rest;
      ScanBare(value[1..], rest, s.(field := s.field + [value[0]]));
      assert s.field + [value[0]] + value[1..] == s.field + value;
    }
  }

  lemma {:induction false} ScanEscaped(value: string, rest: string, s: Scan)
    requires s.inQuotes && (rest == "" || rest[0] != QUOTE)
    ensures ScanText(Escape(value) + [QUOTE] + rest, s)
      == ScanText(rest, s.(field := s.field + value, inQuotes := false))
    decreases |value|
  {
    var text := Escape(value) + [QUOTE] + rest;
    if value == "" {
      assert text[1..] == rest;
      assert s.field + value == s.field;
    } else if value[0] == QUOTE {
      assert text[2..] == Escape(value[1..]) + [QUOTE] + rest;
      ScanEscaped(value[1..], rest, s.(field := s.field + [QUOTE]));
      assert s.field + value == s.field + [QUOTE] + value[1..];
    } else {
      assert text[1..] == Escape(value[1..]) + [QUOTE] + rest;
      ScanEscaped(value[1..], rest, s.(field := s.field + [value[0]]));
      assert s.field + value == s.field + [value[0]] + value[1..];
    }
  }

  lemma ScanCell(c: StyledCell, rest: string, s: Scan)
    requires !s.inQuotes && s.field == "" && (rest == "" || rest[0] != QUOTE) && IsWritable(c)
    ensures ScanText(CellText(c) + rest, s) == ScanText(rest, s.(field := c.value))
  {
    assert s.field + c.value == c.value;
    if c.isQuoted {
      var text := Cell(c.value) + rest;
      assert text[1..] == Escape(c.value) + [QUOTE] + rest;
      ScanEscaped(c.value, rest, s.(inQuotes := true));
    } else {
      ScanBare(c.value, rest, s);
    }
  }

  lemma ScanComma(rest: string, s: Scan)
    requires !s.inQuotes
    ensures ScanText("," + rest, s) == ScanText(rest, s.(row := s.row + [s.field], field := ""))
  {
    assert ("," + rest)[1..] == rest;
  }

  lemma ScanNewline(rest: string, s: Scan)
    requires !s.inQuotes
    ensures ScanText("\n" + rest, s)
      == ScanText(rest, s.(rows := s.rows + [s.row + [StripCr(s.field)]], row := [], field := ""))
  {
    assert ("\n" + rest)[1..] == rest;
  }

  predicate EndsInReturn(value: string) {
    value != "" && value[|value| - 1] == '\r'
  }

  /** The value without a carriage return at its end. */
  function WithoutReturn(value: string): string {
    if EndsInReturn(value) then value[..|value| - 1] else value
  }

  /** What a broken-off field is read as. */
  function Ended(value: string, isCrLf: bool): string {
    if isCrLf then value else WithoutReturn(value)
  }

  lemma ScanBreak(isCrLf: bool, rest: string, s: Scan)
    requires !s.inQuotes
    ensures ScanText(Break(isCrLf) + rest, s)
      == ScanText(rest, s.(rows := s.rows + [s.row + [Ended(s.field, isCrLf)]], row := [], field := ""))
  {
    if isCrLf {
      assert Break(true) + rest == "\r" + ("\n" + rest);
      assert ("\r" + ("\n" + rest))[1..] == "\n" + rest;
      ScanNewline(rest, s.(field := s.field + ['\r']));
      assert StripCr(s.field + ['\r']) == s.field;
    } else {
      ScanNewline(rest, s);
    }
  }

  function Values(cells: seq<StyledCell>): (row: seq<string>)
    ensures |row| == |cells| && forall i :: 0 <= i < |cells| ==> row[i] == cells[i].value
  {
    seq(|cells|, i requires 0 <= i < |cells| => cells[i].value)
  }

  function Last(row: seq<string>): string
    requires row != []
  {
    row[|row| - 1]
  }

  lemma Regrouped(cell: string, cells: string, rest: string)
    ensures cell + "," + cells + rest == cell + ("," + (cells + rest))
  {
  }

  lemma JoinedTail(cells: seq<StyledCell>, rest: string)
    requires |cells| > 1
    ensures JoinCells(cells) + rest == CellText(cells[0]) + ("," + (JoinCells(cells[1..]) + rest))
  {
    hide CellText;
    assert JoinCells(cells) == CellText(cells[0]) + "," + JoinCells(cells[1..]);
    hide JoinCells;
    Regrouped(CellText(cells[0]), JoinCells(cells[1..]), rest);
  }

  lemma ValuesTail(cells: seq<StyledCell>, row: seq<string>)
    requires |cells| > 1
    ensures var values, tail := Values(cells), Values(cells[1..]);
      && row + [cells[0].value] + tail[..|tail| - 1] == row + values[..|values| - 1]
      && Last(tail) == Last(values)
  {
    assert Values(cells) == [cells[0].value] + Values(cells[1..]);
  }

  /** All cells but the last are in the row, and the last one is in the field. */
  lemma {:induction false} ScanCells(cells: seq<StyledCell>, rest: string, s: Scan)
    requires !s.inQuotes && s.field == "" && (rest == "" || rest[0] != QUOTE)
    requires cells != [] && forall j :: 0 <= j < |cells| ==> IsWritable(cells[j])
    ensures var values := Values(cells);
      ScanText(JoinCells(cells) + rest, s)
        == ScanText(rest, s.(row := s.row + values[..|values| - 1], field := Last(values)))
    decreases |cells|
  {
    hide ScanText, CellText, IsWritable;
    if |cells| == 1 {
      ScanCell(cells[0], rest, s);
      assert s.row + Values(cells)[..0] == s.row;
    } else {
      var tail := JoinCells(cells[1..]) + rest;
      JoinedTail(cells, rest);
      ValuesTail(cells, s.row);
      hide JoinCells, Values, Last;
      ScanCell(cells[0], "," + tail, s);
      ScanComma(tail, s.(field := cells[0].value));
      ScanCells(cells[1..], rest, s.(row := s.row + [cells[0].value]));
    }
  }

  /** A broken-off line as it is read: without cells it is one empty cell, and a bare newline takes a return with it. */
  function ReadLine(line: Line): seq<string> {
    var values := Values(line.cells);
    if values == [] then [""] else values[..|values| - 1] + [Ended(Last(values), line.isCrLf)]
  }

  /** The line that is not broken off: nothing if all its text is gone, else as before a newline. */
  function ReadOpenLine(line: Line): seq<seq<string>> {
    if line.cells == [] || Values(line.cells) == [""] then [] else [ReadLine(line.(isCrLf := false))]
  }

  function ReadLines(lines: seq<Line>, hasFinalBreak: bool): seq<seq<string>> {
    if lines == [] then []
    else if |lines| == 1 && !hasFinalBreak then ReadOpenLine(lines[0])
    else [ReadLine(lines[0])] + ReadLines(lines[1..], hasFinalBreak)
  }

  lemma ScanLine(line: Line, rest: string, s: Scan)
    requires !s.inQuotes && s.field == "" && s.row == []
    requires forall j :: 0 <= j < |line.cells| ==> IsWritable(line.cells[j])
    ensures ScanText(JoinCells(line.cells) + Break(line.isCrLf) + rest, s)
      == ScanText(rest, s.(rows := s.rows + [ReadLine(line)]))
  {
    hide ScanText, IsWritable, JoinCells;
    var end := Break(line.isCrLf) + rest;
    assert JoinCells(line.cells) + Break(line.isCrLf) + rest == JoinCells(line.cells) + end;
    if line.cells == [] {
      NothingJoined();
      assert JoinCells(line.cells) + end == end;
      ScanBreak(line.isCrLf, rest, s);
      assert s.row + [Ended(s.field, line.isCrLf)] == [""] == ReadLine(line);
    } else {
      var values := Values(line.cells);
      ScanCells(line.cells, end, s);
      ScanBreak(line.isCrLf, rest, s.(row := s.row + values[..|values| - 1], field := Last(values)));
      assert s.row + values[..|values| - 1] == values[..|values| - 1];
    }
  }

  lemma NothingJoined()
    ensures JoinCells([]) == ""
  {
  }

  lemma OpenLine(line: Line, s: Scan)
    requires !s.inQuotes && s.field == "" && s.row == []
    requires forall j :: 0 <= j < |line.cells| ==> IsWritable(line.cells[j])
    ensures Finish(ScanText(JoinCells(line.cells), s)) == s.rows + ReadOpenLine(line)
  {
    hide IsWritable;
    if line.cells != [] {
      var values := Values(line.cells);
      assert JoinCells(line.cells) + "" == JoinCells(line.cells);
      ScanCells(line.cells, "", s);
      assert s.row + values[..|values| - 1] == values[..|values| - 1];
      assert |values| == 1 ==> values == [values[0]];
    }
  }

  lemma {:induction false} ScanLines(lines: seq<Line>, hasFinalBreak: bool, s: Scan)
    requires !s.inQuotes && s.field == "" && s.row == [] && AreWritable(lines)
    ensures Finish(ScanText(WriteLines(lines, hasFinalBreak), s)) == s.rows + ReadLines(lines, hasFinalBreak)
    decreases |lines|
  {
    hide IsWritable, ReadLine, ReadOpenLine, JoinCells, Break;
    if lines == [] {
      assert s.rows + [] == s.rows;
    } else if |lines| == 1 && !hasFinalBreak {
      hide ScanText, Finish;
      OpenLine(lines[0], s);
    } else {
      hide ScanText, Finish;
      var rest := WriteLines(lines[1..], hasFinalBreak);
      ScanLine(lines[0], rest, s);
      ScanLines(lines[1..], hasFinalBreak, s.(rows := s.rows + [ReadLine(lines[0])]));
      assert s.rows + [ReadLine(lines[0])] + ReadLines(lines[1..], hasFinalBreak)
        == s.rows + ReadLines(lines, hasFinalBreak);
    }
  }

  /** Whatever mix of bare and quoted cells and of line breaks was written is read line by line. */
  lemma ParseOfLines(lines: seq<Line>, hasFinalBreak: bool)
    requires AreWritable(lines)
    ensures Parse(WriteLines(lines, hasFinalBreak)) == ReadLines(lines, hasFinalBreak)
  {
    ScanLines(lines, hasFinalBreak, START);
    assert START.rows + ReadLines(lines, hasFinalBreak) == ReadLines(lines, hasFinalBreak);
  }

  /** The cells of the i-th line are read back as they are. */
  ghost predicate ComesBack(lines: seq<Line>, hasFinalBreak: bool, i: nat)
    requires i < |lines|
  {
    var values := Values(lines[i].cells);
    && values != []
    && if i == |lines| - 1 && !hasFinalBreak then !EndsInReturn(Last(values)) && values != [""]
       else lines[i].isCrLf || !EndsInReturn(Last(values))
  }

  function AllValues(lines: seq<Line>): (rows: seq<seq<string>>)
    ensures |rows| == |lines| && forall i :: 0 <= i < |lines| ==> rows[i] == Values(lines[i].cells)
  {
    seq(|lines|, i requires 0 <= i < |lines| => Values(lines[i].cells))
  }

  lemma ReadLineExactly(line: Line)
    ensures ReadLine(line) == Values(line.cells) <==>
      line.cells != [] && (line.isCrLf || !EndsInReturn(Last(Values(line.cells))))
  {
    var values := Values(line.cells);
    if values != [] {
      assert values == values[..|values| - 1] + [Last(values)];
      assert Last(ReadLine(line)) == Ended(Last(values), line.isCrLf);
    }
  }

  lemma OpenLineExactly(line: Line)
    ensures ReadOpenLine(line) == [Values(line.cells)] <==>
      && line.cells != [] && Values(line.cells) != [""]
      && !EndsInReturn(Last(Values(line.cells)))
  {
    ReadLineExactly(line.(isCrLf := false));
  }

  /**
   * Reading undoes writing, whether cells are bare or quoted and lines end in
   * newlines or in returns and newlines, exactly when every line has a cell,
   * no last cell before a bare newline or the end of the text ends in a
   * carriage return, and the text does not end in a lone empty cell.
   */
  lemma {:induction false} LinesComeBackExactly(lines: seq<Line>, hasFinalBreak: bool)
    requires AreWritable(lines)
    ensures Parse(WriteLines(lines, hasFinalBreak)) == AllValues(lines) <==>
      forall i :: 0 <= i < |lines| ==> ComesBack(lines, hasFinalBreak, i)
  {
    ParseOfLines(lines, hasFinalBreak);
    ReadExactly(lines, hasFinalBreak);
  }

  lemma {:induction false} ReadExactly(lines: seq<Line>, hasFinalBreak: bool)
    ensures ReadLines(lines, hasFinalBreak) == AllValues(lines) <==>
      forall i :: 0 <= i < |lines| ==> ComesBack(lines, hasFinalBreak, i)
    decreases |lines|
  {
    hide ReadLine, ReadOpenLine, EndsInReturn, Values, Last;
    if |lines| == 1 && !hasFinalBreak {
      OpenLineExactly(lines[0]);
      assert AllValues(lines) == [Values(lines[0].cells)];
      assert ReadLines(lines, hasFinalBreak) == ReadOpenLine(lines[0]);
      OneComesBack(lines);
    } else if lines != [] {
      ReadLineExactly(lines[0]);
      ReadExactly(lines[1..], hasFinalBreak);
      assert AllValues(lines) == [Values(lines[0].cells)] + AllValues(lines[1..]);
      ComesBackLater(lines, hasFinalBreak);
      FirstThenRest(ReadLine(lines[0]), ReadLines(lines[1..], hasFinalBreak),
                    Values(lines[0].cells), AllValues(lines[1..]));
    }
  }

  lemma FirstThenRest(a: seq<string>, rest: seq<seq<string>>, a': seq<string>, rest': seq<seq<string>>)
    ensures [a] + rest == [a'] + rest' <==> a == a' && rest == rest'
  {
    if [a] + rest == [a'] + rest' {
      assert a == ([a] + rest)[0] && rest == ([a] + rest)[1..];
      assert a' == ([a'] + rest')[0] && rest' == ([a'] + rest')[1..];
    }
  }

  lemma OneComesBack(lines: seq<Line>)
    requires |lines| == 1
    ensures (forall i :: 0 <= i < |lines| ==> ComesBack(lines, false, i)) <==>
      && lines[0].cells != [] && Values(lines[0].cells) != [""]
      && !EndsInReturn(Last(Values(lines[0].cells)))
  {
    hide EndsInReturn, Last;
    assert ComesBack(lines, false, 0) <==>
      && lines[0].cells != [] && Values(lines[0].cells) != [""]
      && !EndsInReturn(Last(Values(lines[0].cells)));
  }

  lemma ComesBackLater(lines: seq<Line>, hasFinalBreak: bool)
    requires lines != [] && (|lines| > 1 || hasFinalBreak)
    ensures ComesBack(lines, hasFinalBreak, 0) <==>
      Values(lines[0].cells) != [] && (lines[0].isCrLf || !EndsInReturn(Last(Values(lines[0].cells))))
    ensures (forall i :: 0 <= i < |lines| ==> ComesBack(lines, hasFinalBreak, i)) <==>
      ComesBack(lines, hasFinalBreak, 0)
      && forall i :: 0 <= i < |lines[1..]| ==> ComesBack(lines[1..], hasFinalBreak, i)
  {
    hide EndsInReturn, Values, Last;
    forall i | 0 <= i < |lines[1..]|
      ensures ComesBack(lines[1..], hasFinalBreak, i) <==> ComesBack(lines, hasFinalBreak, i + 1)
    {
      assert lines[1..][i] == lines[i + 1];
    }
    assert forall i :: 0 < i < |lines| ==>
      (ComesBack(lines, hasFinalBreak, i) <==> ComesBack(lines[1..], hasFinalBreak, i - 1));
  }

  /**
   * So rows from the repository's own writer come back unchanged, commas,
   * quotes and line breaks included, exactly when each has a cell and none ends
   * in a carriage return.
   */
  lemma RoundTripExactly(rows: seq<seq<string>>)
    ensures Parse(Write(rows)) == rows <==>
      forall i :: 0 <= i < |rows| ==> rows[i] != [] && !EndsInReturn(Last(rows[i]))
  {
    hide Parse, WriteLines, EndsInReturn, Last;
    var lines := seq(|rows|, i requires 0 <= i < |rows| => QuotedLine(rows[i]));
    LinesComeBackExactly(lines, true);
    forall i | 0 <= i < |rows| ensures Values(lines[i].cells) == rows[i] {
    }
    assert AllValues(lines) == rows;
    assert forall i :: 0 <= i < |rows| ==>
      (ComesBack(lines, true, i) <==> rows[i] != [] && !EndsInReturn(Last(rows[i])));
  }
}
