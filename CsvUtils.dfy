/** The CSV codec of `src/utils/csvUtils.ts`: the text that `exportToCSV`
    builds, the line-and-comma parser `parseCSV`, and the file check at the
    front of `validateCSVFile`.

    The quoting of exported cells resembles rules 6 and 7 of section 2 of
    RFC 4180, but records are separated by LF, a newline inside a value is
    not quoted, and the parser ignores quoting altogether: it splits on every
    comma and deletes every double quote. */
module CsvUtils {
  import opened Wrappers
  import opened Text
  import Seqs

  // ---------------------------------------------------------------------
  // Export

  /** A property value of an exported row object. */
  datatype Value = Str(s: string) | Number(n: int) | Boolean(b: bool)

  /** One `key: value` property of an exported row object. */
  datatype Field = Field(key: string, value: Value)

  /** An exported row object: its properties in insertion order. */
  type Record = seq<Field>

  /** `Object.keys(row)`. */
  function Keys(row: Record): (ks: seq<string>)
    ensures |ks| == |row| && forall i :: 0 <= i < |row| ==> ks[i] == row[i].key
  {
    seq(|row|, i requires 0 <= i < |row| => row[i].key)
  }

  /** `row[header]`: the value under that key, or `undefined`. */
  function Get(row: Record, key: string): Option<Value>
  {
    if row == [] then None
    else if row[0].key == key then Some(row[0].value)
    else Get(row[1..], key)
  }

  /** `row[key]` is the value of the first property with that key. */
  lemma {:induction false} GetAt(row: Record, key: string, i: nat)
    requires i < |row| && row[i].key == key
    requires forall j :: 0 <= j < i ==> row[j].key != key
    ensures Get(row, key) == Some(row[i].value)
  {
    if i > 0 {
      GetAt(row[1..], key, i - 1);
    }
  }

  /** `value.replace(/"/g, '""')`. */
  function DoubleQuotes(s: string): string
  {
    if s == [] then [] else (if s[0] == '"' then "\"\"" else [s[0]]) + DoubleQuotes(s[1..])
  }

  predicate NeedsQuoting(s: string)
  {
    ',' in s || '"' in s
  }

  /** The text of one exported cell: a string holding a comma or a double
      quote is wrapped in double quotes with its own quotes doubled; any
      other value is written as it is, except that the falsy ones (0, false,
      the empty string, a missing property) give the empty cell. */
  function FormatCell(v: Option<Value>): string
  {
    match v
    case Some(Str(s)) => if NeedsQuoting(s) then "\"" + DoubleQuotes(s) + "\"" else s
    case Some(Number(n)) => if n == 0 then "" else IntToString(n)
    case Some(Boolean(b)) => if b then "true" else ""
    case None => ""
  }

  /** `headers || Object.keys(data[0])`. */
  function ExportHeaders(data: seq<Record>, headers: Option<seq<string>>): seq<string>
    requires data != []
  {
    match headers
    case Some(hs) => hs
    case None => Keys(data[0])
  }

  function Cells(row: Record, headers: seq<string>): (cells: seq<string>)
    ensures |cells| == |headers|
    ensures forall k :: 0 <= k < |headers| ==> cells[k] == FormatCell(Get(row, headers[k]))
  {
    seq(|headers|, k requires 0 <= k < |headers| => FormatCell(Get(row, headers[k])))
  }

  /** One data line: the row's cells in header order, joined by commas. */
  function RowLine(row: Record, headers: seq<string>): string
  {
    Join(Cells(row, headers), ",")
  }

  function ExportLines(data: seq<Record>, headers: seq<string>): (lines: seq<string>)
    ensures |lines| == |data| + 1
    ensures lines[0] == Join(headers, ",")
    ensures forall i :: 0 <= i < |data| ==> lines[i + 1] == RowLine(data[i], headers)
  {
    [Join(headers, ",")] + seq(|data|, i requires 0 <= i < |data| => RowLine(data[i], headers))
  }

  /** The CSV text `exportToCSV` builds, or `None` when there is no data:
      the source then returns before building any text or download. */
  function ExportText(data: seq<Record>, headers: Option<seq<string>>): (r: Option<string>)
    ensures r.None? <==> data == []
  {
    if data == [] then None
    else Some(Join(ExportLines(data, ExportHeaders(data, headers)), "\n"))
  }

  /** No exported cell of the data holds a line break. */
  predicate NoNewlineCells(data: seq<Record>, headers: seq<string>)
  {
    forall i, k :: 0 <= i < |data| && 0 <= k < |headers| ==>
      '\n' !in FormatCell(Get(data[i], headers[k]))
  }

  /** The exported text is the header line followed by one line per row,
      separated by LF and with no line break after the last one, as long as
      neither a header nor a cell holds a line break. */
  lemma ExportedLines(data: seq<Record>, headers: Option<seq<string>>)
    requires data != []
    requires forall h :: h in ExportHeaders(data, headers) ==> '\n' !in h
    requires NoNewlineCells(data, ExportHeaders(data, headers))
    ensures var hs := ExportHeaders(data, headers);
      Split(ExportText(data, headers).value, '\n') == ExportLines(data, hs)
  {
    var hs := ExportHeaders(data, headers);
    var lines := ExportLines(data, hs);
    forall i | 0 <= i < |lines| ensures '\n' !in lines[i] {
      if i == 0 {
        JoinExcludes(hs, ",", '\n');
      } else {
        JoinExcludes(Cells(data[i - 1], hs), ",", '\n');
      }
    }
    SplitJoin(lines, '\n');
  }

  /** Undoes `DoubleQuotes`: a pair of double quotes stands for one. */
  function UndoubleQuotes(s: string): string
  {
    if s == [] then []
    else if |s| >= 2 && s[0] == '"' && s[1] == '"' then "\"" + UndoubleQuotes(s[2..])
    else [s[0]] + UndoubleQuotes(s[1..])
  }

  /** How a reader following RFC 4180 reads one cell: a quoted cell loses its
      outer quotes and its doubled quotes are undoubled. */
  function ReadQuotedCell(cell: string): string
  {
    if |cell| >= 2 && cell[0] == '"' && cell[|cell| - 1] == '"'
    then UndoubleQuotes(cell[1..|cell| - 1])
    else cell
  }

  lemma {:induction false} UndoubleDoubled(s: string)
    ensures UndoubleQuotes(DoubleQuotes(s)) == s
  {
    if s != [] {
      UndoubleDoubled(s[1..]);
      if s[0] == '"' {
        assert (DoubleQuotes(s))[2..] == DoubleQuotes(s[1..]);
      } else {
        assert DoubleQuotes(s) == [s[0]] + DoubleQuotes(s[1..]);
        assert (DoubleQuotes(s))[1..] == DoubleQuotes(s[1..]);
      }
    }
  }

  /** The quoting of string cells loses nothing: a quote-aware reader gets
      every string back from its cell, so distinct strings give distinct
      cells. */
  lemma StringCellRoundTrip(s: string)
    ensures ReadQuotedCell(FormatCell(Some(Str(s)))) == s
  {
    if NeedsQuoting(s) {
      var cell := "\"" + DoubleQuotes(s) + "\"";
      assert cell[1..|cell| - 1] == DoubleQuotes(s);
      UndoubleDoubled(s);
    } else {
      assert '"' !in s;
      if |s| >= 2 { assert s[0] != '"'; }
    }
  }

  // ---------------------------------------------------------------------
  // Parse

  /** A parsed row: header name to cell text. */
  type Row = map<string, string>

  /** `line.trim()` is truthy. */
  predicate IsNonBlank(line: string)
  {
    Trim(line) != ""
  }

  /** `csvText.split('\n').filter(line => line.trim())`. */
  function DataLines(csvText: string): seq<string>
  {
    Seqs.Filter(Split(csvText, '\n'), IsNonBlank)
  }

  /** `v.trim().replace(/"/g, '')`. */
  function CleanCell(v: string): string
  {
    RemoveAll(Trim(v), '"')
  }

  /** `line.split(',').map(v => v.trim().replace(/"/g, ''))`. */
  function SplitCells(line: string): (cells: seq<string>)
    ensures |cells| == |Split(line, ',')|
    ensures forall i :: 0 <= i < |cells| ==> cells[i] == CleanCell(Split(line, ',')[i])
  {
    var parts := Split(line, ',');
    seq(|parts|, i requires 0 <= i < |parts| => CleanCell(parts[i]))
  }

  /** `values[index] || ''`. */
  function CellAt(values: seq<string>, index: nat): string
  {
    if index < |values| then values[index] else ""
  }

  /** The row object once the `forEach` has visited the first `n` headers. */
  function RowPrefix(headers: seq<string>, values: seq<string>, n: nat): Row
    requires n <= |headers|
  {
    if n == 0 then map[] else RowPrefix(headers, values, n - 1)[headers[n - 1] := CellAt(values, n - 1)]
  }

  /** The row parsed from one data line under the given headers. */
  function ParseLine(headers: seq<string>, line: string): Row
  {
    RowPrefix(headers, SplitCells(line), |headers|)
  }

  /** One row per data line, in order. */
  function ParseLines(headers: seq<string>, lines: seq<string>): (rows: seq<Row>)
    ensures |rows| == |lines|
  {
    if lines == [] then []
    else ParseLines(headers, lines[..|lines| - 1]) + [ParseLine(headers, lines[|lines| - 1])]
  }

  lemma {:induction false} ParseLinesAt(headers: seq<string>, lines: seq<string>, i: nat)
    requires i < |lines|
    ensures ParseLines(headers, lines)[i] == ParseLine(headers, lines[i])
  {
    if i < |lines| - 1 {
      ParseLinesAt(headers, lines[..|lines| - 1], i);
    }
  }

  /** What `parseCSV` returns. */
  function Parse(csvText: string): seq<Row>
  {
    var lines := DataLines(csvText);
    if |lines| < 2 then [] else ParseLines(SplitCells(lines[0]), lines[1..])
  }

  /** One pass of `parseCSV`'s outer loop: the row object built by the
      `forEach` over the headers. */
  method ParseRow(headers: seq<string>, line: string) returns (row: Row)
    ensures row == ParseLine(headers, line)
  {
    var values := SplitCells(line);
    row := map[];
    for index := 0 to |headers|
      invariant row == RowPrefix(headers, values, index)
    {
      row := row[headers[index] := CellAt(values, index)];
    }
  }

  /** `parseCSV`: fewer than two non-blank lines give no rows; otherwise the
      first non-blank line names the columns and every later one gives a
      row, in order. */
  method ParseCsv(csvText: string) returns (data: seq<Row>)
    ensures data == Parse(csvText)
  {
    var lines := DataLines(csvText);
    if |lines| < 2 {
      return [];
    }
    var headers := SplitCells(lines[0]);
    var body := lines[1..];
    data := [];
    for i := 0 to |body|
      invariant data == ParseLines(headers, body[..i])
    {
      var row := ParseRow(headers, body[i]);
      ParseLinesSnoc(headers, body, i);
      data := data + [row];
    }
    assert body[..|body|] == body;
  }

  /** Parsing one more line appends its row. */
  lemma ParseLinesSnoc(headers: seq<string>, lines: seq<string>, i: nat)
    requires i < |lines|
    ensures ParseLines(headers, lines[..i + 1]) == ParseLines(headers, lines[..i]) + [ParseLine(headers, lines[i])]
  {
    assert lines[..i + 1][..i] == lines[..i];
  }

  /** The parser's output has one row per non-blank line after the first,
      and none when there is at most one non-blank line. */
  lemma ParseLength(csvText: string)
    ensures |DataLines(csvText)| < 2 ==> Parse(csvText) == []
    ensures |DataLines(csvText)| >= 2 ==> |Parse(csvText)| == |DataLines(csvText)| - 1
  {
  }

  /** Every parsed row has a key for every header and no other key. */
  lemma {:induction false} RowKeys(headers: seq<string>, values: seq<string>, n: nat)
    requires n <= |headers|
    ensures RowPrefix(headers, values, n).Keys == set k | 0 <= k < n :: headers[k]
  {
    if n > 0 {
      RowKeys(headers, values, n - 1);
    }
  }

  /** Under a header, a row holds the cell at that header's position (its
      last position when the header repeats), or '' when the line is
      shorter: short lines are padded and extra cells are dropped. */
  lemma {:induction false} RowValue(headers: seq<string>, values: seq<string>, n: nat, j: nat)
    requires j < n <= |headers|
    requires forall k :: j < k < n ==> headers[k] != headers[j]
    ensures headers[j] in RowPrefix(headers, values, n)
    ensures RowPrefix(headers, values, n)[headers[j]] == CellAt(values, j)
  {
    if j < n - 1 {
      RowValue(headers, values, n - 1, j);
    }
  }

  /** Every value of a row is one of the cells of its line, or ''. */
  lemma {:induction false} RowValuesFromCells(headers: seq<string>, values: seq<string>, n: nat)
    requires n <= |headers|
    ensures forall h :: h in RowPrefix(headers, values, n) ==>
      RowPrefix(headers, values, n)[h] == "" || RowPrefix(headers, values, n)[h] in values
  {
    if n > 0 {
      RowValuesFromCells(headers, values, n - 1);
    }
  }

  /** A cleaned cell holds no comma (the line was split on them), no double
      quote (all were deleted) and no line break. */
  lemma CleanCellsArePlain(line: string)
    requires '\n' !in line
    ensures forall v :: v in SplitCells(line) ==> ',' !in v && '"' !in v && '\n' !in v
  {
    var parts := Split(line, ',');
    JoinSplit(line, ',');
    forall i | 0 <= i < |parts| ensures '\n' !in parts[i] {
      PieceOfJoin(parts, ",", i);
    }
  }

  lemma {:induction false} PieceOfJoin(parts: seq<string>, sep: string, i: nat)
    requires i < |parts|
    ensures forall c :: c in parts[i] ==> c in Join(parts, sep)
  {
    if i > 0 {
      PieceOfJoin(parts[1..], sep, i - 1);
    }
  }

  /** No parsed value (and no header) contains a comma, a double quote or a
      line break, so a quoted cell that contained a comma comes back split
      over two columns. */
  lemma ParsedValuesArePlain(csvText: string)
    ensures forall r, h :: r in Parse(csvText) && h in r ==>
      ',' !in r[h] && '"' !in r[h] && '\n' !in r[h]
    ensures forall r, h :: r in Parse(csvText) && h in r ==> ',' !in h && '"' !in h
  {
    var lines := DataLines(csvText);
    if |lines| >= 2 {
      DataLinesHaveNoBreak(csvText);
      var headers := SplitCells(lines[0]);
      CleanCellsArePlain(lines[0]);
      assert Parse(csvText) == ParseLines(headers, lines[1..]);
      assert forall l :: l in lines[1..] ==> l in lines;
      RowsArePlain(headers, lines[1..]);
    }
  }

  lemma DataLinesHaveNoBreak(csvText: string)
    ensures forall l :: l in DataLines(csvText) ==> '\n' !in l
  {
    Seqs.FilterSpec(Split(csvText, '\n'), IsNonBlank);
  }

  /** Rows parsed under plain headers from lines without a line break have
      plain keys and values. */
  lemma RowsArePlain(headers: seq<string>, lines: seq<string>)
    requires forall l :: l in lines ==> '\n' !in l
    requires forall h :: h in headers ==> ',' !in h && '"' !in h
    ensures forall r, h :: r in ParseLines(headers, lines) && h in r ==>
      ',' !in h && '"' !in h && ',' !in r[h] && '"' !in r[h] && '\n' !in r[h]
  {
    forall r, h | r in ParseLines(headers, lines) && h in r
      ensures ',' !in h && '"' !in h && ',' !in r[h] && '"' !in r[h] && '\n' !in r[h]
    {
      var i :| 0 <= i < |lines| && ParseLines(headers, lines)[i] == r;
      ParseLinesAt(headers, lines, i);
      ParsedLinePlain(headers, lines[i]);
    }
  }

  /** The row parsed from one line under plain headers has plain keys and
      values. */
  lemma ParsedLinePlain(headers: seq<string>, line: string)
    requires '\n' !in line
    requires forall h :: h in headers ==> ',' !in h && '"' !in h
    ensures forall h :: h in ParseLine(headers, line) ==>
      ',' !in h && '"' !in h
      && ',' !in ParseLine(headers, line)[h] && '"' !in ParseLine(headers, line)[h]
      && '\n' !in ParseLine(headers, line)[h]
  {
    var values := SplitCells(line);
    CleanCellsArePlain(line);
    RowValuesFromCells(headers, values, |headers|);
    RowKeys(headers, values, |headers|);
  }

  // ---------------------------------------------------------------------
  // Round trip

  /** A text that both the exporter and the parser leave as it is: not empty,
      no comma, double quote or line break, no surrounding whitespace. */
  predicate IsPlain(s: string)
  {
    s != "" && ',' !in s && '"' !in s && '\n' !in s && IsTrimmed(s)
  }

  lemma CleanPlain(s: string)
    requires ',' !in s && '"' !in s && IsTrimmed(s)
    ensures CleanCell(s) == s
  {
  }

  /** What the parser can get back from an exported row: each header's cell. */
  function CellMap(row: Record, headers: seq<string>): Row
  {
    map h | h in headers :: FormatCell(Get(row, h))
  }

  lemma {:induction false} RowPrefixOfCells(headers: seq<string>, row: Record, n: nat)
    requires n <= |headers|
    ensures RowPrefix(headers, Cells(row, headers), n) == map h | h in headers[..n] :: FormatCell(Get(row, h))
  {
    if n > 0 {
      RowPrefixOfCells(headers, row, n - 1);
      assert headers[..n] == headers[..n - 1] + [headers[n - 1]];
    }
  }

  /** A line made of cells that need no cleaning splits back into them. */
  lemma SplitCellsOfJoin(cells: seq<string>)
    requires |cells| >= 1
    requires forall k :: 0 <= k < |cells| ==> ',' !in cells[k] && '"' !in cells[k] && IsTrimmed(cells[k])
    ensures SplitCells(Join(cells, ",")) == cells
  {
    SplitJoin(cells, ',');
  }

  /** The exported cells of every row are plain (possibly empty); with a
      single column they must also be non-empty, or the line would be blank. */
  predicate PlainCells(data: seq<Record>, headers: seq<string>)
  {
    forall i, k :: 0 <= i < |data| && 0 <= k < |headers| ==>
      var c := FormatCell(Get(data[i], headers[k]));
      ',' !in c && '"' !in c && '\n' !in c && IsTrimmed(c) && (|headers| >= 2 || c != "")
  }

  /** Export followed by parse gives back, row by row and under the same
      headers, the text of every cell, provided the headers are plain and the
      cells hold no comma, double quote, line break or surrounding whitespace.
      (It does not hold beyond that: the parser ignores quoting.) */
  lemma ExportParseRoundTrip(data: seq<Record>, headers: seq<string>)
    requires data != [] && headers != []
    requires forall k :: 0 <= k < |headers| ==> IsPlain(headers[k])
    requires PlainCells(data, headers)
    ensures var rows := Parse(ExportText(data, Some(headers)).value);
      |rows| == |data| && forall i :: 0 <= i < |data| ==> rows[i] == CellMap(data[i], headers)
  {
    var text := ExportText(data, Some(headers)).value;
    var lines := ExportLines(data, headers);
    ExportedDataLines(data, headers);
    SplitCellsOfJoin(headers);
    var rows := Parse(text);
    assert rows == ParseLines(headers, lines[1..]);
    forall i | 0 <= i < |data| ensures rows[i] == CellMap(data[i], headers) {
      ParseLinesAt(headers, lines[1..], i);
      assert lines[1..][i] == RowLine(data[i], headers);
      ParsedRowOfLine(data[i], headers);
    }
  }

  /** With plain headers and cells, every exported line is non-blank, so the
      parser sees exactly the exported lines. */
  lemma ExportedDataLines(data: seq<Record>, headers: seq<string>)
    requires data != [] && headers != []
    requires forall k :: 0 <= k < |headers| ==> IsPlain(headers[k])
    requires PlainCells(data, headers)
    ensures DataLines(ExportText(data, Some(headers)).value) == ExportLines(data, headers)
  {
    var lines := ExportLines(data, headers);
    assert forall h :: h in headers ==> '\n' !in h;
    ExportedLines(data, Some(headers));
    forall i | 0 <= i < |lines| ensures IsNonBlank(lines[i]) {
      NonBlankLine(data, headers, i);
    }
    Seqs.FilterAll(lines, IsNonBlank);
  }

  /** Parsing one exported line under its own headers gives each header's cell. */
  lemma ParsedRowOfLine(row: Record, headers: seq<string>)
    requires forall k :: 0 <= k < |headers| ==> var c := FormatCell(Get(row, headers[k]));
      ',' !in c && '"' !in c && IsTrimmed(c)
    requires headers != []
    ensures ParseLine(headers, RowLine(row, headers)) == CellMap(row, headers)
  {
    var cells := Cells(row, headers);
    SplitCellsOfJoin(cells);
    assert SplitCells(RowLine(row, headers)) == cells;
    RowPrefixOfCells(headers, row, |headers|);
    assert headers[..|headers|] == headers;
    calc {
      ParseLine(headers, RowLine(row, headers));
      RowPrefix(headers, cells, |headers|);
      map h | h in headers :: FormatCell(Get(row, h));
    }
  }

  lemma NonBlankLine(data: seq<Record>, headers: seq<string>, i: nat)
    requires data != [] && headers != []
    requires forall k :: 0 <= k < |headers| ==> IsPlain(headers[k])
    requires PlainCells(data, headers)
    requires i <= |data|
    ensures IsNonBlank(ExportLines(data, headers)[i])
  {
    var line := ExportLines(data, headers)[i];
    var parts := if i == 0 then headers else Cells(data[i - 1], headers);
    assert line == Join(parts, ",");
    if |parts| >= 2 {
      JoinHasSeparator(parts, ',');
      var j :| 0 <= j < |line| && line[j] == ',';
      assert !IsWhitespace(line[j]);
    } else {
      assert line == parts[0];
      assert !IsWhitespace(line[0]);
    }
  }

  /** For rows whose values are plain strings, export then parse gives back
      exactly those strings under the same headers. */
  lemma StringRoundTrip(data: seq<Record>, headers: seq<string>)
    requires data != [] && headers != []
    requires forall k :: 0 <= k < |headers| ==> IsPlain(headers[k])
    requires forall i, k :: 0 <= i < |data| && 0 <= k < |headers| ==>
      Get(data[i], headers[k]).Some? && Get(data[i], headers[k]).value.Str?
      && IsPlain(Get(data[i], headers[k]).value.s)
    ensures var rows := Parse(ExportText(data, Some(headers)).value);
      |rows| == |data| &&
      forall i, k :: 0 <= i < |data| && 0 <= k < |headers| ==>
        headers[k] in rows[i] && rows[i][headers[k]] == Get(data[i], headers[k]).value.s
  {
    ExportParseRoundTrip(data, headers);
  }

  /** Whatever the cells hold, the parse of an export with at least two
      plain headers is not empty and its first row has exactly those headers
      as keys: the header line is always the first non-blank line, and the
      first data line always holds a comma. */
  lemma ExportedHeaderKeys(data: seq<Record>, headers: seq<string>)
    requires data != [] && |headers| >= 2
    requires forall k :: 0 <= k < |headers| ==> IsPlain(headers[k])
    ensures var rows := Parse(ExportText(data, Some(headers)).value);
      rows != [] && rows[0].Keys == set h | h in headers
  {
    var text := ExportText(data, Some(headers)).value;
    var head := Join(headers, ",");
    var rest := ExportSplitsAtHeader(data, headers);
    JoinHasSeparator(headers, ',');
    NonBlankWithComma(head);
    DataLinesAfterHead(text, head, rest);
    FirstRowKeys(text, headers);
  }

  /** A text made of a non-blank first line and a rest holding a comma has
      that line as its first non-blank line, and another one after it. */
  lemma DataLinesAfterHead(text: string, head: string, rest: string)
    requires Split(text, '\n') == [head] + Split(rest, '\n')
    requires IsNonBlank(head) && ',' in rest
    ensures |DataLines(text)| >= 2 && DataLines(text)[0] == head
  {
    var pieces := Split(rest, '\n');
    NonBlankPieceOf(rest);
    assert ([head] + pieces)[1..] == pieces;
    assert DataLines(text) == [head] + Seqs.Filter(pieces, IsNonBlank);
  }

  /** When the first non-blank line is the plain headers joined by commas and
      a data line follows, the first parsed row has exactly those keys. */
  lemma FirstRowKeys(text: string, headers: seq<string>)
    requires headers != [] && forall k :: 0 <= k < |headers| ==> IsPlain(headers[k])
    requires |DataLines(text)| >= 2 && DataLines(text)[0] == Join(headers, ",")
    ensures Parse(text) != [] && Parse(text)[0].Keys == set h | h in headers
  {
    var dataLines := DataLines(text);
    SplitCellsOfJoin(headers);
    assert SplitCells(dataLines[0]) == headers;
    var body := dataLines[1..];
    assert Parse(text) == ParseLines(headers, body);
    ParseLinesAt(headers, body, 0);
    var values := SplitCells(body[0]);
    assert Parse(text)[0] == RowPrefix(headers, values, |headers|);
    RowKeys(headers, values, |headers|);
    SetOfIndices(headers);
  }

  lemma SetOfIndices(headers: seq<string>)
    ensures (set k | 0 <= k < |headers| :: headers[k]) == set h | h in headers
  {
  }

  /** The exported text is the header line, a line break, and a rest that
      holds a comma. */
  lemma ExportSplitsAtHeader(data: seq<Record>, headers: seq<string>) returns (rest: string)
    requires data != [] && |headers| >= 2
    requires forall k :: 0 <= k < |headers| ==> IsPlain(headers[k])
    ensures ',' in rest
    ensures Split(ExportText(data, Some(headers)).value, '\n')
      == [Join(headers, ",")] + Split(rest, '\n')
  {
    var lines := ExportLines(data, headers);
    var head := lines[0];
    rest := Join(lines[1..], "\n");
    assert ExportText(data, Some(headers)).value == head + "\n" + rest;
    assert forall k :: 0 <= k < |headers| ==> '\n' !in headers[k];
    JoinExcludes(headers, ",", '\n');
    SplitConcat(head, '\n', rest);
    JoinHasSeparator(Cells(data[0], headers), ',');
    assert lines[1..][0] == lines[1];
    PieceOfJoin(lines[1..], "\n", 0);
  }

  /** A text holding a comma has a non-blank line. */
  lemma NonBlankPieceOf(rest: string)
    requires ',' in rest
    ensures Seqs.Filter(Split(rest, '\n'), IsNonBlank) != []
  {
    var pieces := Split(rest, '\n');
    JoinSplit(rest, '\n');
    if forall i :: 0 <= i < |pieces| ==> ',' !in pieces[i] {
      JoinExcludes(pieces, "\n", ',');
    } else {
      var j :| 0 <= j < |pieces| && ',' in pieces[j];
      NonBlankWithComma(pieces[j]);
      Seqs.FilterSpec(pieces, IsNonBlank);
      assert pieces[j] in pieces;
    }
  }

  lemma NonBlankWithComma(line: string)
    requires ',' in line
    ensures IsNonBlank(line)
  {
    var m :| 0 <= m < |line| && line[m] == ',';
    assert !IsWhitespace(line[m]);
  }

  /** A string holding a comma or a double quote never comes back from the
      parser, whatever the text: the exporter's quoting of such a cell is
      lost on import (the cell is split over several columns and its quotes
      are dropped). */
  lemma QuotedValueIsLost(csvText: string, s: string)
    requires ',' in s || '"' in s
    ensures forall r, h :: r in Parse(csvText) && h in r ==> r[h] != s
  {
    ParsedValuesArePlain(csvText);
  }

  // ---------------------------------------------------------------------
  // File check

  /** What the browser reports about the chosen file. */
  datatype FileInfo = FileInfo(name: string, mimeType: string)

  /** The outcome of reading the file's text. */
  datatype ReadOutcome = Loaded(text: string) | ReadFailed

  const NoFileMessage := "Nenhum arquivo selecionado"
  const NotCsvMessage := "Por favor, selecione um arquivo CSV"
  const ReadErrorMessage := "Erro ao ler o arquivo"

  /** A file counts as CSV by its MIME type or by its name. */
  predicate IsCsvFile(f: FileInfo)
  {
    f.mimeType == "text/csv" || EndsWith(f.name, ".csv")
  }

  /** `validateCSVFile`: resolves with the file's text, or rejects with the
      message of the first check that fails (no file, not CSV, read error). */
  function ValidateCsvFile(file: Option<FileInfo>, read: ReadOutcome): (r: Result<string, string>)
    ensures r.Ok? <==> file.Some? && IsCsvFile(file.value) && read.Loaded?
    ensures r.Ok? ==> r.value == read.text
    ensures r.Err? ==> r.error in {NoFileMessage, NotCsvMessage, ReadErrorMessage}
  {
    if file.None? then Err(NoFileMessage)
    else if !IsCsvFile(file.value) then Err(NotCsvMessage)
    else match read
      case Loaded(text) => Ok(text)
      case ReadFailed => Err(ReadErrorMessage)
  }

  /** Which check rejects: a missing file first, then the type, then the read. */
  lemma RejectionOrder(file: Option<FileInfo>, read: ReadOutcome)
    ensures file.None? ==> ValidateCsvFile(file, read) == Err(NoFileMessage)
    ensures file.Some? && !IsCsvFile(file.value) ==> ValidateCsvFile(file, read) == Err(NotCsvMessage)
    ensures file.Some? && IsCsvFile(file.value) && read.ReadFailed? ==>
      ValidateCsvFile(file, read) == Err(ReadErrorMessage)
  {
  }

  /** A text file named `data.txt` is refused however it reads; a file whose
      name ends in `.csv` is taken whatever type the browser reports, but the
      extension check is case-sensitive. */
  lemma FileCheckExamples(read: ReadOutcome)
    ensures ValidateCsvFile(Some(FileInfo("data.txt", "text/plain")), read) == Err(NotCsvMessage)
    ensures IsCsvFile(FileInfo("estoque.csv", "application/vnd.ms-excel"))
    ensures !IsCsvFile(FileInfo("ESTOQUE.CSV", ""))
  {
    assert "data.txt"[4..] != ".csv";
    assert "estoque.csv"[7..] == ".csv";
    assert "ESTOQUE.CSV"[7..] != ".csv";
  }
}
