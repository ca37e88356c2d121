/** The state of the CSV import dialog of `src/components/CSVImportModal.tsx`:
    the chosen file, the parsed rows, the error text and the loading flag, and
    the two callbacks the dialog fires (`onImport`, `onOpenChange`), recorded
    in order as events. Reading the file is not modelled: each file change
    receives what the read produced. */
module CsvImportModal {
  import opened Wrappers
  import opened Text
  import opened CsvUtils
  import Seqs

  const EmptyMessage := "O arquivo CSV está vazio ou não possui dados válidos"
  const MissingPrefix := "Colunas obrigatórias não encontradas: "

  /** A callback the dialog fires. */
  datatype DialogEvent = Imported(rows: seq<Row>) | OpenChange(open: bool)

  /** `h => !fileHeaders.includes(h)` for the keys of a parsed row. */
  function Absent(row: Row): string -> bool
  {
    (h: string) => h !in row
  }

  /** The expected headers that are not keys of the row, in expected order. */
  function MissingHeaders(expected: seq<string>, row: Row): seq<string>
  {
    Seqs.Filter(expected, Absent(row))
  }

  /** A header is reported missing exactly when it is expected and the row
      lacks it; the report keeps the expected order; nothing is missing
      exactly when the row has every expected header. */
  lemma MissingHeadersSpec(expected: seq<string>, row: Row)
    ensures forall h :: h in MissingHeaders(expected, row) ==> h in expected && h !in row
    ensures forall h :: h in expected && h !in row ==> h in MissingHeaders(expected, row)
    ensures Seqs.IsSubsequence(MissingHeaders(expected, row), expected)
    ensures MissingHeaders(expected, row) == [] <==> forall h :: h in expected ==> h in row
  {
    Seqs.FilterSpec(expected, Absent(row));
    var m := MissingHeaders(expected, row);
    if m != [] {
      assert m[0] in m;
    }
  }

  /** What a file change ends in: the parsed rows to keep, or the message to
      show. The type and read checks come first, then the empty check, then
      (only when headers are expected) the header check on the first row. */
  function FileChangeOutcome(expected: seq<string>, file: FileInfo, read: ReadOutcome): Result<seq<Row>, string>
  {
    match ValidateCsvFile(Some(file), read)
    case Err(message) => Err(message)
    case Ok(text) =>
      var rows := Parse(text);
      if |rows| == 0 then Err(EmptyMessage)
      else if |expected| > 0 && |MissingHeaders(expected, rows[0])| > 0 then
        Err(MissingPrefix + Join(MissingHeaders(expected, rows[0]), ", "))
      else Ok(rows)
  }

  /** A file change keeps rows exactly when the file is CSV, reads, parses
      to at least one row, and its first row has every expected header; the
      rows kept are the parse of the text read. */
  lemma FileChangeAccepts(expected: seq<string>, file: FileInfo, read: ReadOutcome)
    ensures FileChangeOutcome(expected, file, read).Ok? <==>
      IsCsvFile(file) && read.Loaded? && Parse(read.text) != []
      && forall h :: h in expected ==> h in Parse(read.text)[0]
    ensures FileChangeOutcome(expected, file, read).Ok? ==>
      FileChangeOutcome(expected, file, read).value == Parse(read.text)
  {
    if IsCsvFile(file) && read.Loaded? && Parse(read.text) != [] {
      MissingHeadersSpec(expected, Parse(read.text)[0]);
    }
  }

  /** Rows the dialog may hold: none, or rows read from a CSV file whose
      first row has every expected header. */
  predicate RowsChecked(expected: seq<string>, file: Option<FileInfo>, rows: seq<Row>)
  {
    rows != [] ==>
      file.Some? && IsCsvFile(file.value) && forall h :: h in expected ==> h in rows[0]
  }

  /** The rows a file change keeps are rows the dialog may hold. */
  lemma AcceptedRowsChecked(expected: seq<string>, file: FileInfo, read: ReadOutcome)
    requires FileChangeOutcome(expected, file, read).Ok?
    ensures RowsChecked(expected, Some(file), FileChangeOutcome(expected, file, read).value)
    ensures FileChangeOutcome(expected, file, read).value != []
  {
    FileChangeAccepts(expected, file, read);
  }

  /** The message shown for each way a file change fails. */
  lemma FileChangeRejects(expected: seq<string>, file: FileInfo, read: ReadOutcome)
    ensures !IsCsvFile(file) ==> FileChangeOutcome(expected, file, read) == Err(NotCsvMessage)
    ensures IsCsvFile(file) && read.ReadFailed? ==>
      FileChangeOutcome(expected, file, read) == Err(ReadErrorMessage)
    ensures IsCsvFile(file) && read.Loaded? && Parse(read.text) == [] ==>
      FileChangeOutcome(expected, file, read) == Err(EmptyMessage)
    ensures (IsCsvFile(file) && read.Loaded? && Parse(read.text) != [] && expected != []
             && MissingHeaders(expected, Parse(read.text)[0]) != []) ==>
      FileChangeOutcome(expected, file, read)
        == Err(MissingPrefix + Join(MissingHeaders(expected, Parse(read.text)[0]), ", "))
  {
  }

  /** With no expected headers, any CSV file that reads and parses to at
      least one row is accepted. */
  lemma NoHeaderCheckWithoutExpected(file: FileInfo, read: ReadOutcome)
    requires IsCsvFile(file) && read.Loaded? && Parse(read.text) != []
    ensures FileChangeOutcome([], file, read) == Ok(Parse(read.text))
  {
  }

  /** The `try` block of `handleFileChange`: check and read the file, parse
      its text, and check the rows; gives the rows to keep or the message to
      show, exactly as `FileChangeOutcome` says. */
  method ReadAndCheck(expectedHeaders: seq<string>, selected: FileInfo, read: ReadOutcome)
    returns (outcome: Result<seq<Row>, string>)
    ensures outcome == FileChangeOutcome(expectedHeaders, selected, read)
  {
    var checked := ValidateCsvFile(Some(selected), read);
    if checked.Err? {
      return Err(checked.error);
    }
    var parsedData := ParseCsv(checked.value);
    if |parsedData| == 0 {
      return Err(EmptyMessage);
    }
    if |expectedHeaders| > 0 {
      var missing := MissingHeaders(expectedHeaders, parsedData[0]);
      if |missing| > 0 {
        return Err(MissingPrefix + Join(missing, ", "));
      }
    }
    return Ok(parsedData);
  }

  class ImportDialog {
    const expectedHeaders: seq<string>
    var file: Option<FileInfo>
    var csvData: seq<Row>
    var error: string
    var loading: bool
    /** The callbacks fired so far, oldest first. */
    var events: seq<DialogEvent>

    /** Between handlers nothing is loading, and rows are only ever held for
        a CSV file whose first row has every expected header. */
    predicate Valid()
      reads this
    {
      !loading && RowsChecked(expectedHeaders, file, csvData)
    }

    /** A fresh dialog; `expectedHeaders` defaults to none. */
    constructor(expectedHeaders: seq<string>)
      ensures this.expectedHeaders == expectedHeaders
      ensures file == None && csvData == [] && error == "" && !loading && events == []
      ensures Valid()
    {
      this.expectedHeaders := expectedHeaders;
      file := None;
      csvData := [];
      error := "";
      loading := false;
      events := [];
    }

    /** `handleFileChange`. With no file selected nothing changes. Otherwise
        the error is cleared and loading is set, the file is checked, read
        and parsed, and on success the file and its rows replace the old
        ones; on failure only the error changes. Loading ends on every path. */
    method HandleFileChange(selected: Option<FileInfo>, read: ReadOutcome)
      requires Valid()
      modifies this
      ensures Valid()
      ensures selected.None? ==>
        file == old(file) && csvData == old(csvData) && error == old(error)
        && loading == old(loading) && events == old(events)
      ensures selected.Some? ==> events == old(events) && !loading
      ensures selected.Some? && FileChangeOutcome(expectedHeaders, selected.value, read).Ok? ==>
        file == selected && csvData == FileChangeOutcome(expectedHeaders, selected.value, read).value && error == ""
      ensures selected.Some? && FileChangeOutcome(expectedHeaders, selected.value, read).Err? ==>
        file == old(file) && csvData == old(csvData)
        && error == FileChangeOutcome(expectedHeaders, selected.value, read).error
    {
      if selected.None? {
        return;
      }
      error := "";
      loading := true;
      var outcome := ReadAndCheck(expectedHeaders, selected.value, read);
      if outcome.Ok? {
        AcceptedRowsChecked(expectedHeaders, selected.value, read);
        file := selected;
        csvData := outcome.value;
      } else {
        error := outcome.error;
      }
      loading := false;
    }

    /** `handleImport`: with rows held, fires `onImport` once with them and
        then closes; with none, does nothing. */
    method HandleImport()
      requires Valid()
      modifies this
      ensures Valid()
      ensures old(csvData) != [] ==>
        events == old(events) + [Imported(old(csvData)), OpenChange(false)]
        && file == None && csvData == [] && error == "" && loading == old(loading)
      ensures old(csvData) == [] ==>
        file == old(file) && csvData == old(csvData) && error == old(error)
        && loading == old(loading) && events == old(events)
    {
      if |csvData| > 0 {
        events := events + [Imported(csvData)];
        HandleClose();
      }
    }

    /** `handleClose`: forgets the file, the rows and the error, and asks
        the parent to close the dialog. */
    method HandleClose()
      requires Valid()
      modifies this
      ensures Valid()
      ensures file == None && csvData == [] && error == ""
      ensures loading == old(loading) && events == old(events) + [OpenChange(false)]
    {
      file := None;
      csvData := [];
      error := "";
      events := events + [OpenChange(false)];
    }
  }
}
