# quick-table-flow, modelled in Dafny

quick-table-flow is a restaurant dashboard written in React and TypeScript.
It has views for tables (mesas), the menu (cardápio), orders (pedidos),
stock (estoque), staff (funcionários) and settings (configurações). Almost
all of it is view code. This project models the logic inside those views
and proves properties of it:

- the CSV codec of `src/utils/csvUtils.ts`: the exporter's text, the
  line-and-comma parser, and the file-type check;
- the CSV import dialog, as a class holding `file`, `csvData`, `error`
  and `loading`;
- the decision rules of the views, as functions over lists of records:
  - the stock import/export mapping;
  - the order-status advance, the order filter and the status counts;
  - the table-status update and the merge of an update into the table list;
  - the duplicate-number guard of the new-table form;
  - the active-shift lookup;
  - the menu categories and the menu filter;
  - the dashboard figures;
  - the nested settings update.

Each source file is one module: `CsvUtils`, `CsvImportModal`, `EstoqueView`,
`PedidosView`, `MesasView`, `IndexPage`, `MesaCadastroModal`,
`FuncionariosView`, `CardapioView`, `Dashboard` and `ConfiguracoesView`.
Four more modules support them:

- `Types` holds the records of `src/types/index.ts`. It also holds
  `Funcionario` and `Turno`, which the staff view imports but the types
  file does not declare; their fields are the ones the view reads.
- `Text` holds the JavaScript string built-ins the code uses:
  - `split`, `join`, `trim`, removing every `"`;
  - `includes`, `endsWith`, ASCII `toLowerCase`;
  - integer-to-text conversion and `parseInt`/`parseFloat`.
- `Seqs` holds `filter`, `filter(...).length`, `find`, and
  `Array.from(new Set(...))`.
- `Wrappers` holds `Option` and `Result`.

## Modelling conventions

- **State.** State a component keeps in `useState` and changes from its
  handlers becomes a `class`: the import dialog, the table grid, the
  new-table form, the new-employee form and the settings screen.
  Callbacks the component fires (`onImport`, `onOpenChange`, `onMesaAdd`,
  `onMesaUpdate`, `onFuncionarioAdd`) become an event log field, in call
  order. Everything else is a function.
- **Numbers.** Numbers are integers. `parseInt` and `parseFloat` are one
  reader of a leading decimal integer. It gives `NaN` when no digit leads
  the text (`Text.ParseDecimal`). `x || 0` turns `NaN` into 0.
- **Time.** The clock values of the source are parameters: the opening
  time of a table and today's admission date.
- **Reading a file.** Reading is not modelled. A file change receives the
  file's name and MIME type together with the read's outcome: the text, or
  a read error.
- **Exported rows.** An exported row object is a list of `key: value`
  properties, in insertion order, and `Object.keys(data[0])` is taken to
  be that order. JavaScript lists integer-like keys such as `"1"` first,
  in ascending order; the model does not (see "Left out").
- **Parsed rows.** A parsed row is a `map<string, string>`.
- **Partial updates.** A `Partial<Mesa>` has, for each property, either no
  entry or a value. `undefined` is a value (`Set(None)`), since the
  source's spread copies it.

The CSV quoting of the exporter resembles rules 6 and 7 of section 2 of
RFC 4180: a value holding a comma or a double quote is wrapped in double
quotes, with its own quotes doubled. The code departs from RFC 4180 in four
ways, and the model follows the code:

- records end with LF, not CRLF;
- a value holding a line break is not quoted;
- the parser ignores quoting and splits on every comma;
- the parser deletes every double quote.

So the round trip holds only for plain cells (`CsvUtils.ExportParseRoundTrip`).
A string with a comma or a quote never comes back (`CsvUtils.QuotedValueIsLost`).

## Model

| member | source | states |
|---|---|---|
| CsvUtils.GetAt | src/utils/csvUtils.ts:16 | `row[header]` is the value of the first property with that key |
| CsvUtils.ExportLines | src/utils/csvUtils.ts:12-24 | the exported lines are the headers joined by `,`, then one line per row with that row's cells in header order |
| CsvUtils.ExportText | src/utils/csvUtils.ts:9 | there is no export (no text, no download) exactly when the data list is empty |
| CsvUtils.ExportedLines | src/utils/csvUtils.ts:12-24 | when no header or cell holds a line break, splitting the text at LF gives exactly the `data.length + 1` lines, with no trailing line break |
| CsvUtils.StringCellRoundTrip | src/utils/csvUtils.ts:18-21 | a reader that undoes the quoting gets back every string from its cell, so the quoting is injective |
| CsvUtils.ParseRow | src/utils/csvUtils.ts:47-52 | the `forEach` over the headers builds the row that `ParseLine` gives for the line |
| CsvUtils.ParseCsv | src/utils/csvUtils.ts:39-58 | the loop of `parseCSV` returns `Parse` of the text: no rows for fewer than two non-blank lines, otherwise one row per later line under the first line's headers |
| CsvUtils.ParseLinesAt | src/utils/csvUtils.ts:46-55 | row `i` is the row parsed from the `i`-th data line, so the rows keep the order of the lines |
| CsvUtils.ParseLength | src/utils/csvUtils.ts:40-41 | fewer than two non-blank lines give `[]`; otherwise there is one row per non-blank line after the first |
| CsvUtils.RowKeys | src/utils/csvUtils.ts:50-52 | a parsed row has a key for every header and no other key |
| CsvUtils.RowValue | src/utils/csvUtils.ts:50-52 | under a header (at its last position when it repeats) the row holds that position's cell, or `''` when the line is shorter: short lines are padded, extra cells dropped |
| CsvUtils.RowValuesFromCells | src/utils/csvUtils.ts:47-52 | every value of a row is one of its line's cleaned cells, or `''` |
| CsvUtils.CleanCellsArePlain | src/utils/csvUtils.ts:47 | a cleaned cell holds no comma, no double quote and no line break |
| CsvUtils.ParsedValuesArePlain | src/utils/csvUtils.ts:43-52 | no parsed value holds a comma, a double quote or a line break, and no header holds a comma or a double quote |
| CsvUtils.QuotedValueIsLost | src/utils/csvUtils.ts:43-47 | a string holding a comma or a double quote is never a parsed value, whatever the text |
| CsvUtils.ExportParseRoundTrip | src/utils/csvUtils.ts:12-55 | with plain headers and cells (no comma, quote, line break or surrounding space), parsing the export gives, row by row, each header's exported cell |
| CsvUtils.StringRoundTrip | src/utils/csvUtils.ts:12-55 | rows of plain non-empty strings come back from export and parse as exactly those strings under the same headers |
| CsvUtils.ExportedHeaderKeys | src/utils/csvUtils.ts:12-52 | whatever the cells hold, an export with at least two plain headers parses to a non-empty list whose first row has exactly those headers as keys |
| CsvUtils.ValidateCsvFile | src/utils/csvUtils.ts:60-81 | the file's text is produced exactly when a file is given, its type is `text/csv` or its name ends in `.csv`, and the read succeeds; otherwise one of the three messages |
| CsvUtils.RejectionOrder | src/utils/csvUtils.ts:62-78 | the checks reject in order: a missing file, then its type, then the read |
| CsvUtils.FileCheckExamples | src/utils/csvUtils.ts:67-70 | `data.txt` is refused; a `.csv` name is accepted whatever the type; the extension check is case-sensitive |
| Text.ParseDecimalOfIntToString | src/components/EstoqueView.tsx:46 | `parseFloat` of an integer's decimal text gives that integer back |
| CsvImportModal.MissingHeadersSpec | src/components/CSVImportModal.tsx:49-50 | a header is missing exactly when it is expected and the first row lacks it; the missing list is in expected order; it is empty exactly when every expected header is present |
| CsvImportModal.FileChangeAccepts | src/components/CSVImportModal.tsx:38-59 | a file change keeps rows exactly when the file is CSV, reads, parses to a row and the first row has every expected header; the rows kept are the parse of the text |
| CsvImportModal.FileChangeRejects | src/components/CSVImportModal.tsx:39-61 | the error for each failure: type, read, empty parse, and the missing headers joined by `, ` after the fixed prefix |
| CsvImportModal.AcceptedRowsChecked | src/components/CSVImportModal.tsx:42-59 | rows a file change keeps are non-empty, come from a CSV file, and their first row has every expected header |
| CsvImportModal.ReadAndCheck | src/components/CSVImportModal.tsx:38-59 | the steps of the `try` block in source order give exactly the outcome `FileChangeOutcome` specifies: the rows to keep or the message to show |
| CsvImportModal.NoHeaderCheckWithoutExpected | src/components/CSVImportModal.tsx:48 | with no expected headers, any CSV file that reads and parses to a row is accepted |
| CsvImportModal.ImportDialog.constructor | src/components/CSVImportModal.tsx:24-29 | the dialog starts with no file, no rows, no error, not loading, and no expected headers unless given |
| CsvImportModal.ImportDialog.HandleFileChange | src/components/CSVImportModal.tsx:31-65 | no file changes nothing; otherwise success stores exactly the file and the parsed rows and clears the error, and failure stores the message and keeps file and rows; loading ends false on every path; rows are only held for a CSV file with every expected header |
| CsvImportModal.ImportDialog.HandleImport | src/components/CSVImportModal.tsx:67-72 | with rows held, `onImport` is called once with them and then the dialog closes and clears; with none, nothing happens |
| CsvImportModal.ImportDialog.HandleClose | src/components/CSVImportModal.tsx:74-79 | file, rows and error are cleared and `onOpenChange(false)` is called once |
| EstoqueView.ItensEmFaltaSpec | src/components/EstoqueView.tsx:20 | the low-stock list is exactly the items with `quantidade <= estoqueMinimo`, in stock order, and a card's status (line 154) is `baixo` exactly for those items |
| EstoqueView.ExportRecord | src/components/EstoqueView.tsx:24-32 | the exported object of an item has the seven export columns as its keys, in order |
| EstoqueView.ExportEstoque | src/components/EstoqueView.tsx:23-38 | an empty stock exports nothing, a non-empty one exports a text |
| EstoqueView.ImportColumnsExported | src/components/EstoqueView.tsx:221 | every header the import dialog requires is one of the exported headers (line 37) |
| EstoqueView.ExportedFileIsAccepted | src/components/EstoqueView.tsx:34-38 | an exported stock file with a `.csv` name passes every check of the import dialog, whatever the items hold |
| EstoqueView.ImportTextDefaults | src/components/EstoqueView.tsx:44-47 | a missing or empty name becomes `''`, category `Outros` and unit `un`; non-empty texts are kept |
| EstoqueView.ImportNumberDefaults | src/components/EstoqueView.tsx:46-49 | a missing or empty numeric cell gives 0, and an integer's decimal text gives that integer |
| EstoqueView.ImportUnparsableNumber | src/components/EstoqueView.tsx:46-49 | a numeric cell that does not start with a number gives 0 |
| EstoqueView.ImportRows | src/components/EstoqueView.tsx:41-53 | one `onItemAdd` per parsed row, in row order, each with the defaulted item of that row |
| EstoqueView.NumberCellRoundTrip | src/components/EstoqueView.tsx:46 | a number's exported cell reads back as the number (0 exports as the empty cell and reads back as 0) |
| EstoqueView.ItemRoundTrip | src/components/EstoqueView.tsx:43-50 | the row the parser gets from an exported item whose name is plain or empty and whose category and unit are plain maps back to the item without its id |
| EstoqueView.EstoqueRoundTrip | src/components/EstoqueView.tsx:23-53 | exporting a stock whose names are plain or empty and whose categories and units are plain, and importing the file again adds every item back, in order, with all its fields |
| EstoqueView.CategoriaColorSpec | src/components/EstoqueView.tsx:55-68 | unlisted categories get the default gray, which among the nine listed ones only `Limpeza` has; distinct listed categories get distinct colours |
| PedidosView.StatusLabelSpec | src/components/PedidosView.tsx:40-48 | the four statuses have four distinct labels, none `Desconhecido`, and every other text is `Desconhecido` |
| PedidosView.StatusColorSpec | src/components/PedidosView.tsx:30-38 | the three open statuses have distinct colours, none the gray of delivered orders and unknown texts |
| PedidosView.NextStatusSpec | src/components/PedidosView.tsx:226-228 | the advance moves exactly one step forward; only `entregue` has no next status |
| PedidosView.AdvanceReachesDelivery | src/components/PedidosView.tsx:220-229 | an order is delivered after at most three advances, and stays delivered |
| PedidosView.AdvanceCallSpec | src/components/PedidosView.tsx:220-229 | an order's button calls `onPedidoUpdate` with its own id and the next status, and is absent exactly for delivered orders |
| PedidosView.PedidosFiltradosSpec | src/components/PedidosView.tsx:50-56 | the filtered orders are an order-preserving subsequence, and an order is kept exactly when it matches the status filter and the search |
| PedidosView.FilteredHaveStatus | src/components/PedidosView.tsx:51 | under a status filter every kept order has that status |
| PedidosView.EmptySearchKeepsAll | src/components/PedidosView.tsx:53-54 | `todos` with an empty search keeps every order |
| PedidosView.CountsSum | src/components/PedidosView.tsx:58-63 | the four counts add up to the number of orders |
| Seqs.FilterSpec | src/components/PedidosView.tsx:50 | `filter` keeps the elements satisfying the test, in their order, each exactly as often as the list holds it, and no other |
| Seqs.CountSpec | src/components/PedidosView.tsx:59 | `filter(...).length` is the number of positions holding an element that satisfies the test |
| PedidosView.CountsSpec | src/components/PedidosView.tsx:58-63 | each count is the number of positions of the order list holding that status; the tab lists exactly the orders with that status, each as often as the list holds it |
| MesasView.StatusUpdatesSpec | src/components/MesasView.tsx:19-29 | the update always sets the status; free to occupied also stamps the time and `João Silva`; to free clears time, waiter and bill; any other change sets only the status |
| MesasView.DialogTargetsSpec | src/components/MesasView.tsx:144-168 | a free table is only offered `ocupada`; others `livre` or `aguardando`; `atendimento` is never offered |
| MesasView.StatusLabelSpec | src/components/MesasView.tsx:35-53 | the four statuses have distinct labels and colours, and any other text shows as a free table |
| MesasView.CountsSum | src/components/MesasView.tsx:189-190 | the four summary counts add up to the number of tables |
| MesasView.MesasBoard.constructor | src/components/MesasView.tsx:16 | no table is selected and no update has been sent |
| MesasView.MesasBoard.Select | src/components/MesasView.tsx:79 | clicking a card selects that table and sends nothing |
| MesasView.MesasBoard.HandleStatusChange | src/components/MesasView.tsx:19-33 | exactly one `onMesaUpdate` is sent, with the table's id and its status update, and the selection is cleared |
| IndexPage.HandleMesaUpdate | src/pages/Index.tsx:102-106 | the table list keeps its length |
| IndexPage.HandleMesaUpdateSpec | src/pages/Index.tsx:103-105 | position by position, tables with another id are unchanged and tables with the id get the update merged in |
| IndexPage.UnknownIdUnchanged | src/pages/Index.tsx:104 | an id no table has leaves the list as it is |
| IndexPage.ApplyUpdateSpec | src/pages/Index.tsx:104 | properties in the update take its values, the others keep theirs; an empty update changes nothing; merging twice equals merging once |
| IndexPage.HandleMesaUpdateIdempotent | src/pages/Index.tsx:102-106 | sending the same update twice gives the same list as sending it once |
| IndexPage.StatusChangeMerged | src/pages/Index.tsx:102-106 | a status change from the grid, merged into the list, gives the table the new status and the stamping or clearing of its case, and keeps id, number and capacity |
| IndexPage.RenderViewSpec | src/pages/Index.tsx:112-144 | an unknown view shows the dashboard; exactly `pedidos`, `estoque` and `configuracoes` show placeholders; the table grid gets no add callback |
| MesaCadastroModal.SubmitOutcomeSpec | src/components/MesaCadastroModal.tsx:22-39 | a submission is refused exactly when a table has the parsed number; otherwise it adds a free table with the parsed number and capacity |
| MesaCadastroModal.UnparsedNumberNeverTaken | src/components/MesaCadastroModal.tsx:25-29 | a number that does not parse (`NaN`) never matches a table, so it is accepted |
| MesaCadastroModal.AddKeepsNumbersDistinct | src/components/MesaCadastroModal.tsx:29-39 | adding what the form accepts to a list of distinct numbers keeps them distinct |
| MesaCadastroModal.CadastroForm.constructor | src/components/MesaCadastroModal.tsx:17-20 | the form starts with both fields empty and no callback fired |
| MesaCadastroModal.CadastroForm.SetNumero | src/components/MesaCadastroModal.tsx:62 | typing a number changes only that field |
| MesaCadastroModal.CadastroForm.SetCapacidade | src/components/MesaCadastroModal.tsx:75 | typing a capacity changes only that field |
| MesaCadastroModal.CadastroForm.HandleSubmit | src/components/MesaCadastroModal.tsx:22-46 | a taken number changes nothing; otherwise `onMesaAdd` is called once with the new table, the fields are emptied and `onOpenChange(false)` follows |
| FuncionariosView.GetTurnoAtivoSpec | src/components/FuncionariosView.tsx:46-48 | the lookup gives the first active shift of the employee, and none exactly when there is no such shift |
| FuncionariosView.ShiftActionSpec | src/components/FuncionariosView.tsx:172-203 | a card offers to end a shift only for an active shift of that employee, and to start one (for the employee's id) exactly when there is none |
| FuncionariosView.CargoColorSpec | src/components/FuncionariosView.tsx:50-58 | gray goes to exactly the cargos outside the four, which have four distinct colours |
| FuncionariosView.ResumoSpec | src/components/FuncionariosView.tsx:214-237 | the total is the staff size; `Em Turno`, waiters and cooks are the numbers of active shifts, of staff with cargo `garcom` and of staff with cargo `cozinheiro`; waiters plus cooks are at most the total |
| FuncionariosView.FuncionarioForm.constructor | src/components/FuncionariosView.tsx:22-30 | the dialog starts closed with an empty waiter form admitted today |
| FuncionariosView.FuncionarioForm.Edit | src/components/FuncionariosView.tsx:85 | editing the form changes only the form |
| FuncionariosView.FuncionarioForm.SetDialogOpen | src/components/FuncionariosView.tsx:68 | the dialog opens or closes as asked; the form and the calls made are unchanged |
| FuncionariosView.FuncionarioForm.HandleSubmit | src/components/FuncionariosView.tsx:32-44 | the form is passed on once as it stood, then reset to an empty active waiter admitted today, and the dialog closes |
| CardapioView.CategoriasSpec | src/components/CardapioView.tsx:19 | the buttons start with `todos`, then each category of the menu once, in order of first appearance, and nothing else |
| CardapioView.ItensFiltradosSpec | src/components/CardapioView.tsx:21-25 | the shown items keep the menu order, and an item is shown exactly when the filter is `todos` or its category and its lower-case name contains the lower-case search |
| CardapioView.EverythingShown | src/components/CardapioView.tsx:22-24 | `todos` with an empty search shows the whole menu |
| Dashboard.ResumoSpec | src/components/Dashboard.tsx:13-15 | free, occupied and pending are the numbers of free tables, occupied tables and pending orders; free plus occupied is at most all tables, pending at most all orders |
| Dashboard.MesasEmUsoSpec | src/components/Dashboard.tsx:112 | the busy list is the first three non-free tables (all of them if fewer), in list order, and at most three |
| Dashboard.IndicatorColorSpec | src/components/Dashboard.tsx:115-117 | in the busy list occupied tables are amber, waiting ones blue, and red marks exactly the tables in service |
| ConfiguracoesView.InitialSettingsSpec | src/components/ConfiguracoesView.tsx:25-44 | the settings start with the three sections and their fields |
| ConfiguracoesView.InputChangeSpec | src/components/ConfiguracoesView.tsx:51-59 | afterwards the field holds the value; the other fields and the other sections are unchanged; nothing is lost; an unknown section is created; repeating the change changes nothing |
| ConfiguracoesView.InputChangesCommute | src/components/ConfiguracoesView.tsx:51-59 | changes to two different fields can be made in either order |
| ConfiguracoesView.NumberInputSpec | src/components/ConfiguracoesView.tsx:205-226 | a cleared numeric input stores NaN; an integer typed in decimal is stored as that integer |
| ConfiguracoesView.SettingsScreen.constructor | src/components/ConfiguracoesView.tsx:25-44 | the screen starts with the initial settings |
| ConfiguracoesView.SettingsScreen.HandleInputChange | src/components/ConfiguracoesView.tsx:51-59 | the settings become the nested update of the old settings |
| ConfiguracoesView.SettingsScreen.HandleSave | src/components/ConfiguracoesView.tsx:46-49 | saving changes no state |

## Left out

- Floating point. Prices, quantities and totals are integers. As a result:
  - `toFixed(2)` is the integer's digits followed by `.00`;
  - `parseFloat` reads only a leading integer, so `"2.5"` reads as 2;
  - `parseInt`'s hexadecimal prefix is not modelled.
- The browser and the DOM are not modelled:
  - `Blob`, the download link, and `FileReader`;
  - asynchronous reading;
  - `alert`, `console.log`, and the rendered markup.
- The file name of the export is not modelled. It uses the clock.
  `valorTotalEstoque` and the dashboard's `vendaHoje` are floating-point
  sums, so they are left out too.
- `CsvImportModal.ImportDialog.HandleFileChange`: the intermediate
  `loading = true` state between the start and the end of a file change is
  not observable, because the method runs to completion.
- `CsvUtils.Get`: property lookup on a plain object is modelled by key.
  Object-prototype keys such as `__proto__` are not treated specially. A
  record is a list of fields, which may repeat a key, and the lookup takes
  the first; a JavaScript object cannot hold a key twice, so such records
  stand for no object of the source; the export lemmas are stated for
  every list of fields, so they cover every object as well.
- `CsvUtils.ExportHeaders`: without explicit headers the header line is
  the first record's keys in insertion order. Integer-like keys such as
  `"1"` or `"42"` are not moved to the front in ascending order, as
  `Object.keys` would move them, so for such keys the model's header line
  differs from the source's.
- `CsvUtils.Keys`: the same holds for the keys of an exported record.
- `CsvUtils.ParseLine`: a header named `__proto__` or another
  object-prototype key becomes an ordinary key of the parsed row. In the
  source, assigning `row["__proto__"]` creates no own property, so
  `Object.keys` in the import dialog's header check would not list it.
- `CsvUtils.RowKeys`: the same holds for the key set it states.
- `EstoqueView.CategoriaColor`: a category named `toString` or after
  another object-prototype property gets the default gray. In the source,
  `colors[categoria]` finds the inherited function, which is truthy, so
  that function is returned instead.
- `CsvUtils.FormatCell`: values other than strings, numbers and booleans
  (objects, `null`, `NaN`) are not modelled.
- `Text.ToLower`: only ASCII letters are lowered.
- HTML form validation (`required`, `min`, `max`) is not modelled, so the
  forms also take empty fields.
- Selecting from the menu, stock and staff dialogs is not modelled.
  `src/components/EstoqueCadastroModal.tsx` and `src/components/Layout.tsx`
  are not part of this model.
- `IndexPage.RenderViewSpec`: `src/pages/Index.tsx` renders the table grid
  without `onMesaAdd`, so a new table added there would call an undefined
  callback. The model records only that no callback is given.
