/** The inventory rules of `src/components/EstoqueView.tsx`: the low-stock
    list and badge, the export mapping and its header list, the mapping of
    imported rows to new items with their defaults, and the category colours. */
module EstoqueView {
  import opened Wrappers
  import opened Text
  import opened Types
  import opened CsvUtils
  import opened CsvImportModal
  import Seqs

  /** An item without its id, as passed to `onItemAdd`. */
  datatype NovoItem = NovoItem(
    nome: string,
    categoria: string,
    quantidade: int,
    unidade: string,
    estoqueMinimo: int,
    preco: int)

  // ---------------------------------------------------------------------
  // Low stock

  /** The rule of both the low-stock list and the card badge. */
  predicate IsLow(item: ItemEstoque)
  {
    item.quantidade <= item.estoqueMinimo
  }

  /** `itensEmFalta`. */
  function ItensEmFalta(estoque: seq<ItemEstoque>): seq<ItemEstoque>
  {
    Seqs.Filter(estoque, IsLow)
  }

  /** `statusEstoque` of one card. */
  function StatusEstoque(item: ItemEstoque): string
  {
    if item.quantidade <= item.estoqueMinimo then "baixo" else "normal"
  }

  /** The low-stock list keeps exactly the items at or under their minimum,
      in stock order, and a card is marked 'baixo' exactly for the items on
      that list. */
  lemma ItensEmFaltaSpec(estoque: seq<ItemEstoque>)
    ensures Seqs.IsSubsequence(ItensEmFalta(estoque), estoque)
    ensures forall item :: item in ItensEmFalta(estoque) ==>
      item in estoque && item.quantidade <= item.estoqueMinimo
    ensures forall item :: item in estoque && item.quantidade <= item.estoqueMinimo ==>
      item in ItensEmFalta(estoque)
    ensures forall item :: item in estoque ==>
      (StatusEstoque(item) == "baixo" <==> item in ItensEmFalta(estoque))
  {
    Seqs.FilterSpec(estoque, IsLow);
  }

  // ---------------------------------------------------------------------
  // Export

  const ExportColumns := ["nome", "categoria", "quantidade", "unidade", "estoqueMinimo", "preco", "valorTotal"]
  const ImportColumns := ["nome", "categoria", "quantidade", "unidade", "estoqueMinimo", "preco"]

  /** `n.toFixed(2)` for an integer `n`. */
  function ToFixed2(n: int): string
  {
    IntToString(n) + ".00"
  }

  /** The object exported for one item. */
  function ExportRecord(item: ItemEstoque): (r: Record)
    ensures Keys(r) == ExportColumns
  {
    [ Field("nome", Str(item.nome)),
      Field("categoria", Str(item.categoria)),
      Field("quantidade", Number(item.quantidade)),
      Field("unidade", Str(item.unidade)),
      Field("estoqueMinimo", Number(item.estoqueMinimo)),
      Field("preco", Number(item.preco)),
      Field("valorTotal", Str(ToFixed2(item.quantidade * item.preco))) ]
  }

  /** The text of `handleExportCSV`, or none for an empty inventory. */
  function ExportEstoque(estoque: seq<ItemEstoque>): (r: Option<string>)
    ensures r.None? <==> estoque == []
  {
    ExportText(seq(|estoque|, i requires 0 <= i < |estoque| => ExportRecord(estoque[i])), Some(ExportColumns))
  }

  /** Every column the import dialog requires is exported. */
  lemma ImportColumnsExported()
    ensures forall h :: h in ImportColumns ==> h in ExportColumns
    ensures MissingHeaders(ImportColumns, map h | h in ExportColumns :: "") == []
  {
    MissingHeadersSpec(ImportColumns, map h | h in ExportColumns :: "");
  }

  /** An exported inventory file, read back through the import dialog, always
      passes its checks, whatever the items hold: the exporter's header line
      is the parser's header line and it names every required column. */
  lemma ExportedFileIsAccepted(estoque: seq<ItemEstoque>, name: string, mimeType: string)
    requires estoque != []
    requires EndsWith(name, ".csv")
    ensures var text := ExportEstoque(estoque).value;
      FileChangeOutcome(ImportColumns, FileInfo(name, mimeType), Loaded(text)) == Ok(Parse(text))
  {
    var data := seq(|estoque|, i requires 0 <= i < |estoque| => ExportRecord(estoque[i]));
    var text := ExportEstoque(estoque).value;
    forall k | 0 <= k < |ExportColumns| ensures IsPlain(ExportColumns[k]) {
      PlainColumn(k);
    }
    ExportedHeaderKeys(data, ExportColumns);
    FileChangeAccepts(ImportColumns, FileInfo(name, mimeType), Loaded(text));
  }

  predicate IsLetter(c: char)
  {
    'a' <= c <= 'z' || 'A' <= c <= 'Z'
  }

  /** A word of letters needs no quoting and has no space to trim. */
  lemma WordIsPlain(s: string)
    requires s != [] && forall i :: 0 <= i < |s| ==> IsLetter(s[i])
    ensures IsPlain(s)
  {
  }

  lemma PlainColumn(k: nat)
    requires k < |ExportColumns|
    ensures IsPlain(ExportColumns[k])
  {
    WordIsPlain(ExportColumns[k]);
  }

  // ---------------------------------------------------------------------
  // Import

  /** `row[key] || fallback` for a text field: a missing key or an empty
      cell gives the fallback. */
  function TextOr(row: Row, key: string, fallback: string): string
  {
    if key in row && row[key] != "" then row[key] else fallback
  }

  /** `parseFloat(row[key]) || 0`: a missing key, an empty cell or a cell
      that does not start with a number gives 0. */
  function NumberOr(row: Row, key: string): int
  {
    OrZero(ParseDecimal(if key in row then row[key] else ""))
  }

  /** The item `handleImportCSV` builds from one parsed row. */
  function ItemFromRow(row: Row): NovoItem
  {
    NovoItem(
      TextOr(row, "nome", ""),
      TextOr(row, "categoria", "Outros"),
      NumberOr(row, "quantidade"),
      TextOr(row, "unidade", "un"),
      NumberOr(row, "estoqueMinimo"),
      NumberOr(row, "preco"))
  }

  /** The defaults: a missing or empty name is '', category 'Outros' and
      unit 'un'; a given non-empty text is taken as it is. */
  lemma ImportTextDefaults(row: Row)
    ensures ("categoria" !in row || row["categoria"] == "") ==> ItemFromRow(row).categoria == "Outros"
    ensures ("unidade" !in row || row["unidade"] == "") ==> ItemFromRow(row).unidade == "un"
    ensures ("nome" !in row || row["nome"] == "") ==> ItemFromRow(row).nome == ""
    ensures "nome" in row ==> ItemFromRow(row).nome == row["nome"]
    ensures "categoria" in row && row["categoria"] != "" ==> ItemFromRow(row).categoria == row["categoria"]
    ensures "unidade" in row && row["unidade"] != "" ==> ItemFromRow(row).unidade == row["unidade"]
  {
  }

  /** A missing or empty numeric cell gives 0, and a cell holding an
      integer's decimal text gives that integer. */
  lemma ImportNumberDefaults(row: Row, key: string)
    ensures key !in row ==> NumberOr(row, key) == 0
    ensures key in row && row[key] == "" ==> NumberOr(row, key) == 0
    ensures forall n :: key in row && row[key] == IntToString(n) ==> NumberOr(row, key) == n
  {
    forall n | key in row && row[key] == IntToString(n) ensures NumberOr(row, key) == n {
      ParseDecimalOfIntToString(n);
    }
  }

  /** A cell that does not start with a digit or a sign and a digit (such
      as 'abc') gives 0 too. */
  lemma ImportUnparsableNumber(row: Row, key: string)
    requires key in row && row[key] != [] && !IsDigit(row[key][0])
    requires !IsWhitespace(row[key][0]) && row[key][0] != '-' && row[key][0] != '+'
    ensures NumberOr(row, key) == 0
  {
  }

  /** `handleImportCSV`: one `onItemAdd` per parsed row, in row order; the
      calls are returned in the order they are made. */
  method ImportRows(data: seq<Row>) returns (calls: seq<NovoItem>)
    ensures |calls| == |data|
    ensures forall i :: 0 <= i < |data| ==> calls[i] == ItemFromRow(data[i])
  {
    calls := [];
    for i := 0 to |data|
      invariant |calls| == i
      invariant forall k :: 0 <= k < i ==> calls[k] == ItemFromRow(data[k])
    {
      var row := data[i];
      var item := NovoItem(
        TextOr(row, "nome", ""),
        TextOr(row, "categoria", "Outros"),
        NumberOr(row, "quantidade"),
        TextOr(row, "unidade", "un"),
        NumberOr(row, "estoqueMinimo"),
        NumberOr(row, "preco"));
      calls := calls + [item];
    }
  }

  /** A name that survives export and import: a plain text, or the empty
      name, which exports as the empty cell and imports as the `|| ''`
      default. (An empty category or unit comes back as its default,
      'Outros' or 'un', so those must be plain.) */
  predicate PlainNome(nome: string)
  {
    nome == "" || IsPlain(nome)
  }

  /** The new item an existing one would be added as: the same fields,
      without the id. */
  function WithoutId(item: ItemEstoque): NovoItem
  {
    NovoItem(item.nome, item.categoria, item.quantidade, item.unidade, item.estoqueMinimo, item.preco)
  }

  /** The row the parser gets back from an exported item, mapped to a new
      item, gives the item back, provided its texts are plain. */
  lemma ItemRoundTrip(item: ItemEstoque)
    requires PlainNome(item.nome) && IsPlain(item.categoria) && IsPlain(item.unidade)
    ensures ItemFromRow(CellMap(ExportRecord(item), ExportColumns)) == WithoutId(item)
  {
    ExportedTextCells(item);
    ExportedNumberCells(item);
    NumberCellRoundTrip(item.quantidade);
    NumberCellRoundTrip(item.estoqueMinimo);
    NumberCellRoundTrip(item.preco);
  }

  /** The text cells of an exported item with plain texts are its texts. */
  lemma ExportedTextCells(item: ItemEstoque)
    requires PlainNome(item.nome) && IsPlain(item.categoria) && IsPlain(item.unidade)
    ensures var row := CellMap(ExportRecord(item), ExportColumns);
      "nome" in row && row["nome"] == item.nome
      && "categoria" in row && row["categoria"] == item.categoria
      && "unidade" in row && row["unidade"] == item.unidade
  {
    var r := ExportRecord(item);
    GetAt(r, "nome", 0);
    GetAt(r, "categoria", 1);
    GetAt(r, "unidade", 3);
  }

  /** The numeric cells of an exported item are its numbers' cells. */
  lemma ExportedNumberCells(item: ItemEstoque)
    ensures var row := CellMap(ExportRecord(item), ExportColumns);
      "quantidade" in row && row["quantidade"] == FormatCell(Some(Number(item.quantidade)))
      && "estoqueMinimo" in row && row["estoqueMinimo"] == FormatCell(Some(Number(item.estoqueMinimo)))
      && "preco" in row && row["preco"] == FormatCell(Some(Number(item.preco)))
  {
    var r := ExportRecord(item);
    GetAt(r, "quantidade", 2);
    GetAt(r, "estoqueMinimo", 4);
    GetAt(r, "preco", 5);
  }

  /** Exporting an inventory whose names are plain or empty, and whose
      categories and units are plain, and importing the file again adds
      every item back, in order, with all its fields. */
  lemma EstoqueRoundTrip(estoque: seq<ItemEstoque>)
    requires estoque != []
    requires forall i :: 0 <= i < |estoque| ==>
      PlainNome(estoque[i].nome) && IsPlain(estoque[i].categoria) && IsPlain(estoque[i].unidade)
    ensures var rows := Parse(ExportEstoque(estoque).value);
      |rows| == |estoque| && forall i :: 0 <= i < |estoque| ==> ItemFromRow(rows[i]) == WithoutId(estoque[i])
  {
    var data := seq(|estoque|, i requires 0 <= i < |estoque| => ExportRecord(estoque[i]));
    forall k | 0 <= k < |ExportColumns| ensures IsPlain(ExportColumns[k]) {
      PlainColumn(k);
    }
    forall i, k | 0 <= i < |data| && 0 <= k < |ExportColumns|
      ensures PlainCell(FormatCell(Get(data[i], ExportColumns[k])))
    {
      RecordCellPlain(estoque[i], k);
    }
    assert PlainCells(data, ExportColumns);
    ExportParseRoundTrip(data, ExportColumns);
    forall i | 0 <= i < |estoque| ensures ItemFromRow(Parse(ExportEstoque(estoque).value)[i]) == WithoutId(estoque[i]) {
      ItemRoundTrip(estoque[i]);
    }
  }

  /** A text, number or `toFixed(2)` cell without comma, double quote, line
      break or surrounding whitespace. */
  predicate PlainCell(c: string)
  {
    ',' !in c && '"' !in c && '\n' !in c && IsTrimmed(c)
  }

  /** Each exported cell of an item with plain texts is plain (possibly empty). */
  lemma RecordCellPlain(item: ItemEstoque, k: nat)
    requires PlainNome(item.nome) && IsPlain(item.categoria) && IsPlain(item.unidade)
    requires k < |ExportColumns|
    ensures PlainCell(FormatCell(Get(ExportRecord(item), ExportColumns[k])))
  {
    var r := ExportRecord(item);
    GetAt(r, ExportColumns[k], k);
    if k == 2 || k == 4 || k == 5 {
      NumberCellPlain(r[k].value.n);
    } else if k == 6 {
      FixedCellPlain(item.quantidade * item.preco);
    }
  }

  lemma NumberCellPlain(n: int)
    ensures PlainCell(FormatCell(Some(Number(n))))
  {
    IntToStringIsPlain(n);
  }

  lemma FixedCellPlain(n: int)
    ensures PlainCell(FormatCell(Some(Str(ToFixed2(n)))))
  {
    var t := IntToString(n);
    IntToStringIsPlain(n);
    var c := t + ".00";
    assert ',' !in ".00" && '"' !in ".00" && '\n' !in ".00";
    assert c[0] == t[0] && c[|c| - 1] == '0';
  }

  /** A number's exported cell reads back as the number (0 is exported as
      the empty cell, which reads back as 0). */
  lemma NumberCellRoundTrip(n: int)
    ensures OrZero(ParseDecimal(FormatCell(Some(Number(n))))) == n
  {
    if n != 0 {
      ParseDecimalOfIntToString(n);
    }
  }

  // ---------------------------------------------------------------------
  // Category colours

  const DefaultColor := "bg-gray-100 text-gray-800"

  const CategoriaColors: map<string, string> := map[
    "Carnes" := "bg-red-100 text-red-800",
    "Vegetais" := "bg-green-100 text-green-800",
    "Laticínios" := "bg-blue-100 text-blue-800",
    "Temperos" := "bg-yellow-100 text-yellow-800",
    "Bebidas" := "bg-purple-100 text-purple-800",
    "Grãos" := "bg-amber-100 text-amber-800",
    "Frutas" := "bg-pink-100 text-pink-800",
    "Limpeza" := "bg-gray-100 text-gray-800",
    "Outros" := "bg-indigo-100 text-indigo-800"]

  /** `getCategoriaColor`. */
  function CategoriaColor(categoria: string): string
  {
    if categoria in CategoriaColors then CategoriaColors[categoria] else DefaultColor
  }

  /** The default gray goes to every unlisted category and, among the nine
      listed ones, only to 'Limpeza'; the other eight get eight different
      colours. */
  lemma CategoriaColorSpec(a: string, b: string)
    ensures CategoriaColor(a) == DefaultColor <==> a == "Limpeza" || a !in CategoriaColors
    ensures (a != b && a in CategoriaColors && b in CategoriaColors) ==>
      CategoriaColor(a) != CategoriaColor(b)
  {
  }
}
