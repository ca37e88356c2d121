/** The menu rules of `src/components/CardapioView.tsx`: the category buttons
    and the category and name filter over the menu. */
module CardapioView {
  import opened Text
  import opened Types
  import Seqs

  /** `cardapio.map(item => item.categoria)`. */
  function CategoriasDosItens(cardapio: seq<ItemCardapio>): (r: seq<string>)
    ensures |r| == |cardapio| && forall i :: 0 <= i < |cardapio| ==> r[i] == cardapio[i].categoria
  {
    seq(|cardapio|, i requires 0 <= i < |cardapio| => cardapio[i].categoria)
  }

  /** `categorias`: 'todos', then each category of the menu. */
  function Categorias(cardapio: seq<ItemCardapio>): seq<string>
  {
    ["todos"] + Seqs.Distinct(CategoriasDosItens(cardapio))
  }

  /** The buttons start with 'todos'; after it come exactly the categories of
      the menu's items, each once, in the order in which they first appear
      in the menu. */
  lemma CategoriasSpec(cardapio: seq<ItemCardapio>)
    ensures Categorias(cardapio)[0] == "todos"
    ensures forall i :: 0 <= i < |cardapio| ==> cardapio[i].categoria in Categorias(cardapio)
    ensures forall c :: c in Categorias(cardapio)[1..] <==> exists i :: 0 <= i < |cardapio| && cardapio[i].categoria == c
    ensures Seqs.NoDuplicates(Categorias(cardapio)[1..])
    ensures var cs := CategoriasDosItens(cardapio); var tail := Categorias(cardapio)[1..];
      forall i, j :: 0 <= i < j < |tail| ==>
        tail[i] in cs && tail[j] in cs && Seqs.IndexOf(cs, tail[i]) < Seqs.IndexOf(cs, tail[j])
  {
    var cs := CategoriasDosItens(cardapio);
    Seqs.DistinctSpec(cs);
    assert Categorias(cardapio)[1..] == Seqs.Distinct(cs);
    forall c | c in Seqs.Distinct(cs) ensures exists i :: 0 <= i < |cardapio| && cardapio[i].categoria == c {
      var i := Seqs.IndexOf(cs, c);
      assert cardapio[i].categoria == c;
    }
    forall i | 0 <= i < |cardapio| ensures cardapio[i].categoria in Categorias(cardapio) {
      assert cs[i] in cs;
    }
  }

  /** The test an item must pass to be shown. */
  predicate Shown(item: ItemCardapio, filtroCategoria: string, busca: string)
  {
    (filtroCategoria == "todos" || item.categoria == filtroCategoria)
    && Contains(ToLower(item.nome), ToLower(busca))
  }

  function KeepItem(filtroCategoria: string, busca: string): ItemCardapio -> bool
  {
    (item: ItemCardapio) => Shown(item, filtroCategoria, busca)
  }

  /** `itensFilterted`. */
  function ItensFiltrados(cardapio: seq<ItemCardapio>, filtroCategoria: string, busca: string): seq<ItemCardapio>
  {
    Seqs.Filter(cardapio, KeepItem(filtroCategoria, busca))
  }

  /** The shown items keep the menu's order, and an item is shown exactly
      when the filter is 'todos' or its category, and its lower-case name
      contains the lower-case search. */
  lemma ItensFiltradosSpec(cardapio: seq<ItemCardapio>, filtroCategoria: string, busca: string)
    ensures Seqs.IsSubsequence(ItensFiltrados(cardapio, filtroCategoria, busca), cardapio)
    ensures forall item :: item in ItensFiltrados(cardapio, filtroCategoria, busca) <==>
      item in cardapio
      && (filtroCategoria == "todos" || item.categoria == filtroCategoria)
      && Contains(ToLower(item.nome), ToLower(busca))
  {
    Seqs.FilterSpec(cardapio, KeepItem(filtroCategoria, busca));
  }

  /** 'todos' with an empty search shows the whole menu. */
  lemma EverythingShown(cardapio: seq<ItemCardapio>)
    ensures ItensFiltrados(cardapio, "todos", "") == cardapio
  {
    forall i | 0 <= i < |cardapio| ensures KeepItem("todos", "")(cardapio[i]) {
      ContainsEmpty(ToLower(cardapio[i].nome));
    }
    Seqs.FilterAll(cardapio, KeepItem("todos", ""));
  }
}
