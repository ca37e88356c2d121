/** The figures of `src/components/Dashboard.tsx`: the table and order
    counts, the short list of busy tables and the colour of each one's
    indicator. */
module Dashboard {
  import opened Types
  import Seqs
  import MesasView
  import PedidosView

  datatype Resumo = Resumo(mesasLivres: nat, mesasOcupadas: nat, pedidosPendentes: nat)

  /** `mesasLivres`, `mesasOcupadas` and `pedidosPendentes`. */
  function ResumoOf(mesas: seq<Mesa>, pedidos: seq<Pedido>): Resumo
  {
    Resumo(
      Seqs.Count(mesas, MesasView.HasStatus(Livre)),
      Seqs.Count(mesas, MesasView.HasStatus(Ocupada)),
      Seqs.Count(pedidos, PedidosView.HasStatus(Pendente)))
  }

  /** Each count is the number of entries with that status; free and
      occupied tables together are at most all tables, and pending orders
      at most all orders. */
  lemma ResumoSpec(mesas: seq<Mesa>, pedidos: seq<Pedido>)
    ensures ResumoOf(mesas, pedidos).mesasLivres == |set i | 0 <= i < |mesas| && mesas[i].status == Livre|
    ensures ResumoOf(mesas, pedidos).mesasOcupadas == |set i | 0 <= i < |mesas| && mesas[i].status == Ocupada|
    ensures ResumoOf(mesas, pedidos).pedidosPendentes ==
      |set i | 0 <= i < |pedidos| && pedidos[i].status == Pendente|
    ensures var r := ResumoOf(mesas, pedidos);
      r.mesasLivres + r.mesasOcupadas <= |mesas| && r.pedidosPendentes <= |pedidos|
    ensures forall m :: m in Seqs.Filter(mesas, MesasView.HasStatus(Livre)) <==> m in mesas && m.status == Livre
    ensures forall m :: m in Seqs.Filter(mesas, MesasView.HasStatus(Ocupada)) <==> m in mesas && m.status == Ocupada
    ensures forall p :: p in Seqs.Filter(pedidos, PedidosView.HasStatus(Pendente)) <==>
      p in pedidos && p.status == Pendente
  {
    Seqs.CountDisjoint(mesas, MesasView.HasStatus(Livre), MesasView.HasStatus(Ocupada));
    Seqs.FilterSpec(mesas, MesasView.HasStatus(Livre));
    Seqs.FilterSpec(mesas, MesasView.HasStatus(Ocupada));
    Seqs.FilterSpec(pedidos, PedidosView.HasStatus(Pendente));
    MesasCounted(mesas, Livre);
    MesasCounted(mesas, Ocupada);
    PedidosView.CountsSpec(pedidos, Pendente);
  }

  /** A table count is the number of tables with that status. */
  lemma MesasCounted(mesas: seq<Mesa>, s: MesaStatus)
    ensures Seqs.Count(mesas, MesasView.HasStatus(s)) == |set i | 0 <= i < |mesas| && mesas[i].status == s|
  {
    Seqs.CountSpec(mesas, MesasView.HasStatus(s));
    assert Seqs.Positions(mesas, MesasView.HasStatus(s)) == set i | 0 <= i < |mesas| && mesas[i].status == s;
  }

  function NotLivre(): Mesa -> bool
  {
    (m: Mesa) => m.status != Livre
  }

  /** `mesas.filter(m => m.status !== 'livre').slice(0, 3)`. */
  function MesasEmUso(mesas: seq<Mesa>): seq<Mesa>
  {
    var busy := Seqs.Filter(mesas, NotLivre());
    if |busy| <= 3 then busy else busy[..3]
  }

  /** The list holds the first three tables in use (all of them when there
      are fewer), in the order of the table list, and no free table. */
  lemma MesasEmUsoSpec(mesas: seq<Mesa>)
    ensures |MesasEmUso(mesas)| <= 3
    ensures |MesasEmUso(mesas)| == if Seqs.Count(mesas, NotLivre()) <= 3 then Seqs.Count(mesas, NotLivre()) else 3
    ensures MesasEmUso(mesas) == Seqs.Filter(mesas, NotLivre())[..|MesasEmUso(mesas)|]
    ensures Seqs.IsSubsequence(MesasEmUso(mesas), mesas)
    ensures forall m :: m in MesasEmUso(mesas) ==> m in mesas && m.status != Livre
  {
    var busy := Seqs.Filter(mesas, NotLivre());
    Seqs.FilterSpec(mesas, NotLivre());
    Seqs.SubsequencePrefix(busy, mesas, |MesasEmUso(mesas)|);
    assert busy[..|busy|] == busy;
    forall m | m in MesasEmUso(mesas) ensures m in busy {
      var i :| 0 <= i < |MesasEmUso(mesas)| && MesasEmUso(mesas)[i] == m;
      assert busy[i] == m;
    }
  }

  /** The indicator colour of a table in the list. */
  function IndicatorColor(s: MesaStatus): string
  {
    if s == Ocupada then "bg-amber-400"
    else if s == Aguardando then "bg-blue-400"
    else "bg-red-400"
  }

  /** In the list, occupied tables are amber, waiting ones blue, and red
      marks exactly the tables in service. */
  lemma IndicatorColorSpec(mesas: seq<Mesa>)
    ensures forall m :: m in MesasEmUso(mesas) ==>
      (IndicatorColor(m.status) == "bg-amber-400" <==> m.status == Ocupada)
      && (IndicatorColor(m.status) == "bg-blue-400" <==> m.status == Aguardando)
      && (IndicatorColor(m.status) == "bg-red-400" <==> m.status == Atendimento)
  {
    MesasEmUsoSpec(mesas);
  }
}
