/** The order rules of `src/components/PedidosView.tsx`: the status labels
    and colours, the advance button's next status, the status and text
    filter over the order list, and the per-status counts. */
module PedidosView {
  import opened Wrappers
  import opened Text
  import opened Types
  import Seqs

  // ---------------------------------------------------------------------
  // Labels and colours

  /** `getStatusLabel`, over any status text. */
  function StatusLabel(status: string): string
  {
    if status == "pendente" then "Pendente"
    else if status == "preparando" then "Preparando"
    else if status == "pronto" then "Pronto"
    else if status == "entregue" then "Entregue"
    else "Desconhecido"
  }

  /** `getStatusColor`, over any status text. */
  function StatusColor(status: string): string
  {
    if status == "pendente" then "bg-yellow-500"
    else if status == "preparando" then "bg-blue-500"
    else if status == "pronto" then "bg-green-500"
    else "bg-gray-500"
  }

  /** The four statuses get four different labels, none of them
      'Desconhecido', which is what every other text gets. */
  lemma StatusLabelSpec(a: PedidoStatus, b: PedidoStatus, other: string)
    requires forall s: PedidoStatus :: other != PedidoStatusName(s)
    ensures a != b ==> StatusLabel(PedidoStatusName(a)) != StatusLabel(PedidoStatusName(b))
    ensures StatusLabel(PedidoStatusName(a)) != "Desconhecido"
    ensures StatusLabel(other) == "Desconhecido"
  {
    assert other != PedidoStatusName(Pendente) && other != PedidoStatusName(Preparando);
    assert other != PedidoStatusName(Pronto) && other != PedidoStatusName(Entregue);
  }

  /** Delivered orders and unknown texts share the gray; the three open
      statuses have colours of their own: yellow, blue and green. */
  lemma StatusColorSpec(a: PedidoStatus, b: PedidoStatus, other: string)
    ensures StatusColor(PedidoStatusName(Pendente)) == "bg-yellow-500"
    ensures StatusColor(PedidoStatusName(Preparando)) == "bg-blue-500"
    ensures StatusColor(PedidoStatusName(Pronto)) == "bg-green-500"
    ensures StatusColor(PedidoStatusName(Entregue)) == "bg-gray-500"
    ensures other !in ["pendente", "preparando", "pronto"] ==> StatusColor(other) == "bg-gray-500"
    ensures a != b && a != Entregue && b != Entregue ==>
      StatusColor(PedidoStatusName(a)) != StatusColor(PedidoStatusName(b))
    ensures a != Entregue ==> StatusColor(PedidoStatusName(a)) != StatusColor("")
  {
  }

  // ---------------------------------------------------------------------
  // Advance

  /** The position of a status in the kitchen's order. */
  function Rank(s: PedidoStatus): nat
  {
    match s
    case Pendente => 0
    case Preparando => 1
    case Pronto => 2
    case Entregue => 3
  }

  /** The status the advance button moves an order to, or none when the
      button is not shown (a delivered order). */
  function NextStatus(s: PedidoStatus): Option<PedidoStatus>
  {
    if s == Entregue then None
    else if s == Pendente then Some(Preparando)
    else if s == Preparando then Some(Pronto)
    else Some(Entregue)
  }

  /** The advance moves one step forward and never skips a status; only a
      delivered order has none, so delivery is terminal and every order
      reaches it in at most three advances. */
  lemma NextStatusSpec(s: PedidoStatus)
    ensures NextStatus(s).None? <==> s == Entregue
    ensures NextStatus(s).Some? ==> Rank(NextStatus(s).value) == Rank(s) + 1
    ensures Rank(s) <= 3 && (Rank(s) == 3 <==> s == Entregue)
  {
  }

  /** The status reached after `n` presses of the button (a press on a
      delivered order is not possible, so it stays delivered). */
  function AdvanceTimes(s: PedidoStatus, n: nat): PedidoStatus
    decreases n
  {
    if n == 0 then s
    else match NextStatus(s)
      case None => s
      case Some(t) => AdvanceTimes(t, n - 1)
  }

  lemma {:induction false} AdvanceReachesDelivery(s: PedidoStatus, n: nat)
    requires n >= 3 - Rank(s)
    ensures AdvanceTimes(s, n) == Entregue
    decreases n
  {
    if n > 0 && s != Entregue {
      NextStatusSpec(s);
      AdvanceReachesDelivery(NextStatus(s).value, n - 1);
    }
  }

  /** The `onPedidoUpdate` call the button of an order makes. */
  function AdvanceCall(p: Pedido): Option<(int, PedidoStatus)>
  {
    match NextStatus(p.status)
    case None => None
    case Some(next) => Some((p.id, next))
  }

  lemma AdvanceCallSpec(p: Pedido)
    ensures AdvanceCall(p).None? <==> p.status == Entregue
    ensures AdvanceCall(p).Some? ==>
      AdvanceCall(p).value.0 == p.id && Rank(AdvanceCall(p).value.1) == Rank(p.status) + 1
  {
  }

  // ---------------------------------------------------------------------
  // Filter

  /** `m => m.id === pedido.mesaId`. */
  function HasId(id: int): Mesa -> bool
  {
    (m: Mesa) => m.id == id
  }

  /** `matchStatus`: the filter is 'todos' or names the order's status. */
  predicate MatchStatus(p: Pedido, filtro: string)
  {
    filtro == "todos" || PedidoStatusName(p.status) == filtro
  }

  /** `matchBusca`: the number of the order's table (the first table with
      its id) includes the search text, or the waiter's name does, both in
      lower case. An order whose table is not found is matched by the
      waiter alone. */
  predicate MatchBusca(p: Pedido, mesas: seq<Mesa>, busca: string)
  {
    var mesa := Seqs.Find(mesas, HasId(p.mesaId));
    (mesa.Some? && Contains(IntToString(mesa.value.numero), busca))
    || Contains(ToLower(p.garcom), ToLower(busca))
  }

  function Keep(mesas: seq<Mesa>, filtro: string, busca: string): Pedido -> bool
  {
    (p: Pedido) => MatchStatus(p, filtro) && MatchBusca(p, mesas, busca)
  }

  /** `pedidosFiltrados`. */
  function PedidosFiltrados(pedidos: seq<Pedido>, mesas: seq<Mesa>, filtro: string, busca: string): seq<Pedido>
  {
    Seqs.Filter(pedidos, Keep(mesas, filtro, busca))
  }

  /** The filtered list keeps the order of the orders and keeps an order
      exactly when it matches both the status filter and the search. */
  lemma PedidosFiltradosSpec(pedidos: seq<Pedido>, mesas: seq<Mesa>, filtro: string, busca: string)
    ensures Seqs.IsSubsequence(PedidosFiltrados(pedidos, mesas, filtro, busca), pedidos)
    ensures forall p :: p in PedidosFiltrados(pedidos, mesas, filtro, busca) ==>
      p in pedidos && MatchStatus(p, filtro) && MatchBusca(p, mesas, busca)
    ensures forall p :: p in pedidos && MatchStatus(p, filtro) && MatchBusca(p, mesas, busca) ==>
      p in PedidosFiltrados(pedidos, mesas, filtro, busca)
  {
    Seqs.FilterSpec(pedidos, Keep(mesas, filtro, busca));
  }

  /** Under a status filter other than 'todos', every order shown has that
      status. */
  lemma FilteredHaveStatus(pedidos: seq<Pedido>, mesas: seq<Mesa>, s: PedidoStatus, busca: string)
    ensures forall p :: p in PedidosFiltrados(pedidos, mesas, PedidoStatusName(s), busca) ==> p.status == s
  {
    PedidosFiltradosSpec(pedidos, mesas, PedidoStatusName(s), busca);
  }

  /** An empty search matches every order, so with 'todos' the whole list
      is shown. */
  lemma EmptySearchKeepsAll(pedidos: seq<Pedido>, mesas: seq<Mesa>)
    ensures PedidosFiltrados(pedidos, mesas, "todos", "") == pedidos
  {
    forall i | 0 <= i < |pedidos| ensures Keep(mesas, "todos", "")(pedidos[i]) {
      ContainsEmpty(ToLower(pedidos[i].garcom));
    }
    Seqs.FilterAll(pedidos, Keep(mesas, "todos", ""));
  }

  // ---------------------------------------------------------------------
  // Counts

  function HasStatus(s: PedidoStatus): Pedido -> bool
  {
    (p: Pedido) => p.status == s
  }

  datatype StatusCounts = StatusCounts(pendente: nat, preparando: nat, pronto: nat, entregue: nat)

  /** `statusCounts`. */
  function CountStatuses(pedidos: seq<Pedido>): StatusCounts
  {
    StatusCounts(
      Seqs.Count(pedidos, HasStatus(Pendente)),
      Seqs.Count(pedidos, HasStatus(Preparando)),
      Seqs.Count(pedidos, HasStatus(Pronto)),
      Seqs.Count(pedidos, HasStatus(Entregue)))
  }

  /** Every order is counted under exactly one status. */
  lemma {:induction false} CountsSum(pedidos: seq<Pedido>)
    ensures var c := CountStatuses(pedidos);
      c.pendente + c.preparando + c.pronto + c.entregue == |pedidos|
  {
    if pedidos != [] {
      CountsSum(pedidos[1..]);
    }
  }

  /** Each count is the number of orders with that status, and the tab
      lists each of those orders as often as the list holds it and no
      other order. */
  lemma CountsSpec(pedidos: seq<Pedido>, s: PedidoStatus)
    ensures Seqs.Count(pedidos, HasStatus(s)) == |set i | 0 <= i < |pedidos| && pedidos[i].status == s|
    ensures forall p :: p in Seqs.Filter(pedidos, HasStatus(s)) <==> p in pedidos && p.status == s
    ensures forall p ::
      multiset(Seqs.Filter(pedidos, HasStatus(s)))[p] == (if p.status == s then multiset(pedidos)[p] else 0)
  {
    Seqs.FilterSpec(pedidos, HasStatus(s));
    forall p ensures multiset(Seqs.Filter(pedidos, HasStatus(s)))[p]
      == (if p.status == s then multiset(pedidos)[p] else 0)
    {
      assert HasStatus(s)(p) == (p.status == s);
    }
    StatusCounted(pedidos, s);
  }

  /** An order count is the number of orders with that status. */
  lemma StatusCounted(pedidos: seq<Pedido>, s: PedidoStatus)
    ensures Seqs.Count(pedidos, HasStatus(s)) == |set i | 0 <= i < |pedidos| && pedidos[i].status == s|
  {
    Seqs.CountSpec(pedidos, HasStatus(s));
    assert Seqs.Positions(pedidos, HasStatus(s)) == set i | 0 <= i < |pedidos| && pedidos[i].status == s;
  }
}
