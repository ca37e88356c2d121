/** The page state of `src/pages/Index.tsx`: merging a table update into the
    table list, and the choice of view for the active menu entry. */
module IndexPage {
  import opened Wrappers
  import opened Types
  import MesasView

  /** A property after `{ ...old, ...updates }`: the update's value when it
      has the property, the old value otherwise. */
  function Merge<T>(current: T, p: Patch<T>): T
  {
    match p
    case Keep => current
    case Set(v) => v
  }

  /** `{ ...mesa, ...updates }`. */
  function ApplyUpdate(mesa: Mesa, u: MesaUpdate): Mesa
  {
    Mesa(
      Merge(mesa.id, u.id),
      Merge(mesa.numero, u.numero),
      Merge(mesa.status, u.status),
      Merge(mesa.capacidade, u.capacidade),
      Merge(mesa.garcom, u.garcom),
      Merge(mesa.horaAbertura, u.horaAbertura),
      Merge(mesa.totalConta, u.totalConta))
  }

  /** `handleMesaUpdate`: the new table list. */
  function HandleMesaUpdate(mesas: seq<Mesa>, mesaId: int, updates: MesaUpdate): (r: seq<Mesa>)
    ensures |r| == |mesas|
  {
    seq(|mesas|, i requires 0 <= i < |mesas| =>
      if mesas[i].id == mesaId then ApplyUpdate(mesas[i], updates) else mesas[i])
  }

  /** The list keeps its length and order; each table with the id gets the
      update merged in and every other table is left as it was. */
  lemma HandleMesaUpdateSpec(mesas: seq<Mesa>, mesaId: int, updates: MesaUpdate, i: nat)
    requires i < |mesas|
    ensures |HandleMesaUpdate(mesas, mesaId, updates)| == |mesas|
    ensures mesas[i].id != mesaId ==> HandleMesaUpdate(mesas, mesaId, updates)[i] == mesas[i]
    ensures mesas[i].id == mesaId ==>
      HandleMesaUpdate(mesas, mesaId, updates)[i] == ApplyUpdate(mesas[i], updates)
  {
  }

  /** An id no table has leaves the list as it is. */
  lemma UnknownIdUnchanged(mesas: seq<Mesa>, mesaId: int, updates: MesaUpdate)
    requires forall i :: 0 <= i < |mesas| ==> mesas[i].id != mesaId
    ensures HandleMesaUpdate(mesas, mesaId, updates) == mesas
  {
  }

  /** The merge takes every property the update has and keeps every other:
      an update with nothing in it changes nothing, and merging merged
      values again changes nothing more. */
  lemma ApplyUpdateSpec(mesa: Mesa, u: MesaUpdate)
    ensures ApplyUpdate(mesa, NoChange) == mesa
    ensures u.id.Set? ==> ApplyUpdate(mesa, u).id == u.id.value
    ensures u.id.Keep? ==> ApplyUpdate(mesa, u).id == mesa.id
    ensures u.numero.Set? ==> ApplyUpdate(mesa, u).numero == u.numero.value
    ensures u.numero.Keep? ==> ApplyUpdate(mesa, u).numero == mesa.numero
    ensures u.capacidade.Set? ==> ApplyUpdate(mesa, u).capacidade == u.capacidade.value
    ensures u.capacidade.Keep? ==> ApplyUpdate(mesa, u).capacidade == mesa.capacidade
    ensures u.status.Set? ==> ApplyUpdate(mesa, u).status == u.status.value
    ensures u.status.Keep? ==> ApplyUpdate(mesa, u).status == mesa.status
    ensures u.garcom.Set? ==> ApplyUpdate(mesa, u).garcom == u.garcom.value
    ensures u.garcom.Keep? ==> ApplyUpdate(mesa, u).garcom == mesa.garcom
    ensures u.horaAbertura.Set? ==> ApplyUpdate(mesa, u).horaAbertura == u.horaAbertura.value
    ensures u.horaAbertura.Keep? ==> ApplyUpdate(mesa, u).horaAbertura == mesa.horaAbertura
    ensures u.totalConta.Set? ==> ApplyUpdate(mesa, u).totalConta == u.totalConta.value
    ensures u.totalConta.Keep? ==> ApplyUpdate(mesa, u).totalConta == mesa.totalConta
    ensures ApplyUpdate(ApplyUpdate(mesa, u), u) == ApplyUpdate(mesa, u)
  {
  }

  /** Sending the same update twice leaves the same list as sending it
      once, even when the update changes the id. */
  lemma HandleMesaUpdateIdempotent(mesas: seq<Mesa>, mesaId: int, updates: MesaUpdate)
    ensures var once := HandleMesaUpdate(mesas, mesaId, updates);
      HandleMesaUpdate(once, mesaId, updates) == once
  {
    var once := HandleMesaUpdate(mesas, mesaId, updates);
    var twice := HandleMesaUpdate(once, mesaId, updates);
    forall i | 0 <= i < |mesas| ensures twice[i] == once[i] {
      if mesas[i].id == mesaId {
        ApplyUpdateSpec(mesas[i], updates);
      }
    }
  }

  /** A status change from the table grid, merged into the page's list:
      the table gets the new status; opening a free table stamps the time
      and the waiter and keeps the bill; freeing clears time, waiter and
      bill; any other change keeps everything else. Id, number and capacity
      never change. */
  lemma StatusChangeMerged(mesa: Mesa, novo: MesaStatus, hora: string)
    ensures var m := ApplyUpdate(mesa, MesasView.StatusUpdates(mesa, novo, hora));
      m.status == novo && m.id == mesa.id && m.numero == mesa.numero && m.capacidade == mesa.capacidade
    ensures var m := ApplyUpdate(mesa, MesasView.StatusUpdates(mesa, novo, hora));
      mesa.status == Livre && novo == Ocupada ==>
        m.horaAbertura == Some(hora) && m.garcom == Some(MesasView.DefaultGarcom) && m.totalConta == mesa.totalConta
    ensures var m := ApplyUpdate(mesa, MesasView.StatusUpdates(mesa, novo, hora));
      novo == Livre ==> m.horaAbertura.None? && m.garcom.None? && m.totalConta.None?
    ensures var m := ApplyUpdate(mesa, MesasView.StatusUpdates(mesa, novo, hora));
      novo != Livre && !(mesa.status == Livre && novo == Ocupada) ==> m == mesa.(status := novo)
  {
    MesasView.StatusUpdatesSpec(mesa, novo, hora);
  }

  // ---------------------------------------------------------------------
  // View dispatch

  /** What `renderView` shows. */
  datatype Screen =
    | DashboardScreen
    | MesasScreen(withAdd: bool)
    | CardapioScreen
    | Placeholder(title: string, message: string)

  /** `renderView`. The table grid is rendered without an add callback. */
  function RenderView(activeView: string): Screen
  {
    if activeView == "dashboard" then DashboardScreen
    else if activeView == "mesas" then MesasScreen(false)
    else if activeView == "cardapio" then CardapioScreen
    else if activeView == "pedidos" then Placeholder("Pedidos", "Sistema de pedidos em desenvolvimento...")
    else if activeView == "estoque" then Placeholder("Estoque", "Controle de estoque em desenvolvimento...")
    else if activeView == "configuracoes" then
      Placeholder("Configurações", "Configurações do sistema em desenvolvimento...")
    else DashboardScreen
  }

  /** The menu entries this page knows. */
  const KnownViews := ["dashboard", "mesas", "cardapio", "pedidos", "estoque", "configuracoes"]

  /** Unknown entries fall back to the dashboard; the orders, stock and
      settings entries show placeholders; only the three real views show
      real screens. */
  lemma RenderViewSpec(v: string)
    ensures v !in KnownViews ==> RenderView(v) == DashboardScreen
    ensures RenderView(v).Placeholder? <==> v in ["pedidos", "estoque", "configuracoes"]
    ensures RenderView(v).MesasScreen? ==> !RenderView(v).withAdd
  {
  }
}
