/** The table rules of `src/components/MesasView.tsx`: the update a status
    change sends, the statuses the table dialog offers, the labels and
    colours, and the summary counts. The time of day the source reads from
    the clock is a parameter. */
module MesasView {
  import opened Wrappers
  import opened Types
  import Seqs

  const DefaultGarcom := "João Silva"

  /** The updates `handleStatusChange` sends for a table moving to `novo`:
      the status always; opening a free table also stamps the time and the
      waiter; freeing a table clears time, waiter and bill. */
  function StatusUpdates(mesa: Mesa, novo: MesaStatus, hora: string): MesaUpdate
  {
    var updates := NoChange.(status := Set(novo));
    if novo == Ocupada && mesa.status == Livre then
      updates.(horaAbertura := Set(Some(hora)), garcom := Set(Some(DefaultGarcom)))
    else if novo == Livre then
      updates.(horaAbertura := Set(None), garcom := Set(None), totalConta := Set(None))
    else updates
  }

  /** The three cases of a status change, and that the update never touches
      the id, number or capacity. */
  lemma StatusUpdatesSpec(mesa: Mesa, novo: MesaStatus, hora: string)
    ensures var u := StatusUpdates(mesa, novo, hora);
      u.status == Set(novo) && u.id.Keep? && u.numero.Keep? && u.capacidade.Keep?
    ensures var u := StatusUpdates(mesa, novo, hora);
      mesa.status == Livre && novo == Ocupada ==>
        u.horaAbertura == Set(Some(hora)) && u.garcom == Set(Some(DefaultGarcom)) && u.totalConta.Keep?
    ensures var u := StatusUpdates(mesa, novo, hora);
      novo == Livre ==> u.horaAbertura == Set(None) && u.garcom == Set(None) && u.totalConta == Set(None)
    ensures var u := StatusUpdates(mesa, novo, hora);
      novo != Livre && !(mesa.status == Livre && novo == Ocupada) ==> u == NoChange.(status := Set(novo))
  {
  }

  /** The statuses the table dialog offers: a free table can only be
      occupied; any other can be freed or set to waiting. */
  function DialogTargets(status: MesaStatus): seq<MesaStatus>
  {
    if status == Livre then [Ocupada] else [Livre, Aguardando]
  }

  /** 'atendimento' is never offered, every offer is a change of status, and
      from the dialog a table only ever opens with the stamping update. A
      free table is offered exactly 'ocupada'; any other table exactly
      'livre' then 'aguardando', so 'ocupada' is offered only to a free
      table. */
  lemma DialogTargetsSpec(mesa: Mesa, hora: string)
    ensures Atendimento !in DialogTargets(mesa.status)
    ensures forall t :: t in DialogTargets(mesa.status) ==> t != mesa.status || t == Aguardando
    ensures mesa.status == Livre ==>
      DialogTargets(mesa.status) == [Ocupada]
      && StatusUpdates(mesa, Ocupada, hora).horaAbertura == Set(Some(hora))
    ensures mesa.status != Livre ==> DialogTargets(mesa.status) == [Livre, Aguardando]
    ensures Ocupada in DialogTargets(mesa.status) <==> mesa.status == Livre
    ensures Livre in DialogTargets(mesa.status) <==> mesa.status != Livre
  {
  }

  /** `getStatusLabel` over any status text; unknown texts read 'Livre'. */
  function StatusLabel(status: string): string
  {
    if status == "livre" then "Livre"
    else if status == "ocupada" then "Ocupada"
    else if status == "aguardando" then "Aguardando"
    else if status == "atendimento" then "Atendimento"
    else "Livre"
  }

  /** `getStatusColor` over any status text; unknown texts look free. */
  function StatusColor(status: string): string
  {
    if status == "ocupada" then "mesa-status-ocupada"
    else if status == "aguardando" then "mesa-status-aguardando"
    else if status == "atendimento" then "mesa-status-atendimento"
    else "mesa-status-livre"
  }

  /** The four statuses have four labels and four colours; any other text is
      shown exactly as a free table. */
  lemma StatusLabelSpec(a: MesaStatus, b: MesaStatus, other: string)
    requires forall s: MesaStatus :: other != MesaStatusName(s)
    ensures a != b ==> StatusLabel(MesaStatusName(a)) != StatusLabel(MesaStatusName(b))
    ensures a != b ==> StatusColor(MesaStatusName(a)) != StatusColor(MesaStatusName(b))
    ensures StatusLabel(other) == StatusLabel(MesaStatusName(Livre))
    ensures StatusColor(other) == StatusColor(MesaStatusName(Livre))
  {
    assert other != MesaStatusName(Livre) && other != MesaStatusName(Ocupada);
    assert other != MesaStatusName(Aguardando) && other != MesaStatusName(Atendimento);
  }

  function HasStatus(s: MesaStatus): Mesa -> bool
  {
    (m: Mesa) => m.status == s
  }

  /** The summary card count for one status. */
  function CountStatus(mesas: seq<Mesa>, s: MesaStatus): nat
  {
    Seqs.Count(mesas, HasStatus(s))
  }

  /** The four summary cards add up to the number of tables. */
  lemma {:induction false} CountsSum(mesas: seq<Mesa>)
    ensures CountStatus(mesas, Livre) + CountStatus(mesas, Ocupada)
      + CountStatus(mesas, Aguardando) + CountStatus(mesas, Atendimento) == |mesas|
  {
    if mesas != [] {
      CountsSum(mesas[1..]);
    }
  }

  /** The table grid: the chosen table and the `onMesaUpdate` calls made so
      far, oldest first. */
  class MesasBoard {
    var mesaSelecionada: Option<Mesa>
    var calls: seq<(int, MesaUpdate)>

    constructor()
      ensures mesaSelecionada == None && calls == []
    {
      mesaSelecionada := None;
      calls := [];
    }

    /** Clicking a table card. */
    method Select(mesa: Mesa)
      modifies this
      ensures mesaSelecionada == Some(mesa) && calls == old(calls)
    {
      mesaSelecionada := Some(mesa);
    }

    /** `handleStatusChange`: builds the updates field by field, sends them
        once for this table's id and clears the selection. */
    method HandleStatusChange(mesa: Mesa, novoStatus: MesaStatus, hora: string)
      modifies this
      ensures calls == old(calls) + [(mesa.id, StatusUpdates(mesa, novoStatus, hora))]
      ensures mesaSelecionada == None
    {
      var updates := NoChange.(status := Set(novoStatus));
      if novoStatus == Ocupada && mesa.status == Livre {
        updates := updates.(horaAbertura := Set(Some(hora)));
        updates := updates.(garcom := Set(Some(DefaultGarcom)));
      } else if novoStatus == Livre {
        updates := updates.(horaAbertura := Set(None));
        updates := updates.(garcom := Set(None));
        updates := updates.(totalConta := Set(None));
      }
      calls := calls + [(mesa.id, updates)];
      mesaSelecionada := None;
    }
  }
}
