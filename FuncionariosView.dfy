/** The staff rules of `src/components/FuncionariosView.tsx`: the active
    shift lookup, the start/end choice each card offers, the new-employee
    form and its reset, the cargo colours and the summary counts. Today's
    date, which the source reads from the clock, is a parameter. */
module FuncionariosView {
  import opened Wrappers
  import opened Types
  import Seqs

  // ---------------------------------------------------------------------
  // Shifts

  /** `t => t.funcionarioId === funcionarioId && t.status === 'ativo'`. */
  function IsTurnoAtivo(funcionarioId: int): Turno -> bool
  {
    (t: Turno) => t.funcionarioId == funcionarioId && t.status == "ativo"
  }

  /** `getTurnoAtivo`. */
  function GetTurnoAtivo(turnos: seq<Turno>, funcionarioId: int): Option<Turno>
  {
    Seqs.Find(turnos, IsTurnoAtivo(funcionarioId))
  }

  /** The lookup finds the first active shift of the employee and misses
      exactly when the employee has no active shift. */
  lemma GetTurnoAtivoSpec(turnos: seq<Turno>, funcionarioId: int)
    ensures GetTurnoAtivo(turnos, funcionarioId).None? <==>
      forall i :: 0 <= i < |turnos| ==> !(turnos[i].funcionarioId == funcionarioId && turnos[i].status == "ativo")
    ensures GetTurnoAtivo(turnos, funcionarioId).Some? ==>
      exists k :: 0 <= k < |turnos| && turnos[k] == GetTurnoAtivo(turnos, funcionarioId).value
        && turnos[k].funcionarioId == funcionarioId && turnos[k].status == "ativo"
        && forall i :: 0 <= i < k ==> !(turnos[i].funcionarioId == funcionarioId && turnos[i].status == "ativo")
  {
    Seqs.FindSpec(turnos, IsTurnoAtivo(funcionarioId));
  }

  /** The button on an employee's card: end the active shift, or start one. */
  datatype ShiftButton = EndShift(turnoId: int) | StartShift(funcionarioId: int)

  function ShiftAction(turnos: seq<Turno>, f: Funcionario): ShiftButton
  {
    match GetTurnoAtivo(turnos, f.id)
    case Some(t) => EndShift(t.id)
    case None => StartShift(f.id)
  }

  /** A card offers to end a shift only when that shift is an active shift
      of this employee, and to start one (for this employee's id) only when
      the employee has no active shift. */
  lemma ShiftActionSpec(turnos: seq<Turno>, f: Funcionario)
    ensures ShiftAction(turnos, f).EndShift? ==>
      exists k :: 0 <= k < |turnos| && turnos[k].id == ShiftAction(turnos, f).turnoId
        && turnos[k].funcionarioId == f.id && turnos[k].status == "ativo"
    ensures ShiftAction(turnos, f).StartShift? <==>
      forall i :: 0 <= i < |turnos| ==> !(turnos[i].funcionarioId == f.id && turnos[i].status == "ativo")
    ensures ShiftAction(turnos, f).StartShift? ==> ShiftAction(turnos, f).funcionarioId == f.id
  {
    GetTurnoAtivoSpec(turnos, f.id);
  }

  // ---------------------------------------------------------------------
  // Cargo colours

  const DefaultCargoColor := "bg-gray-100 text-gray-800"

  /** `getCargoColor`. */
  function CargoColor(cargo: string): string
  {
    if cargo == "garcom" then "bg-blue-100 text-blue-800"
    else if cargo == "cozinheiro" then "bg-green-100 text-green-800"
    else if cargo == "gerente" then "bg-purple-100 text-purple-800"
    else if cargo == "caixa" then "bg-orange-100 text-orange-800"
    else DefaultCargoColor
  }

  const Cargos := ["garcom", "cozinheiro", "gerente", "caixa"]

  /** Gray is the colour of exactly the cargos outside the four the form
      offers, and those four have four different colours. */
  lemma CargoColorSpec(a: string, b: string)
    ensures CargoColor(a) == DefaultCargoColor <==> a !in Cargos
    ensures a in Cargos && b in Cargos && a != b ==> CargoColor(a) != CargoColor(b)
  {
  }

  // ---------------------------------------------------------------------
  // Counts

  function HasCargo(cargo: string): Funcionario -> bool
  {
    (f: Funcionario) => f.cargo == cargo
  }

  function IsAtivo(): Turno -> bool
  {
    (t: Turno) => t.status == "ativo"
  }

  /** The four summary cards. */
  datatype Resumo = Resumo(total: nat, emTurno: nat, garcons: nat, cozinheiros: nat)

  function ResumoOf(funcionarios: seq<Funcionario>, turnos: seq<Turno>): Resumo
  {
    Resumo(
      |funcionarios|,
      Seqs.Count(turnos, IsAtivo()),
      Seqs.Count(funcionarios, HasCargo("garcom")),
      Seqs.Count(funcionarios, HasCargo("cozinheiro")))
  }

  /** 'Em Turno' counts exactly the active shifts; waiters and cooks are
      each counted among the staff, and nobody is both. */
  lemma ResumoSpec(funcionarios: seq<Funcionario>, turnos: seq<Turno>)
    ensures ResumoOf(funcionarios, turnos).total == |funcionarios|
    ensures ResumoOf(funcionarios, turnos).emTurno == |set i | 0 <= i < |turnos| && turnos[i].status == "ativo"|
    ensures ResumoOf(funcionarios, turnos).garcons ==
      |set i | 0 <= i < |funcionarios| && funcionarios[i].cargo == "garcom"|
    ensures ResumoOf(funcionarios, turnos).cozinheiros ==
      |set i | 0 <= i < |funcionarios| && funcionarios[i].cargo == "cozinheiro"|
    ensures var r := ResumoOf(funcionarios, turnos);
      r.emTurno == |Seqs.Filter(turnos, IsAtivo())| && r.emTurno <= |turnos|
    ensures forall t :: t in Seqs.Filter(turnos, IsAtivo()) <==> t in turnos && t.status == "ativo"
    ensures var r := ResumoOf(funcionarios, turnos);
      r.garcons <= r.total && r.cozinheiros <= r.total && r.garcons + r.cozinheiros <= r.total
  {
    Seqs.FilterSpec(turnos, IsAtivo());
    Seqs.CountDisjoint(funcionarios, HasCargo("garcom"), HasCargo("cozinheiro"));
    ShiftsCounted(turnos);
    CargoCounted(funcionarios, "garcom");
    CargoCounted(funcionarios, "cozinheiro");
  }

  /** 'Em Turno' is the number of active shifts. */
  lemma ShiftsCounted(turnos: seq<Turno>)
    ensures Seqs.Count(turnos, IsAtivo()) == |set i | 0 <= i < |turnos| && turnos[i].status == "ativo"|
  {
    Seqs.CountSpec(turnos, IsAtivo());
    assert Seqs.Positions(turnos, IsAtivo()) == set i | 0 <= i < |turnos| && turnos[i].status == "ativo";
  }

  /** A cargo count is the number of employees with that cargo. */
  lemma CargoCounted(funcionarios: seq<Funcionario>, cargo: string)
    ensures Seqs.Count(funcionarios, HasCargo(cargo)) == |set i | 0 <= i < |funcionarios| && funcionarios[i].cargo == cargo|
  {
    Seqs.CountSpec(funcionarios, HasCargo(cargo));
    assert Seqs.Positions(funcionarios, HasCargo(cargo))
      == set i | 0 <= i < |funcionarios| && funcionarios[i].cargo == cargo;
  }

  // ---------------------------------------------------------------------
  // New-employee form

  /** `Omit<Funcionario, 'id'>`, as the form holds it. */
  datatype NovoFuncionario = NovoFuncionario(
    nome: string,
    cargo: string,
    telefone: string,
    email: string,
    ativo: bool,
    dataAdmissao: string)

  /** The form as it starts and as every submission leaves it. */
  function EmptyForm(today: string): NovoFuncionario
  {
    NovoFuncionario("", "garcom", "", "", true, today)
  }

  /** A call of `onFuncionarioAdd`. */
  datatype FormEvent = FuncionarioAdded(funcionario: NovoFuncionario)

  class FuncionarioForm {
    var novoFuncionario: NovoFuncionario
    var dialogOpen: bool
    /** The callbacks fired so far, oldest first. */
    var events: seq<FormEvent>

    constructor(today: string)
      ensures novoFuncionario == EmptyForm(today) && !dialogOpen && events == []
    {
      novoFuncionario := EmptyForm(today);
      dialogOpen := false;
      events := [];
    }

    /** Typing into (or choosing in) the form. */
    method Edit(form: NovoFuncionario)
      modifies this
      ensures novoFuncionario == form && dialogOpen == old(dialogOpen) && events == old(events)
    {
      novoFuncionario := form;
    }

    /** `onOpenChange={setDialogOpen}` and the cancel button: the dialog
        opens or closes and the form keeps what was typed. */
    method SetDialogOpen(open: bool)
      modifies this
      ensures dialogOpen == open && novoFuncionario == old(novoFuncionario) && events == old(events)
    {
      dialogOpen := open;
    }

    /** `handleSubmit`: the form is passed on once as it stands, then reset
        to an empty waiter admitted today, and the dialog closes. */
    method HandleSubmit(today: string)
      modifies this
      ensures events == old(events) + [FuncionarioAdded(old(novoFuncionario))]
      ensures novoFuncionario == EmptyForm(today)
      ensures novoFuncionario.nome == "" && novoFuncionario.cargo == "garcom"
        && novoFuncionario.telefone == "" && novoFuncionario.email == "" && novoFuncionario.ativo
      ensures !dialogOpen
    {
      events := events + [FuncionarioAdded(novoFuncionario)];
      novoFuncionario := NovoFuncionario("", "garcom", "", "", true, today);
      dialogOpen := false;
    }
  }
}
