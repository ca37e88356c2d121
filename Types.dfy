/** The records the dashboard works on. Numbers are integers throughout (the
    source's floating-point prices and totals are not modelled as such).
    `Funcionario` and `Turno` are not declared in the types file; their fields
    are the ones the staff view reads. */
module Types {
  import opened Wrappers

  datatype MesaStatus = Livre | Ocupada | Aguardando | Atendimento

  /** A table. The optional fields are `undefined` while the table is free. */
  datatype Mesa = Mesa(
    id: int,
    numero: int,
    status: MesaStatus,
    capacidade: int,
    garcom: Option<string>,
    horaAbertura: Option<string>,
    totalConta: Option<int>)

  /** One property of a `Partial<...>` update: absent, or present with a
      value (which for an optional property may be `undefined`). */
  datatype Patch<T> = Keep | Set(value: T)

  /** `Partial<Mesa>`. */
  datatype MesaUpdate = MesaUpdate(
    id: Patch<int>,
    numero: Patch<int>,
    status: Patch<MesaStatus>,
    capacidade: Patch<int>,
    garcom: Patch<Option<string>>,
    horaAbertura: Patch<Option<string>>,
    totalConta: Patch<Option<int>>)

  /** The update with no properties, `{}`. */
  const NoChange := MesaUpdate(Keep, Keep, Keep, Keep, Keep, Keep, Keep)

  datatype ItemCardapio = ItemCardapio(
    id: int,
    nome: string,
    categoria: string,
    preco: int,
    descricao: string,
    disponivel: bool,
    imagem: Option<string>)

  datatype ItemPedido = ItemPedido(
    id: int,
    itemCardapio: ItemCardapio,
    quantidade: int,
    observacoes: Option<string>)

  datatype PedidoStatus = Pendente | Preparando | Pronto | Entregue

  datatype Pedido = Pedido(
    id: int,
    mesaId: int,
    itens: seq<ItemPedido>,
    status: PedidoStatus,
    horario: string,
    garcom: string,
    total: int)

  datatype ItemEstoque = ItemEstoque(
    id: int,
    nome: string,
    categoria: string,
    quantidade: int,
    unidade: string,
    estoqueMinimo: int,
    preco: int)

  /** A member of staff; `cargo` is the role text chosen in the form
      ('garcom', 'cozinheiro', 'gerente' or 'caixa'). */
  datatype Funcionario = Funcionario(
    id: int,
    nome: string,
    cargo: string,
    telefone: string,
    email: string,
    ativo: bool,
    dataAdmissao: string)

  /** A work shift; the view only ever compares `status` with 'ativo'. */
  datatype Turno = Turno(
    id: int,
    funcionarioId: int,
    status: string,
    horaInicio: string)

  /** The string each table status has in the source. */
  function MesaStatusName(s: MesaStatus): string
  {
    match s
    case Livre => "livre"
    case Ocupada => "ocupada"
    case Aguardando => "aguardando"
    case Atendimento => "atendimento"
  }

  /** The string each order status has in the source. */
  function PedidoStatusName(s: PedidoStatus): string
  {
    match s
    case Pendente => "pendente"
    case Preparando => "preparando"
    case Pronto => "pronto"
    case Entregue => "entregue"
  }
}
