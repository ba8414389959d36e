/** The `tarefas` table: one row per task, owned by a user. */
module TarefaModel {
  import opened Wrappers

  /** The status column: varchar(50), one of 'pendente' and 'concluída',
      'pendente' by default. */
  datatype Status = Pendente | Concluida

  const DefaultStatus: Status := Pendente

  function StatusText(s: Status): (r: string)
    ensures r == "pendente" || r == "concluída"
  {
    match s
    case Pendente => "pendente"
    case Concluida => "concluída"
  }

  /** `['pendente', 'concluída'].includes(text)`, giving the status it names. */
  function ParseStatus(text: string): (r: Option<Status>)
    ensures r.Some? <==> text == "pendente" || text == "concluída"
    ensures r.Some? ==> StatusText(r.value) == text
  {
    if text == "pendente" then Some(Pendente)
    else if text == "concluída" then Some(Concluida)
    else None
  }

  /** Every status is written and read back as itself. */
  lemma StatusRoundTrip(s: Status)
    ensures ParseStatus(StatusText(s)) == Some(s)
  {
  }

  /** The other status. */
  function Flip(s: Status): (r: Status)
    ensures r != s
  {
    match s
    case Pendente => Concluida
    case Concluida => Pendente
  }

  /** A row of `tarefas`. Timestamps are instants as naturals. `idUsuario` is
      the owning user's id (a foreign key to `usuarios`). */
  datatype Tarefa = Tarefa(
    id: string,
    idUsuario: string,
    nomeUsuario: Option<string>,
    nome: string,
    descricao: Option<string>,
    status: Status,
    categoria: Option<string>,
    dataCriacao: nat,
    dataCumprimento: Option<nat>,
    dataAtualizacao: nat)

  /** The column limits of `tarefas`, in characters: `nome` and
      `nome_usuario` are varchar(255), `categoria` is varchar(100);
      `descricao` is unbounded text. */
  predicate FitsColumns(t: Tarefa) {
    && |t.nome| <= 255
    && (t.nomeUsuario.Some? ==> |t.nomeUsuario.value| <= 255)
    && (t.categoria.Some? ==> |t.categoria.value| <= 100)
  }
}
