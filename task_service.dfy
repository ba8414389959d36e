/** The owner-scoped task table: create, read, partial update, delete and the
    two listings, with the service's validation messages. */
module TaskService {
  import opened Wrappers
  import opened JsText
  import opened TarefaModel
  import opened UsuarioModel
  import opened TaskOrder
  import opened Seqs

  const UsuarioNaoEncontrado := "Usuário não encontrado"
  const NomeObrigatorio := "Nome da tarefa é obrigatório"
  const NomeMuitoLongo := "Nome da tarefa não pode ter mais de 255 caracteres"
  const StatusInvalido := "Status deve ser \"pendente\" ou \"concluída\""
  const TarefaNaoEncontrada := "Tarefa não encontrada"

  /** The most UTF-16 code units a task name may have. */
  const MaxNome: nat := 255

  /** A field of a JSON request body: left out (`undefined`), `null`, or a
      text. */
  datatype Field = Undefined | Null | Text(value: string)

  /** JavaScript truthiness of a field: a non-empty text. */
  predicate Truthy(f: Field) {
    f.Text? && f.value != []
  }

  /** What `createTarefa` reads from its argument. */
  datatype CreateTarefaDTO = CreateTarefaDTO(nome: Field, descricao: Field, status: Field)

  /** What `updateTarefa` reads from its argument. */
  datatype UpdateTarefaDTO = UpdateTarefaDTO(nome: Field, descricao: Field, status: Field)

  /** `!nome || nome.trim().length === 0`: `undefined`, `null` and blank text alike. */
  predicate NameMissing(nome: Field) {
    !nome.Text? || IsBlank(nome.value)
  }

  /** `nome.length > 255`, measured on the text as given, before trimming. */
  predicate NameTooLong(nome: string) {
    Utf16Length(nome) > MaxNome
  }

  /** `createTarefa`'s status check `data.status && !includes(data.status)`:
      only a non-empty text can be refused. */
  predicate CreateStatusInvalid(status: Field) {
    Truthy(status) && ParseStatus(status.value).None?
  }

  /** `updateTarefa`'s status check: once the field is not `undefined`,
      anything but one of the two texts, `null` included, is refused. */
  predicate UpdateStatusInvalid(status: Field) {
    !status.Undefined? && !(status.Text? && ParseStatus(status.value).Some?)
  }

  /** `descricao?.trim() || undefined`: trimmed, and absent once empty;
      `undefined` and `null` both give absent. */
  function CleanDescricao(d: Field): (r: Option<string>)
    ensures !d.Text? || IsBlank(d.value) <==> r.None?
    ensures r.Some? ==> r.value == Trim(d.value) && r.value != []
  {
    match d
    case Text(text) =>
      BlankIffTrimEmpty(text);
      if IsBlank(text) then None else Some(Trim(text))
    case _ => None
  }

  /** A stored task name: not blank and at most 255 UTF-16 code units. */
  predicate StoredNameOk(nome: string) {
    !IsBlank(nome) && Utf16Length(nome) <= MaxNome
  }

  /** Trimming an accepted name gives an acceptable stored name. */
  lemma TrimmedNameOk(nome: string)
    requires !IsBlank(nome) && !NameTooLong(nome)
    ensures StoredNameOk(Trim(nome))
  {
    var t := Trim(nome);
    Utf16LengthTrim(nome);
    BlankIffTrimEmpty(nome);
    assert t != [] && !IsWhitespace(t[0]);
  }

  predicate UniqueTaskIds(ts: seq<Tarefa>) {
    forall i, j :: 0 <= i < j < |ts| ==> ts[i].id != ts[j].id
  }

  /** The position of the task with this id owned by this user, or -1
      (`findOne({ where: { id, idUsuario } })`). */
  function IndexOwned(ts: seq<Tarefa>, id: string, userId: string): (k: int)
    ensures -1 <= k < |ts|
    ensures k >= 0 ==> ts[k].id == id && ts[k].idUsuario == userId
    ensures k < 0 ==> forall i :: 0 <= i < |ts| ==> !(ts[i].id == id && ts[i].idUsuario == userId)
  {
    if ts == [] then -1
    else if ts[0].id == id && ts[0].idUsuario == userId then 0
    else
      var k := IndexOwned(ts[1..], id, userId);
      assert forall i :: 1 <= i < |ts| ==> ts[i] == ts[1..][i - 1];
      if k < 0 then -1 else k + 1
  }

  /** Every task's owner is a registered user (the foreign key of `id_usuario`). */
  ghost predicate OwnersExist(ts: seq<Tarefa>, usuarios: seq<Usuario>) {
    forall i :: 0 <= i < |ts| ==> FindOneById(usuarios, ts[i].idUsuario).Some?
  }

  /** Registering more users keeps every task's owner registered. */
  lemma OwnersExistAppend(ts: seq<Tarefa>, usuarios: seq<Usuario>, u: Usuario)
    requires OwnersExist(ts, usuarios)
    ensures OwnersExist(ts, usuarios + [u])
  {
    forall i | 0 <= i < |ts| ensures FindOneById(usuarios + [u], ts[i].idUsuario).Some? {
      FindByIdAppend(usuarios, u, ts[i].idUsuario);
    }
  }

  /** The update passes the service's checks: a name that is sent is neither
      missing nor too long, and a status that is sent is one of the two values. */
  predicate UpdateAccepted(data: UpdateTarefaDTO) {
    && (!data.nome.Undefined? ==> !NameMissing(data.nome) && !NameTooLong(data.nome.value))
    && !UpdateStatusInvalid(data.status)
  }

  /** The task after the assignments of a successful `updateTarefa`:
      only the fields sent change (a `null` description clears it), and the
      owner's name is refreshed from the user table when the owner is found. */
  function Updated(t: Tarefa, data: UpdateTarefaDTO, usuarios: seq<Usuario>, now: nat): Tarefa
    requires UpdateAccepted(data)
  {
    var nome := if data.nome.Text? then Trim(data.nome.value) else t.nome;
    var descricao := if data.descricao.Undefined? then t.descricao else CleanDescricao(data.descricao);
    var status := if data.status.Text? then ParseStatus(data.status.value).value else t.status;
    var nomeUsuario := match FindOneById(usuarios, t.idUsuario)
                       case Some(u) => Some(u.nome)
                       case None => t.nomeUsuario;
    var changed := t.(nome := nome, descricao := descricao, status := status, nomeUsuario := nomeUsuario);
    if changed == t then t else changed.(dataAtualizacao := now)
  }

  /** An update touches only the fields it names, the owner's cached name
      and the update instant; the key, the owner and the creation instant stay. */
  lemma UpdatedFrame(t: Tarefa, data: UpdateTarefaDTO, usuarios: seq<Usuario>, now: nat)
    requires UpdateAccepted(data)
    ensures var r := Updated(t, data, usuarios, now);
            && r.id == t.id && r.idUsuario == t.idUsuario && r.dataCriacao == t.dataCriacao
            && r.categoria == t.categoria && r.dataCumprimento == t.dataCumprimento
            && r.nome == (if data.nome.Undefined? then t.nome else Trim(data.nome.value))
            && r.descricao == (if data.descricao.Undefined? then t.descricao else CleanDescricao(data.descricao))
            && r.status == (if data.status.Undefined? then t.status else ParseStatus(data.status.value).value)
            && (r.dataAtualizacao == t.dataAtualizacao || r.dataAtualizacao == now)
            && (r.dataAtualizacao != now ==> r == t)
  {
  }

  /** An accepted update keeps the stored-name rule and the column limits. */
  lemma UpdatedKeepsRules(t: Tarefa, data: UpdateTarefaDTO, usuarios: seq<Usuario>, now: nat)
    requires UpdateAccepted(data)
    ensures StoredNameOk(t.nome) ==> StoredNameOk(Updated(t, data, usuarios, now).nome)
    ensures (StoredNameOk(t.nome) && TarefaModel.FitsColumns(t) && UsersFit(usuarios))
              ==> TarefaModel.FitsColumns(Updated(t, data, usuarios, now))
  {
    var r := Updated(t, data, usuarios, now);
    if data.nome.Text? {
      TrimmedNameOk(data.nome.value);
    }
    if FindOneById(usuarios, t.idUsuario).Some? && UsersFit(usuarios) {
      FoundUserFits(usuarios, t.idUsuario);
    }
    assert StoredNameOk(r.nome) ==> |r.nome| <= MaxNome;
  }

  /** The invariant of the task table: primary key, and the name rule
      every stored task satisfies. */
  predicate TableValid(ts: seq<Tarefa>) {
    && UniqueTaskIds(ts)
    && forall i :: 0 <= i < |ts| ==> StoredNameOk(ts[i].nome)
  }

  /** The schema as a whole: column limits and the owner foreign key. */
  ghost predicate RespectsSchema(ts: seq<Tarefa>, usuarios: seq<Usuario>) {
    && (forall i :: 0 <= i < |ts| ==> TarefaModel.FitsColumns(ts[i]))
    && OwnersExist(ts, usuarios)
  }

  lemma AppendKeepsTable(ts: seq<Tarefa>, t: Tarefa)
    requires TableValid(ts) && StoredNameOk(t.nome)
    requires forall i :: 0 <= i < |ts| ==> ts[i].id != t.id
    ensures TableValid(ts + [t])
  {
    var r := ts + [t];
    forall i, j | 0 <= i < j < |r| ensures r[i].id != r[j].id {
      assert r[i] == ts[i];
      if j < |ts| {
        assert r[j] == ts[j];
      }
    }
    forall i | 0 <= i < |r| ensures StoredNameOk(r[i].nome) {
      if i < |ts| {
        assert r[i] == ts[i];
      }
    }
  }

  lemma ReplaceKeepsTable(ts: seq<Tarefa>, k: nat, t: Tarefa)
    requires TableValid(ts) && k < |ts| && t.id == ts[k].id && StoredNameOk(t.nome)
    ensures TableValid(ts[k := t])
  {
  }

  lemma RemoveKeepsTable(ts: seq<Tarefa>, k: nat)
    requires TableValid(ts) && k < |ts|
    ensures TableValid(RemoveAt(ts, k))
  {
  }

  /** The table without the row at `k` (`repository.remove`). */
  function RemoveAt(ts: seq<Tarefa>, k: nat): (r: seq<Tarefa>)
    requires k < |ts|
    ensures |r| == |ts| - 1
    ensures forall i :: 0 <= i < |r| ==> r[i] == if i < k then ts[i] else ts[i + 1]
    ensures multiset(r) == multiset(ts) - multiset{ts[k]}
  {
    assert ts == ts[..k] + [ts[k]] + ts[k + 1..];
    ts[..k] + ts[k + 1..]
  }

  /** Under the primary key, removing the task at `k` leaves no task with its id. */
  lemma RemoveDropsId(ts: seq<Tarefa>, k: nat)
    requires UniqueTaskIds(ts) && k < |ts|
    ensures forall i :: 0 <= i < |ts| - 1 ==> RemoveAt(ts, k)[i].id != ts[k].id
  {
    var r := RemoveAt(ts, k);
    forall i | 0 <= i < |r| ensures r[i].id != ts[k].id {
      if i < k {
        assert r[i] == ts[i];
      } else {
        assert r[i] == ts[i + 1];
      }
    }
  }

  lemma AppendKeepsSchema(ts: seq<Tarefa>, usuarios: seq<Usuario>, t: Tarefa)
    requires RespectsSchema(ts, usuarios) && TarefaModel.FitsColumns(t)
    requires FindOneById(usuarios, t.idUsuario).Some?
    ensures RespectsSchema(ts + [t], usuarios)
  {
    assert forall i :: 0 <= i < |ts| ==> (ts + [t])[i] == ts[i];
  }

  lemma ReplaceKeepsSchema(ts: seq<Tarefa>, usuarios: seq<Usuario>, k: nat, t: Tarefa)
    requires RespectsSchema(ts, usuarios) && k < |ts| && TarefaModel.FitsColumns(t)
    requires t.idUsuario == ts[k].idUsuario
    ensures RespectsSchema(ts[k := t], usuarios)
  {
  }

  lemma RemoveKeepsSchema(ts: seq<Tarefa>, usuarios: seq<Usuario>, k: nat)
    requires RespectsSchema(ts, usuarios) && k < |ts|
    ensures RespectsSchema(RemoveAt(ts, k), usuarios)
  {
  }

  /** The owner found by id keeps to the user columns. */
  lemma FoundUserFits(usuarios: seq<Usuario>, id: string)
    requires UsersFit(usuarios) && FindOneById(usuarios, id).Some?
    ensures UsuarioModel.FitsColumns(FindOneById(usuarios, id).value)
  {
    var u := FindOneById(usuarios, id).value;
    var i :| 0 <= i < |usuarios| && usuarios[i] == u;
  }

  /** What `createTarefa(userId, data)` answers. The checks run in the
      source's order: owner, missing name, long name, status. The generated
      uuid `newId` and the insertion instant `now` are parameters. */
  function CreateOutcome(usuarios: seq<Usuario>, userId: string, data: CreateTarefaDTO,
                         newId: string, now: nat): (r: Result<Tarefa>)
    ensures FindOneById(usuarios, userId).None? ==> r == Err(UsuarioNaoEncontrado)
    ensures (FindOneById(usuarios, userId).Some? && NameMissing(data.nome)) ==> r == Err(NomeObrigatorio)
    ensures (FindOneById(usuarios, userId).Some? && !NameMissing(data.nome) && NameTooLong(data.nome.value))
              ==> r == Err(NomeMuitoLongo)
    ensures (&& FindOneById(usuarios, userId).Some? && !NameMissing(data.nome) && !NameTooLong(data.nome.value)
             && CreateStatusInvalid(data.status))
              ==> r == Err(StatusInvalido)
    ensures r.Ok? <==>
              && FindOneById(usuarios, userId).Some? && !NameMissing(data.nome) && !NameTooLong(data.nome.value)
              && !CreateStatusInvalid(data.status)
    ensures r.Ok? ==>
              && r.value == Tarefa(
                   newId, userId, Some(FindOneById(usuarios, userId).value.nome),
                   Trim(data.nome.value), CleanDescricao(data.descricao),
                   if Truthy(data.status) then ParseStatus(data.status.value).value else DefaultStatus,
                   None, now, None, now)
              && StoredNameOk(r.value.nome)
  {
    match FindOneById(usuarios, userId)
    case None => Err(UsuarioNaoEncontrado)
    case Some(usuario) =>
      if NameMissing(data.nome) then Err(NomeObrigatorio)
      else if NameTooLong(data.nome.value) then Err(NomeMuitoLongo)
      else if CreateStatusInvalid(data.status) then Err(StatusInvalido)
      else
        TrimmedNameOk(data.nome.value);
        Ok(Tarefa(newId, userId, Some(usuario.nome), Trim(data.nome.value), CleanDescricao(data.descricao),
                  if Truthy(data.status) then ParseStatus(data.status.value).value else DefaultStatus,
                  None, now, None, now))
  }

  /** What `updateTarefa(id, userId, data)` answers against the table `ts`:
      the owned task must exist, then a sent name must be present and short
      enough, then a sent status must be one of the two values. */
  function UpdateOutcome(ts: seq<Tarefa>, usuarios: seq<Usuario>, id: string, userId: string,
                         data: UpdateTarefaDTO, now: nat): (r: Result<Tarefa>)
    ensures IndexOwned(ts, id, userId) < 0 <==> r == Err(TarefaNaoEncontrada)
    ensures (IndexOwned(ts, id, userId) >= 0 && !data.nome.Undefined? && NameMissing(data.nome))
              ==> r == Err(NomeObrigatorio)
    ensures (&& IndexOwned(ts, id, userId) >= 0 && !data.nome.Undefined? && !NameMissing(data.nome)
             && NameTooLong(data.nome.value))
              ==> r == Err(NomeMuitoLongo)
    ensures (&& IndexOwned(ts, id, userId) >= 0
             && (!data.nome.Undefined? ==> !NameMissing(data.nome) && !NameTooLong(data.nome.value))
             && UpdateStatusInvalid(data.status))
              ==> r == Err(StatusInvalido)
    ensures r.Ok? <==> IndexOwned(ts, id, userId) >= 0 && UpdateAccepted(data)
    ensures r.Ok? ==> r.value == Updated(ts[IndexOwned(ts, id, userId)], data, usuarios, now)
                      && r.value.id == id && r.value.idUsuario == userId
  {
    var k := IndexOwned(ts, id, userId);
    if k < 0 then Err(TarefaNaoEncontrada)
    else if !data.nome.Undefined? && NameMissing(data.nome) then Err(NomeObrigatorio)
    else if !data.nome.Undefined? && NameTooLong(data.nome.value) then Err(NomeMuitoLongo)
    else if UpdateStatusInvalid(data.status) then Err(StatusInvalido)
    else
      UpdatedFrame(ts[k], data, usuarios, now);
      Ok(Updated(ts[k], data, usuarios, now))
  }

  /** On create, `null` is handled like a field left out: the `?.`, `&&`
      and `||` of `createTarefa` all skip it. */
  lemma NullOnCreate(usuarios: seq<Usuario>, userId: string, data: CreateTarefaDTO, newId: string, now: nat)
    ensures CreateOutcome(usuarios, userId, data.(nome := Null), newId, now)
            == CreateOutcome(usuarios, userId, data.(nome := Undefined), newId, now)
    ensures CreateOutcome(usuarios, userId, data.(descricao := Null), newId, now)
            == CreateOutcome(usuarios, userId, data.(descricao := Undefined), newId, now)
    ensures CreateOutcome(usuarios, userId, data.(status := Null), newId, now)
            == CreateOutcome(usuarios, userId, data.(status := Undefined), newId, now)
  {
  }

  /** On update, `null` counts as sent (`!== undefined`): a `null` name or
      status is refused, and a `null` description clears the stored one. */
  lemma NullOnUpdate(ts: seq<Tarefa>, usuarios: seq<Usuario>, id: string, userId: string, d: Field, now: nat)
    requires IndexOwned(ts, id, userId) >= 0
    ensures UpdateOutcome(ts, usuarios, id, userId, UpdateTarefaDTO(Null, d, Undefined), now) == Err(NomeObrigatorio)
    ensures UpdateOutcome(ts, usuarios, id, userId, UpdateTarefaDTO(Undefined, d, Null), now) == Err(StatusInvalido)
    ensures var r := UpdateOutcome(ts, usuarios, id, userId, UpdateTarefaDTO(Undefined, Null, Undefined), now);
            r.Ok? && r.value.descricao.None?
  {
    var k := IndexOwned(ts, id, userId);
    UpdatedFrame(ts[k], UpdateTarefaDTO(Undefined, Null, Undefined), usuarios, now);
  }

  class TarefaService {
    /** The `tarefas` table, in insertion order. */
    var tarefas: seq<Tarefa>

    ghost predicate Valid()
      reads this
    {
      TableValid(tarefas)
    }

    constructor ()
      ensures Valid() && tarefas == []
    {
      tarefas := [];
    }

    /** `getTarefaById(id, userId)`: the task only if both the id and the
        owner match; a task of another user is reported as missing. */
    function GetTarefaById(id: string, userId: string): (r: Result<Tarefa>)
      reads this
      ensures r.Ok? <==> exists i :: 0 <= i < |tarefas| && tarefas[i].id == id && tarefas[i].idUsuario == userId
      ensures r.Ok? ==> r.value in tarefas && r.value.id == id && r.value.idUsuario == userId
      ensures r.Err? ==> r.error == TarefaNaoEncontrada
    {
      var k := IndexOwned(tarefas, id, userId);
      if k < 0 then Err(TarefaNaoEncontrada) else Ok(tarefas[k])
    }

    /** `getTarefasByUser(userId)`: exactly the user's tasks, newest first. */
    function GetTarefasByUser(userId: string): (r: seq<Tarefa>)
      reads this
      ensures SortedByCreationDesc(r)
      ensures forall t :: multiset(r)[t] == if t.idUsuario == userId then multiset(tarefas)[t] else 0
    {
      SortByCreationDesc(Filter(tarefas, (t: Tarefa) => t.idUsuario == userId))
    }

    /** `getTarefasByStatus(userId, status)`: exactly the user's tasks with
        that status, newest first. */
    function GetTarefasByStatus(userId: string, status: Status): (r: seq<Tarefa>)
      reads this
      ensures SortedByCreationDesc(r)
      ensures forall t :: multiset(r)[t] ==
                if t.idUsuario == userId && t.status == status then multiset(tarefas)[t] else 0
    {
      SortByCreationDesc(Filter(tarefas, (t: Tarefa) => t.idUsuario == userId && t.status == status))
    }

    /** `createTarefa(userId, data)` against the task table: the answer is
        `CreateOutcome`, and only a success adds its task. */
    method CreateTarefa(usuarios: seq<Usuario>, userId: string, data: CreateTarefaDTO,
                        newId: string, now: nat) returns (r: Result<Tarefa>)
      requires Valid()
      requires forall i :: 0 <= i < |tarefas| ==> tarefas[i].id != newId
      modifies this
      ensures Valid()
      ensures r == CreateOutcome(usuarios, userId, data, newId, now)
      ensures r.Err? ==> tarefas == old(tarefas)
      ensures r.Ok? ==> tarefas == old(tarefas) + [r.value]
      ensures (old(RespectsSchema(tarefas, usuarios)) && UsersFit(usuarios)) ==> RespectsSchema(tarefas, usuarios)
    {
      var usuario := FindOneById(usuarios, userId);
      if usuario.None? {
        return Err(UsuarioNaoEncontrado);
      }
      if NameMissing(data.nome) {
        return Err(NomeObrigatorio);
      }
      var nome := data.nome.value;
      if NameTooLong(nome) {
        return Err(NomeMuitoLongo);
      }
      if CreateStatusInvalid(data.status) {
        return Err(StatusInvalido);
      }
      var status := if Truthy(data.status) then ParseStatus(data.status.value).value else DefaultStatus;
      TrimmedNameOk(nome);
      var tarefa := Tarefa(newId, userId, Some(usuario.value.nome), Trim(nome),
                           CleanDescricao(data.descricao), status, None, now, None, now);
      AppendKeepsTable(tarefas, tarefa);
      if RespectsSchema(tarefas, usuarios) && UsersFit(usuarios) {
        FoundUserFits(usuarios, userId);
        AppendKeepsSchema(tarefas, usuarios, tarefa);
      }
      tarefas := tarefas + [tarefa];
      r := Ok(tarefa);
    }

    /** `updateTarefa(id, userId, data)` against the task table: the answer
        is `UpdateOutcome`, and only a success saves, over the owned row. */
    method UpdateTarefa(usuarios: seq<Usuario>, id: string, userId: string,
                        data: UpdateTarefaDTO, now: nat) returns (r: Result<Tarefa>)
      requires Valid()
      modifies this
      ensures Valid()
      ensures r == UpdateOutcome(old(tarefas), usuarios, id, userId, data, now)
      ensures r.Err? ==> tarefas == old(tarefas)
      ensures r.Ok? ==> tarefas == old(tarefas)[IndexOwned(old(tarefas), id, userId) := r.value]
      ensures (old(RespectsSchema(tarefas, usuarios)) && UsersFit(usuarios)) ==> RespectsSchema(tarefas, usuarios)
    {
      var k := IndexOwned(tarefas, id, userId);
      if k < 0 {
        return Err(TarefaNaoEncontrada);
      }
      if !data.nome.Undefined? {
        if NameMissing(data.nome) {
          return Err(NomeObrigatorio);
        }
        if NameTooLong(data.nome.value) {
          return Err(NomeMuitoLongo);
        }
      }
      if UpdateStatusInvalid(data.status) {
        return Err(StatusInvalido);
      }
      var tarefa := Updated(tarefas[k], data, usuarios, now);
      UpdatedFrame(tarefas[k], data, usuarios, now);
      UpdatedKeepsRules(tarefas[k], data, usuarios, now);
      ReplaceKeepsTable(tarefas, k, tarefa);
      if RespectsSchema(tarefas, usuarios) && UsersFit(usuarios) {
        ReplaceKeepsSchema(tarefas, usuarios, k, tarefa);
      }
      tarefas := tarefas[k := tarefa];
      r := Ok(tarefa);
    }

    /** `deleteTarefa(id, userId)`: removes exactly the owned task. */
    method DeleteTarefa(id: string, userId: string) returns (r: Result<()>)
      requires Valid()
      modifies this
      ensures Valid()
      ensures old(GetTarefaById(id, userId)).Err? ==> r == Err(TarefaNaoEncontrada) && tarefas == old(tarefas)
      ensures old(GetTarefaById(id, userId)).Ok? ==>
                var k := IndexOwned(old(tarefas), id, userId);
                r == Ok(()) && k >= 0 && tarefas == RemoveAt(old(tarefas), k)
      ensures GetTarefaById(id, userId).Err?
      ensures forall usuarios :: old(RespectsSchema(tarefas, usuarios)) ==> RespectsSchema(tarefas, usuarios)
    {
      var k := IndexOwned(tarefas, id, userId);
      if k < 0 {
        return Err(TarefaNaoEncontrada);
      }
      RemoveKeepsTable(tarefas, k);
      RemoveDropsId(tarefas, k);
      forall usuarios | RespectsSchema(tarefas, usuarios)
        ensures RespectsSchema(RemoveAt(tarefas, k), usuarios)
      {
        RemoveKeepsSchema(tarefas, usuarios, k);
      }
      tarefas := RemoveAt(tarefas, k);
      r := Ok(());
    }
  }
}
