/** The task controller: from request fields and service outcomes to an HTTP
    status code and a JSON body. */
module TaskController {
  import opened Wrappers
  import opened TarefaModel
  import opened UsuarioModel
  import opened TaskService

  const IdObrigatorio := "ID da tarefa é obrigatório"
  const CampoObrigatorio := "Pelo menos um campo (nome, descricao ou status) deve ser fornecido"

  /** The JSON sent back: a task, a list of tasks, `{ error }`, or nothing (204). */
  datatype Body = TaskBody(task: Tarefa) | TaskListBody(tasks: seq<Tarefa>) | ErrorBody(error: string) | Empty

  datatype Response = Response(code: int, body: Body)

  /** The fields of `req.body` the task routes can carry. */
  datatype RequestBody = RequestBody(nome: Field, descricao: Field, status: Field,
                                     categoria: Field, dataCumprimento: Field)

  /** A handler either answers at once or calls the service with `call`. */
  datatype Step<A> = Reply(response: Response) | Forward(call: A)

  /** `!nome`: `undefined`, `null` or `''`. */
  predicate Falsy(f: Field) {
    !Truthy(f)
  }

  /** `!id` for the route parameter: absent or `''`. */
  predicate IdMissing(id: Option<string>) {
    id.None? || id.value == []
  }

  /** The answer to a request whose `:id` parameter is missing. */
  const MissingId := Response(400, ErrorBody(IdObrigatorio))

  /** `err.message === 'Tarefa não encontrada' ? 404 : other`. */
  function NotFoundOr(message: string, other: int): (code: int)
    ensures code == 404 <==> message == TaskService.TarefaNaoEncontrada || other == 404
    ensures code != 404 ==> code == other
  {
    if message == TaskService.TarefaNaoEncontrada then 404 else other
  }

  /** `create`, before the service: a falsy name is refused with 400, otherwise
      only `nome`, `descricao` and `status` are handed on. */
  function CreateStep(body: RequestBody): (s: Step<CreateTarefaDTO>)
    ensures s.Reply? <==> Falsy(body.nome)
    ensures s.Reply? ==> s.response == Response(400, ErrorBody(TaskService.NomeObrigatorio))
    ensures s.Forward? ==> Truthy(s.call.nome)
  {
    if Falsy(body.nome) then Reply(Response(400, ErrorBody(TaskService.NomeObrigatorio)))
    else Forward(CreateTarefaDTO(body.nome, body.descricao, body.status))
  }

  /** `categoria` and `dataCumprimento` in the request body never reach the
      service: two bodies that differ only there are handled alike. */
  lemma CreateIgnoresExtraFields(body: RequestBody, categoria: Field, dataCumprimento: Field)
    ensures CreateStep(body.(categoria := categoria, dataCumprimento := dataCumprimento)) == CreateStep(body)
  {
  }

  /** What `create` forwards is exactly the name, description and status sent. */
  lemma CreateForwardsFields(body: RequestBody)
    requires !Falsy(body.nome)
    ensures CreateStep(body) == Forward(CreateTarefaDTO(body.nome, body.descricao, body.status))
  {
  }

  /** `create`, after the service: 201 with the task, or 400 with the message. */
  function CreateReply(r: Result<Tarefa>): (resp: Response)
    ensures resp.code == 201 <==> r.Ok?
    ensures r.Ok? ==> resp.body == TaskBody(r.value)
    ensures r.Err? ==> resp == Response(400, ErrorBody(r.error))
  {
    match r
    case Ok(t) => Response(201, TaskBody(t))
    case Err(m) => Response(400, ErrorBody(m))
  }

  /** `getAll`'s choice of query: filter by status only for the two exact texts. */
  function StatusFilter(query: Option<string>): (f: Option<Status>)
    ensures f.Some? <==> query.Some? && (query.value == "pendente" || query.value == "concluída")
    ensures f.Some? ==> StatusText(f.value) == query.value
  {
    if query.Some? && (query.value == "pendente" || query.value == "concluída") then ParseStatus(query.value)
    else None
  }

  /** `getAll`, after the service: 200 with the list, or 500 with the message. */
  function ListReply(r: Result<seq<Tarefa>>): (resp: Response)
    ensures resp.code == 200 <==> r.Ok?
    ensures r.Ok? ==> resp.body == TaskListBody(r.value)
    ensures r.Err? ==> resp == Response(500, ErrorBody(r.error))
  {
    match r
    case Ok(ts) => Response(200, TaskListBody(ts))
    case Err(m) => Response(500, ErrorBody(m))
  }

  /** `getById`, after the service: 200 with the task; every error is 404. */
  function GetByIdReply(r: Result<Tarefa>): (resp: Response)
    ensures resp.code == 200 <==> r.Ok?
    ensures r.Ok? ==> resp.body == TaskBody(r.value)
    ensures r.Err? ==> resp == Response(404, ErrorBody(r.error))
  {
    match r
    case Ok(t) => Response(200, TaskBody(t))
    case Err(m) => Response(404, ErrorBody(m))
  }

  /** `update`, before the service: a missing id, then a body in which none of
      the three fields is defined, is refused with 400; `null` counts as sent. */
  function UpdateStep(id: Option<string>, body: RequestBody): (s: Step<UpdateTarefaDTO>)
    ensures IdMissing(id) ==> s == Reply(MissingId)
    ensures (!IdMissing(id) && body.nome.Undefined? && body.descricao.Undefined? && body.status.Undefined?)
              ==> s == Reply(Response(400, ErrorBody(CampoObrigatorio)))
    ensures s.Forward? <==>
              !IdMissing(id) && (!body.nome.Undefined? || !body.descricao.Undefined? || !body.status.Undefined?)
    ensures s.Forward? ==> s.call == UpdateTarefaDTO(body.nome, body.descricao, body.status)
  {
    if IdMissing(id) then Reply(MissingId)
    else if body.nome.Undefined? && body.descricao.Undefined? && body.status.Undefined? then
      Reply(Response(400, ErrorBody(CampoObrigatorio)))
    else Forward(UpdateTarefaDTO(body.nome, body.descricao, body.status))
  }

  /** `update`, after the service: 200 with the task; 'Tarefa não encontrada'
      is 404 and every other error 400. */
  function UpdateReply(r: Result<Tarefa>): (resp: Response)
    ensures resp.code == 200 <==> r.Ok?
    ensures r.Ok? ==> resp.body == TaskBody(r.value)
    ensures r.Err? ==> resp.body == ErrorBody(r.error)
    ensures r.Err? ==> (resp.code == 404 <==> r.error == TaskService.TarefaNaoEncontrada)
    ensures r.Err? && r.error != TaskService.TarefaNaoEncontrada ==> resp.code == 400
  {
    match r
    case Ok(t) => Response(200, TaskBody(t))
    case Err(m) => Response(NotFoundOr(m, 400), ErrorBody(m))
  }

  /** `delete`, after the service: 204 with no body; 'Tarefa não encontrada'
      is 404 and every other error 500. */
  function DeleteReply(r: Result<()>): (resp: Response)
    ensures resp.code == 204 <==> r.Ok?
    ensures r.Ok? ==> resp.body == Empty
    ensures r.Err? ==> resp.body == ErrorBody(r.error)
    ensures r.Err? ==> (resp.code == 404 <==> r.error == TaskService.TarefaNaoEncontrada)
    ensures r.Err? && r.error != TaskService.TarefaNaoEncontrada ==> resp.code == 500
  {
    match r
    case Ok(_) => Response(204, Empty)
    case Err(m) => Response(NotFoundOr(m, 500), ErrorBody(m))
  }

  /** `POST /tarefas` against the task table: the answer to a forwarded
      request is the service's outcome, 201 or 400 with its message. */
  method Create(svc: TarefaService, usuarios: seq<Usuario>, userId: string, body: RequestBody,
                newId: string, now: nat) returns (resp: Response)
    requires svc.Valid()
    requires forall i :: 0 <= i < |svc.tarefas| ==> svc.tarefas[i].id != newId
    modifies svc
    ensures svc.Valid()
    ensures Falsy(body.nome) ==> resp == Response(400, ErrorBody(TaskService.NomeObrigatorio))
    ensures !Falsy(body.nome) ==>
              resp == CreateReply(CreateOutcome(usuarios, userId, CreateTarefaDTO(body.nome, body.descricao, body.status),
                                                newId, now))
    ensures resp.code == 201 <==>
              && !Falsy(body.nome) && FindOneById(usuarios, userId).Some?
              && !NameMissing(body.nome) && !NameTooLong(body.nome.value) && !CreateStatusInvalid(body.status)
    ensures resp.code != 201 ==> resp.code == 400 && svc.tarefas == old(svc.tarefas)
    ensures resp.code == 201 ==> resp.body.TaskBody? && svc.tarefas == old(svc.tarefas) + [resp.body.task]
                                 && resp.body.task.id == newId && resp.body.task.idUsuario == userId
  {
    var step := CreateStep(body);
    if step.Reply? {
      return step.response;
    }
    var r := svc.CreateTarefa(usuarios, userId, step.call, newId, now);
    resp := CreateReply(r);
  }

  /** `GET /tarefas[?status=…]`: the owner's tasks, newest first, filtered by
      status only when the query names one of the two values exactly. */
  function GetAll(svc: TarefaService, userId: string, status: Option<string>): (resp: Response)
    reads svc
    ensures resp.code == 200 && resp.body.TaskListBody?
    ensures StatusFilter(status).Some? ==> resp.body.tasks == svc.GetTarefasByStatus(userId, StatusFilter(status).value)
    ensures StatusFilter(status).None? ==> resp.body.tasks == svc.GetTarefasByUser(userId)
  {
    var f := StatusFilter(status);
    ListReply(Ok(if f.Some? then svc.GetTarefasByStatus(userId, f.value) else svc.GetTarefasByUser(userId)))
  }

  /** `GET /tarefas/:id`: 200 with the owned task, 404 otherwise. */
  function GetById(svc: TarefaService, id: Option<string>, userId: string): (resp: Response)
    reads svc
    ensures IdMissing(id) ==> resp == MissingId
    ensures !IdMissing(id) ==> (resp.code == 200 <==> svc.GetTarefaById(id.value, userId).Ok?)
    ensures !IdMissing(id) && resp.code != 200 ==> resp == Response(404, ErrorBody(TaskService.TarefaNaoEncontrada))
  {
    if IdMissing(id) then MissingId else GetByIdReply(svc.GetTarefaById(id.value, userId))
  }

  /** `PUT /tarefas/:id` against the task table: the answer to a forwarded
      request is the service's outcome, and a 200 has saved the updated row
      over the owned one. */
  method Update(svc: TarefaService, usuarios: seq<Usuario>, id: Option<string>, userId: string,
                body: RequestBody, now: nat) returns (resp: Response)
    requires svc.Valid()
    modifies svc
    ensures svc.Valid()
    ensures UpdateStep(id, body).Reply? ==> resp == UpdateStep(id, body).response
    ensures UpdateStep(id, body).Forward? ==>
              resp == UpdateReply(UpdateOutcome(old(svc.tarefas), usuarios, id.value, userId,
                                                UpdateStep(id, body).call, now))
    ensures UpdateStep(id, body).Forward? ==>
              && (resp.code == 404 <==> old(svc.GetTarefaById(id.value, userId)).Err?)
              && (resp.code == 200 <==>
                    old(svc.GetTarefaById(id.value, userId)).Ok? && UpdateAccepted(UpdateStep(id, body).call))
    ensures resp.code == 200 || resp.code == 400 || resp.code == 404
    ensures resp.code != 200 ==> svc.tarefas == old(svc.tarefas)
    ensures resp.code == 200 ==>
              && !IdMissing(id) && resp.body.TaskBody? && resp.body.task.id == id.value
              && svc.tarefas == old(svc.tarefas)[IndexOwned(old(svc.tarefas), id.value, userId) := resp.body.task]
  {
    var step := UpdateStep(id, body);
    if step.Reply? {
      return step.response;
    }
    var r := svc.UpdateTarefa(usuarios, id.value, userId, step.call, now);
    resp := UpdateReply(r);
  }

  /** `DELETE /tarefas/:id` against the task table. The service fails only
      with 'Tarefa não encontrada', so the 500 branch is never taken. */
  method Delete(svc: TarefaService, id: Option<string>, userId: string) returns (resp: Response)
    requires svc.Valid()
    modifies svc
    ensures svc.Valid()
    ensures IdMissing(id) ==> resp == MissingId && svc.tarefas == old(svc.tarefas)
    ensures !IdMissing(id) ==> (resp == Response(204, Empty) <==> old(svc.GetTarefaById(id.value, userId)).Ok?)
    ensures !IdMissing(id) && resp.code != 204 ==>
              resp == Response(404, ErrorBody(TaskService.TarefaNaoEncontrada)) && svc.tarefas == old(svc.tarefas)
    ensures !IdMissing(id) && resp.code == 204 ==>
              var k := IndexOwned(old(svc.tarefas), id.value, userId);
              0 <= k < |old(svc.tarefas)| && svc.tarefas == RemoveAt(old(svc.tarefas), k)
    ensures resp.code != 500
  {
    if IdMissing(id) {
      return MissingId;
    }
    var r := svc.DeleteTarefa(id.value, userId);
    resp := DeleteReply(r);
  }
}
