/** The task detail panel: its date display, the update it sends on save,
    and the status toggle. */
module TaskDetailModal {
  import opened Wrappers
  import opened JsText
  import opened TarefaModel
  import opened TaskTypes
  import TaskService

  const NaoDefinida := "Não definida"
  const NomeObrigatorio := "Nome da tarefa é obrigatório"
  const ErroAoAtualizar := "Erro ao atualizar tarefa. Tente novamente."
  const ErroAoAtualizarStatus := "Erro ao atualizar status da tarefa."

  /** `formatDate(dateString)`: text that begins with `YYYY-MM-DD` becomes
      `DD/MM/YYYY` with the digits as written and anything after the date
      ignored; other text goes through `toLocaleDateString`, whose result is
      the parameter `viaDate`. */
  function FormatDate(dateString: Option<string>, viaDate: string): (r: string)
    ensures dateString.None? || dateString.value == [] ==> r == NaoDefinida
    ensures dateString.Some? && HasIsoDatePrefix(dateString.value) ==>
              var s := dateString.value;
              |r| == 10 && r[..2] == s[8..10] && r[2] == '/' && r[3..5] == s[5..7] && r[5] == '/' && r[6..] == s[..4]
  {
    match dateString
    case None => NaoDefinida
    case Some(s) =>
      if s == [] then NaoDefinida
      else if HasIsoDatePrefix(s) then s[8..10] + "/" + s[5..7] + "/" + s[..4]
      else viaDate
  }

  /** Only the first ten characters matter: a date with a time after it is
      shown like the date alone. */
  lemma FormatDateIgnoresRest(s: string, rest: string, viaDate: string)
    requires HasIsoDatePrefix(s)
    ensures FormatDate(Some(s + rest), viaDate) == FormatDate(Some(s[..10]), viaDate)
  {
    var t := s + rest;
    assert t[..10] == s[..10];
    assert HasIsoDatePrefix(s[..10]);
  }

  /** The date `getTodayFormatted()` writes is shown back as the same day,
      month and year, zero-padded. */
  lemma FormatTodayFormatted(year: nat, month: nat, day: nat, viaDate: string)
    requires 1000 <= year <= 9999 && month < 100 && day < 100
    ensures FormatDate(Some(TodayFormatted(year, month, day)), viaDate)
            == PadStartZero(NatToDecimal(day), 2) + "/" + PadStartZero(NatToDecimal(month), 2) + "/" + NatToDecimal(year)
  {
  }

  /** The `UpdateTaskDTO` literal of `handleSave`. */
  function SaveDto(editedName: string, editedDescription: string, editedCategory: string,
                   editedDueDate: string): (dto: UpdateTaskDTO)
    ensures dto.nome == Some(Trim(editedName))
    ensures dto.descricao == TrimOrUndefined(editedDescription)
    ensures dto.status.None?
    ensures dto.categoria == OrUndefined(editedCategory)
    ensures dto.dataCumprimento == OrUndefined(editedDueDate)
  {
    UpdateTaskDTO(Some(Trim(editedName)), TrimOrUndefined(editedDescription), None,
                  OrUndefined(editedCategory), OrUndefined(editedDueDate))
  }

  /** A name the panel lets through is never missing for the service, and
      the service's own trim leaves it as sent. The panel does not check the
      length: the service refuses the name exactly when its trimmed form is
      over 255 code units, which cannot happen when the typed name is within
      that limit. */
  lemma SavedNamePassesService(editedName: string)
    requires !IsBlank(editedName)
    ensures var nome := TaskService.Text(SaveDto(editedName, "", "", "").nome.value);
            && !TaskService.NameMissing(nome) && Trim(nome.value) == nome.value
            && (TaskService.NameTooLong(nome.value) <==> Utf16Length(Trim(editedName)) > TaskService.MaxNome)
            && (Utf16Length(editedName) <= TaskService.MaxNome ==> !TaskService.NameTooLong(nome.value))
  {
    var t := Trim(editedName);
    TrimIdempotent(editedName);
    Utf16LengthTrim(editedName);
    BlankIffTrimEmpty(editedName);
    assert t != [] && !IsWhitespace(t[0]);
  }

  /** The panel's state that its two handlers change. */
  class TaskDetailState {
    var task: Option<Task>
    var isEditing: bool
    var error: string
    var editedName: string
    var editedDescription: string
    var editedCategory: string
    var editedDueDate: string

    constructor (task: Option<Task>)
      ensures this.task == task && !isEditing && error == []
      ensures editedName == [] && editedDescription == [] && editedCategory == [] && editedDueDate == []
    {
      this.task := task;
      isEditing := false;
      error := [];
      editedName := [];
      editedDescription := [];
      editedCategory := [];
      editedDueDate := [];
    }

    /** `handleSave()`. `sent` is the request made (task id and DTO), if any;
        `reply` is the outcome of the update and of re-reading the task. */
    method HandleSave(reply: Result<Task>) returns (sent: Option<(string, UpdateTaskDTO)>)
      modifies this
      ensures old(task).None? ==> sent.None? && unchanged(this)
      ensures old(task).Some? && IsBlank(old(editedName)) ==>
                sent.None? && error == NomeObrigatorio && task == old(task) && isEditing == old(isEditing)
      ensures old(task).Some? && !IsBlank(old(editedName)) ==>
                sent == Some((old(task).value.id,
                              SaveDto(old(editedName), old(editedDescription), old(editedCategory), old(editedDueDate))))
      ensures old(task).Some? && !IsBlank(old(editedName)) && reply.Ok? ==>
                task == Some(reply.value) && !isEditing && error == []
      ensures old(task).Some? && !IsBlank(old(editedName)) && reply.Err? ==>
                task == old(task) && isEditing == old(isEditing) && error == ErroAoAtualizar
      ensures editedName == old(editedName) && editedDescription == old(editedDescription)
      ensures editedCategory == old(editedCategory) && editedDueDate == old(editedDueDate)
    {
      if task.None? {
        return None;
      }
      if IsBlank(editedName) {
        error := NomeObrigatorio;
        return None;
      }
      error := [];
      var dto := UpdateTaskDTO(Some(Trim(editedName)), TrimOrUndefined(editedDescription), None,
                               OrUndefined(editedCategory), OrUndefined(editedDueDate));
      sent := Some((task.value.id, dto));
      match reply
      case Ok(refreshed) =>
        task := Some(refreshed);
        isEditing := false;
      case Err(_) =>
        error := ErroAoAtualizar;
    }

    /** `handleToggleStatus()`: asks for the opposite of the current status. */
    method HandleToggleStatus(reply: Result<Task>) returns (sent: Option<(string, Status)>)
      modifies this
      ensures old(task).None? ==> sent.None? && unchanged(this)
      ensures old(task).Some? ==> sent == Some((old(task).value.id, Flip(old(task).value.status)))
      ensures old(task).Some? && reply.Ok? ==> task == Some(reply.value) && error == old(error)
      ensures old(task).Some? && reply.Err? ==> task == old(task) && error == ErroAoAtualizarStatus
      ensures isEditing == old(isEditing) && editedName == old(editedName)
      ensures editedDescription == old(editedDescription) && editedCategory == old(editedCategory)
      ensures editedDueDate == old(editedDueDate)
    {
      if task.None? {
        return None;
      }
      var newStatus := if task.value.status == Pendente then Concluida else Pendente;
      sent := Some((task.value.id, newStatus));
      match reply
      case Ok(refreshed) =>
        task := Some(refreshed);
      case Err(_) =>
        error := ErroAoAtualizarStatus;
    }
  }
}
