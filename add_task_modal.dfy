/** The new-task form: resetting it on open, choosing or creating a category,
    and the create request it sends on submit. */
module AddTaskModal {
  import opened Wrappers
  import opened JsText
  import opened TarefaModel
  import opened TaskTypes

  const NomeObrigatorio := "Nome da tarefa é obrigatório"
  const ErroAoCriar := "Erro ao criar tarefa. Tente novamente."
  /** The select option that asks for a new category. */
  const NovaCategoria := "nova"

  /** The category sent: the trimmed new name while creating one, else the
      selected category; absent when empty. */
  function ChosenCategory(isNewCategory: bool, newCategoryName: string, taskCategory: string): (r: Option<string>)
    ensures isNewCategory ==> r == TrimOrUndefined(newCategoryName)
    ensures !isNewCategory ==> r == OrUndefined(taskCategory)
  {
    OrUndefined(if isNewCategory then Trim(newCategoryName) else taskCategory)
  }

  /** The `CreateTaskDTO` literal of `handleSubmit`. */
  function SubmitDto(taskName: string, taskDescription: string, isNewCategory: bool, newCategoryName: string,
                     taskCategory: string, dataCumprimento: string): (dto: CreateTaskDTO)
    ensures dto.nome == Trim(taskName)
    ensures dto.descricao == TrimOrUndefined(taskDescription)
    ensures dto.status == Some(Pendente)
    ensures dto.categoria == ChosenCategory(isNewCategory, newCategoryName, taskCategory)
    ensures dto.dataCumprimento.None? <==> dataCumprimento == []
    ensures dto.dataCumprimento.Some? ==> dto.dataCumprimento.value == dataCumprimento
  {
    CreateTaskDTO(Trim(taskName), TrimOrUndefined(taskDescription), Some(Pendente),
                  ChosenCategory(isNewCategory, newCategoryName, taskCategory), OrUndefined(dataCumprimento))
  }

  /** A category being created is never sent with surrounding whitespace
      and is never sent empty. */
  lemma NewCategoryIsTrimmed(newCategoryName: string, taskCategory: string)
    ensures var c := ChosenCategory(true, newCategoryName, taskCategory);
            c.Some? ==> c.value != [] && Trim(c.value) == c.value
  {
    TrimIdempotent(newCategoryName);
  }

  /** The form's state. */
  class AddTaskState {
    var taskName: string
    var taskDescription: string
    var taskCategory: string
    var dataCumprimento: string
    var error: string
    var isNewCategory: bool
    var newCategoryName: string

    constructor ()
      ensures Cleared()
    {
      taskName := [];
      taskDescription := [];
      taskCategory := [];
      dataCumprimento := [];
      error := [];
      isNewCategory := false;
      newCategoryName := [];
    }

    /** Every text field empty and no category being created. */
    predicate Cleared()
      reads this
    {
      && taskName == [] && taskDescription == [] && taskCategory == [] && dataCumprimento == []
      && newCategoryName == [] && !isNewCategory && error == []
    }

    /** The effect run when the modal opens: the form is reset. */
    method Open()
      modifies this
      ensures Cleared()
    {
      taskName := [];
      taskDescription := [];
      taskCategory := [];
      dataCumprimento := [];
      newCategoryName := [];
      isNewCategory := false;
      error := [];
    }

    /** `handleCategoryChange`: "nova" starts a new category and clears the
        selection; any other value is the selection. */
    method HandleCategoryChange(value: string)
      modifies this
      ensures value == NovaCategoria ==> isNewCategory && taskCategory == []
      ensures value != NovaCategoria ==> !isNewCategory && taskCategory == value
      ensures taskName == old(taskName) && taskDescription == old(taskDescription)
      ensures dataCumprimento == old(dataCumprimento) && newCategoryName == old(newCategoryName)
      ensures error == old(error)
    {
      if value == NovaCategoria {
        isNewCategory := true;
        taskCategory := [];
      } else {
        isNewCategory := false;
        taskCategory := value;
      }
    }

    /** The submit button's `disabled` while not loading. */
    function SubmitDisabled(): (r: bool)
      reads this
      ensures r <==> isNewCategory && IsBlank(newCategoryName)
    {
      isNewCategory && IsBlank(newCategoryName)
    }

    /** `handleSubmit`. `sent` is the create request made, if any; `created`
        says whether the request succeeded. */
    method HandleSubmit(created: bool) returns (sent: Option<CreateTaskDTO>)
      modifies this
      ensures IsBlank(old(taskName)) ==> sent.None? && error == NomeObrigatorio
      ensures !IsBlank(old(taskName)) ==>
                sent == Some(SubmitDto(old(taskName), old(taskDescription), old(isNewCategory),
                                       old(newCategoryName), old(taskCategory), old(dataCumprimento)))
      ensures !IsBlank(old(taskName)) ==> error == if created then [] else ErroAoCriar
      ensures taskName == old(taskName) && taskDescription == old(taskDescription)
      ensures taskCategory == old(taskCategory) && dataCumprimento == old(dataCumprimento)
      ensures isNewCategory == old(isNewCategory) && newCategoryName == old(newCategoryName)
    {
      if IsBlank(taskName) {
        error := NomeObrigatorio;
        return None;
      }
      error := [];
      var categoria := if isNewCategory then Trim(newCategoryName) else taskCategory;
      var dto := CreateTaskDTO(Trim(taskName), TrimOrUndefined(taskDescription), Some(Pendente),
                               OrUndefined(categoria), OrUndefined(dataCumprimento));
      assert dto == SubmitDto(taskName, taskDescription, isNewCategory, newCategoryName, taskCategory, dataCumprimento);
      sent := Some(dto);
      if !created {
        error := ErroAoCriar;
      }
    }
  }
}
