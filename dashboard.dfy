/** The dashboard page: date display, tag inference, greeting, the local
    name filter and the optimistic status toggle on the task list. */
module Dashboard {
  import opened Wrappers
  import opened JsText
  import opened TarefaModel
  import opened Seqs
  import opened TaskTypes

  // ---------------------------------------------------------------------
  // formatDate
  // ---------------------------------------------------------------------

  /** `${Number(day)}/${Number(month)}/${year}` after
      `const [year, month, day] = text.split('-')`. */
  function DayMonthYear(text: string): (r: string)
  {
    var parts := Split(text, '-');
    JsNumberText(Part(parts, 2)) + "/" + JsNumberText(Part(parts, 1)) + "/" + TemplateText(Part(parts, 0))
  }

  /** `formatDate(dateStr)`. An exact `YYYY-MM-DD` and any text containing 'T'
      are rewritten by hand; other text goes through `new Date`, whose result
      is the parameter `viaDate`. */
  function FormatDate(dateStr: Option<string>, viaDate: string): (r: string)
    ensures dateStr.None? || dateStr.value == [] ==> r == []
  {
    match dateStr
    case None => []
    case Some(s) =>
      if s == [] then []
      else if IsIsoDate(s) then DayMonthYear(s)
      else if Contains(s, "T") then DayMonthYear(Split(s, 'T')[0])
      else viaDate
  }

  /** A two-digit field read by `Number` and written back: its leading zero
      is gone. */
  function Unpadded(field: string): string
    requires |field| == 2
  {
    if field[0] == '0' then field[1..] else field
  }

  /** An exact `YYYY-MM-DD` is shown as day/month/year with the leading zeros
      of day and month dropped and the year copied as written. */
  lemma FormatExactDate(s: string, viaDate: string)
    requires IsIsoDate(s)
    ensures FormatDate(Some(s), viaDate) == Unpadded(s[8..10]) + "/" + Unpadded(s[5..7]) + "/" + s[..4]
  {
    SplitIsoDate(s);
    var parts := Split(s, '-');
    assert Part(parts, 2) == Some(s[8..10]) && Part(parts, 1) == Some(s[5..7]) && Part(parts, 0) == Some(s[..4]);
    assert s[8..10] == [s[8], s[9]] && s[5..7] == [s[5], s[6]];
    TwoDigitNumberText(s[8], s[9]);
    TwoDigitNumberText(s[5], s[6]);
  }

  /** `'T'` occurs in `s` where `IndexOfChar` finds it. */
  lemma ContainsCharAt(s: string, i: nat)
    requires i < |s| && s[i] == 'T'
    ensures Contains(s, "T")
  {
    assert s[i..i + 1] == "T";
    assert OccursAt(s, "T", i);
  }

  /** A timestamp `YYYY-MM-DDT…` is shown like its date part alone: the text
      before the first 'T'. */
  lemma FormatTimestamp(s: string, viaDate: string)
    requires !IsIsoDate(s)
    requires IndexOfChar(s, 'T') < |s| && IsIsoDate(s[..IndexOfChar(s, 'T')])
    ensures FormatDate(Some(s), viaDate) == FormatDate(Some(s[..IndexOfChar(s, 'T')]), viaDate)
  {
    var i := IndexOfChar(s, 'T');
    ContainsCharAt(s, i);
    SplitFirst(s, 'T');
  }

  /** The date the modals put in a date input, `getTodayFormatted()`, is
      shown as plain day/month/year numbers. */
  lemma FormatTodayFormatted(year: nat, month: nat, day: nat, viaDate: string)
    requires 1000 <= year <= 9999 && month < 100 && day < 100
    ensures FormatDate(Some(TodayFormatted(year, month, day)), viaDate)
            == NatToDecimal(day) + "/" + NatToDecimal(month) + "/" + NatToDecimal(year)
  {
    var s := TodayFormatted(year, month, day);
    SplitIsoDate(s);
    var parts := Split(s, '-');
    assert Part(parts, 2) == Some(s[8..10]) && Part(parts, 1) == Some(s[5..7]) && Part(parts, 0) == Some(s[..4]);
    NumberOfPaddedDecimal(day);
    NumberOfPaddedDecimal(month);
  }

  // ---------------------------------------------------------------------
  // getTaskTag
  // ---------------------------------------------------------------------

  const Estudos := "Estudos"
  const Trabalho := "Trabalho"
  const Pessoal := "Pessoal"

  predicate IsStudyName(lower: string) {
    Contains(lower, "estudar") || Contains(lower, "matemática")
  }

  predicate IsWorkName(lower: string) {
    Contains(lower, "projeto") || Contains(lower, "react") || Contains(lower, "código") || Contains(lower, "backend")
  }

  /** `getTaskTag(task)`: a non-empty `categoria` as it is; otherwise a tag
      guessed from the lower-cased name, study words first, then work words. */
  function GetTaskTag(t: Task): (r: string)
    ensures t.categoria.Some? && t.categoria.value != [] ==> r == t.categoria.value
    ensures !(t.categoria.Some? && t.categoria.value != []) ==> r in {Estudos, Trabalho, Pessoal}
    ensures !(t.categoria.Some? && t.categoria.value != []) ==>
              (r == Estudos <==> IsStudyName(ToLower(t.nome)))
    ensures !(t.categoria.Some? && t.categoria.value != []) ==>
              (r == Trabalho <==> !IsStudyName(ToLower(t.nome)) && IsWorkName(ToLower(t.nome)))
  {
    if t.categoria.Some? && t.categoria.value != [] then t.categoria.value
    else
      var lower := ToLower(t.nome);
      if IsStudyName(lower) then Estudos
      else if IsWorkName(lower) then Trabalho
      else Pessoal
  }

  /** The guessed tag does not depend on the case of the name. */
  lemma TaskTagIgnoresCase(t: Task)
    ensures GetTaskTag(t.(nome := ToLower(t.nome))) == GetTaskTag(t)
  {
    ToLowerIdempotent(t.nome);
  }

  // ---------------------------------------------------------------------
  // getGreeting
  // ---------------------------------------------------------------------

  /** `getGreeting()` for the hour of the clock, a parameter. */
  function GetGreeting(hour: nat): (r: string)
    ensures r == "Bom dia" <==> 5 <= hour < 12
    ensures r == "Boa tarde" <==> 12 <= hour < 18
    ensures r == "Boa noite" <==> hour < 5 || hour >= 18
  {
    if hour >= 5 && hour < 12 then "Bom dia"
    else if hour >= 12 && hour < 18 then "Boa tarde"
    else "Boa noite"
  }

  // ---------------------------------------------------------------------
  // filteredTasks
  // ---------------------------------------------------------------------

  /** The lower-cased name contains the lower-cased query, untrimmed. */
  predicate MatchesQuery(t: Task, query: string) {
    Contains(ToLower(t.nome), ToLower(query))
  }

  /** `filteredTasks`: everything for a blank query, otherwise the tasks whose
      name matches, in list order. */
  function FilteredTasks(tasks: seq<Task>, query: string): (r: seq<Task>)
    ensures IsBlank(query) ==> r == tasks
    ensures !IsBlank(query) ==>
              forall t :: multiset(r)[t] == if MatchesQuery(t, query) then multiset(tasks)[t] else 0
    ensures !IsBlank(query) ==> forall i :: 0 <= i < |r| ==> MatchesQuery(r[i], query)
  {
    if IsBlank(query) then tasks else Filter(tasks, (t: Task) => MatchesQuery(t, query))
  }

  /** The filter keeps list order: it distributes over concatenation. */
  lemma FilteredTasksConcat(a: seq<Task>, b: seq<Task>, query: string)
    ensures FilteredTasks(a + b, query) == FilteredTasks(a, query) + FilteredTasks(b, query)
  {
    if !IsBlank(query) {
      FilterConcat(a, b, (t: Task) => MatchesQuery(t, query));
    }
  }

  /** Typing the query in capitals or lower case gives the same list. */
  lemma FilteredTasksIgnoreQueryCase(tasks: seq<Task>, query: string)
    ensures FilteredTasks(tasks, ToLower(query)) == FilteredTasks(tasks, query)
  {
    ToLowerKeepsBlank(query);
    ToLowerIdempotent(query);
    FilterSame(tasks, (t: Task) => MatchesQuery(t, ToLower(query)), (t: Task) => MatchesQuery(t, query));
  }

  // ---------------------------------------------------------------------
  // toggleTaskStatus
  // ---------------------------------------------------------------------

  /** The task as the optimistic update writes it: the new status, a
      completion instant only when completed, and the update instant. The
      two instants come from two separate readings of the clock. */
  function Toggled(t: Task, newStatus: Status, completedAt: string, updatedAt: string): (r: Task)
    ensures r.status == newStatus
    ensures r.dataCumprimento == if newStatus == Concluida then Some(completedAt) else None
    ensures r.dataAtualizacao == updatedAt
    ensures r.(status := t.status, dataCumprimento := t.dataCumprimento, dataAtualizacao := t.dataAtualizacao) == t
  {
    t.(status := newStatus,
       dataCumprimento := if newStatus == Concluida then Some(completedAt) else None,
       dataAtualizacao := updatedAt)
  }

  predicate HasTask(tasks: seq<Task>, id: string) {
    exists i :: 0 <= i < |tasks| && tasks[i].id == id
  }

  /** The dashboard's state that `toggleTaskStatus` changes. */
  class DashboardState {
    var tasks: seq<Task>
    var completedTaskCount: int

    constructor (tasks: seq<Task>, completedTaskCount: int)
      ensures this.tasks == tasks && this.completedTaskCount == completedTaskCount
    {
      this.tasks := tasks;
      this.completedTaskCount := completedTaskCount;
    }

    /** The optimistic part of `toggleTaskStatus(taskId, currentStatus)`:
        every task with that id gets the opposite of `currentStatus`, the
        others stay, and the completed count moves by one. An unknown id
        changes nothing. The clock's two readings, for the completion and
        the update instant, are parameters. */
    method ToggleTaskStatus(taskId: string, currentStatus: Status, completedAt: string, updatedAt: string)
      modifies this
      ensures !HasTask(old(tasks), taskId) ==> tasks == old(tasks) && completedTaskCount == old(completedTaskCount)
      ensures HasTask(old(tasks), taskId) ==>
                && |tasks| == |old(tasks)|
                && (forall i :: 0 <= i < |tasks| ==>
                      tasks[i] == if old(tasks)[i].id == taskId then Toggled(old(tasks)[i], Flip(currentStatus), completedAt, updatedAt)
                                  else old(tasks)[i])
                && completedTaskCount == old(completedTaskCount) + (if currentStatus == Pendente then 1 else -1)
    {
      if !HasTask(tasks, taskId) {
        return;
      }
      var newStatus := if currentStatus == Pendente then Concluida else Pendente;
      var updated: seq<Task> := [];
      var i := 0;
      while i < |tasks|
        invariant 0 <= i <= |tasks|
        invariant |updated| == i
        invariant forall j :: 0 <= j < i ==>
                    updated[j] == if tasks[j].id == taskId then Toggled(tasks[j], newStatus, completedAt, updatedAt) else tasks[j]
      {
        var t := tasks[i];
        if t.id == taskId {
          t := t.(status := newStatus,
                  dataCumprimento := if newStatus == Concluida then Some(completedAt) else None,
                  dataAtualizacao := updatedAt);
        }
        updated := updated + [t];
        i := i + 1;
      }
      tasks := updated;
      if newStatus == Concluida {
        completedTaskCount := completedTaskCount + 1;
      } else {
        completedTaskCount := completedTaskCount - 1;
      }
    }
  }

  /** Toggling a task to the other status and back restores its status and,
      for a pending task, its missing completion date. */
  lemma ToggleBack(t: Task, done1: string, at1: string, done2: string, at2: string)
    ensures Toggled(Toggled(t, Flip(t.status), done1, at1), t.status, done2, at2).status == t.status
    ensures t.status == Pendente ==>
              Toggled(Toggled(t, Flip(t.status), done1, at1), t.status, done2, at2).dataCumprimento.None?
    ensures Toggled(Toggled(t, Flip(t.status), done1, at1), t.status, done2, at2).(dataCumprimento := t.dataCumprimento,
              dataAtualizacao := t.dataAtualizacao) == t
  {
  }
}
