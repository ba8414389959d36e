/** The frontend's view of a task and the DTOs it sends, with the helpers
    the dashboard and the two task modals share: `x || undefined`, the
    category list taken from the summary, and today's date for a date input. */
module TaskTypes {
  import opened Wrappers
  import opened JsText
  import opened TarefaModel
  import opened Seqs

  /** A task as the frontend holds it; dates are the ISO strings the API sends. */
  datatype Task = Task(id: string, nome: string, descricao: Option<string>, status: Status,
                       categoria: Option<string>, dataCriacao: string, dataCumprimento: Option<string>,
                       dataAtualizacao: string)

  datatype CreateTaskDTO = CreateTaskDTO(nome: string, descricao: Option<string>, status: Option<Status>,
                                         categoria: Option<string>, dataCumprimento: Option<string>)

  datatype UpdateTaskDTO = UpdateTaskDTO(nome: Option<string>, descricao: Option<string>, status: Option<Status>,
                                         categoria: Option<string>, dataCumprimento: Option<string>)

  /** `text || undefined`: the empty string becomes absent. */
  function OrUndefined(text: string): (r: Option<string>)
    ensures r.None? <==> text == []
    ensures r.Some? ==> r.value == text
  {
    if text == [] then None else Some(text)
  }

  /** `text.trim() || undefined`: trimmed, and absent once nothing is left. */
  function TrimOrUndefined(text: string): (r: Option<string>)
    ensures r.None? <==> IsBlank(text)
    ensures r.Some? ==> r.value == Trim(text) && r.value != []
  {
    BlankIffTrimEmpty(text);
    OrUndefined(Trim(text))
  }

  /** Summary keys that stand for "no category". */
  predicate IsPlaceholderCategory(c: string) {
    c == "null" || c == "undefined" || c == "Sem categoria"
  }

  /** `Object.keys(summary.porCategoria).filter(...)`: the real categories,
      in key order. */
  function AvailableCategories(keys: seq<string>): (r: seq<string>)
    ensures forall c :: c in r <==> c in keys && !IsPlaceholderCategory(c)
    ensures |r| <= |keys|
  {
    var r := Filter(keys, (c: string) => !IsPlaceholderCategory(c));
    assert forall c :: c in r <==> multiset(r)[c] > 0;
    r
  }

  /** The category list keeps the order of the keys: it is computed key by key. */
  lemma AvailableCategoriesConcat(a: seq<string>, b: seq<string>)
    ensures AvailableCategories(a + b) == AvailableCategories(a) + AvailableCategories(b)
  {
    FilterConcat(a, b, (c: string) => !IsPlaceholderCategory(c));
  }

  /** Keys that are all real categories come back unchanged. */
  lemma AvailableCategoriesOfReal(keys: seq<string>)
    requires forall i :: 0 <= i < |keys| ==> !IsPlaceholderCategory(keys[i])
    ensures AvailableCategories(keys) == keys
  {
    FilterAll(keys, (c: string) => !IsPlaceholderCategory(c));
  }

  /** `getTodayFormatted()` for the date `year`-`month`-`day` (month counted
      from 1): the year as written by `String`, month and day padded to two
      digits. The clock is a parameter. */
  function TodayFormatted(year: nat, month: nat, day: nat): (r: string)
    ensures 1000 <= year <= 9999 && month < 100 && day < 100 ==>
              IsIsoDate(r) && r[..4] == NatToDecimal(year)
              && r[5..7] == PadStartZero(NatToDecimal(month), 2)
              && r[8..10] == PadStartZero(NatToDecimal(day), 2)
  {
    NatToDecimal(year) + "-" + PadStartZero(NatToDecimal(month), 2) + "-" + PadStartZero(NatToDecimal(day), 2)
  }
}
