/** Selecting and ordering task rows as the repository's `find` does with a
    `where` filter and `order: { dataCriacao: 'DESC' }`. */
module TaskOrder {
  import opened TarefaModel

  /** Newest creation first. */
  predicate SortedByCreationDesc(s: seq<Tarefa>) {
    forall i, j :: 0 <= i < j < |s| ==> s[i].dataCriacao >= s[j].dataCriacao
  }

  /** `t` placed among the rows of `s`, ahead of the first row that is not
      newer than it. */
  function InsertByCreationDesc(t: Tarefa, s: seq<Tarefa>): (r: seq<Tarefa>)
    requires SortedByCreationDesc(s)
    ensures SortedByCreationDesc(r)
    ensures multiset(r) == multiset(s) + multiset{t}
    ensures forall x :: x in r ==> x == t || x in s
  {
    if s == [] || t.dataCriacao >= s[0].dataCriacao then
      InsertAtFront(t, s);
      [t] + s
    else
      var rest := InsertByCreationDesc(t, s[1..]);
      InsertAfterHead(t, s, rest);
      [s[0]] + rest
  }

  /** Placing `t` first keeps the order when it is no older than the head. */
  lemma InsertAtFront(t: Tarefa, s: seq<Tarefa>)
    requires SortedByCreationDesc(s) && (s == [] || t.dataCriacao >= s[0].dataCriacao)
    ensures SortedByCreationDesc([t] + s)
    ensures multiset([t] + s) == multiset(s) + multiset{t}
    ensures forall x :: x in [t] + s ==> x == t || x in s
  {
    var r := [t] + s;
    assert forall j :: 1 <= j < |r| ==> r[j] == s[j - 1];
  }

  /** Keeping the head first keeps the order when `t` went into the rest. */
  lemma InsertAfterHead(t: Tarefa, s: seq<Tarefa>, rest: seq<Tarefa>)
    requires SortedByCreationDesc(s) && s != [] && t.dataCriacao < s[0].dataCriacao
    requires SortedByCreationDesc(rest)
    requires multiset(rest) == multiset(s[1..]) + multiset{t}
    requires forall x :: x in rest ==> x == t || x in s[1..]
    ensures SortedByCreationDesc([s[0]] + rest)
    ensures multiset([s[0]] + rest) == multiset(s) + multiset{t}
    ensures forall x :: x in [s[0]] + rest ==> x == t || x in s
  {
    assert s == [s[0]] + s[1..];
    HeadStaysFirst(t, s, rest);
    var r := [s[0]] + rest;
    assert forall j :: 1 <= j < |r| ==> r[j] == rest[j - 1];
  }

  /** The head of a sorted sequence, newer than `t`, is no older than
      anything in the insertion into the rest. */
  lemma HeadStaysFirst(t: Tarefa, s: seq<Tarefa>, rest: seq<Tarefa>)
    requires SortedByCreationDesc(s) && s != [] && t.dataCriacao < s[0].dataCriacao
    requires forall x :: x in rest ==> x == t || x in s[1..]
    ensures forall j :: 0 <= j < |rest| ==> s[0].dataCriacao >= rest[j].dataCriacao
  {
    forall j | 0 <= j < |rest| ensures s[0].dataCriacao >= rest[j].dataCriacao {
      assert rest[j] in rest;
      if rest[j] != t {
        var k :| 0 <= k < |s[1..]| && s[1..][k] == rest[j];
        assert s[k + 1] == rest[j];
      }
    }
  }

  /** The rows of `s` newest first (rows created at the same instant come in
      an order the database does not specify; this one is a choice). */
  function SortByCreationDesc(s: seq<Tarefa>): (r: seq<Tarefa>)
    ensures SortedByCreationDesc(r)
    ensures multiset(r) == multiset(s)
  {
    if s == [] then []
    else
      assert s == [s[0]] + s[1..];
      InsertByCreationDesc(s[0], SortByCreationDesc(s[1..]))
  }
}
