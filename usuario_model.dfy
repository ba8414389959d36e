/** The `usuarios` table: registered users with unique e-mail addresses. */
module UsuarioModel {
  import opened Wrappers

  /** A row of `usuarios`; `senha` holds the password hash. The id is a uuid
      generated when the row is inserted, the two timestamps are set by the
      store. */
  datatype Usuario = Usuario(
    id: string,
    email: string,
    nome: string,
    senha: string,
    dataCriacao: nat,
    dataAtualizacao: nat)

  /** `email`, `nome` and `senha` are varchar(255). */
  predicate FitsColumns(u: Usuario) {
    |u.email| <= 255 && |u.nome| <= 255 && |u.senha| <= 255
  }

  /** Every row keeps to the column limits. */
  predicate UsersFit(us: seq<Usuario>) {
    forall i :: 0 <= i < |us| ==> FitsColumns(us[i])
  }

  /** The unique constraint on `email`. */
  predicate UniqueEmails(us: seq<Usuario>) {
    forall i, j :: 0 <= i < j < |us| ==> us[i].email != us[j].email
  }

  /** The primary key `id`. */
  predicate UniqueIds(us: seq<Usuario>) {
    forall i, j :: 0 <= i < j < |us| ==> us[i].id != us[j].id
  }

  /** `findOneBy({ email })`: the first row with exactly this e-mail. */
  function FindOneByEmail(us: seq<Usuario>, email: string): (r: Option<Usuario>)
    ensures r.Some? <==> exists i :: 0 <= i < |us| && us[i].email == email
    ensures r.Some? ==> exists i :: 0 <= i < |us| && us[i] == r.value && us[i].email == email
                                    && forall j :: 0 <= j < i ==> us[j].email != email
  {
    if us == [] then None
    else if us[0].email == email then Some(us[0])
    else
      var r := FindOneByEmail(us[1..], email);
      assert forall i :: 1 <= i < |us| ==> us[i] == us[1..][i - 1];
      r
  }

  /** `findOneBy({ id })`: the first row with this id. */
  function FindOneById(us: seq<Usuario>, id: string): (r: Option<Usuario>)
    ensures r.Some? <==> exists i :: 0 <= i < |us| && us[i].id == id
    ensures r.Some? ==> r.value in us && r.value.id == id
  {
    if us == [] then None
    else if us[0].id == id then Some(us[0])
    else
      var r := FindOneById(us[1..], id);
      assert forall i :: 1 <= i < |us| ==> us[i] == us[1..][i - 1];
      r
  }

  /** Under the unique constraint, the row found by e-mail is the only row
      with that e-mail. */
  lemma FindByEmailUnique(us: seq<Usuario>, email: string, i: nat)
    requires UniqueEmails(us)
    requires i < |us| && us[i].email == email
    ensures FindOneByEmail(us, email) == Some(us[i])
  {
    var r := FindOneByEmail(us, email);
    var k :| 0 <= k < |us| && us[k] == r.value && us[k].email == email
             && forall j :: 0 <= j < k ==> us[j].email != email;
    assert k == i;
  }

  /** Appending a row with a new e-mail does not change what the existing
      e-mails find, and the new e-mail finds the new row. */
  lemma FindByEmailAppend(us: seq<Usuario>, u: Usuario, email: string)
    requires forall i :: 0 <= i < |us| ==> us[i].email != u.email
    ensures email == u.email ==> FindOneByEmail(us + [u], email) == Some(u)
    ensures email != u.email ==> FindOneByEmail(us + [u], email) == FindOneByEmail(us, email)
  {
    if us != [] {
      assert (us + [u])[1..] == us[1..] + [u];
      FindByEmailAppend(us[1..], u, email);
    }
  }

  /** Appending a row keeps every id that was found before. */
  lemma FindByIdAppend(us: seq<Usuario>, u: Usuario, id: string)
    ensures FindOneById(us, id).Some? ==> FindOneById(us + [u], id) == FindOneById(us, id)
  {
    if us != [] {
      assert (us + [u])[1..] == us[1..] + [u];
      FindByIdAppend(us[1..], u, id);
    }
  }
}
