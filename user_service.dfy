/** Registration: check-then-insert into the user table with a unique e-mail
    and a hashed password. */
module UserService {
  import opened Wrappers
  import opened UsuarioModel
  import opened Crypto

  const EmailJaCadastrado := "E-mail já cadastrado"
  /** The database's refusal of a text longer than its varchar(255) column. */
  const ValorMuitoLongo := "value too long for type character varying(255)"

  /** Some stored user has exactly this e-mail (no trimming, no case folding). */
  predicate EmailTaken(us: seq<Usuario>, email: string) {
    exists i :: 0 <= i < |us| && us[i].email == email
  }

  class UserService {
    /** The `usuarios` table, in insertion order. */
    var usuarios: seq<Usuario>

    /** The table's unique constraints on `email` and `id`, and its column limits. */
    ghost predicate Valid()
      reads this
    {
      UniqueEmails(usuarios) && UniqueIds(usuarios) && UsersFit(usuarios)
    }

    constructor ()
      ensures Valid() && usuarios == []
    {
      usuarios := [];
    }

    /** `createUser(nome, email, senha)`. The uuid `newId`, the bcrypt salt and
        the insertion instant `now` are supplied by the caller. A row with a
        text over its column's 255 characters is refused by the database on
        `save`, after the e-mail check. */
    method CreateUser(crypto: Primitives, nome: string, email: string, senha: string,
                      newId: string, salt: nat, now: nat) returns (r: Result<Usuario>)
      requires Valid()
      requires forall i :: 0 <= i < |usuarios| ==> usuarios[i].id != newId
      modifies this
      ensures Valid()
      ensures EmailTaken(old(usuarios), email) ==>
                r == Err(EmailJaCadastrado) && usuarios == old(usuarios)
      ensures var u := Usuario(newId, email, nome, crypto.hash(senha, SaltRounds, salt), now, now);
              !EmailTaken(old(usuarios), email) && !FitsColumns(u) ==>
                r == Err(ValorMuitoLongo) && usuarios == old(usuarios)
      ensures var u := Usuario(newId, email, nome, crypto.hash(senha, SaltRounds, salt), now, now);
              !EmailTaken(old(usuarios), email) && FitsColumns(u) ==>
                r == Ok(u) && usuarios == old(usuarios) + [u]
      ensures |usuarios| >= |old(usuarios)| && usuarios[..|old(usuarios)|] == old(usuarios)
      ensures r.Ok? && crypto.Sound() ==> crypto.compare(senha, r.value.senha)
    {
      var existing := FindOneByEmail(usuarios, email);
      if existing.Some? {
        return Err(EmailJaCadastrado);
      }
      var senhaHash := crypto.hash(senha, SaltRounds, salt);
      var user := Usuario(newId, email, nome, senhaHash, now, now);
      if !FitsColumns(user) {
        return Err(ValorMuitoLongo);
      }
      usuarios := usuarios + [user];
      r := Ok(user);
    }
  }
}
