/** Login: look the user up by e-mail, compare the password with the stored
    hash, sign a token and return the user without the hash. */
module AuthService {
  import opened Wrappers
  import opened UsuarioModel
  import opened Crypto

  const InvalidCredentials := "Usuário ou senha inválidos"

  /** The user as returned to the client: every column except `senha`. */
  datatype UsuarioSemSenha = UsuarioSemSenha(
    id: string, email: string, nome: string, dataCriacao: nat, dataAtualizacao: nat)

  function WithoutSenha(u: Usuario): UsuarioSemSenha {
    UsuarioSemSenha(u.id, u.email, u.nome, u.dataCriacao, u.dataAtualizacao)
  }

  datatype Session = Session(user: UsuarioSemSenha, token: string)

  /** The token for a stored user: signed claims `{ userId, email }`. */
  function TokenFor(crypto: Primitives, secret: string, u: Usuario): string {
    crypto.sign(TokenPayload(u.id, u.email), secret)
  }

  /** `authenticate(email, senha)` against the user table `usuarios`, with
      the signing secret `secret`. It only reads the table. */
  function Authenticate(usuarios: seq<Usuario>, crypto: Primitives, secret: string,
                        email: string, senha: string): (r: Result<Session>)
    ensures r.Err? ==> r.error == InvalidCredentials
    ensures (forall i :: 0 <= i < |usuarios| ==> usuarios[i].email != email) ==> r.Err?
    ensures r.Ok? ==> exists i :: 0 <= i < |usuarios| && usuarios[i].email == email
                                  && crypto.compare(senha, usuarios[i].senha)
                                  && r.value == Session(WithoutSenha(usuarios[i]), TokenFor(crypto, secret, usuarios[i]))
    ensures UniqueEmails(usuarios) ==>
              forall i :: 0 <= i < |usuarios| && usuarios[i].email == email ==>
                (r.Ok? <==> crypto.compare(senha, usuarios[i].senha))
  {
    match FindOneByEmail(usuarios, email)
    case None => Err(InvalidCredentials)
    case Some(user) =>
      assert UniqueEmails(usuarios) ==>
               forall i :: 0 <= i < |usuarios| && usuarios[i].email == email ==> usuarios[i] == user by {
        if UniqueEmails(usuarios) {
          forall i | 0 <= i < |usuarios| && usuarios[i].email == email ensures usuarios[i] == user {
            FindByEmailUnique(usuarios, email, i);
          }
        }
      }
      if !crypto.compare(senha, user.senha) then Err(InvalidCredentials)
      else Ok(Session(WithoutSenha(user), TokenFor(crypto, secret, user)))
  }

  /** Whoever has just registered can log in with the same e-mail and
      password, and gets back exactly the stored row minus its hash. */
  lemma {:induction false} LoginAfterRegistration(usuarios: seq<Usuario>, crypto: Primitives,
                                                  secret: string, u: Usuario, senha: string, salt: nat)
    requires crypto.Sound()
    requires forall i :: 0 <= i < |usuarios| ==> usuarios[i].email != u.email
    requires u.senha == crypto.hash(senha, SaltRounds, salt)
    ensures Authenticate(usuarios + [u], crypto, secret, u.email, senha)
            == Ok(Session(WithoutSenha(u), TokenFor(crypto, secret, u)))
  {
    FindByEmailAppend(usuarios, u, u.email);
    assert crypto.compare(senha, crypto.hash(senha, SaltRounds, salt));
  }
}
