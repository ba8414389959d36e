/** The profile page: the checks run before saving, the update it sends, and
    the typed confirmation that guards account deletion. */
module Profile {
  import opened Wrappers
  import opened JsText

  const NomeObrigatorio := "O nome é obrigatório"
  const EmailObrigatorio := "O email é obrigatório"
  const EmailInvalido := "Digite um email válido"
  const SenhaAtualObrigatoria := "Digite sua senha atual para alterá-la"
  const SenhaCurta := "A nova senha deve ter pelo menos 8 caracteres"
  const SenhasDiferentes := "As senhas não coincidem"
  const PerfilAtualizado := "Perfil atualizado com sucesso!"
  const ErroAoAtualizar := "Erro ao atualizar o perfil"
  const ConfirmacaoExclusao := "EXCLUIR"
  const DigiteExcluir := "Digite EXCLUIR para confirmar"
  const ErroAoExcluir := "Erro ao excluir a conta"

  /** The least length of a new password, in UTF-16 code units. */
  const MinSenha: nat := 8

  /** The profile as the API returns it. */
  datatype UserProfile = UserProfile(id: string, nome: string, email: string, dataCriacao: string,
                                     dataAtualizacao: string)

  /** The `updateData` object; an absent key is `None`. */
  datatype ProfileUpdate = ProfileUpdate(nome: Option<string>, email: Option<string>, senha: Option<string>,
                                         senhaAtual: Option<string>)

  // ---------------------------------------------------------------------
  // The e-mail pattern ^[^\s@]+@[^\s@]+\.[^\s@]+$
  // ---------------------------------------------------------------------

  /** One or more characters of the class `[^\s@]`. */
  predicate Plain(s: string) {
    forall i :: 0 <= i < |s| ==> !IsWhitespace(s[i]) && s[i] != '@'
  }

  /** The pattern matches `s` with its '@' at `at` and its '\.' at `dot`. */
  predicate EmailMatchAt(s: string, at: int, dot: int) {
    && 0 < at && at + 1 < dot < |s| - 1
    && s[at] == '@' && s[dot] == '.'
    && Plain(s[..at]) && Plain(s[at + 1..dot]) && Plain(s[dot + 1..])
  }

  /** The regular expression's meaning: some choice of '@' and '.' makes
      every piece fit. */
  ghost predicate EmailPattern(s: string) {
    exists at, dot :: EmailMatchAt(s, at, dot)
  }

  /** The pattern decided by scanning: no whitespace, one '@' with text
      before it, and after it a '.' that is neither first nor last. */
  predicate IsValidEmail(s: string) {
    var at := IndexOfChar(s, '@');
    && NoWhitespace(s)
    && 0 < at < |s|
    && var domain := s[at + 1..];
       && (forall i :: 0 <= i < |domain| ==> domain[i] != '@')
       && |domain| >= 3
       && IndexOfChar(domain[1..], '.') < |domain| - 2
  }

  /** The scan accepts exactly what the regular expression accepts. */
  lemma IsValidEmailIffPattern(s: string)
    ensures IsValidEmail(s) <==> EmailPattern(s)
  {
    if IsValidEmail(s) {
      var at := IndexOfChar(s, '@');
      var domain := s[at + 1..];
      var q := IndexOfChar(domain[1..], '.');
      var dot := at + 2 + q;
      assert s[dot] == domain[1..][q];
      var local, host, top := s[..at], s[at + 1..dot], s[dot + 1..];
      assert Plain(host) by {
        forall i | 0 <= i < |host| ensures !IsWhitespace(host[i]) && host[i] != '@' {
          assert host[i] == domain[i] == s[at + 1 + i];
        }
      }
      assert Plain(top) by {
        forall i | 0 <= i < |top| ensures !IsWhitespace(top[i]) && top[i] != '@' {
          assert top[i] == domain[q + 2 + i] == s[dot + 1 + i];
        }
      }
      assert EmailMatchAt(s, at, dot);
    }
    if EmailPattern(s) {
      var at, dot :| EmailMatchAt(s, at, dot);
      ValidEmailFromMatch(s, at, dot);
    }
  }

  lemma ValidEmailFromMatch(s: string, at: int, dot: int)
    requires EmailMatchAt(s, at, dot)
    ensures IsValidEmail(s)
  {
    assert forall j :: 0 <= j < at ==> s[j] == s[..at][j];
    IndexOfCharAt(s, '@', at);
    forall i | 0 <= i < |s| ensures !IsWhitespace(s[i]) && (i != at ==> s[i] != '@') {
      if i < at {
        assert s[i] == s[..at][i];
      } else if at < i < dot {
        assert s[i] == s[at + 1..dot][i - at - 1];
      } else if i > dot {
        assert s[i] == s[dot + 1..][i - dot - 1];
      }
    }
    var domain := s[at + 1..];
    assert forall i :: 0 <= i < |domain| ==> domain[i] == s[at + 1 + i];
    var rest := domain[1..];
    assert rest[dot - at - 2] == '.';
    assert IndexOfChar(rest, '.') <= dot - at - 2;
  }

  // ---------------------------------------------------------------------
  // handleSave
  // ---------------------------------------------------------------------

  /** The checks of `handleSave` in their order; the first failure's message,
      or `None` when the form may be sent. */
  function ValidationError(editName: string, editEmail: string, currentPassword: string,
                           newPassword: string, confirmPassword: string): (r: Option<string>)
    ensures IsBlank(editName) ==> r == Some(NomeObrigatorio)
    ensures !IsBlank(editName) && IsBlank(editEmail) ==> r == Some(EmailObrigatorio)
    ensures (!IsBlank(editName) && !IsBlank(editEmail) && !EmailPattern(editEmail)) ==> r == Some(EmailInvalido)
    ensures (&& !IsBlank(editName) && !IsBlank(editEmail) && EmailPattern(editEmail)
             && newPassword != [] && currentPassword == [])
              ==> r == Some(SenhaAtualObrigatoria)
    ensures (&& !IsBlank(editName) && !IsBlank(editEmail) && EmailPattern(editEmail)
             && newPassword != [] && currentPassword != [] && Utf16Length(newPassword) < MinSenha)
              ==> r == Some(SenhaCurta)
    ensures (&& !IsBlank(editName) && !IsBlank(editEmail) && EmailPattern(editEmail)
             && newPassword != [] && currentPassword != [] && Utf16Length(newPassword) >= MinSenha
             && newPassword != confirmPassword)
              ==> r == Some(SenhasDiferentes)
    ensures r.None? <==>
              && !IsBlank(editName) && !IsBlank(editEmail) && EmailPattern(editEmail)
              && (newPassword != [] ==>
                    currentPassword != [] && Utf16Length(newPassword) >= MinSenha && newPassword == confirmPassword)
  {
    IsValidEmailIffPattern(editEmail);
    if IsBlank(editName) then Some(NomeObrigatorio)
    else if IsBlank(editEmail) then Some(EmailObrigatorio)
    else if !IsValidEmail(editEmail) then Some(EmailInvalido)
    else if newPassword != [] then
      if currentPassword == [] then Some(SenhaAtualObrigatoria)
      else if Utf16Length(newPassword) < MinSenha then Some(SenhaCurta)
      else if newPassword != confirmPassword then Some(SenhasDiferentes)
      else None
    else None
  }

  /** `updateData` as the handler builds it: the name and the e-mail when they
      differ from the profile (always, when no profile is loaded), and the
      password pair when a new password is typed. */
  function UpdateData(profile: Option<UserProfile>, editName: string, editEmail: string,
                      currentPassword: string, newPassword: string): (d: ProfileUpdate)
    ensures d.nome.Some? <==> profile.None? || profile.value.nome != editName
    ensures d.nome.Some? ==> d.nome.value == editName
    ensures d.email.Some? <==> profile.None? || profile.value.email != editEmail
    ensures d.email.Some? ==> d.email.value == editEmail
    ensures d.senha.Some? <==> newPassword != []
    ensures d.senha.Some? ==> d.senha == Some(newPassword) && d.senhaAtual == Some(currentPassword)
    ensures d.senha.None? ==> d.senhaAtual.None?
  {
    ProfileUpdate(
      if profile.None? || profile.value.nome != editName then Some(editName) else None,
      if profile.None? || profile.value.email != editEmail then Some(editEmail) else None,
      if newPassword != [] then Some(newPassword) else None,
      if newPassword != [] then Some(currentPassword) else None)
  }

  /** `Object.keys(updateData).length === 0`. */
  predicate IsEmpty(d: ProfileUpdate) {
    d.nome.None? && d.email.None? && d.senha.None? && d.senhaAtual.None?
  }

  /** A form that passes the checks never sends a new password that is short,
      unconfirmed, or without the current one. */
  lemma SentPasswordIsChecked(profile: Option<UserProfile>, editName: string, editEmail: string,
                              currentPassword: string, newPassword: string, confirmPassword: string)
    requires ValidationError(editName, editEmail, currentPassword, newPassword, confirmPassword).None?
    ensures var d := UpdateData(profile, editName, editEmail, currentPassword, newPassword);
            d.senha.Some? ==>
              && Utf16Length(d.senha.value) >= MinSenha && d.senha.value == confirmPassword
              && d.senhaAtual.Some? && d.senhaAtual.value != []
  {
  }

  /** Nothing is sent exactly when the name and e-mail are the loaded ones
      and no new password is typed. */
  lemma EmptyUpdateIffUnchanged(profile: Option<UserProfile>, editName: string, editEmail: string,
                                currentPassword: string, newPassword: string)
    ensures IsEmpty(UpdateData(profile, editName, editEmail, currentPassword, newPassword)) <==>
              profile.Some? && profile.value.nome == editName && profile.value.email == editEmail && newPassword == []
  {
  }

  /** `err.message || fallback`. */
  function MessageOr(message: string, fallback: string): (r: string)
    ensures message != [] ==> r == message
    ensures message == [] ==> r == fallback
  {
    if message == [] then fallback else message
  }

  /** The page's state that the two handlers change. */
  class ProfileState {
    var profile: Option<UserProfile>
    var isEditing: bool
    var error: string
    var successMessage: string
    var editName: string
    var editEmail: string
    var currentPassword: string
    var newPassword: string
    var confirmPassword: string
    var deleteConfirmation: string

    constructor (profile: Option<UserProfile>)
      ensures this.profile == profile && !isEditing && error == [] && successMessage == []
      ensures deleteConfirmation == [] && currentPassword == [] && newPassword == [] && confirmPassword == []
    {
      this.profile := profile;
      isEditing := false;
      error := [];
      successMessage := [];
      editName := if profile.Some? then profile.value.nome else [];
      editEmail := if profile.Some? then profile.value.email else [];
      currentPassword := [];
      newPassword := [];
      confirmPassword := [];
      deleteConfirmation := [];
    }

    /** The `updateData` object, filled in key by key. */
    method BuildUpdateData() returns (data: ProfileUpdate)
      ensures data == UpdateData(profile, editName, editEmail, currentPassword, newPassword)
    {
      data := ProfileUpdate(None, None, None, None);
      if profile.None? || profile.value.nome != editName {
        data := data.(nome := Some(editName));
      }
      if profile.None? || profile.value.email != editEmail {
        data := data.(email := Some(editEmail));
      }
      if newPassword != [] {
        data := data.(senha := Some(newPassword));
        data := data.(senhaAtual := Some(currentPassword));
      }
    }

    /** `handleSave()`. `sent` is the update request made, if any; `reply`
        is its outcome. */
    method HandleSave(reply: Result<UserProfile>) returns (sent: Option<ProfileUpdate>)
      modifies this
      ensures var v := ValidationError(old(editName), old(editEmail), old(currentPassword),
                                       old(newPassword), old(confirmPassword));
              v.Some? ==>
                && sent.None? && error == v.value && isEditing == old(isEditing) && profile == old(profile)
                && successMessage == old(successMessage)
      ensures var v := ValidationError(old(editName), old(editEmail), old(currentPassword),
                                       old(newPassword), old(confirmPassword));
              var d := UpdateData(old(profile), old(editName), old(editEmail), old(currentPassword), old(newPassword));
              v.None? ==>
                && (IsEmpty(d) ==>
                      sent.None? && !isEditing && error == [] && profile == old(profile)
                      && successMessage == old(successMessage))
                && (!IsEmpty(d) ==> sent == Some(d))
                && (!IsEmpty(d) && reply.Ok? ==>
                      && profile == Some(reply.value) && !isEditing && successMessage == PerfilAtualizado
                      && currentPassword == [] && newPassword == [] && confirmPassword == [] && error == [])
                && (!IsEmpty(d) && reply.Err? ==>
                      && profile == old(profile) && isEditing == old(isEditing)
                      && successMessage == old(successMessage) && error == MessageOr(reply.error, ErroAoAtualizar))
      ensures editName == old(editName) && editEmail == old(editEmail) && deleteConfirmation == old(deleteConfirmation)
      ensures !(reply.Ok? && sent.Some?) ==>
                && currentPassword == old(currentPassword) && newPassword == old(newPassword)
                && confirmPassword == old(confirmPassword)
    {
      error := [];
      var v := ValidationError(editName, editEmail, currentPassword, newPassword, confirmPassword);
      if v.Some? {
        error := v.value;
        return None;
      }
      var data := BuildUpdateData();
      if IsEmpty(data) {
        isEditing := false;
        return None;
      }
      sent := Some(data);
      ApplyReply(reply);
    }

    /** What `handleSave` does once the update request has been answered. */
    method ApplyReply(reply: Result<UserProfile>)
      modifies this
      ensures reply.Ok? ==>
                && profile == Some(reply.value) && !isEditing && successMessage == PerfilAtualizado
                && currentPassword == [] && newPassword == [] && confirmPassword == [] && error == old(error)
      ensures reply.Err? ==>
                && profile == old(profile) && isEditing == old(isEditing) && successMessage == old(successMessage)
                && error == MessageOr(reply.error, ErroAoAtualizar)
                && currentPassword == old(currentPassword) && newPassword == old(newPassword)
                && confirmPassword == old(confirmPassword)
      ensures editName == old(editName) && editEmail == old(editEmail) && deleteConfirmation == old(deleteConfirmation)
    {
      match reply
      case Ok(updated) =>
        profile := Some(updated);
        isEditing := false;
        successMessage := PerfilAtualizado;
        currentPassword := [];
        newPassword := [];
        confirmPassword := [];
      case Err(message) =>
        error := MessageOr(message, ErroAoAtualizar);
    }

    /** `handleDeleteAccount()`: the request is made only after the exact
        confirmation word; `reply` is its outcome. */
    method HandleDeleteAccount(reply: Result<()>) returns (requested: bool)
      modifies this
      ensures requested <==> old(deleteConfirmation) == ConfirmacaoExclusao
      ensures !requested ==> error == DigiteExcluir
      ensures requested && reply.Err? ==> error == MessageOr(reply.error, ErroAoExcluir)
      ensures requested && reply.Ok? ==> error == old(error)
      ensures profile == old(profile) && deleteConfirmation == old(deleteConfirmation)
      ensures isEditing == old(isEditing) && successMessage == old(successMessage)
      ensures editName == old(editName) && editEmail == old(editEmail)
      ensures currentPassword == old(currentPassword) && newPassword == old(newPassword)
      ensures confirmPassword == old(confirmPassword)
    {
      if deleteConfirmation != ConfirmacaoExclusao {
        error := DigiteExcluir;
        return false;
      }
      requested := true;
      if reply.Err? {
        error := MessageOr(reply.error, ErroAoExcluir);
      }
    }
  }
}
