/**
  The admin application's registration handler. It checks the form, then
  whether the username is taken, then password against repetition, and only
  then encodes the password and hands the form to `AdminService.Save`. A
  collaborator that throws inside the handler's `try` block is modelled by a
  `Fault`; a form without a password throws at the comparison and ends in the
  same `catch` block.
 */
module AdminAuth {

  import opened Web
  import opened AdminService

  /** The response, the admin repository afterwards, and the entity saved (if any). */
  datatype Outcome = Outcome(response: Response, repo: AdminRepository, saved: Option<Admin>)

  const RegisterView: string := "register"
  const EmailTakenMessage: string := "Your email has been registered!"
  const PasswordMismatchMessage: string := "Your password maybe wrong! Check again!"
  const ServerErrorMessage: string := "The server has been wrong!"
  const SuccessMessage: string := "Register successfully!"

  function Register(model: map<string, Attr>): Response {
    Page(RegisterView, model, map[])
  }

  predicate AdminRegistrationAccepted(repo: AdminRepository, dto: AdminDto, hasErrors: bool, fault: Fault) {
    && !hasErrors && fault == NoFault && dto.username !in repo
    && dto.password.Some? && dto.repeatPassword == dto.password
  }

  /** `POST /register-new`. A `null` password makes the equality test throw,
      which the `catch` block answers like any other exception. */
  function AddNewAdmin(repo: AdminRepository, roles: RoleRepository, dto: AdminDto, hasErrors: bool,
                       enc: PasswordEncoder, fault: Fault): (o: Outcome)
    ensures o.response.Page? && o.response.view == RegisterView
    ensures o.saved.Some? <==> AdminRegistrationAccepted(repo, dto, hasErrors, fault)
    ensures o.saved.None? ==> o.repo == repo
    ensures o.saved.Some? ==>
      && o.saved.value.username == Some(dto.username)
      && o.saved.value.password == Some(enc.encode(dto.password.value))
      && o.repo == repo[dto.username := o.saved.value]
      && o.response.model == map["success" := Text(SuccessMessage)]
    ensures hasErrors ==> o.response.model == map[]
    ensures !hasErrors && fault == LookupThrows ==>
      o.response.model == map["errors" := Text(ServerErrorMessage)]
    ensures !hasErrors && fault != LookupThrows && dto.username in repo ==>
      o.response.model == map["emailError" := Text(EmailTakenMessage)]
    ensures !hasErrors && fault != LookupThrows && dto.username !in repo && dto.password.None? ==>
      o.response.model == map["errors" := Text(ServerErrorMessage)]
    ensures (&& !hasErrors && fault != LookupThrows && dto.username !in repo
             && dto.password.Some? && dto.password != dto.repeatPassword) ==>
      o.response.model == map["passwordError" := Text(PasswordMismatchMessage)]
    ensures (&& !hasErrors && fault == SaveThrows && dto.username !in repo
             && dto.password.Some? && dto.password == dto.repeatPassword) ==>
      o.response.model == map["errors" := Text(ServerErrorMessage)]
  {
    if hasErrors then Outcome(Register(map[]), repo, None)
    else if fault == LookupThrows then Outcome(Register(map["errors" := Text(ServerErrorMessage)]), repo, None)
    else
      match FindByUsername(repo, dto.username)
      case Some(_) => Outcome(Register(map["emailError" := Text(EmailTakenMessage)]), repo, None)
      case None =>
        match dto.password
        case None => Outcome(Register(map["errors" := Text(ServerErrorMessage)]), repo, None)
        case Some(password) =>
          if dto.repeatPassword == Some(password) then
            var encoded := dto.(password := Some(enc.encode(password)));
            if fault == SaveThrows then Outcome(Register(map["errors" := Text(ServerErrorMessage)]), repo, None)
            else
              var (after, admin) := Save(repo, roles, encoded);
              Outcome(Register(map["success" := Text(SuccessMessage)]), after, Some(admin))
          else Outcome(Register(map["passwordError" := Text(PasswordMismatchMessage)]), repo, None)
  }

  /** A registered admin can be found afterwards under the new username, with
      the encoded password and the single "ADMIN" role, and no other admin
      changes. */
  lemma RegisteredAdminFound(repo: AdminRepository, roles: RoleRepository, dto: AdminDto,
                             enc: PasswordEncoder)
    requires RolesWellKeyed(roles) && AdminRoleName in roles
    requires AdminRegistrationAccepted(repo, dto, false, NoFault)
    ensures var o := AddNewAdmin(repo, roles, dto, false, enc, NoFault);
      && FindByUsername(o.repo, dto.username) == o.saved
      && o.saved.value.password == Some(enc.encode(dto.password.value))
      && o.saved.value.roles == Some([Some(Role(AdminRoleName))])
      && forall u :: u in repo ==> FindByUsername(o.repo, u) == FindByUsername(repo, u)
  {
    SaveThenFind(repo, roles, dto.(password := Some(enc.encode(dto.password.value))));
  }
}
