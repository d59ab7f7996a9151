/**
  The storefront's registration handler. Its checks run in a fixed order --
  form validation, then an already registered username, then password against
  confirmation -- and only the last branch saves. A collaborator that throws
  inside the handler's `try` block is modelled by a `Fault`; a form without a
  password throws at the comparison and ends in the same `catch` block.
 */
module CustomerLogin {

  import opened Web
  import opened CustomerStore

  const RegisterView: string := "register"
  const DuplicateMessage: string := "Email has been register!"
  const MismatchMessage: string := "Password is incorrect"
  const ServerErrorMessage: string := "Server is error, try again later!"
  const SuccessMessage: string := "Register successfully!"

  function Register(model: map<string, Attr>): Response {
    Page(RegisterView, model, map[])
  }

  /** The conditions under which a registration is saved. */
  predicate RegistrationAccepted(store: Store, form: CustomerDto, hasErrors: bool, fault: Fault) {
    && !hasErrors && fault == NoFault && form.username !in store
    && form.password.Some? && form.confirmPassword == form.password
  }

  /** `POST /do-register`. A `null` password makes the equality test throw,
      which the `catch` block answers like any other exception. */
  function RegisterCustomer(store: Store, form: CustomerDto, hasErrors: bool,
                            enc: PasswordEncoder, fault: Fault): (o: Outcome)
    ensures o.response.Page? && o.response.view == RegisterView
    ensures |o.calls| <= 1
    ensures o.calls != [] <==> RegistrationAccepted(store, form, hasErrors, fault)
    ensures o.calls != [] ==>
      && o.calls[0] == Save(form.(password := Some(enc.encode(form.password.value))))
      && o.response.model == map["success" := Text(SuccessMessage)]
    ensures hasErrors ==> o.response.model == map[]
    ensures !hasErrors && fault == LookupThrows ==>
      o.response.model == map["error" := Text(ServerErrorMessage)]
    ensures !hasErrors && fault != LookupThrows && form.username in store ==>
      o.response.model == map["error" := Text(DuplicateMessage)]
    ensures !hasErrors && fault != LookupThrows && form.username !in store && form.password.None? ==>
      o.response.model == map["error" := Text(ServerErrorMessage)]
    ensures (&& !hasErrors && fault != LookupThrows && form.username !in store
             && form.password.Some? && form.password != form.confirmPassword) ==>
      o.response.model == map["error" := Text(MismatchMessage)]
    ensures (&& !hasErrors && fault == SaveThrows && form.username !in store
             && form.password.Some? && form.password == form.confirmPassword) ==>
      o.response.model == map["error" := Text(ServerErrorMessage)]
  {
    if hasErrors then Outcome(Register(map[]), [])
    else if fault == LookupThrows then Outcome(Register(map["error" := Text(ServerErrorMessage)]), [])
    else
      match GetCustomer(store, form.username)
      case Some(_) => Outcome(Register(map["error" := Text(DuplicateMessage)]), [])
      case None =>
        match form.password
        case None => Outcome(Register(map["error" := Text(ServerErrorMessage)]), [])
        case Some(password) =>
          if form.confirmPassword == Some(password) then
            var encoded := form.(password := Some(enc.encode(password)));
            if fault == SaveThrows then Outcome(Register(map["error" := Text(ServerErrorMessage)]), [])
            else Outcome(Register(map["success" := Text(SuccessMessage)]), [Save(encoded)])
          else Outcome(Register(map["error" := Text(MismatchMessage)]), [])
  }

  /** Registration as a transition of the store: an accepted form files a new
      record under its username holding the encoded password, and leaves every
      other customer alone; any refusal leaves the store as it was. */
  lemma RegistrationEffect(store: Store, form: CustomerDto, hasErrors: bool, enc: PasswordEncoder, fault: Fault)
    requires WellKeyed(store)
    ensures var after := PersistAll(store, RegisterCustomer(store, form, hasErrors, enc, fault).calls);
      && WellKeyed(after)
      && if RegistrationAccepted(store, form, hasErrors, fault) then
           && after.Keys == store.Keys + {form.username}
           && after[form.username].profile.password == Some(enc.encode(form.password.value))
           && after[form.username].profile == form.(password := Some(enc.encode(form.password.value)))
           && forall u :: u in store ==> after[u] == store[u]
         else after == store
  {
    var o := RegisterCustomer(store, form, hasErrors, enc, fault);
    if o.calls != [] {
      assert PersistAll(store, o.calls) == Persist(store, o.calls[0]);
    }
  }

  /** A username that is already registered is never overwritten. */
  lemma RegisteredUsernameKept(store: Store, form: CustomerDto, hasErrors: bool, enc: PasswordEncoder, fault: Fault)
    requires form.username in store
    ensures PersistAll(store, RegisterCustomer(store, form, hasErrors, enc, fault).calls) == store
  {
  }
}
