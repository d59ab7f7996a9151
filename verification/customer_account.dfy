/**
  The storefront's profile controller: updating the profile and changing the
  password. A handler's result is its response together with the service
  calls it issued.
 */
module CustomerAccount {

  import opened Web
  import opened CustomerStore

  const MinPasswordLength: nat := 5
  const WrongPasswordMessage: string := "Your password is wrong"
  const PasswordChangedMessage: string := "Your password has been changed successfully!"
  const ProfileUpdatedMessage: string := "Update successfully!"

  /** The five conditions under which a password change goes through, given
      the stored hash of the current password. The second passes the raw old
      password where a hash is expected. */
  predicate PasswordChangeAccepted(enc: PasswordEncoder, stored: Option<string>, oldPassword: string,
                                   newPassword: string, repeatPassword: string)
  {
    && enc.matches(oldPassword, stored)
    && !enc.matches(newPassword, Some(oldPassword))
    && !enc.matches(newPassword, stored)
    && repeatPassword == newPassword
    && |newPassword| >= MinPasswordLength
  }

  /** `POST /change-password`. */
  function ChangePassword(store: Store, principal: Option<string>, enc: PasswordEncoder,
                          oldPassword: string, newPassword: string, repeatPassword: string): (o: Outcome)
    ensures principal.None? ==> o == Outcome(ToLogin(), [])
    ensures principal.Some? && principal.value !in store ==> o == Outcome(ServerError, [])
    ensures principal.Some? && principal.value in store ==>
      var customer := store[principal.value].profile;
      if PasswordChangeAccepted(enc, customer.password, oldPassword, newPassword, repeatPassword) then
        && o.calls == [ChangePass(customer.(password := Some(enc.encode(newPassword))))]
        && o.response == Page("redirect:/profile", map[], map["success" := Text(PasswordChangedMessage)])
      else
        && o.calls == []
        && o.response == Page("change-password", map["message" := Text(WrongPasswordMessage)], map[])
  {
    match principal
    case None => Outcome(ToLogin(), [])
    case Some(name) =>
      match GetCustomer(store, name)
      case None => Outcome(ServerError, [])
      case Some(record) =>
        var customer := record.profile;
        if enc.matches(oldPassword, customer.password)
          && !enc.matches(newPassword, Some(oldPassword))
          && !enc.matches(newPassword, customer.password)
          && repeatPassword == newPassword && |newPassword| >= 5
        then
          Outcome(Page("redirect:/profile", map[], map["success" := Text(PasswordChangedMessage)]),
                  [ChangePass(customer.(password := Some(enc.encode(newPassword))))])
        else
          Outcome(Page("change-password", map["message" := Text(WrongPasswordMessage)], map[]), [])
  }

  /** A new password shorter than five characters, or a repetition that
      differs from it, is refused whatever the encoder says, and nothing is
      stored. */
  lemma ShortOrUnrepeatedPasswordRefused(store: Store, principal: Option<string>, enc: PasswordEncoder,
                                         oldPassword: string, newPassword: string, repeatPassword: string)
    requires |newPassword| < MinPasswordLength || repeatPassword != newPassword
    ensures ChangePassword(store, principal, enc, oldPassword, newPassword, repeatPassword).calls == []
    ensures PersistAll(store, ChangePassword(store, principal, enc, oldPassword, newPassword, repeatPassword).calls) == store
  {
  }

  /** Outcome of a change on the store: on acceptance exactly the principal's
      stored password becomes the encoding of the new one and every other
      field and customer is kept; on refusal the store is unchanged. */
  lemma ChangePasswordEffect(store: Store, name: string, enc: PasswordEncoder,
                             oldPassword: string, newPassword: string, repeatPassword: string)
    requires WellKeyed(store)
    requires name in store
    ensures var o := ChangePassword(store, Some(name), enc, oldPassword, newPassword, repeatPassword);
      var after := PersistAll(store, o.calls);
      if PasswordChangeAccepted(enc, store[name].profile.password, oldPassword, newPassword, repeatPassword) then
        && |o.calls| == 1
        && after.Keys == store.Keys
        && after[name].profile == store[name].profile.(password := Some(enc.encode(newPassword)))
        && after[name].cart == store[name].cart
        && forall u :: u in store && u != name ==> after[u] == store[u]
      else after == store
  {
    var o := ChangePassword(store, Some(name), enc, oldPassword, newPassword, repeatPassword);
    if o.calls != [] {
      assert PersistAll(store, o.calls) == Persist(store, o.calls[0]);
    }
  }

  /** `POST /update-profile`. */
  function UpdateProfile(principal: Option<string>, dto: CustomerDto, hasErrors: bool): (o: Outcome)
    ensures o.calls != [] <==> principal.Some? && !hasErrors
    ensures o.calls != [] ==> o.calls == [Update(dto)]
    ensures principal.None? ==> o.response == ToLogin()
    ensures principal.Some? && hasErrors ==> o.response == Page("customer-information", map[], map[])
    ensures principal.Some? && !hasErrors ==>
      o.response == Page("redirect:/profile", map[], map["success" := Text(ProfileUpdatedMessage)])
  {
    if principal.None? then Outcome(ToLogin(), [])
    else if hasErrors then Outcome(Page("customer-information", map[], map[]), [])
    else Outcome(Page("redirect:/profile", map[], map["success" := Text(ProfileUpdatedMessage)]), [Update(dto)])
  }

  /** Outcome of a profile update on the store: an accepted form replaces the
      profile filed under the form's username (the update is keyed by the
      form, not by the principal) but keeps the stored password and the cart;
      a form with binding errors, or no login, leaves the store unchanged. */
  lemma UpdateProfileEffect(store: Store, name: string, principal: Option<string>, dto: CustomerDto, hasErrors: bool)
    requires WellKeyed(store)
    requires name in store && dto.username == name
    ensures var after := PersistAll(store, UpdateProfile(principal, dto, hasErrors).calls);
      if principal.Some? && !hasErrors then
        && after.Keys == store.Keys
        && after[name].profile == dto.(password := store[name].profile.password)
        && after[name].cart == store[name].cart
        && forall u :: u in store && u != name ==> after[u] == store[u]
      else after == store
  {
    var calls := UpdateProfile(principal, dto, hasErrors).calls;
    if calls != [] {
      assert PersistAll(store, calls) == Persist(store, calls[0]);
    }
  }
}
