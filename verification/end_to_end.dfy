/**
  The dashboard's calls against the controller. The session store that sits
  between them is not part of this model; it is taken to send the call's
  arguments as the request body and, because an HTTP client rejects a non-2xx
  answer, to settle the call as resolved on a 200 and as rejected with the
  envelope's `message` otherwise.
 */
module EndToEnd {
  import opened JsValues
  import opened UserController
  import opened DashboardPage
  import opened DashboardMachine

  /** The body the session store sends for a name call. */
  function ProfileRequest(name: string): ProfileBody {
    ProfileBody(Some(name))
  }

  /** The body the session store sends for a password call. */
  function PasswordRequest(oldPassword: string, newPassword: string): PasswordBody {
    PasswordBody(Some(oldPassword), Some(newPassword))
  }

  /** How the awaited call settles for a given server response. */
  function SettleWith(r: Response): (s: Settled)
    ensures s.Resolved? <==> r.success
    ensures !r.success ==> s == Rejected(Some(r.message))
  {
    if r.success then Resolved else Rejected(Some(r.message))
  }

  /** The client's guards are stricter than the server's presence checks: a
      name call the page has in flight is never refused for a missing name,
      and the server goes on to look the user up. */
  lemma NameCallPassesPresenceCheck(m: Machine, store: Store, id: UserId, faults: Faults)
    requires Inv(m) && m.nameCall.UpdateProfileCall?
    ensures
      var out := UpdateProfile(store, id, ProfileRequest(m.nameCall.name), faults);
      out.response != UserController.Reject(UserController.NameRequired) && out.ops != []
  {
    assert m.nameCall.name != "" by {
      if m.nameCall.name == "" {
        assert IsBlank(m.nameCall.name);
      }
    }
  }

  /** Likewise a password call in flight is never refused for a missing
      password. */
  lemma PasswordCallPassesPresenceCheck(m: Machine, bcrypt: Bcrypt, store: Store, id: UserId, faults: Faults)
    requires Inv(m) && m.passwordCall.UpdatePasswordCall?
    ensures
      var call := m.passwordCall;
      var out := UpdatePassword(bcrypt, store, id, PasswordRequest(call.oldPassword, call.newPassword), faults);
      out.response != UserController.Reject(PasswordsRequired) && out.ops != []
  {
  }

  /** A wrong old password: the server writes nothing and the page shows the
      server's message under the password form, keeping both fields. */
  lemma WrongOldPasswordShown(m: Machine, bcrypt: Bcrypt, store: Store, id: UserId)
    requires Inv(m) && m.passwordCall.UpdatePasswordCall?
    requires id in store && !bcrypt.compare(m.passwordCall.oldPassword, store[id].password)
    ensures
      var call := m.passwordCall;
      var out := UpdatePassword(bcrypt, store, id, PasswordRequest(call.oldPassword, call.newPassword), map[]);
      var m' := Step(m, PasswordCallSettled(SettleWith(out.response)));
      && out.store == store
      && m'.view.passwordError == Some(InvalidOldPassword)
      && m'.view.oldPassword == m.view.oldPassword
      && m'.view.newPassword == m.view.newPassword
      && !m'.view.isPasswordLoading
  {
    var call := m.passwordCall;
    var out := UpdatePassword(bcrypt, store, id, PasswordRequest(call.oldPassword, call.newPassword), map[]);
    assert out.response == UserController.Reject(InvalidOldPassword);
  }

  /** A successful password change: the page empties both fields and shows
      its success text, and the password the page sent now logs the user in. */
  lemma PasswordChangeCompletes(m: Machine, bcrypt: Bcrypt, store: Store, id: UserId)
    requires Sound(bcrypt)
    requires Inv(m) && m.passwordCall.UpdatePasswordCall?
    requires id in store && bcrypt.compare(m.passwordCall.oldPassword, store[id].password)
    ensures
      var call := m.passwordCall;
      var out := UpdatePassword(bcrypt, store, id, PasswordRequest(call.oldPassword, call.newPassword), map[]);
      var m' := Step(m, PasswordCallSettled(SettleWith(out.response)));
      && Authenticates(bcrypt, out.store, id, call.newPassword)
      && m'.view.oldPassword == "" && m'.view.newPassword == ""
      && m'.view.passwordSuccess == Some(DashboardPage.PasswordUpdated)
  {
    var call := m.passwordCall;
    var body := PasswordRequest(call.oldPassword, call.newPassword);
    var out := UpdatePassword(bcrypt, store, id, body, map[]);
    assert out.response.success;
    NewPasswordAuthenticates(bcrypt, store, id, body, map[]);
  }
}
