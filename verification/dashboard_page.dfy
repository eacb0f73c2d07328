/**
  The dashboard page's form state and its event handlers. The `useState`
  fields become one immutable record; each handler becomes a function from
  that record to the next one. An `async` submit handler is split at its
  `await`: a start step (the guards and the call to the session store) and a
  settle step (the `try`/`catch`/`finally` after the call returns or throws).
  The `setTimeout` in the name handler is returned as a count of scheduled
  close-edit events for the caller to run later.
 */
module DashboardPage {
  import opened JsValues

  /** The component's `useState` fields; `null` messages are `None`. */
  datatype View = View(
    editMode: bool,
    isNameLoading: bool,
    isPasswordLoading: bool,
    name: string,
    nameError: Option<string>,
    nameSuccess: Option<string>,
    oldPassword: string,
    newPassword: string,
    passwordError: Option<string>,
    passwordSuccess: Option<string>)

  /** The session-store action a start step calls, if any. */
  datatype Call =
    | NoCall
    | UpdateProfileCall(name: string)
    | UpdatePasswordCall(oldPassword: string, newPassword: string)

  /** How an awaited session-store call ended: it returned, or it threw an
      error whose `response.data.message` may be missing. */
  datatype Settled = Resolved | Rejected(message: Option<string>)

  /** A start step's new state and the call it issued. */
  datatype Started = Started(view: View, call: Call)

  /** A name settle step's new state and how many close-edit timers it set. */
  datatype NameSettled = NameSettled(view: View, closeTimers: nat)

  const NameRequired := "Name is required"
  const ProfileUpdated := "Profile updated successfully"
  const NameFailed := "Failed to update name"
  const PasswordTooShort := "Password must be at least 6 characters"
  const OldPasswordRequired := "Old password is required"
  const PasswordUpdated := "Password updated successfully"
  const PasswordFailed := "Failed to update password"

  /** The client-side minimum length of a new password, in UTF-16 units. */
  const MinPasswordLength := 6

  /** The name form's part of the state. */
  predicate SameNameForm(a: View, b: View) {
    && a.name == b.name
    && a.nameError == b.nameError
    && a.nameSuccess == b.nameSuccess
    && a.isNameLoading == b.isNameLoading
  }

  /** The password form's part of the state. */
  predicate SamePasswordForm(a: View, b: View) {
    && a.oldPassword == b.oldPassword
    && a.newPassword == b.newPassword
    && a.passwordError == b.passwordError
    && a.passwordSuccess == b.passwordSuccess
    && a.isPasswordLoading == b.isPasswordLoading
  }

  /** The four feedback messages. */
  predicate SameMessages(a: View, b: View) {
    && a.nameError == b.nameError && a.nameSuccess == b.nameSuccess
    && a.passwordError == b.passwordError && a.passwordSuccess == b.passwordSuccess
  }

  /** The two loading flags. */
  predicate SameLoading(a: View, b: View) {
    a.isNameLoading == b.isNameLoading && a.isPasswordLoading == b.isPasswordLoading
  }

  /** The three input fields. */
  predicate SameFields(a: View, b: View) {
    a.name == b.name && a.oldPassword == b.oldPassword && a.newPassword == b.newPassword
  }

  /** The state on mount; `userName` is `user?.name`. */
  function Init(userName: Option<string>): (v: View)
    ensures !v.editMode && !v.isNameLoading && !v.isPasswordLoading
    ensures v.name == OrElse(userName, "")
    ensures v.oldPassword == "" && v.newPassword == ""
    ensures v.nameError.None? && v.nameSuccess.None?
    ensures v.passwordError.None? && v.passwordSuccess.None?
  {
    View(false, false, false, OrElse(userName, ""), None, None, "", "", None, None)
  }

  /** `handleEditClick`: enter edit mode with the name seeded from the user
      and both password fields emptied; messages and flags are untouched. */
  function EditClick(v: View, userName: Option<string>): (r: View)
    ensures r.editMode
    ensures r.name == OrElse(userName, "")
    ensures r.oldPassword == "" && r.newPassword == ""
    ensures SameMessages(v, r) && SameLoading(v, r)
  {
    v.(editMode := true, name := OrElse(userName, ""), oldPassword := "", newPassword := "")
  }

  /** `handleCancel`: leave edit mode and clear all four messages; fields and
      flags are untouched. */
  function Cancel(v: View): (r: View)
    ensures !r.editMode
    ensures r.nameError.None? && r.nameSuccess.None?
    ensures r.passwordError.None? && r.passwordSuccess.None?
    ensures SameFields(v, r) && SameLoading(v, r)
  {
    v.(editMode := false, nameError := None, nameSuccess := None,
       passwordError := None, passwordSuccess := None)
  }

  /** The callback of the `setTimeout` scheduled by a successful name
      change: `setEditMode(false)`. */
  function CloseEdit(v: View): (r: View)
    ensures !r.editMode
    ensures SameNameForm(v, r) && SamePasswordForm(v, r)
  {
    v.(editMode := false)
  }

  /** The synchronous part of `handleEditProfileSubmit`. The loading flag is
      raised first; a name that `trim()` empties sets the error and lowers the
      flag again without calling the store. */
  function SubmitNameStart(v: View): (r: Started)
    ensures r.call.NoCall? <==> IsBlank(v.name)
    ensures !r.call.UpdatePasswordCall?
    ensures r.call.NoCall? ==> r.view.nameError == Some(NameRequired) && !r.view.isNameLoading
    ensures r.call.UpdateProfileCall? ==>
        && r.call.name == v.name
        && r.view.isNameLoading
        && r.view.nameError == v.nameError
    ensures r.view.name == v.name && r.view.nameSuccess == v.nameSuccess
    ensures r.view.editMode == v.editMode && SamePasswordForm(v, r.view)
  {
    TrimEmptyIffBlank(v.name);
    var loading := v.(isNameLoading := true);
    if Trim(loading.name) == "" then
      Started(loading.(nameError := Some(NameRequired), isNameLoading := false), NoCall)
    else
      Started(loading, UpdateProfileCall(loading.name))
  }

  /** The part of `handleEditProfileSubmit` after `await updateProfile(name)`.
      Success sets the success message and schedules one close-edit timer;
      failure shows the server's message or the fallback; `finally` lowers the
      loading flag. */
  function SubmitNameSettle(v: View, outcome: Settled): (r: NameSettled)
    ensures !r.view.isNameLoading
    ensures r.closeTimers == (if outcome.Resolved? then 1 else 0)
    ensures outcome.Resolved? ==>
        r.view.nameSuccess == Some(ProfileUpdated) && r.view.nameError == v.nameError
    ensures outcome.Rejected? ==>
        && r.view.nameError == Some(OrElse(outcome.message, NameFailed))
        && r.view.nameSuccess == v.nameSuccess
    ensures r.view.name == v.name && r.view.editMode == v.editMode
    ensures SamePasswordForm(v, r.view)
  {
    match outcome
    case Resolved =>
      NameSettled(v.(nameSuccess := Some(ProfileUpdated), isNameLoading := false), 1)
    case Rejected(message) =>
      NameSettled(v.(nameError := Some(OrElse(message, NameFailed)), isNameLoading := false), 0)
  }

  /** The length guard of `handlePasswordSubmit`, with `length` in UTF-16
      units. */
  predicate NewPasswordTooShort(newPassword: string) {
    newPassword == "" || Utf16Length(newPassword) < MinPasswordLength
  }

  /** The synchronous part of `handlePasswordSubmit`: the length guard runs
      first, then the old-password guard; only when both pass is the store
      called. */
  function SubmitPasswordStart(v: View): (r: Started)
    ensures !r.call.UpdateProfileCall?
    ensures NewPasswordTooShort(v.newPassword) ==>
        r.call.NoCall? && r.view.passwordError == Some(PasswordTooShort)
    ensures !NewPasswordTooShort(v.newPassword) && v.oldPassword == "" ==>
        r.call.NoCall? && r.view.passwordError == Some(OldPasswordRequired)
    ensures r.call.NoCall? ==> !r.view.isPasswordLoading
    ensures r.call.UpdatePasswordCall? <==>
        !NewPasswordTooShort(v.newPassword) && v.oldPassword != ""
    ensures r.call.UpdatePasswordCall? ==>
        && r.call == UpdatePasswordCall(v.oldPassword, v.newPassword)
        && r.view.isPasswordLoading
        && r.view.passwordError == v.passwordError
    ensures r.view.oldPassword == v.oldPassword && r.view.newPassword == v.newPassword
    ensures r.view.passwordSuccess == v.passwordSuccess
    ensures r.view.editMode == v.editMode && SameNameForm(v, r.view)
  {
    var loading := v.(isPasswordLoading := true);
    if NewPasswordTooShort(loading.newPassword) then
      Started(loading.(passwordError := Some(PasswordTooShort), isPasswordLoading := false), NoCall)
    else if loading.oldPassword == "" then
      Started(loading.(passwordError := Some(OldPasswordRequired), isPasswordLoading := false), NoCall)
    else
      Started(loading, UpdatePasswordCall(loading.oldPassword, loading.newPassword))
  }

  /** The part of `handlePasswordSubmit` after `await updatePassword(...)`.
      Success empties both fields, clears the error and sets the success
      message; failure keeps the fields and shows the server's message or the
      fallback; `finally` lowers the loading flag. Edit mode is untouched. */
  function SubmitPasswordSettle(v: View, outcome: Settled): (r: View)
    ensures !r.isPasswordLoading
    ensures outcome.Resolved? ==>
        && r.oldPassword == "" && r.newPassword == ""
        && r.passwordError.None?
        && r.passwordSuccess == Some(PasswordUpdated)
    ensures outcome.Rejected? ==>
        && r.passwordError == Some(OrElse(outcome.message, PasswordFailed))
        && r.oldPassword == v.oldPassword && r.newPassword == v.newPassword
        && r.passwordSuccess == v.passwordSuccess
    ensures r.editMode == v.editMode && SameNameForm(v, r)
  {
    match outcome
    case Resolved =>
      v.(passwordSuccess := Some(PasswordUpdated), oldPassword := "", newPassword := "",
         passwordError := None, isPasswordLoading := false)
    case Rejected(message) =>
      v.(passwordError := Some(OrElse(message, PasswordFailed)), isPasswordLoading := false)
  }

  /** The two forms are independent: starting a name submit and a password
      submit, in either order, gives the same state and the same calls. */
  lemma StartsCommute(v: View)
    ensures
      var n1 := SubmitNameStart(v);
      var p2 := SubmitPasswordStart(n1.view);
      var p1 := SubmitPasswordStart(v);
      var n2 := SubmitNameStart(p1.view);
      p2.view == n2.view && n1.call == n2.call && p1.call == p2.call
  {
    TrimEmptyIffBlank(v.name);
  }

  /** Settling a name call and a password call, in either order, gives the
      same state and schedules the same timers. */
  lemma SettlesCommute(v: View, nameOutcome: Settled, passwordOutcome: Settled)
    ensures
      var a := SubmitNameSettle(v, nameOutcome);
      var b := SubmitNameSettle(SubmitPasswordSettle(v, passwordOutcome), nameOutcome);
      && SubmitPasswordSettle(a.view, passwordOutcome) == b.view
      && a.closeTimers == b.closeTimers
  {
  }

  /** A password guard or settle never ends a name submission in flight, and
      a name guard or settle never ends a password submission in flight. */
  lemma FormsDoNotBlockEachOther(v: View, outcome: Settled)
    ensures SubmitPasswordStart(v).view.isNameLoading == v.isNameLoading
    ensures SubmitPasswordSettle(v, outcome).isNameLoading == v.isNameLoading
    ensures SubmitNameStart(v).view.isPasswordLoading == v.isPasswordLoading
    ensures SubmitNameSettle(v, outcome).view.isPasswordLoading == v.isPasswordLoading
  {
  }

  /** Cancel is idempotent, and entering edit mode then cancelling leaves the
      display mode with every message cleared. */
  lemma CancelIdempotent(v: View, userName: Option<string>)
    ensures Cancel(Cancel(v)) == Cancel(v)
    ensures Cancel(EditClick(v, userName)) == Cancel(v).(name := OrElse(userName, ""), oldPassword := "", newPassword := "")
  {
  }

  /** The length guard comes first: a new password "short" is blocked for its
      length whatever the old password is, empty or "abc123". */
  lemma LengthGuardFirst(v: View)
    requires v.newPassword == "short"
    ensures SubmitPasswordStart(v).call == NoCall
    ensures SubmitPasswordStart(v).view.passwordError == Some(PasswordTooShort)
  {
    assert Utf16Length("short") == 5;
  }

  /** `length` counts UTF-16 units: three characters outside the Basic
      Multilingual Plane pass the six-unit guard. */
  lemma AstralPasswordPassesLengthGuard(v: View)
    requires v.newPassword == "\U{1F600}\U{1F600}\U{1F600}" && v.oldPassword != ""
    ensures |v.newPassword| == 3
    ensures SubmitPasswordStart(v).call == UpdatePasswordCall(v.oldPassword, v.newPassword)
  {
    assert Utf16Length(v.newPassword) == 6;
  }

  /** A successful name change does not clear an earlier name error: after a
      failed submit followed by a successful one, both messages are set. */
  lemma SuccessKeepsStaleNameError(v: View, message: Option<string>)
    requires !IsBlank(v.name)
    ensures
      var failed := SubmitNameSettle(v, Rejected(message)).view;
      var ok := SubmitNameSettle(SubmitNameStart(failed).view, Resolved).view;
      ok.nameError == Some(OrElse(message, NameFailed)) && ok.nameSuccess == Some(ProfileUpdated)
  {
  }
}
