/**
  The dashboard page as an event machine. Besides the component state it
  records the session-store call each form has in flight, the number of
  close-edit timers still pending, and the session store's own `isLoading`
  flag. The store is not part of this model, so that flag changes only by an
  event of its own, at any time. An event that the page does not offer in the
  current state (the edit icon in edit mode, a disabled submit or Cancel
  button, a settle with no call outstanding, a tick with no timer) leaves the
  machine as it is.
 */
module DashboardMachine {
  import opened JsValues
  import opened DashboardPage

  /** The component state, the call each form is awaiting (`NoCall` when
      none), the pending `setTimeout(() => setEditMode(false), 1000)`
      callbacks, and the store's `isLoading`, which disables Cancel. */
  datatype Machine = Machine(view: View, nameCall: Call, passwordCall: Call, closeTimers: nat, storeLoading: bool)

  datatype Event =
    | ClickEdit(userName: Option<string>)
    | TypeName(text: string)
    | TypeOldPassword(text: string)
    | TypeNewPassword(text: string)
    | ClickCancel
    | SubmitName
    | SubmitPassword
    | NameCallSettled(outcome: Settled)
    | PasswordCallSettled(outcome: Settled)
    | CloseTimerFires
    | StoreLoadingSet(loading: bool)

  /** The page on mount, with the store's `isLoading` as the store has it. */
  function Mount(userName: Option<string>, storeLoading: bool): Machine {
    Machine(Init(userName), NoCall, NoCall, 0, storeLoading)
  }

  /** Whether the page offers `e`: the edit icon is shown only in display
      mode, the forms and the cancel button only in edit mode, a submit
      button is disabled while its form is loading, and Cancel is disabled
      while the store is loading. */
  predicate Enabled(m: Machine, e: Event) {
    match e
    case ClickEdit(_) => !m.view.editMode
    case TypeName(_) => m.view.editMode
    case TypeOldPassword(_) => m.view.editMode
    case TypeNewPassword(_) => m.view.editMode
    case ClickCancel => m.view.editMode && !m.storeLoading
    case SubmitName => m.view.editMode && !m.view.isNameLoading
    case SubmitPassword => m.view.editMode && !m.view.isPasswordLoading
    case NameCallSettled(_) => !m.nameCall.NoCall?
    case PasswordCallSettled(_) => !m.passwordCall.NoCall?
    case CloseTimerFires => m.closeTimers > 0
    case StoreLoadingSet(_) => true
  }

  /** Applies one event the page offers. */
  function Apply(m: Machine, e: Event): Machine
    requires Enabled(m, e)
  {
    match e
    case ClickEdit(userName) => m.(view := EditClick(m.view, userName))
    case TypeName(text) => m.(view := m.view.(name := text))
    case TypeOldPassword(text) => m.(view := m.view.(oldPassword := text))
    case TypeNewPassword(text) => m.(view := m.view.(newPassword := text))
    case ClickCancel => m.(view := Cancel(m.view))
    case SubmitName =>
      var s := SubmitNameStart(m.view);
      m.(view := s.view, nameCall := s.call)
    case SubmitPassword =>
      var s := SubmitPasswordStart(m.view);
      m.(view := s.view, passwordCall := s.call)
    case NameCallSettled(outcome) =>
      var s := SubmitNameSettle(m.view, outcome);
      m.(view := s.view, nameCall := NoCall, closeTimers := m.closeTimers + s.closeTimers)
    case PasswordCallSettled(outcome) =>
      m.(view := SubmitPasswordSettle(m.view, outcome), passwordCall := NoCall)
    case CloseTimerFires =>
      m.(view := CloseEdit(m.view), closeTimers := m.closeTimers - 1)
    case StoreLoadingSet(loading) => m.(storeLoading := loading)
  }

  /** One step: an event the page does not offer changes nothing, and
      Cancel aborts no call and no timer. */
  function Step(m: Machine, e: Event): (r: Machine)
    ensures !Enabled(m, e) ==> r == m
    ensures e.ClickCancel? ==>
        r.nameCall == m.nameCall && r.passwordCall == m.passwordCall && r.closeTimers == m.closeTimers
  {
    if Enabled(m, e) then Apply(m, e) else m
  }

  /** The machine after a sequence of events. */
  function Run(m: Machine, events: seq<Event>): Machine
    decreases |events|
  {
    if events == [] then m else Run(Step(m, events[0]), events[1..])
  }

  /** The invariant of every reachable machine: a loading flag is up exactly
      while its form awaits a call; a name call in flight carries a name that
      is not blank; a password call in flight carries a non-empty old
      password and a new one of at least six UTF-16 units; a success message,
      when set, is the fixed success text. */
  predicate Inv(m: Machine) {
    && (m.view.isNameLoading <==> m.nameCall.UpdateProfileCall?)
    && !m.nameCall.UpdatePasswordCall?
    && (m.view.isPasswordLoading <==> m.passwordCall.UpdatePasswordCall?)
    && !m.passwordCall.UpdateProfileCall?
    && (m.nameCall.UpdateProfileCall? ==> !IsBlank(m.nameCall.name))
    && (m.passwordCall.UpdatePasswordCall? ==>
          m.passwordCall.oldPassword != "" && !NewPasswordTooShort(m.passwordCall.newPassword))
    && (m.view.nameSuccess.Some? ==> m.view.nameSuccess.value == ProfileUpdated)
    && (m.view.passwordSuccess.Some? ==> m.view.passwordSuccess.value == PasswordUpdated)
  }

  lemma MountInv(userName: Option<string>, storeLoading: bool)
    ensures Inv(Mount(userName, storeLoading))
  {
  }

  /** Every step keeps the invariant. */
  lemma StepInv(m: Machine, e: Event)
    requires Inv(m)
    ensures Inv(Step(m, e))
  {
  }

  /** Every run keeps the invariant. */
  lemma {:induction false} RunInv(m: Machine, events: seq<Event>)
    requires Inv(m)
    ensures Inv(Run(m, events))
    decreases |events|
  {
    if events != [] {
      StepInv(m, events[0]);
      RunInv(Step(m, events[0]), events[1..]);
    }
  }

  /** A machine some sequence of events leads to from a mount. */
  ghost predicate Reachable(m: Machine) {
    exists userName, storeLoading, events :: m == Run(Mount(userName, storeLoading), events)
  }

  lemma ReachableInv(m: Machine)
    requires Reachable(m)
    ensures Inv(m)
  {
    var userName, storeLoading, events :| m == Run(Mount(userName, storeLoading), events);
    MountInv(userName, storeLoading);
    RunInv(Mount(userName, storeLoading), events);
  }

  /** At most one call per form: while a form's call is in flight only its
      settle ends it; every other event, a second submit included, leaves
      the awaited call in place. */
  lemma CallEndsOnlyBySettle(m: Machine, e: Event)
    requires Inv(m)
    ensures m.nameCall.UpdateProfileCall? && !e.NameCallSettled? ==> Step(m, e).nameCall == m.nameCall
    ensures m.passwordCall.UpdatePasswordCall? && !e.PasswordCallSettled? ==> Step(m, e).passwordCall == m.passwordCall
  {
  }

  /** A successful name change: the success message appears, edit mode stays
      on until the timer fires, and the timer then closes it. */
  lemma NameChangeClosesAfterTimer(m: Machine)
    requires m.view.editMode && !m.view.isNameLoading && !IsBlank(m.view.name)
    ensures
      var started := Step(m, SubmitName);
      var settled := Step(started, NameCallSettled(Resolved));
      var closed := Step(settled, CloseTimerFires);
      && started.nameCall == UpdateProfileCall(m.view.name)
      && settled.view.nameSuccess == Some(ProfileUpdated)
      && settled.view.editMode
      && settled.closeTimers == m.closeTimers + 1
      && !closed.view.editMode
      && closed.closeTimers == m.closeTimers
  {
    assert Enabled(m, SubmitName);
    var started := Step(m, SubmitName);
    var s := SubmitNameStart(m.view);
    assert started.view == s.view && started.nameCall == s.call && started.closeTimers == m.closeTimers;
    assert Enabled(started, NameCallSettled(Resolved));
    var settled := Step(started, NameCallSettled(Resolved));
    var n := SubmitNameSettle(s.view, Resolved);
    assert settled.view == n.view && settled.closeTimers == m.closeTimers + 1;
    assert Enabled(settled, CloseTimerFires);
    var closed := Step(settled, CloseTimerFires);
    assert closed.view == CloseEdit(n.view) && closed.closeTimers == m.closeTimers;
  }

  /** A name submit with a blank name issues no call and shows the error. */
  lemma BlankNameBlockedLocally(m: Machine)
    requires Inv(m) && m.view.editMode && !m.view.isNameLoading && IsBlank(m.view.name)
    ensures Step(m, SubmitName).nameCall == NoCall
    ensures Step(m, SubmitName).view.nameError == Some(NameRequired)
    ensures !Step(m, SubmitName).view.isNameLoading
  {
  }

  /** Cancel does not abort a password call: its late failure is still
      written to the state after Cancel has cleared the messages and left edit
      mode. The password form is not rendered in display mode, so the message
      appears once the editor is reopened, since opening it clears no
      message. Cancel is clickable during the call only while the store's
      `isLoading` is down, so this happens only if the store does not raise
      that flag while the call is pending. */
  lemma LateFailureKeptAfterCancel(m: Machine, message: Option<string>, userName: Option<string>)
    requires Inv(m) && m.view.editMode && !m.storeLoading && m.passwordCall.UpdatePasswordCall?
    ensures
      var cancelled := Step(m, ClickCancel);
      var settled := Step(cancelled, PasswordCallSettled(Rejected(message)));
      var reopened := Step(settled, ClickEdit(userName));
      && cancelled.view.passwordError.None?
      && !settled.view.editMode
      && settled.view.passwordError == Some(OrElse(message, PasswordFailed))
      && reopened.view.editMode
      && reopened.view.passwordError == Some(OrElse(message, PasswordFailed))
  {
  }

  /** While the store is loading, Cancel is disabled: clicking it changes
      nothing, so the editor stays open and its messages stay. */
  lemma CancelDisabledWhileStoreLoading(m: Machine)
    requires m.storeLoading
    ensures Step(m, ClickCancel) == m
  {
  }

  /** A close timer left over from an earlier name change closes the editor
      the user has since reopened. */
  lemma StaleTimerClosesReopenedEditor(m: Machine, userName: Option<string>)
    requires !m.view.editMode && m.closeTimers > 0
    ensures Step(m, ClickEdit(userName)).view.editMode
    ensures !Step(Step(m, ClickEdit(userName)), CloseTimerFires).view.editMode
  {
  }
}
