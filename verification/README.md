# Profile and password updates: controller and dashboard, in Dafny

This project models the two pieces of the authenticated profile flow that
have precise behaviour:

- **The user controller** (`backend/controller/user.controller.js`):
  `updateProfile` and `updatePassword` are pure functions from a user store
  (`map<UserId, UserRec>`), the caller's id and the request body to the new
  store, the response (`status`, `success`, `message`, optional `user`) and
  the list of awaited operations attempted (`findById`, `bcrypt.compare`,
  `bcrypt.hash`, `save`) in their order. bcrypt is a pair of functions
  passed in by the caller. The bcrypt contract, that a password matches its
  own hash, is the predicate `Sound`. Which awaited operations throw, and
  with which message, is the `faults` argument.
- **The dashboard page** (`frontend/src/pages/DashboardPage.jsx`): its
  `useState` fields are one immutable `View` record. Each handler is a
  transition. Each `async` submit is split into a start step (guards plus
  the session-store call) and a settle step (resolved, or rejected with an
  optional server message). The `setTimeout(() => setEditMode(false), 1000)`
  becomes a pending close-edit timer. `DashboardMachine` runs these
  transitions as an event machine and proves its invariant. `EndToEnd`
  connects the page's calls to the controller.

`JsValues` holds the JavaScript semantics the code depends on. A missing or
`null` value is `None`. Falsiness of a string means missing or `""`. `x || y`
is `OrElse`. `trim()` uses the whitespace set of ECMA-262. `length` counts
UTF-16 code units, so a character outside the Basic Multilingual Plane
counts 2.

Behaviour worth noting:
- The server's name check is plain falsiness. `" "` is accepted and stored
  verbatim. Only the page trims.
- Cancel aborts neither call. If Cancel can be clicked while a password
  call is pending, a failure of that call still writes its error into the
  page state. The password form is rendered only in edit mode, and reopening
  the editor clears no message, so the error appears when the editor is next
  opened (while the session store's `error` is set, which the error block
  also requires). Cancel is disabled while the store's `isLoading` is set, so
  this can happen only if the store does not raise that flag while the call
  is pending. The store's code is not part of this model, so the model lets
  the flag change at any time.
- bcrypt's contract alone does not make a replaced password stop matching.
  `OldPasswordStopsWorking` adds the assumption that a hash matches only its
  own password (`CollisionFree`). That is stronger than bcrypt: bcrypt reads
  only the first 72 bytes of a password. If the old and new passwords share
  those 72 bytes, the old one still authenticates after the change.

## Model

| member | source | states |
|---|---|---|
| `UserController.UpdateProfile` | backend/controller/user.controller.js:4-34 | Check order is name, then lookup, then save: the operations attempted are a prefix of `[findById, save]`. A falsy name gives 400 "Name is required" with nothing attempted (iff). A missing user gives 400 "User not found" (iff), after exactly the lookup. A thrown lookup gives a 500 with its message after only the lookup. A thrown save on a found user gives a 500 with its message. A 400 carries only these two texts. Success happens iff the name is truthy, the user exists and nothing throws. On success only that user's name changes, and the response is 200 "Profile updated successfully" with the user, password unset. Every failure leaves the store unchanged. |
| `UserController.UpdatePassword` | backend/controller/user.controller.js:36-76 | Check order is presence, lookup, compare, hash, save (a prefix of that pipeline). Either password falsy gives 400 "Old password and new password are required" with nothing attempted (iff). A missing user gives 400 "User not found" after exactly the lookup (iff). A failed compare gives 400 "Invalid old password" after exactly the lookup and the compare, with no write (iff). A 400 carries only these three texts. A throw from the lookup, the compare, the hash or the save gives a 500 with that error's message, with the operations up to it attempted. Success happens iff both are present, the user exists, compare holds and nothing throws. It stores `hash(newPassword)` and changes nothing else, and the response is 200 "Password updated successfully". The response never carries a password. |
| `UserController.Serialize` | backend/controller/user.controller.js:25-28 | The serialized user has every stored field and no password. |
| `UserController.NewPasswordAuthenticates` | backend/controller/user.controller.js:61-63 | With bcrypt's contract, after a successful change the new password matches the stored hash. |
| `UserController.PasswordChangeChains` | backend/controller/user.controller.js:54-71 | After changing p to q, a request with old password q passes the compare and succeeds. |
| `UserController.OldPasswordStopsWorking` | backend/controller/user.controller.js:54-63 | With a collision-free hash, after changing p to q (p ≠ q), p no longer authenticates. Replaying p is rejected with "Invalid old password" and no write. |
| `UserController.UpdateProfileIdempotent` | backend/controller/user.controller.js:20-21 | Repeating a successful name change leaves the store as it is. |
| `UserController.ProfileAndPasswordCommute` | backend/controller/user.controller.js:20-63 | A successful name change and a successful password change of the same user reach the same store in either order, up to the salted hash (the model's hash is deterministic). |
| `UserController.WhitespaceNameAccepted` | backend/controller/user.controller.js:8-20 | The name `" "` passes the server's check and is stored verbatim. |
| `UserController.ShortNewPasswordAccepted` | backend/controller/user.controller.js:40-63 | The server has no minimum length: a one-character new password is accepted. |
| `JsValues.TrimStart` | frontend/src/pages/DashboardPage.jsx:46 | Drops exactly the leading whitespace: the result is a suffix of the input, the dropped prefix is blank, and the result does not start with whitespace. |
| `JsValues.TrimEnd` | frontend/src/pages/DashboardPage.jsx:46 | Drops exactly the trailing whitespace: the result is a prefix of the input, the dropped suffix is blank, and the result does not end with whitespace. |
| `JsValues.Trim` | frontend/src/pages/DashboardPage.jsx:46 | `name.trim()` is a slice of the name with blank text on both sides, and it neither starts nor ends with whitespace. |
| `JsValues.TrimEmptyIffBlank` | frontend/src/pages/DashboardPage.jsx:46 | `name.trim()` is empty iff every character is JavaScript whitespace. |
| `JsValues.Utf16Length` | frontend/src/pages/DashboardPage.jsx:66 | `length` is between the code-point count and twice it. It equals the code-point count iff every character is in the Basic Multilingual Plane. |
| `JsValues.Utf16Single` | frontend/src/pages/DashboardPage.jsx:66 | One character's `length` is 2 if it lies above the Basic Multilingual Plane and 1 otherwise. |
| `JsValues.Utf16Append` | frontend/src/pages/DashboardPage.jsx:66 | `length` is additive over concatenation. With `Utf16Single`, this fixes `length` as the code-point count plus the number of characters above the Basic Multilingual Plane. |
| `JsValues.OrElse` | frontend/src/pages/DashboardPage.jsx:56 | JavaScript's defaulting `or` gives the value itself when it is truthy and the fallback otherwise. |
| `DashboardPage.Init` | frontend/src/pages/DashboardPage.jsx:11-23 | On mount: display mode, nothing loading, no messages, empty password fields, and the name is the user's name or `""`. |
| `DashboardPage.EditClick` | frontend/src/pages/DashboardPage.jsx:27-32 | Enters edit mode and seeds the name (or `""`). Empties both password fields. Leaves messages and loading flags alone. |
| `DashboardPage.Cancel` | frontend/src/pages/DashboardPage.jsx:34-40 | Leaves edit mode and clears all four messages. Leaves fields and loading flags alone. |
| `DashboardPage.CloseEdit` | frontend/src/pages/DashboardPage.jsx:54 | The timer callback only leaves edit mode. |
| `DashboardPage.SubmitNameStart` | frontend/src/pages/DashboardPage.jsx:45-52 | No call is issued iff the name is blank after trimming. Then the error is "Name is required" and loading ends false. Otherwise it calls `updateProfile(name)` with loading on. The password form is untouched. |
| `DashboardPage.SubmitNameSettle` | frontend/src/pages/DashboardPage.jsx:51-59 | Resolved: sets "Profile updated successfully" and schedules exactly one close timer. Rejected: the error is the server message or "Failed to update name", and no timer is scheduled. Edit mode is unchanged, loading ends false, and the password form is untouched. |
| `DashboardPage.SubmitPasswordStart` | frontend/src/pages/DashboardPage.jsx:65-77 | The length guard (empty, or under 6 UTF-16 units) fires first with its message, then the old-password guard. Neither calls the store, and both end with loading false. The store is called iff both pass, with the two fields and loading on. The name form is untouched. |
| `DashboardPage.SubmitPasswordSettle` | frontend/src/pages/DashboardPage.jsx:76-88 | Resolved: empties both fields, clears the error and sets the success text. Rejected: keeps the fields, and the error is the server message or "Failed to update password". Loading ends false, and edit mode and the name form are untouched. |
| `DashboardPage.StartsCommute` | frontend/src/pages/DashboardPage.jsx:43-89 | Starting a name submit and a password submit in either order gives the same state and calls. |
| `DashboardPage.SettlesCommute` | frontend/src/pages/DashboardPage.jsx:51-88 | Settling the two calls in either order gives the same state and timers. |
| `DashboardPage.FormsDoNotBlockEachOther` | frontend/src/pages/DashboardPage.jsx:45-87 | One form's steps never change the other form's loading flag. |
| `DashboardPage.CancelIdempotent` | frontend/src/pages/DashboardPage.jsx:27-40 | Cancel is idempotent. Edit then Cancel equals Cancel with freshly seeded fields. |
| `DashboardPage.LengthGuardFirst` | frontend/src/pages/DashboardPage.jsx:66-70 | A new password "short" is blocked for length, with no call, whatever the old password is. |
| `DashboardPage.AstralPasswordPassesLengthGuard` | frontend/src/pages/DashboardPage.jsx:66 | Three emoji (3 characters, 6 UTF-16 units) pass the length guard. |
| `DashboardPage.SuccessKeepsStaleNameError` | frontend/src/pages/DashboardPage.jsx:53-56 | A success after a failed name submit leaves the old error set beside the success text. |
| `DashboardMachine.Step` | frontend/src/pages/DashboardPage.jsx:106-258 | An event the page does not offer changes nothing. That includes Cancel while the store is loading. Cancel aborts neither call nor any timer. |
| `DashboardMachine.MountInv` | frontend/src/pages/DashboardPage.jsx:11-23 | The mounted page satisfies the invariant. |
| `DashboardMachine.StepInv` | frontend/src/pages/DashboardPage.jsx:27-89 | Every step keeps the invariant: a loading flag is up iff its call is in flight, in-flight calls carry guarded values, and success texts are the fixed ones. |
| `DashboardMachine.RunInv` | frontend/src/pages/DashboardPage.jsx:27-89 | Every event sequence keeps the invariant. |
| `DashboardMachine.ReachableInv` | frontend/src/pages/DashboardPage.jsx:11-89 | Every machine reachable from a mount satisfies the invariant. |
| `DashboardMachine.CallEndsOnlyBySettle` | frontend/src/pages/DashboardPage.jsx:186 | While a call is in flight, only its settle ends it. A second submit cannot replace it. |
| `DashboardMachine.NameChangeClosesAfterTimer` | frontend/src/pages/DashboardPage.jsx:51-58 | Submit, resolve, tick: the success text appears, edit mode stays on until the timer fires, and the timer then closes it. |
| `DashboardMachine.BlankNameBlockedLocally` | frontend/src/pages/DashboardPage.jsx:46-50 | A blank name issues no call, shows "Name is required" and is not loading. |
| `DashboardMachine.LateFailureKeptAfterCancel` | frontend/src/pages/DashboardPage.jsx:27-88 | If Cancel is clicked while a password call is pending, which requires the store's `isLoading` to be down, Cancel clears the error but aborts nothing. The call's later failure writes its error while edit mode is off, and the error is there when the editor is reopened. |
| `DashboardMachine.CancelDisabledWhileStoreLoading` | frontend/src/pages/DashboardPage.jsx:253-259 | While the store's `isLoading` is set, clicking Cancel changes nothing. |
| `DashboardMachine.StaleTimerClosesReopenedEditor` | frontend/src/pages/DashboardPage.jsx:54 | A pending close timer closes an editor reopened after it was scheduled. |
| `EndToEnd.SettleWith` | frontend/src/pages/DashboardPage.jsx:55-56 | A call resolves iff the server's envelope reports success. Otherwise it is rejected with the envelope's message. |
| `EndToEnd.NameCallPassesPresenceCheck` | backend/controller/user.controller.js:8-12 | A name call the page has in flight is never refused for a missing name. The server goes on to the lookup. |
| `EndToEnd.PasswordCallPassesPresenceCheck` | backend/controller/user.controller.js:40-45 | A password call in flight is never refused for missing passwords. |
| `EndToEnd.WrongOldPasswordShown` | backend/controller/user.controller.js:54-59 | A wrong old password writes nothing. The page shows "Invalid old password" and keeps both password fields. |
| `EndToEnd.PasswordChangeCompletes` | backend/controller/user.controller.js:61-71 | A correct old password leads to the new password authenticating, both fields emptied and the success text shown. |

## Left out

- Persistence: the Mongoose model is not part of this model. `findById` and `save` are a map lookup and a map update. A validation or connection failure in `save` is a `Save` fault. Schema fields other than name, email, password, createdAt and lastLogin, and any timestamps that `save` refreshes, are not modelled.
- bcrypt internals: the random salt and the cost factor 10 are not modelled. `hash` is a deterministic function, and `compare` is related to it only by `Sound` (and by `CollisionFree` where stated).
- Request bodies: a field is either missing or a string. Numbers, objects and arrays in the JSON body are not modelled. The body is always an object, so the destructuring at lines 5 and 37, which sits outside `try`, never throws.
- Routing and the token middleware (`backend/routes/user.route.js`): `userId` is an input.
- Concurrency: each request runs as one atomic step, so the race between two interleaved password changes (both pass the compare, the last `save` wins) is not modelled.
- `console.log` in the `catch` blocks is not modelled.
- The session store (`useAuthStore`) is outside the model, and `logout` (line 25) is not modelled. Its `isLoading` flag, which disables Cancel (line 258), is modelled as a flag that the store sets by an event of its own at any time, so the model allows every order the store could produce. `EndToEnd` assumes the store sends the call's arguments as the body and settles on the envelope's `success`.
- Rendering: the markup, animation and styles from line 91 on are not modelled, and neither are the date formatting and the message-display conditions (lines 173-177 and 230-239). The model keeps only which events the page offers: the edit icon in display mode, the forms and Cancel in edit mode, and the submit buttons disabled while loading.
- Strings holding a lone UTF-16 surrogate are outside the model. A Dafny `char` is a Unicode scalar value, so such a string cannot be written. JavaScript would count a lone surrogate as 1 unit of `length`, and `trim()` would keep it.
- Browser constraint validation from the `required` and `minLength={6}` input attributes is not modelled. The handlers' own guards are stated for every field value.
- React scheduling: the state updates of one synchronous segment apply together, as their final values. Timer durations, unmounting and real async interleaving are reduced to discrete start, settle and timer events.
