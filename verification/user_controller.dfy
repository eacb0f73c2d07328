/**
  The two request handlers of the user controller, `updateProfile` and
  `updatePassword`, as pure functions from a user store and a request to the
  new store and the JSON envelope sent back.

  The document store (`findById`, `save`) becomes a map from user id to
  record. bcrypt becomes a pair of functions passed in by the caller; the one
  fact the handlers rely on, that a password matches its own hash, is the
  predicate `Sound`. Any of the four awaited operations may throw; which ones
  do is the `faults` argument, and each handler reports the operations it
  attempted, in order, so that the order of its checks can be stated.
 */
module UserController {
  import opened JsValues

  type UserId = string

  /** A user document as stored: `password` holds the bcrypt hash. */
  datatype UserRec = UserRec(
    name: string,
    email: string,
    password: string,
    createdAt: int,
    lastLogin: int)

  type Store = map<UserId, UserRec>

  /** A user document as serialized into a response, `{...user._doc,
      password: undefined}`: every stored field, with the password unset. */
  datatype UserView = UserView(
    id: UserId,
    name: string,
    email: string,
    password: Option<string>,
    createdAt: int,
    lastLogin: int)

  /** The HTTP status and the JSON envelope `{success, message, user?}`. */
  datatype Response = Response(
    status: nat,
    success: bool,
    message: string,
    user: Option<UserView>)

  /** The awaited operations a handler may perform. */
  datatype Op = FindById | BcryptCompare | BcryptHash | Save

  /** The operations that throw, each with the `message` of its error. */
  type Faults = map<Op, string>

  /** bcrypt's `hash` (salt and cost factor abstracted away) and `compare`. */
  datatype Bcrypt = Bcrypt(hash: string -> string, compare: (string, string) -> bool)

  /** The bcrypt contract: every password matches its own hash. */
  ghost predicate Sound(b: Bcrypt) {
    forall p :: b.compare(p, b.hash(p))
  }

  /** A stronger assumption than bcrypt guarantees: a hash matches only the
      password it was made from. bcrypt reads only the first 72 bytes of a
      password, so two passwords sharing those bytes match the same hash.
      Used only to show that the old password stops working. */
  ghost predicate CollisionFree(b: Bcrypt) {
    forall p, q :: b.compare(q, b.hash(p)) ==> q == p
  }

  /** The request bodies; an absent or `null` field is `None`. */
  datatype ProfileBody = ProfileBody(name: Option<string>)
  datatype PasswordBody = PasswordBody(oldPassword: Option<string>, newPassword: Option<string>)

  /** What a handler leaves behind: the store, the response and the awaited
      operations it attempted, in order. */
  datatype Handled = Handled(store: Store, response: Response, ops: seq<Op>)

  const NameRequired := "Name is required"
  const UserNotFound := "User not found"
  const PasswordsRequired := "Old password and new password are required"
  const InvalidOldPassword := "Invalid old password"
  const ProfileUpdated := "Profile updated successfully"
  const PasswordUpdated := "Password updated successfully"

  /** The operations of each handler in the order its code awaits them. */
  const ProfilePipeline: seq<Op> := [FindById, Save]
  const PasswordPipeline: seq<Op> := [FindById, BcryptCompare, BcryptHash, Save]

  /** A 400 answer: validation failure or missing user. */
  function Reject(message: string): Response {
    Response(400, false, message, None)
  }

  /** A 500 answer from the `catch` block: the thrown error's message. */
  function Crash(message: string): Response {
    Response(500, false, message, None)
  }

  /** `{...user._doc, password: undefined}`. */
  function Serialize(id: UserId, u: UserRec): (v: UserView)
    ensures v.password.None?
    ensures v.id == id && v.name == u.name && v.email == u.email
    ensures v.createdAt == u.createdAt && v.lastLogin == u.lastLogin
  {
    UserView(id, u.name, u.email, None, u.createdAt, u.lastLogin)
  }

  /** The 200 answer carrying the serialized user. */
  function Accept(message: string, id: UserId, u: UserRec): Response {
    Response(200, true, message, Some(Serialize(id, u)))
  }

  /** `ops` is an initial part of `pipeline`: no operation ran out of order. */
  predicate IsPrefixOf(ops: seq<Op>, pipeline: seq<Op>) {
    |ops| <= |pipeline| && ops == pipeline[..|ops|]
  }

  /** The store keeps its ids and every record other than `id`'s. */
  predicate OthersUnchanged(s: Store, s': Store, id: UserId) {
    && s'.Keys == s.Keys
    && forall k :: k in s && k != id ==> s'[k] == s[k]
  }

  /** `b` differs from `a` at most in its name. */
  predicate SameButName(a: UserRec, b: UserRec) {
    a.email == b.email && a.password == b.password
    && a.createdAt == b.createdAt && a.lastLogin == b.lastLogin
  }

  /** `b` differs from `a` at most in its password. */
  predicate SameButPassword(a: UserRec, b: UserRec) {
    a.name == b.name && a.email == b.email
    && a.createdAt == b.createdAt && a.lastLogin == b.lastLogin
  }

  /** The guarantees shared by both handlers: the envelope's shape, the order
      of the awaited operations, no password in any response, no write on any
      failure, and a 500 exactly when the last attempted operation threw. */
  predicate WellFormed(store: Store, faults: Faults, pipeline: seq<Op>, out: Handled) {
    var r := out.response;
    && IsPrefixOf(out.ops, pipeline)
    && (r.status == 200 || r.status == 400 || r.status == 500)
    && (r.success <==> r.status == 200)
    && (r.success <==> r.user.Some?)
    && (r.user.Some? ==> r.user.value.password.None?)
    && (r.success ==> out.ops == pipeline)
    && (!r.success ==> out.store == store)
    && out.store.Keys == store.Keys
    && (forall i :: 0 <= i < |out.ops| - 1 ==> out.ops[i] !in faults)
    && (r.status == 500 <==> out.ops != [] && out.ops[|out.ops| - 1] in faults)
    && (r.status == 500 ==> r.message == faults[out.ops[|out.ops| - 1]])
  }

  /** `updateProfile`: the name must be truthy, the user must exist, then the
      name is written and the user is returned without its password. */
  function UpdateProfile(store: Store, userId: UserId, body: ProfileBody, faults: Faults): (out: Handled)
    ensures WellFormed(store, faults, ProfilePipeline, out)
    ensures out.response == Reject(NameRequired) <==> Falsy(body.name)
    ensures Falsy(body.name) ==> out.ops == []
    ensures out.response.status == 400 ==> out.response.message in {NameRequired, UserNotFound}
    ensures out.response == Reject(UserNotFound)
        <==> !Falsy(body.name) && FindById !in faults && userId !in store
    ensures out.response == Reject(UserNotFound) ==> out.ops == [FindById]
    ensures !Falsy(body.name) && FindById in faults ==>
        out.response == Crash(faults[FindById]) && out.ops == [FindById]
    ensures !Falsy(body.name) && FindById !in faults && userId in store && Save in faults ==>
        out.response == Crash(faults[Save]) && out.ops == ProfilePipeline
    ensures out.response.success
        <==> !Falsy(body.name) && userId in store && FindById !in faults && Save !in faults
    ensures out.response.success ==>
        && OthersUnchanged(store, out.store, userId)
        && out.store[userId].name == body.name.value
        && SameButName(store[userId], out.store[userId])
        && out.response.message == ProfileUpdated
        && out.response.user == Some(Serialize(userId, out.store[userId]))
  {
    if Falsy(body.name) then
      Handled(store, Reject(NameRequired), [])
    else if FindById in faults then
      Handled(store, Crash(faults[FindById]), [FindById])
    else if userId !in store then
      Handled(store, Reject(UserNotFound), [FindById])
    else if Save in faults then
      Handled(store, Crash(faults[Save]), ProfilePipeline)
    else
      var user := store[userId].(name := body.name.value);
      Handled(store[userId := user], Accept(ProfileUpdated, userId, user), ProfilePipeline)
  }

  /** The presence check of `updatePassword`: both passwords are truthy. */
  predicate PasswordsGiven(body: PasswordBody) {
    !Falsy(body.oldPassword) && !Falsy(body.newPassword)
  }

  /** `updatePassword` has passed its presence check, found the user and
      matched the old password without a throw. */
  predicate OldPasswordVerified(bcrypt: Bcrypt, store: Store, userId: UserId, body: PasswordBody, faults: Faults) {
    && PasswordsGiven(body)
    && FindById !in faults && userId in store && BcryptCompare !in faults
    && bcrypt.compare(body.oldPassword.value, store[userId].password)
  }

  /** `updatePassword`: both passwords must be truthy, the user must exist, the
      old password must match the stored hash, then the new password's hash
      is written. */
  function UpdatePassword(bcrypt: Bcrypt, store: Store, userId: UserId, body: PasswordBody, faults: Faults): (out: Handled)
    ensures WellFormed(store, faults, PasswordPipeline, out)
    ensures out.response == Reject(PasswordsRequired)
        <==> Falsy(body.oldPassword) || Falsy(body.newPassword)
    ensures !PasswordsGiven(body) ==> out.ops == []
    ensures out.response.status == 400 ==>
        out.response.message in {PasswordsRequired, UserNotFound, InvalidOldPassword}
    ensures out.response == Reject(UserNotFound)
        <==> PasswordsGiven(body) && FindById !in faults && userId !in store
    ensures out.response == Reject(UserNotFound) ==> out.ops == [FindById]
    ensures out.response == Reject(InvalidOldPassword)
        <==> PasswordsGiven(body) && FindById !in faults && userId in store && BcryptCompare !in faults
             && !bcrypt.compare(body.oldPassword.value, store[userId].password)
    ensures out.response == Reject(InvalidOldPassword) ==> out.ops == PasswordPipeline[..2]
    ensures PasswordsGiven(body) && FindById in faults ==>
        out.response == Crash(faults[FindById]) && out.ops == [FindById]
    ensures PasswordsGiven(body) && FindById !in faults && userId in store && BcryptCompare in faults ==>
        out.response == Crash(faults[BcryptCompare]) && out.ops == PasswordPipeline[..2]
    ensures OldPasswordVerified(bcrypt, store, userId, body, faults) && BcryptHash in faults ==>
        out.response == Crash(faults[BcryptHash]) && out.ops == PasswordPipeline[..3]
    ensures OldPasswordVerified(bcrypt, store, userId, body, faults) && BcryptHash !in faults && Save in faults ==>
        out.response == Crash(faults[Save]) && out.ops == PasswordPipeline
    ensures out.response.success
        <==> && PasswordsGiven(body)
             && userId in store
             && bcrypt.compare(body.oldPassword.value, store[userId].password)
             && faults.Keys !! {FindById, BcryptCompare, BcryptHash, Save}
    ensures out.response.success ==>
        && OthersUnchanged(store, out.store, userId)
        && out.store[userId].password == bcrypt.hash(body.newPassword.value)
        && SameButPassword(store[userId], out.store[userId])
        && out.response.message == PasswordUpdated
        && out.response.user == Some(Serialize(userId, out.store[userId]))
  {
    if Falsy(body.oldPassword) || Falsy(body.newPassword) then
      Handled(store, Reject(PasswordsRequired), [])
    else if FindById in faults then
      Handled(store, Crash(faults[FindById]), [FindById])
    else if userId !in store then
      Handled(store, Reject(UserNotFound), [FindById])
    else if BcryptCompare in faults then
      Handled(store, Crash(faults[BcryptCompare]), PasswordPipeline[..2])
    else if !bcrypt.compare(body.oldPassword.value, store[userId].password) then
      Handled(store, Reject(InvalidOldPassword), PasswordPipeline[..2])
    else if BcryptHash in faults then
      Handled(store, Crash(faults[BcryptHash]), PasswordPipeline[..3])
    else if Save in faults then
      Handled(store, Crash(faults[Save]), PasswordPipeline)
    else
      var user := store[userId].(password := bcrypt.hash(body.newPassword.value));
      Handled(store[userId := user], Accept(PasswordUpdated, userId, user), PasswordPipeline)
  }

  /** Whether `password` logs `id` in against `store`. */
  predicate Authenticates(bcrypt: Bcrypt, store: Store, id: UserId, password: string) {
    id in store && bcrypt.compare(password, store[id].password)
  }

  /** After a successful password change the new password authenticates. */
  lemma NewPasswordAuthenticates(bcrypt: Bcrypt, store: Store, id: UserId, body: PasswordBody, faults: Faults)
    requires Sound(bcrypt)
    requires UpdatePassword(bcrypt, store, id, body, faults).response.success
    ensures Authenticates(bcrypt, UpdatePassword(bcrypt, store, id, body, faults).store, id, body.newPassword.value)
  {
    var out := UpdatePassword(bcrypt, store, id, body, faults);
    assert out.store[id].password == bcrypt.hash(body.newPassword.value);
  }

  /** Changing the password from `p` to `q` and then asking to change it from
      `q` passes the old-password check: the second request succeeds when none
      of its operations throws. */
  lemma PasswordChangeChains(bcrypt: Bcrypt, store: Store, id: UserId, p: string, q: string, r: string, faults: Faults)
    requires Sound(bcrypt)
    requires UpdatePassword(bcrypt, store, id, PasswordBody(Some(p), Some(q)), faults).response.success
    requires r != ""
    ensures
      var s1 := UpdatePassword(bcrypt, store, id, PasswordBody(Some(p), Some(q)), faults).store;
      var out := UpdatePassword(bcrypt, s1, id, PasswordBody(Some(q), Some(r)), map[]);
      && out.response.success
      && Authenticates(bcrypt, out.store, id, r)
  {
    var s1 := UpdatePassword(bcrypt, store, id, PasswordBody(Some(p), Some(q)), faults).store;
    assert s1[id].password == bcrypt.hash(q);
    var out := UpdatePassword(bcrypt, s1, id, PasswordBody(Some(q), Some(r)), map[]);
    assert out.store[id].password == bcrypt.hash(r);
  }

  /** With a collision-free hash, the replaced password no longer
      authenticates, and replaying the old password is rejected without a
      write. */
  lemma OldPasswordStopsWorking(bcrypt: Bcrypt, store: Store, id: UserId, p: string, q: string, x: string, faults: Faults)
    requires CollisionFree(bcrypt)
    requires p != q && x != ""
    requires UpdatePassword(bcrypt, store, id, PasswordBody(Some(p), Some(q)), faults).response.success
    ensures
      var s1 := UpdatePassword(bcrypt, store, id, PasswordBody(Some(p), Some(q)), faults).store;
      var out := UpdatePassword(bcrypt, s1, id, PasswordBody(Some(p), Some(x)), map[]);
      && !Authenticates(bcrypt, s1, id, p)
      && out.response == Reject(InvalidOldPassword)
      && out.store == s1
  {
    var s1 := UpdatePassword(bcrypt, store, id, PasswordBody(Some(p), Some(q)), faults).store;
    assert s1[id].password == bcrypt.hash(q);
  }

  /** Repeating a successful name change leaves the store as it was. */
  lemma UpdateProfileIdempotent(store: Store, id: UserId, body: ProfileBody)
    requires UpdateProfile(store, id, body, map[]).response.success
    ensures
      var s1 := UpdateProfile(store, id, body, map[]).store;
      UpdateProfile(s1, id, body, map[]).store == s1
  {
    var s1 := UpdateProfile(store, id, body, map[]).store;
    assert s1[id].name == body.name.value;
    assert s1[id].(name := body.name.value) == s1[id];
  }

  /** A name change and a password change of the same user, when both
      succeed, lead to the same store in either order. */
  lemma ProfileAndPasswordCommute(bcrypt: Bcrypt, store: Store, id: UserId, pb: ProfileBody, wb: PasswordBody)
    requires UpdateProfile(store, id, pb, map[]).response.success
    requires UpdatePassword(bcrypt, store, id, wb, map[]).response.success
    ensures
      var a := UpdatePassword(bcrypt, UpdateProfile(store, id, pb, map[]).store, id, wb, map[]);
      var b := UpdateProfile(UpdatePassword(bcrypt, store, id, wb, map[]).store, id, pb, map[]);
      && a.response.success && b.response.success
      && a.store == b.store
  {
    var s1 := UpdateProfile(store, id, pb, map[]).store;
    var s2 := UpdatePassword(bcrypt, store, id, wb, map[]).store;
    assert s1[id].password == store[id].password;
    assert s2[id].name == store[id].name;
    var a := UpdatePassword(bcrypt, s1, id, wb, map[]);
    var b := UpdateProfile(s2, id, pb, map[]);
    assert a.store[id] == b.store[id];
    assert a.store.Keys == b.store.Keys;
  }

  /** The server checks the name for falsiness only: a name of one space is
      accepted and stored verbatim. */
  lemma WhitespaceNameAccepted(store: Store, id: UserId)
    requires id in store
    ensures
      var out := UpdateProfile(store, id, ProfileBody(Some(" ")), map[]);
      out.response.success && out.store[id].name == " "
  {
  }

  /** The server enforces no minimum length: a one-character new password is
      accepted when the old password matches. */
  lemma ShortNewPasswordAccepted(bcrypt: Bcrypt, store: Store, id: UserId, current: string)
    requires Sound(bcrypt)
    requires id in store && current != "" && store[id].password == bcrypt.hash(current)
    ensures UpdatePassword(bcrypt, store, id, PasswordBody(Some(current), Some("x")), map[]).response.success
  {
    assert bcrypt.compare(current, bcrypt.hash(current));
  }
}
