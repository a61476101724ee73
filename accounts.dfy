/**
 * The user table and the decisions the account handlers make on it: register,
 * login, logout, refresh, change-password and update-details. Each handler is
 * a function from the table (in the store's natural order) and the request to
 * the handler's reply and the table afterwards; the class UserTable performs
 * the same steps in place.
 *
 * Token minting, token verification and the password comparison are not
 * modelled: a freshly minted token is a parameter, verification is a function
 * from a token to the user id it carries (`None` when it does not verify), and
 * the password comparison is a function from the offered password and the stored
 * one to a verdict.
 */
module Accounts {
  import opened Base
  import Media

  /** A stored user record. Fields the request may leave `undefined` are options. */
  datatype User = User(
    id: UserId,
    username: Option<string>,
    email: Option<string>,
    fullName: Option<string>,
    password: Option<string>,
    avatar: Option<string>,
    coverImage: Option<string>,
    refreshToken: Option<string>,
    watchHistory: seq<VideoId>)

  /** A user record as responses carry it: without password and refresh token. */
  datatype PublicUser = PublicUser(
    id: UserId,
    username: Option<string>,
    email: Option<string>,
    fullName: Option<string>,
    avatar: Option<string>,
    coverImage: Option<string>,
    watchHistory: seq<VideoId>)

  function Public(u: User): PublicUser {
    PublicUser(u.id, u.username, u.email, u.fullName, u.avatar, u.coverImage, u.watchHistory)
  }

  /** Putting the two secret fields back gives the stored record: nothing else is dropped. */
  function WithSecrets(p: PublicUser, password: Option<string>, refreshToken: Option<string>): User {
    User(p.id, p.username, p.email, p.fullName, password, p.avatar, p.coverImage, refreshToken, p.watchHistory)
  }

  lemma PublicDropsOnlySecrets(u: User)
    ensures WithSecrets(Public(u), u.password, u.refreshToken) == u
  {
  }

  /** `isPasswordCorrect`: does the offered password match the stored one? */
  type PasswordCheck = (Option<string>, Option<string>) -> bool

  /** Token verification: the user id a token carries, or `None` when it does not verify. */
  type Verifier = string -> Option<UserId>

  // ---------------------------------------------------------------------------
  // Queries
  // ---------------------------------------------------------------------------

  /**
   * The filters the handlers send to the store. An absent field of
   * `{$or: [{username}, {email}]}` is sent as null and so matches a record that
   * lacks that field; this is Option equality.
   */
  datatype Filter =
    | ById(id: UserId)
    | ByUsernameOrEmail(username: Option<string>, email: Option<string>)
    | ByUsername(name: string)

  predicate Matches(u: User, f: Filter) {
    match f
    case ById(id) => u.id == id
    case ByUsernameOrEmail(n, e) => u.username == n || u.email == e
    case ByUsername(n) => u.username == Some(n)
  }

  /** `findOne`: the position of the first record, in natural order, that the filter matches. */
  function FindFirst(users: seq<User>, f: Filter): (r: Option<nat>)
    ensures r.Some? ==> r.value < |users| && Matches(users[r.value], f)
    ensures r.Some? ==> forall k :: 0 <= k < r.value ==> !Matches(users[k], f)
    ensures r.None? ==> forall k :: 0 <= k < |users| ==> !Matches(users[k], f)
  {
    if users == [] then None
    else if Matches(users[0], f) then Some(0)
    else match FindFirst(users[1..], f)
      case None => None
      case Some(k) => Some(k + 1)
  }

  /** Ids identify records. */
  ghost predicate UniqueIds(users: seq<User>) {
    forall i, j :: 0 <= i < j < |users| ==> users[i].id != users[j].id
  }

  /** No two records share a username, and no two share an email (absent counts as a value, as the null query does). */
  ghost predicate UniqueLogins(users: seq<User>) {
    forall i, j :: 0 <= i < j < |users| ==> users[i].username != users[j].username && users[i].email != users[j].email
  }

  lemma FindByIdUnique(users: seq<User>, i: nat)
    requires UniqueIds(users) && i < |users|
    ensures FindFirst(users, ById(users[i].id)) == Some(i)
  {
  }

  /** Replacing a record by one with the same id keeps ids unique. */
  lemma UpdateKeepsUniqueIds(users: seq<User>, i: nat, u: User)
    requires UniqueIds(users) && i < |users| && u.id == users[i].id
    ensures UniqueIds(users[i := u])
  {
  }

  // ---------------------------------------------------------------------------
  // Register
  // ---------------------------------------------------------------------------

  datatype RegisterForm = RegisterForm(
    username: Option<string>,
    email: Option<string>,
    fullName: Option<string>,
    password: Option<string>,
    avatarPath: Option<string>,
    coverImagePath: Option<string>)

  datatype RegisterStep = RegisterStep(result: Result<PublicUser>, users: seq<User>, removed: seq<string>)

  /** The local files the `finally` block unlinks: each truthy path, avatar first. */
  function TempFiles(form: RegisterForm): (r: seq<string>)
    ensures forall p :: p in r <==>
      ((Truthy(form.avatarPath) && p == form.avatarPath.value)
       || (Truthy(form.coverImagePath) && p == form.coverImagePath.value))
  {
    (if Truthy(form.avatarPath) then [form.avatarPath.value] else [])
    + (if Truthy(form.coverImagePath) then [form.coverImagePath.value] else [])
  }

  predicate AnyBlank(form: RegisterForm) {
    BlankIfPresent(form.username) || BlankIfPresent(form.email)
    || BlankIfPresent(form.fullName) || BlankIfPresent(form.password)
  }

  /** A field that is present and made only of whitespace. */
  predicate WhitespaceOnly(f: Option<string>) {
    f.Some? && AllWhitespace(f.value)
  }

  /** The blank check trips exactly on a field that is present and made only of whitespace; an absent field never trips it. */
  lemma AnyBlankIffWhitespaceField(form: RegisterForm)
    ensures AnyBlank(form) <==>
      WhitespaceOnly(form.username) || WhitespaceOnly(form.email)
      || WhitespaceOnly(form.fullName) || WhitespaceOnly(form.password)
  {
    BlankIffWhitespaceOnly(form.username);
    BlankIffWhitespaceOnly(form.email);
    BlankIffWhitespaceOnly(form.fullName);
    BlankIffWhitespaceOnly(form.password);
  }

  lemma BlankIffWhitespaceOnly(f: Option<string>)
    ensures BlankIfPresent(f) <==> WhitespaceOnly(f)
  {
    if f.Some? { TrimEmptyIff(f.value); }
  }

  function UrlOf(a: Option<Media.Asset>): Option<string> {
    match a
    case None => None
    case Some(asset) => Some(asset.secureUrl)
  }

  /**
   * registerUser. `freshId` is the id the store gives the new record and
   * `remote` the media store.
   */
  function Register(users: seq<User>, form: RegisterForm, freshId: UserId,
                    remote: Media.UploadRequest -> Option<Media.Asset>): (s: RegisterStep)
    ensures s.removed == TempFiles(form)
    ensures s.result.Err? ==> s.users == users
    ensures AnyBlank(form) ==> s.result == Err(ApiError(400, "a required field was empty"))
    ensures !AnyBlank(form) && FindFirst(users, ByUsernameOrEmail(form.username, form.email)).Some? ==>
      s.result == Err(ApiError(400, "a user with this username or email already exists"))
    ensures var avatar := Media.UploadOnCloudinary(form.avatarPath, remote);
      var cover := Media.UploadOnCloudinary(form.coverImagePath, remote);
      && (s.result.Ok? <==>
            !AnyBlank(form) && FindFirst(users, ByUsernameOrEmail(form.username, form.email)).None?
            && avatar.Ok? && cover.Ok?)
      && (!AnyBlank(form) && FindFirst(users, ByUsernameOrEmail(form.username, form.email)).None? ==>
            && (avatar.Err? ==> s.result == Err(avatar.failure))
            && (avatar.Ok? && cover.Err? ==> s.result == Err(cover.failure)))
      && (s.result.Ok? ==>
            s.result.value.avatar == UrlOf(avatar.value) && s.result.value.coverImage == UrlOf(cover.value))
    ensures s.result.Ok? ==>
      && (forall k :: 0 <= k < |users| ==> users[k].username != form.username && users[k].email != form.email)
      && s.users == users + [WithSecrets(s.result.value, form.password, None)]
      && s.result.value.id == freshId && s.result.value.watchHistory == []
      && s.result.value.username == form.username && s.result.value.email == form.email
      && s.result.value.fullName == form.fullName
  {
    var removed := TempFiles(form);
    if AnyBlank(form) then
      RegisterStep(Err(ApiError(400, "a required field was empty")), users, removed)
    else if FindFirst(users, ByUsernameOrEmail(form.username, form.email)).Some? then
      RegisterStep(Err(ApiError(400, "a user with this username or email already exists")), users, removed)
    else
      match Media.UploadOnCloudinary(form.avatarPath, remote)
      case Err(f) => RegisterStep(Err(f), users, removed)
      case Ok(avatar) =>
        match Media.UploadOnCloudinary(form.coverImagePath, remote)
        case Err(f) => RegisterStep(Err(f), users, removed)
        case Ok(cover) =>
          var u := User(freshId, form.username, form.email, form.fullName, form.password,
                        UrlOf(avatar), UrlOf(cover), None, []);
          RegisterStep(Ok(Public(u)), users + [u], removed)
  }

  /** Registration keeps usernames, emails and ids unique. */
  lemma RegisterKeepsUniqueness(users: seq<User>, form: RegisterForm, freshId: UserId,
                                remote: Media.UploadRequest -> Option<Media.Asset>)
    requires UniqueIds(users) && UniqueLogins(users)
    requires forall k :: 0 <= k < |users| ==> users[k].id != freshId
    ensures UniqueIds(Register(users, form, freshId, remote).users)
    ensures UniqueLogins(Register(users, form, freshId, remote).users)
  {
  }

  // ---------------------------------------------------------------------------
  // Login
  // ---------------------------------------------------------------------------

  datatype LoginForm = LoginForm(username: Option<string>, email: Option<string>, password: Option<string>)

  /** The body of a successful login. */
  datatype Session = Session(user: PublicUser, accessToken: string, refreshToken: string)

  datatype Step<R> = Step(result: Result<R>, users: seq<User>)

  /** loginUser; `accessToken` and `refreshToken` are the tokens the user record mints. */
  function Login(users: seq<User>, form: LoginForm, passwordOk: PasswordCheck,
                 accessToken: string, refreshToken: string): (s: Step<Session>)
    ensures s.result.Err? ==> s.users == users && StatusOf(s.result.failure) == 400
    ensures !Truthy(form.username) && !Truthy(form.email) ==>
      s.result == Err(ApiError(400, "username or email is required"))
    ensures (Truthy(form.username) || Truthy(form.email))
            && FindFirst(users, ByUsernameOrEmail(form.username, form.email)).None? ==>
      s.result == Err(ApiError(400, "invalid username or email"))
    ensures (Truthy(form.username) || Truthy(form.email))
            && FindFirst(users, ByUsernameOrEmail(form.username, form.email)).Some?
            && !passwordOk(form.password, users[FindFirst(users, ByUsernameOrEmail(form.username, form.email)).value].password) ==>
      s.result == Err(ApiError(400, "password incorrect"))
    ensures s.result.Ok? <==>
      (Truthy(form.username) || Truthy(form.email))
      && FindFirst(users, ByUsernameOrEmail(form.username, form.email)).Some?
      && passwordOk(form.password, users[FindFirst(users, ByUsernameOrEmail(form.username, form.email)).value].password)
    ensures s.result.Ok? ==>
      var i := FindFirst(users, ByUsernameOrEmail(form.username, form.email)).value;
      && passwordOk(form.password, users[i].password)
      && s.users == users[i := users[i].(refreshToken := Some(refreshToken))]
      && s.result.value == Session(Public(users[i]), accessToken, refreshToken)
  {
    if !Truthy(form.username) && !Truthy(form.email) then
      Step(Err(ApiError(400, "username or email is required")), users)
    else
      match FindFirst(users, ByUsernameOrEmail(form.username, form.email))
      case None => Step(Err(ApiError(400, "invalid username or email")), users)
      case Some(i) =>
        if !passwordOk(form.password, users[i].password) then
          Step(Err(ApiError(400, "password incorrect")), users)
        else
          var u := users[i].(refreshToken := Some(refreshToken));
          Step(Ok(Session(Public(u), accessToken, refreshToken)), users[i := u])
  }

  /** The stored refresh token of the record with id `id`, if there is such a record. */
  function StoredToken(users: seq<User>, id: UserId): Option<string> {
    match FindFirst(users, ById(id))
    case None => None
    case Some(i) => users[i].refreshToken
  }

  /** After a login, the record of the user it returns stores exactly the refresh token it returns. */
  lemma LoginStoresReturnedToken(users: seq<User>, form: LoginForm, passwordOk: PasswordCheck,
                                 accessToken: string, refreshToken: string)
    requires UniqueIds(users)
    ensures var s := Login(users, form, passwordOk, accessToken, refreshToken);
      s.result.Ok? ==> StoredToken(s.users, s.result.value.user.id) == Some(s.result.value.refreshToken)
  {
    var s := Login(users, form, passwordOk, accessToken, refreshToken);
    if s.result.Ok? {
      var i := FindFirst(users, ByUsernameOrEmail(form.username, form.email)).value;
      UpdateKeepsUniqueIds(users, i, s.users[i]);
      FindByIdUnique(s.users, i);
    }
  }

  // ---------------------------------------------------------------------------
  // Refresh
  // ---------------------------------------------------------------------------

  datatype TokenPair = TokenPair(accessToken: string, refreshToken: string)

  /** `req.cookies?.refreshToken || req.body?.refreshToken`. */
  function IncomingRefreshToken(cookieToken: Option<string>, bodyToken: Option<string>): (r: Option<string>)
    ensures Truthy(cookieToken) ==> r == cookieToken
    ensures !Truthy(cookieToken) ==> r == bodyToken
  {
    if Truthy(cookieToken) then cookieToken else bodyToken
  }

  /**
   * refreshAccessToken, verifying the token with the refresh secret. `verify`
   * is that verification; `accessToken` and `refreshToken` are the new tokens.
   */
  function Refresh(users: seq<User>, cookieToken: Option<string>, bodyToken: Option<string>, verify: Verifier,
                   accessToken: string, refreshToken: string): (s: Step<TokenPair>)
    ensures s.result.Err? ==> s.users == users && StatusOf(s.result.failure) == 400
    ensures s.result.Ok? ==> s.result.value == TokenPair(accessToken, refreshToken)
  {
    var incoming := IncomingRefreshToken(cookieToken, bodyToken);
    if !Truthy(incoming) then
      Step(Err(ApiError(400, "no token received")), users)
    else
      match verify(incoming.value)
      case None => Step(Err(ApiError(400, "invalid or expired refresh token")), users)
      case Some(id) =>
        match FindFirst(users, ById(id))
        case None => Step(Err(ApiError(400, "unauthorized request")), users)
        case Some(i) =>
          if !Truthy(users[i].refreshToken) || incoming != users[i].refreshToken then
            Step(Err(ApiError(400, "unauthorized request")), users)
          else
            Step(Ok(TokenPair(accessToken, refreshToken)), users[i := users[i].(refreshToken := Some(refreshToken))])
  }

  /**
   * Refresh succeeds exactly when the presented token (cookie first) is
   * non-empty, verifies to the id of a record, and equals that record's stored
   * token; the record then stores the new token and nothing else changes.
   */
  lemma RefreshAcceptsOnlyStoredToken(users: seq<User>, cookieToken: Option<string>, bodyToken: Option<string>,
                                      verify: Verifier, accessToken: string, refreshToken: string)
    ensures var s := Refresh(users, cookieToken, bodyToken, verify, accessToken, refreshToken);
      var t := IncomingRefreshToken(cookieToken, bodyToken);
      s.result.Ok? <==>
        Truthy(t) && verify(t.value).Some? && FindFirst(users, ById(verify(t.value).value)).Some?
        && users[FindFirst(users, ById(verify(t.value).value)).value].refreshToken == t
    ensures var s := Refresh(users, cookieToken, bodyToken, verify, accessToken, refreshToken);
      var t := IncomingRefreshToken(cookieToken, bodyToken);
      s.result.Ok? ==>
        var i := FindFirst(users, ById(verify(t.value).value)).value;
        s.users == users[i := users[i].(refreshToken := Some(refreshToken))]
  {
  }

  /** A refresh token works once: after a refresh that issued a different token, the same token is refused. */
  lemma RefreshIsSingleUse(users: seq<User>, token: string, verify: Verifier,
                           access1: string, refresh1: string, access2: string, refresh2: string)
    requires UniqueIds(users)
    requires refresh1 != token
    ensures var s1 := Refresh(users, Some(token), None, verify, access1, refresh1);
      s1.result.Ok? ==> Refresh(s1.users, Some(token), None, verify, access2, refresh2).result.Err?
  {
    var s1 := Refresh(users, Some(token), None, verify, access1, refresh1);
    if s1.result.Ok? {
      var id := verify(token).value;
      var i := FindFirst(users, ById(id)).value;
      UpdateKeepsUniqueIds(users, i, s1.users[i]);
      FindByIdUnique(s1.users, i);
    }
  }

  /** After a login, a refresh for that user with any token other than the one returned is refused. */
  lemma LoginThenOnlyReturnedTokenRefreshes(users: seq<User>, form: LoginForm, passwordOk: PasswordCheck,
                                            accessToken: string, refreshToken: string,
                                            presented: string, verify: Verifier, access2: string, refresh2: string)
    requires UniqueIds(users)
    ensures var s := Login(users, form, passwordOk, accessToken, refreshToken);
      s.result.Ok? && verify(presented) == Some(s.result.value.user.id) && presented != "" ==>
        (Refresh(s.users, Some(presented), None, verify, access2, refresh2).result.Ok? <==> presented == refreshToken)
  {
    var s := Login(users, form, passwordOk, accessToken, refreshToken);
    if s.result.Ok? {
      var i := FindFirst(users, ByUsernameOrEmail(form.username, form.email)).value;
      UpdateKeepsUniqueIds(users, i, s.users[i]);
      FindByIdUnique(s.users, i);
    }
  }

  /**
   * The refresh handler as written: the secret it names is not defined in its
   * module, so the verification call throws a ReferenceError inside the `try`,
   * and every request that carries a token is answered with the
   * "invalid or expired" error.
   */
  function RefreshAsWritten(users: seq<User>, cookieToken: Option<string>, bodyToken: Option<string>): (s: Step<TokenPair>)
    ensures s.users == users && s.result.Err?
  {
    var incoming := IncomingRefreshToken(cookieToken, bodyToken);
    if !Truthy(incoming) then
      Step(Err(ApiError(400, "no token received")), users)
    else
      Step(Err(ApiError(400, "invalid or expired refresh token")), users)
  }

  /** A request the intended handler accepts and the handler as written refuses. */
  lemma RefreshAsWrittenRefusesValidToken()
    ensures var u := User("a1", Some("ann"), Some("ann@example.com"), Some("Ann"), Some("pw"), None, None, Some("r1"), []);
      var verify: Verifier := t => if t == "r1" then Some("a1") else None;
      && Refresh([u], Some("r1"), None, verify, "a2", "r2").result == Ok(TokenPair("a2", "r2"))
      && RefreshAsWritten([u], Some("r1"), None).result == Err(ApiError(400, "invalid or expired refresh token"))
  {
    var u := User("a1", Some("ann"), Some("ann@example.com"), Some("Ann"), Some("pw"), None, None, Some("r1"), []);
    assert FindFirst([u], ById("a1")) == Some(0);
  }

  // ---------------------------------------------------------------------------
  // Logout
  // ---------------------------------------------------------------------------

  /** logoutUser: `$unset` of the stored refresh token of the authenticated user. */
  function Logout(users: seq<User>, viewer: UserId): (r: seq<User>)
    ensures |r| == |users|
    ensures forall k :: 0 <= k < |users| ==>
      r[k] == if users[k].id == viewer && FindFirst(users, ById(viewer)) == Some(k)
              then users[k].(refreshToken := None) else users[k]
  {
    match FindFirst(users, ById(viewer))
    case None => users
    case Some(i) => users[i := users[i].(refreshToken := None)]
  }

  /** Logging out twice leaves what logging out once leaves. */
  lemma LogoutIdempotent(users: seq<User>, viewer: UserId)
    ensures Logout(Logout(users, viewer), viewer) == Logout(users, viewer)
  {
    var once := Logout(users, viewer);
    match FindFirst(users, ById(viewer))
    case None =>
    case Some(i) =>
      assert FindFirst(once, ById(viewer)) == Some(i) by {
        var j := FindFirst(once, ById(viewer));
        assert Matches(once[i], ById(viewer));
        assert forall k :: 0 <= k < i ==> once[k] == users[k];
      }
  }

  /** After logout no refresh for that user succeeds, whatever token is presented. */
  lemma LogoutRevokesRefresh(users: seq<User>, viewer: UserId, cookieToken: Option<string>, bodyToken: Option<string>,
                             verify: Verifier, accessToken: string, refreshToken: string)
    requires UniqueIds(users)
    requires var t := IncomingRefreshToken(cookieToken, bodyToken); Truthy(t) ==> verify(t.value) == Some(viewer)
    ensures Refresh(Logout(users, viewer), cookieToken, bodyToken, verify, accessToken, refreshToken).result.Err?
  {
    var after := Logout(users, viewer);
    match FindFirst(users, ById(viewer))
    case None =>
    case Some(i) =>
      UpdateKeepsUniqueIds(users, i, after[i]);
      FindByIdUnique(after, i);
  }

  // ---------------------------------------------------------------------------
  // Change password
  // ---------------------------------------------------------------------------

  datatype PasswordForm = PasswordForm(oldPassword: Option<string>, newPassword: Option<string>, confirmPassword: Option<string>)

  /** changeCurrentPassword for the authenticated user `viewer`. */
  function ChangePassword(users: seq<User>, viewer: UserId, form: PasswordForm, passwordOk: PasswordCheck): (s: Step<()>)
    ensures s.result.Err? ==> s.users == users && StatusOf(s.result.failure) == 400
    ensures s.result.Ok? <==>
      form.newPassword == form.confirmPassword && FindFirst(users, ById(viewer)).Some?
      && passwordOk(form.oldPassword, users[FindFirst(users, ById(viewer)).value].password)
    ensures s.result.Ok? ==>
      var i := FindFirst(users, ById(viewer)).value;
      s.users == users[i := users[i].(password := form.newPassword)]
  {
    if form.newPassword != form.confirmPassword then
      Step(Err(ApiError(400, "confirm password does not match")), users)
    else
      match FindFirst(users, ById(viewer))
      case None => Step(Err(ApiError(400, "bad request")), users)
      case Some(i) =>
        if !passwordOk(form.oldPassword, users[i].password) then
          Step(Err(ApiError(400, "old password incorrect")), users)
        else
          Step(Ok(()), users[i := users[i].(password := form.newPassword)])
  }

  /**
   * The checks run in order: a mismatched confirmation is reported whatever the
   * table holds, a missing user before a wrong old password.
   */
  lemma ChangePasswordCheckOrder(users: seq<User>, viewer: UserId, form: PasswordForm, passwordOk: PasswordCheck)
    ensures form.newPassword != form.confirmPassword ==>
      ChangePassword(users, viewer, form, passwordOk).result == Err(ApiError(400, "confirm password does not match"))
    ensures form.newPassword == form.confirmPassword && FindFirst(users, ById(viewer)).None? ==>
      ChangePassword(users, viewer, form, passwordOk).result == Err(ApiError(400, "bad request"))
    ensures (form.newPassword == form.confirmPassword && FindFirst(users, ById(viewer)).Some?
             && !passwordOk(form.oldPassword, users[FindFirst(users, ById(viewer)).value].password)) ==>
      ChangePassword(users, viewer, form, passwordOk).result == Err(ApiError(400, "old password incorrect"))
  {
  }

  // ---------------------------------------------------------------------------
  // Update details
  // ---------------------------------------------------------------------------

  /** updateUserDetails: `$set` of the truthy fields among username and email. */
  function UpdateDetails(users: seq<User>, viewer: UserId, username: Option<string>, email: Option<string>): (s: Step<PublicUser>)
    ensures s.result.Err? ==> s.users == users
    ensures !Truthy(username) && !Truthy(email) ==> s.result == Err(ApiError(400, "nothing to update"))
    ensures (Truthy(username) || Truthy(email)) && FindFirst(users, ById(viewer)).None? ==>
      s.result == Err(ApiError(500, "unable to update user details"))
    ensures s.result.Ok? <==> (Truthy(username) || Truthy(email)) && FindFirst(users, ById(viewer)).Some?
    ensures s.result.Ok? ==> |s.users| == |users|
    ensures s.result.Ok? ==>
      var i := FindFirst(users, ById(viewer)).value;
      && s.users == users[i := s.users[i]]
      && s.result.value == Public(s.users[i])
      && s.users[i].username == (if Truthy(username) then username else users[i].username)
      && s.users[i].email == (if Truthy(email) then email else users[i].email)
      && s.users[i] == users[i].(username := s.users[i].username, email := s.users[i].email)
  {
    if !Truthy(username) && !Truthy(email) then
      Step(Err(ApiError(400, "nothing to update")), users)
    else
      match FindFirst(users, ById(viewer))
      case None => Step(Err(ApiError(500, "unable to update user details")), users)
      case Some(i) =>
        var u := users[i].(username := if Truthy(username) then username else users[i].username,
                           email := if Truthy(email) then email else users[i].email);
        Step(Ok(Public(u)), users[i := u])
  }

  /** Sending the same details again changes nothing more. */
  lemma UpdateDetailsIdempotent(users: seq<User>, viewer: UserId, username: Option<string>, email: Option<string>)
    ensures var s := UpdateDetails(users, viewer, username, email);
      s.result.Ok? ==> UpdateDetails(s.users, viewer, username, email) == s
  {
    var s := UpdateDetails(users, viewer, username, email);
    if s.result.Ok? {
      var i := FindFirst(users, ById(viewer)).value;
      assert FindFirst(s.users, ById(viewer)) == Some(i) by {
        assert forall k :: 0 <= k < i ==> s.users[k] == users[k];
        assert s.users[i].id == viewer;
      }
    }
  }
}
