/**
 * The user collection as the account handlers change it: one record at a time,
 * by assigning the refresh token or the password of the record found and saving
 * it. Each method states the reply and the whole new table as the matching
 * function of module Accounts gives them.
 */
module UserStore {
  import opened Base
  import Media
  import opened Accounts

  class UserTable {
    /** The records in the store's natural order. */
    var users: seq<User>

    ghost predicate Valid()
      reads this
    {
      UniqueIds(users)
    }

    constructor ()
      ensures Valid() && users == []
    {
      users := [];
    }

    /** `findById`, as a scan over the table; in a valid table no other record has that id. */
    method FindById(id: UserId) returns (r: Option<nat>)
      ensures r == FindFirst(users, ById(id))
      ensures Valid() && r.Some? ==> forall k :: 0 <= k < |users| && k != r.value ==> users[k].id != id
    {
      var k := 0;
      while k < |users|
        invariant 0 <= k <= |users|
        invariant forall j :: 0 <= j < k ==> users[j].id != id
      {
        if users[k].id == id {
          FirstMatchAt(users, ById(id), k);
          return Some(k);
        }
        k := k + 1;
      }
      NoMatch(users, ById(id));
      return None;
    }

    /** `findOne({$or: [{username}, {email}]})`, as a scan over the table. */
    method FindByUsernameOrEmail(username: Option<string>, email: Option<string>) returns (r: Option<nat>)
      ensures r == FindFirst(users, ByUsernameOrEmail(username, email))
    {
      var k := 0;
      while k < |users|
        invariant 0 <= k <= |users|
        invariant forall j :: 0 <= j < k ==> users[j].username != username && users[j].email != email
      {
        if users[k].username == username || users[k].email == email {
          FirstMatchAt(users, ByUsernameOrEmail(username, email), k);
          return Some(k);
        }
        k := k + 1;
      }
      NoMatch(users, ByUsernameOrEmail(username, email));
      return None;
    }

    /** registerUser; `removed` lists the local files unlinked on the way out, on every path. */
    method RegisterUser(form: RegisterForm, freshId: UserId, remote: Media.UploadRequest -> Option<Media.Asset>)
      returns (result: Result<PublicUser>, removed: seq<string>)
      requires Valid()
      requires forall k :: 0 <= k < |users| ==> users[k].id != freshId
      modifies this
      ensures Valid()
      ensures var s := Register(old(users), form, freshId, remote);
        result == s.result && users == s.users && removed == s.removed
    {
      result := Err(ApiError(400, "a required field was empty"));
      if !AnyBlank(form) {
        var existing := FindByUsernameOrEmail(form.username, form.email);
        if existing.Some? {
          result := Err(ApiError(400, "a user with this username or email already exists"));
        } else {
          var avatar := Media.UploadOnCloudinary(form.avatarPath, remote);
          if avatar.Err? {
            result := Err(avatar.failure);
          } else {
            var cover := Media.UploadOnCloudinary(form.coverImagePath, remote);
            if cover.Err? {
              result := Err(cover.failure);
            } else {
              var u := User(freshId, form.username, form.email, form.fullName, form.password,
                            UrlOf(avatar.value), UrlOf(cover.value), None, []);
              users := users + [u];
              result := Ok(Public(u));
            }
          }
        }
      }
      // the `finally` block
      removed := [];
      if Truthy(form.avatarPath) { removed := removed + [form.avatarPath.value]; }
      if Truthy(form.coverImagePath) { removed := removed + [form.coverImagePath.value]; }
    }

    /** loginUser: the found record's refresh token is overwritten with the new one and saved. */
    method LoginUser(form: LoginForm, passwordOk: PasswordCheck, accessToken: string, refreshToken: string)
      returns (result: Result<Session>)
      requires Valid()
      modifies this
      ensures Valid()
      ensures var s := Login(old(users), form, passwordOk, accessToken, refreshToken);
        result == s.result && users == s.users
    {
      if !Truthy(form.username) && !Truthy(form.email) {
        return Err(ApiError(400, "username or email is required"));
      }
      var found := FindByUsernameOrEmail(form.username, form.email);
      if found.None? {
        return Err(ApiError(400, "invalid username or email"));
      }
      var i := found.value;
      if !passwordOk(form.password, users[i].password) {
        return Err(ApiError(400, "password incorrect"));
      }
      var user := users[i];
      user := user.(refreshToken := Some(refreshToken));
      users := users[i := user];
      UpdateKeepsUniqueIds(old(users), i, user);
      result := Ok(Session(Public(user), accessToken, refreshToken));
    }

    /** logoutUser: `$unset` of the authenticated user's refresh token; always answered with success. */
    method LogoutUser(viewer: UserId)
      requires Valid()
      modifies this
      ensures Valid()
      ensures users == Logout(old(users), viewer)
    {
      var found := FindById(viewer);
      if found.Some? {
        var i := found.value;
        UpdateKeepsUniqueIds(users, i, users[i].(refreshToken := None));
        users := users[i := users[i].(refreshToken := None)];
      }
    }

    /** refreshAccessToken, verifying with the refresh secret: the stored token is replaced by the new one. */
    method RefreshAccessToken(cookieToken: Option<string>, bodyToken: Option<string>, verify: Verifier,
                              accessToken: string, refreshToken: string)
      returns (result: Result<TokenPair>)
      requires Valid()
      modifies this
      ensures Valid()
      ensures var s := Refresh(old(users), cookieToken, bodyToken, verify, accessToken, refreshToken);
        result == s.result && users == s.users
    {
      var incoming := IncomingRefreshToken(cookieToken, bodyToken);
      if !Truthy(incoming) {
        return Err(ApiError(400, "no token received"));
      }
      var decoded := verify(incoming.value);
      if decoded.None? {
        return Err(ApiError(400, "invalid or expired refresh token"));
      }
      var found := FindById(decoded.value);
      if found.None? || !Truthy(users[found.value].refreshToken) || incoming != users[found.value].refreshToken {
        return Err(ApiError(400, "unauthorized request"));
      }
      var i := found.value;
      var user := users[i].(refreshToken := Some(refreshToken));
      UpdateKeepsUniqueIds(users, i, user);
      users := users[i := user];
      result := Ok(TokenPair(accessToken, refreshToken));
    }

    /** changeCurrentPassword: the found record's password is replaced and saved. */
    method ChangeCurrentPassword(viewer: UserId, form: PasswordForm, passwordOk: PasswordCheck)
      returns (result: Result<()>)
      requires Valid()
      modifies this
      ensures Valid()
      ensures var s := ChangePassword(old(users), viewer, form, passwordOk);
        result == s.result && users == s.users
    {
      if form.newPassword != form.confirmPassword {
        return Err(ApiError(400, "confirm password does not match"));
      }
      var found := FindById(viewer);
      if found.None? {
        return Err(ApiError(400, "bad request"));
      }
      var i := found.value;
      if !passwordOk(form.oldPassword, users[i].password) {
        return Err(ApiError(400, "old password incorrect"));
      }
      var user := users[i].(password := form.newPassword);
      UpdateKeepsUniqueIds(users, i, user);
      users := users[i := user];
      result := Ok(());
    }

    /** updateUserDetails: the update document is filled field by field, then applied to the found record. */
    method UpdateUserDetails(viewer: UserId, username: Option<string>, email: Option<string>)
      returns (result: Result<PublicUser>)
      requires Valid()
      modifies this
      ensures Valid()
      ensures var s := UpdateDetails(old(users), viewer, username, email);
        result == s.result && users == s.users
    {
      if !Truthy(username) && !Truthy(email) {
        return Err(ApiError(400, "nothing to update"));
      }
      var setUsername: Option<string> := None;
      var setEmail: Option<string> := None;
      if Truthy(username) { setUsername := username; }
      if Truthy(email) { setEmail := email; }
      var found := FindById(viewer);
      if found.None? {
        return Err(ApiError(500, "unable to update user details"));
      }
      var i := found.value;
      var user := users[i];
      if setUsername.Some? { user := user.(username := setUsername); }
      if setEmail.Some? { user := user.(email := setEmail); }
      UpdateKeepsUniqueIds(users, i, user);
      users := users[i := user];
      result := Ok(Public(user));
    }
  }

  /** A matching record with no match before it is the one `findOne` returns. */
  lemma FirstMatchAt(users: seq<User>, f: Filter, k: nat)
    requires k < |users| && Matches(users[k], f)
    requires forall j :: 0 <= j < k ==> !Matches(users[j], f)
    ensures FindFirst(users, f) == Some(k)
  {
  }

  lemma NoMatch(users: seq<User>, f: Filter)
    requires forall j :: 0 <= j < |users| ==> !Matches(users[j], f)
    ensures FindFirst(users, f) == None
  {
  }
}
