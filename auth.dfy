/**
 * The two authentication gates. Both take the access token from the
 * `accessToken` cookie when it is truthy, and otherwise from an Authorization
 * header that starts with "Bearer ". The mandatory gate (authenticateUser)
 * stops the request when there is no token or no such user, and lets a
 * verification failure propagate; the optional gate (optionalAuth) always lets
 * the request through, with a user attached only when one was resolved.
 */
module Auth {
  import opened Base
  import opened Accounts

  const BearerPrefix := "Bearer "

  /** The access token the gates read from the request, before the truthiness test. */
  function ExtractToken(cookie: Option<string>, authorization: Option<string>): (r: Option<string>)
    ensures Truthy(cookie) ==> r == cookie
    ensures !Truthy(cookie) ==> (r.Some? <==> authorization.Some? && StartsWith(authorization.value, BearerPrefix))
    ensures !Truthy(cookie) && r.Some? ==> authorization == Some(BearerPrefix + r.value)
  {
    if Truthy(cookie) then cookie
    else if authorization.Some? && StartsWith(authorization.value, BearerPrefix) then
      ReplacePrefixWithEmpty(authorization.value, BearerPrefix);
      assert authorization.value == BearerPrefix + authorization.value[|BearerPrefix|..];
      Some(ReplaceFirst(authorization.value, BearerPrefix, ""))
    else None
  }

  /** A header built as "Bearer " + token gives back the token when no cookie token is set. */
  lemma BearerRoundTrip(cookie: Option<string>, token: string)
    requires !Truthy(cookie)
    ensures ExtractToken(cookie, Some(BearerPrefix + token)) == Some(token)
  {
    assert StartsWith(BearerPrefix + token, BearerPrefix);
  }

  /** What the shared part of both gates finds out about a request. */
  datatype Resolution =
    | NoToken               // nothing truthy to verify
    | BadToken              // verification threw
    | UnknownUser           // the token's id names no record
    | Identified(user: User)

  /** Verify the token, then `findById` of the id it carries. */
  function Resolve(token: Option<string>, verify: Verifier, users: seq<User>): (r: Resolution)
    ensures r == NoToken <==> !Truthy(token)
    ensures r == BadToken <==> Truthy(token) && verify(token.value).None?
    ensures r == UnknownUser <==>
      Truthy(token) && verify(token.value).Some? && FindFirst(users, ById(verify(token.value).value)).None?
    ensures r.Identified? <==>
      Truthy(token) && verify(token.value).Some? && FindFirst(users, ById(verify(token.value).value)).Some?
    ensures r.Identified? ==>
      && Truthy(token) && verify(token.value).Some?
      && FindFirst(users, ById(verify(token.value).value)).Some?
      && r.user == users[FindFirst(users, ById(verify(token.value).value)).value]
      && r.user.id == verify(token.value).value
  {
    if !Truthy(token) then NoToken
    else match verify(token.value)
      case None => BadToken
      case Some(id) =>
        match FindFirst(users, ById(id))
        case None => UnknownUser
        case Some(i) => Identified(users[i])
  }

  /** The user attached to a request. `refreshToken` is what the projection left of it. */
  datatype Viewer = Viewer(profile: PublicUser, refreshToken: Option<string>)

  /** What the mandatory gate does with a resolution: attach the user selected without password and refresh token, or fail. */
  function MandatoryOutcome(r: Resolution): (o: Result<Viewer>)
    ensures o.Ok? <==> r.Identified?
    ensures o.Ok? ==> o.value == Viewer(Public(r.user), None)
    ensures r == NoToken ==> o == Err(ApiError(400, "access token absent"))
    ensures r == UnknownUser ==> o == Err(ApiError(400, "invalid request"))
    ensures r == BadToken ==> o.Err? && o.failure.Uncaught?
  {
    match r
    case NoToken => Err(ApiError(400, "access token absent"))
    case BadToken => Err(Uncaught("token verification failed"))
    case UnknownUser => Err(ApiError(400, "invalid request"))
    case Identified(u) => Ok(Viewer(Public(u), None))
  }

  /** What the optional gate attaches: a user only when one was found, nothing otherwise. */
  function OptionalOutcome(r: Resolution): (o: Option<Viewer>)
    ensures o.Some? <==> r.Identified?
    ensures o.Some? ==> o.value.profile == Public(r.user)
  {
    match r
    case Identified(u) => Some(Viewer(Public(u), u.refreshToken))
    case _ => None
  }

  /** Both gates resolve the same identity: the optional one attaches a user exactly when the mandatory one would admit the request, and the same user. */
  lemma GatesAgree(cookie: Option<string>, authorization: Option<string>, verify: Verifier, users: seq<User>)
    ensures var r := Resolve(ExtractToken(cookie, authorization), verify, users);
      && (MandatoryOutcome(r).Ok? <==> OptionalOutcome(r).Some?)
      && (MandatoryOutcome(r).Ok? ==> MandatoryOutcome(r).value.profile == OptionalOutcome(r).value.profile)
  {
  }

  /** An incoming request, as far as the gates read and write it. */
  class Request {
    var accessTokenCookie: Option<string>
    var authorization: Option<string>
    /** `req.user` */
    var user: Option<Viewer>
    /** How many times the gate called `next()` to pass the request on. */
    var nextCalls: nat

    constructor (accessTokenCookie: Option<string>, authorization: Option<string>)
      ensures this.accessTokenCookie == accessTokenCookie && this.authorization == authorization
      ensures user == None && nextCalls == 0
    {
      this.accessTokenCookie := accessTokenCookie;
      this.authorization := authorization;
      user := None;
      nextCalls := 0;
    }
  }

  /**
   * authenticateUser: on success `req.user` is set and `next()` is called once;
   * on failure the error is returned for the error handler and the request is
   * left as it was.
   */
  method AuthenticateUser(req: Request, verify: Verifier, users: seq<User>) returns (failure: Option<Failure>)
    modifies req`user, req`nextCalls
    ensures var o := MandatoryOutcome(Resolve(ExtractToken(req.accessTokenCookie, req.authorization), verify, users));
      && (failure.None? <==> o.Ok?)
      && (o.Err? ==> failure == Some(o.failure) && req.user == old(req.user) && req.nextCalls == old(req.nextCalls))
      && (o.Ok? ==> req.user == Some(o.value) && req.nextCalls == old(req.nextCalls) + 1)
  {
    var token := ExtractToken(req.accessTokenCookie, req.authorization);
    if !Truthy(token) {
      return Some(ApiError(400, "access token absent"));
    }
    var decoded := verify(token.value);
    if decoded.None? {
      return Some(Uncaught("token verification failed"));
    }
    var found := FindFirst(users, ById(decoded.value));
    if found.None? {
      return Some(ApiError(400, "invalid request"));
    }
    req.user := Some(Viewer(Public(users[found.value]), None));
    req.nextCalls := req.nextCalls + 1;
    failure := None;
  }

  /**
   * optionalAuth: never fails, calls `next()` exactly once, and sets `req.user`
   * only when a user was found; otherwise `req.user` keeps its value.
   */
  method OptionalAuth(req: Request, verify: Verifier, users: seq<User>)
    modifies req`user, req`nextCalls
    ensures req.nextCalls == old(req.nextCalls) + 1
    ensures var o := OptionalOutcome(Resolve(ExtractToken(req.accessTokenCookie, req.authorization), verify, users));
      req.user == if o.Some? then o else old(req.user)
  {
    var token := ExtractToken(req.accessTokenCookie, req.authorization);
    if !Truthy(token) {
      req.nextCalls := req.nextCalls + 1;
      return;
    }
    var decoded := verify(token.value);
    if decoded.None? {
      // the `catch` branch
      req.nextCalls := req.nextCalls + 1;
      return;
    }
    var found := FindFirst(users, ById(decoded.value));
    if found.Some? {
      var u := users[found.value];
      req.user := Some(Viewer(Public(u), u.refreshToken));
    }
    req.nextCalls := req.nextCalls + 1;
  }
}
