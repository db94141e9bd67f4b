/**
 * The two request guards: `authenticate` (apps/backend/src/middlewares/authenticate.ts),
 * which reads the Bearer access token, and the user-context guard
 * (apps/backend/src/middlewares/attachUser.ts), which loads the caller's user.
 * Each is a function from the request to what the guard does with it: answer
 * with an error status, or call `next` with what it attached to the request.
 */
module Middleware {
  import opened Common
  import opened Domain
  import opened JsText
  import opened Tokens
  import opened UserRepository

  /** `req.auth`. */
  datatype RequestAuth = RequestAuth(userId: string, provider: AuthProvider)

  /** `authenticate` either answers with an error or calls `next` once, having set `req.auth`. */
  datatype AuthenticateOutcome = Rejected(status: nat, message: string) | Proceed(auth: RequestAuth)

  const MissingHeader: AuthenticateOutcome := Rejected(401, "Missing Authorization header.")
  const InvalidHeader: AuthenticateOutcome := Rejected(401, "Invalid Authorization header.")
  const InvalidAccessToken: AuthenticateOutcome := Rejected(401, "Access token is invalid.")

  /**
   * `[scheme, token] = header.split(' ')`, accepted when the scheme is exactly
   * `Bearer` and the token is not empty; further pieces are ignored.
   */
  function BearerToken(header: string): (r: Option<string>)
    ensures r.Some? ==> r.value != "" && ' ' !in r.value
  {
    var pieces := Split(header, ' ');
    if pieces[0] == "Bearer" && |pieces| >= 2 && pieces[1] != "" then Some(pieces[1]) else None
  }

  /** `header` is `Bearer`, one space, then `t`, then the end or another space. */
  predicate BearerForm(header: string, t: string)
  {
    && |header| >= 7 + |t|
    && header[..7] == "Bearer "
    && header[7..7 + |t|] == t
    && (|header| == 7 + |t| || header[7 + |t|] == ' ')
  }

  /** An accepted header has the Bearer form around its token. */
  lemma AcceptedHeaderHasBearerForm(header: string)
    requires BearerToken(header).Some?
    ensures BearerForm(header, BearerToken(header).value)
  {
    SplitHead(header, ' ');
    var pieces := Split(header, ' ');
    var rest := header[7..];
    assert pieces[1..] == Split(rest, ' ');
    SplitHead(rest, ' ');
    var t := pieces[1];
    assert rest[..|t|] == t;
    assert header[7..7 + |t|] == rest[..|t|];
  }

  /** A header in the Bearer form around a non-empty, space-free token is accepted with that token. */
  lemma BearerFormAccepted(header: string, t: string)
    requires t != "" && ' ' !in t && BearerForm(header, t)
    ensures BearerToken(header) == Some(t)
  {
    var rest := header[7..];
    assert header == "Bearer" + [' '] + rest;
    SplitWithoutSeparator("Bearer", ' ');
    SplitAtSeparator("Bearer", rest, ' ');
    SplitWithoutSeparator(t, ' ');
    if |rest| == |t| {
      assert rest == t;
    } else {
      var more := rest[|t| + 1..];
      assert rest == t + [' '] + more;
      SplitAtSeparator(t, more, ' ');
    }
  }

  /**
   * The header is accepted with token `t` exactly when it reads `Bearer`,
   * a single space and `t`, with `t` non-empty and free of spaces, followed
   * by the end or a space.
   */
  lemma BearerTokenCharacterised(header: string, t: string)
    ensures BearerToken(header) == Some(t) <==> t != "" && ' ' !in t && BearerForm(header, t)
  {
    if BearerToken(header) == Some(t) {
      AcceptedHeaderHasBearerForm(header);
    }
    if t != "" && ' ' !in t && BearerForm(header, t) {
      BearerFormAccepted(header, t);
    }
  }

  /**
   * `verifyAccessToken(token)` on the wire form: the opaque decoding of the
   * compact token, then the signature and claim checks. It yields the decoded
   * payload exactly when the token decodes, was signed with the access key for
   * issuer `backend` and audience `mobile`, and has not expired.
   */
  function VerifyAccessTokenString(
    decode: string -> Option<SignedAccessToken>, token: string, accessSecret: string, now: Timestamp)
    : (r: Option<AccessTokenPayload>)
    ensures r.Some? <==>
      && decode(token).Some?
      && decode(token).value.signingKey == accessSecret
      && decode(token).value.issuer == Issuer
      && decode(token).value.audience == Audience
      && now < decode(token).value.expiresAt
    ensures r.Some? ==> r.value == decode(token).value.payload
  {
    match decode(token)
    case None => None
    case Some(signed) => VerifyAccessToken(signed, accessSecret, now)
  }

  /**
   * `authenticate(req, res, next)`. Every refusal is 401; the request goes
   * on exactly when the header carries a Bearer token that verifies, and then
   * carries the token's subject and provider.
   */
  function Authenticate(
    header: Option<string>, decode: string -> Option<SignedAccessToken>, accessSecret: string, now: Timestamp)
    : (r: AuthenticateOutcome)
    ensures r.Rejected? ==> r.status == 401
    ensures r.Proceed? <==>
      && header.Some?
      && BearerToken(header.value).Some?
      && VerifyAccessTokenString(decode, BearerToken(header.value).value, accessSecret, now).Some?
    ensures r.Proceed? ==>
      var payload := VerifyAccessTokenString(decode, BearerToken(header.value).value, accessSecret, now).value;
      r.auth == RequestAuth(payload.sub, payload.provider)
  {
    if header.None? || header.value == "" then MissingHeader
    else
      match BearerToken(header.value)
      case None => InvalidHeader
      case Some(token) =>
        match VerifyAccessTokenString(decode, token, accessSecret, now)
        case None => InvalidAccessToken
        case Some(payload) => Proceed(RequestAuth(payload.sub, payload.provider))
  }

  /**
   * A token the backend signed, sent as `Bearer <token>` before its
   * whole-second expiry, lets the request through as its user.
   */
  lemma SignedTokenAuthenticates(
    userId: string, provider: AuthProvider, secret: string, issuedAt: Timestamp, lifetimeMs: nat,
    token: string, decode: string -> Option<SignedAccessToken>, now: Timestamp)
    requires token != "" && ' ' !in token
    requires decode(token) == Some(SignAccessToken(userId, provider, secret, issuedAt, lifetimeMs))
    requires now < JwtExpiry(issuedAt, lifetimeMs)
    ensures Authenticate(Some("Bearer " + token), decode, secret, now) == Proceed(RequestAuth(userId, provider))
  {
    BearerTokenCharacterised("Bearer " + token, token);
  }

  /** Header shapes that are refused before any verification. */
  lemma MalformedHeadersRejected(token: string, decode: string -> Option<SignedAccessToken>, secret: string, now: Timestamp)
    ensures Authenticate(None, decode, secret, now) == MissingHeader
    ensures Authenticate(Some(""), decode, secret, now) == MissingHeader
    ensures Authenticate(Some("Bearer  " + token), decode, secret, now) == InvalidHeader
    ensures Authenticate(Some("bearer " + token), decode, secret, now) == InvalidHeader
    ensures Authenticate(Some("Bearer"), decode, secret, now) == InvalidHeader
  {
    SplitWithoutSeparator("Bearer", ' ');
    SplitWithoutSeparator("bearer", ' ');
    SplitWithoutSeparator("", ' ');
    assert "Bearer  " + token == "Bearer" + [' '] + ("" + [' '] + token);
    SplitAtSeparator("Bearer", "" + [' '] + token, ' ');
    SplitAtSeparator("", token, ' ');
    assert "bearer " + token == "bearer" + [' '] + token;
    SplitAtSeparator("bearer", token, ' ');
  }

  /** `createUserContext(repo)` either answers with an error or calls `next` once, having set `req.user`. */
  datatype UserContextOutcome = Denied(status: nat, message: string) | Attached(user: User)

  const MissingContext: UserContextOutcome := Denied(401, "Missing authentication context.")
  const UnknownUser: UserContextOutcome := Denied(401, "User not found.")
  const InactiveUser: UserContextOutcome := Denied(403, "User is inactive.")

  /**
   * The guard `createUserContext(repo)` returns: no `req.auth` or an unknown
   * user is 401, an inactive user 403; otherwise the stored user is attached.
   */
  function UserContext(repo: InMemoryUserRepository, auth: Option<RequestAuth>): (r: UserContextOutcome)
    reads repo
    ensures r.Attached? <==> auth.Some? && auth.value.userId in repo.users && repo.users[auth.value.userId].isActive
    ensures r.Attached? ==> r.user == repo.users[auth.value.userId]
    ensures r.Denied? ==> (r.status == 403 <==> auth.Some? && auth.value.userId in repo.users)
    ensures r.Denied? ==> r.status == 401 || r.status == 403
  {
    if auth.None? then MissingContext
    else
      match repo.GetUserById(auth.value.userId)
      case None => UnknownUser
      case Some(user) => if !user.isActive then InactiveUser else Attached(user)
  }
}
