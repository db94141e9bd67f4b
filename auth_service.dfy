/**
 * The authentication service (apps/backend/src/services/authService.ts):
 * user creation, login by natural key, token issuance, refresh-token rotation
 * and logout over the in-memory repository.
 *
 * Every thrown `AuthError` becomes `Err`. The clock, the new user id, the new
 * refresh-record id and the new random secret are parameters; the secret's
 * fingerprint (HMAC-SHA256 under the refresh key) is a deterministic function
 * fixed when the service is built.
 */
module Auth {
  import opened Common
  import opened Domain
  import opened Tokens
  import opened UserRepository

  /** A failure with the HTTP status the route layer answers with. */
  datatype AuthError = AuthError(message: string, status: nat)

  const ProviderInvalid: AuthError := AuthError("Auth provider must be google or sms.", 422)
  const IdentifierMissing: AuthError := AuthError("Email or phone number is required.", 422)
  const GoogleNeedsEmail: AuthError := AuthError("Google login requires an email.", 422)
  const SmsNeedsPhone: AuthError := AuthError("SMS login requires a phone number.", 422)
  const EmailInUse: AuthError := AuthError("A user with this email already exists.", 409)
  const PhoneInUse: AuthError := AuthError("A user with this phone number already exists.", 409)
  const UserInactive: AuthError := AuthError("User is inactive.", 403)
  const RefreshInvalid: AuthError := AuthError("Refresh token is invalid.", 401)
  const RefreshRevoked: AuthError := AuthError("Refresh token has been revoked.", 401)
  const RefreshExpired: AuthError := AuthError("Refresh token has expired.", 401)
  const OwnerNotFound: AuthError := AuthError("User not found.", 404)

  /** The login request: optional identifiers and the provider exactly as the client sent it. */
  datatype CreateUserInput = CreateUserInput(email: Option<string>, phoneNumber: Option<string>, authProvider: string)

  /** The service's configuration. `accessTokenLifetimeMs` is the signing library's reading of `accessTokenTtl`. */
  datatype Env = Env(jwtAccessSecret: string, accessTokenTtl: string, accessTokenLifetimeMs: nat, refreshTokenTtl: string)

  const BearerTokenType: string := "Bearer"

  /** What a login or a refresh hands back to the client. */
  datatype TokenPair = TokenPair(
    accessToken: SignedAccessToken,
    refreshToken: string,
    tokenType: string,
    accessTokenExpiresIn: string)

  /** JavaScript truthiness of an optional string: present and not empty. */
  predicate Truthy(s: Option<string>)
  {
    s.Some? && s.value != ""
  }

  /**
   * The input checks of `createUser`, in the source's order, the first
   * failure deciding the error. Taken together they admit exactly a Google
   * login with an email and an SMS login with a phone number.
   */
  function InputRejection(input: CreateUserInput): (r: Option<AuthError>)
    ensures r.None? <==>
      || (input.authProvider == "google" && Truthy(input.email))
      || (input.authProvider == "sms" && Truthy(input.phoneNumber))
    ensures r.Some? ==> r.value.status == 422
    ensures ParseProvider(input.authProvider).None? ==> r == Some(ProviderInvalid)
    ensures ParseProvider(input.authProvider).Some? && !Truthy(input.email) && !Truthy(input.phoneNumber)
            ==> r == Some(IdentifierMissing)
    ensures input.authProvider == "google" && !Truthy(input.email) && Truthy(input.phoneNumber)
            ==> r == Some(GoogleNeedsEmail)
    ensures input.authProvider == "sms" && !Truthy(input.phoneNumber) && Truthy(input.email)
            ==> r == Some(SmsNeedsPhone)
  {
    if input.authProvider != "google" && input.authProvider != "sms" then Some(ProviderInvalid)
    else if !Truthy(input.email) && !Truthy(input.phoneNumber) then Some(IdentifierMissing)
    else if input.authProvider == "google" && !Truthy(input.email) then Some(GoogleNeedsEmail)
    else if input.authProvider == "sms" && !Truthy(input.phoneNumber) then Some(SmsNeedsPhone)
    else None
  }

  ghost predicate EmailHeld(users: map<string, User>, email: string)
  {
    exists id | id in users :: users[id].email == Some(email)
  }

  ghost predicate PhoneHeld(users: map<string, User>, phoneNumber: string)
  {
    exists id | id in users :: users[id].phoneNumber == Some(phoneNumber)
  }

  /** No two users share a non-empty email, and no two share a non-empty phone number. */
  ghost predicate UniqueIdentities(users: map<string, User>)
  {
    forall a, b | a in users && b in users && a != b ::
      && (Truthy(users[a].email) ==> users[a].email != users[b].email)
      && (Truthy(users[a].phoneNumber) ==> users[a].phoneNumber != users[b].phoneNumber)
  }

  /** The whole check ladder of `createUser`: the input checks, then the two uniqueness checks. */
  ghost function CreateUserRejection(users: map<string, User>, input: CreateUserInput): (r: Option<AuthError>)
    ensures r.None? <==>
      && InputRejection(input).None?
      && !(Truthy(input.email) && EmailHeld(users, input.email.value))
      && !(Truthy(input.phoneNumber) && PhoneHeld(users, input.phoneNumber.value))
    ensures r.Some? ==> r.value.status == 422 || r.value.status == 409
    ensures InputRejection(input).Some? ==> r == InputRejection(input)
    ensures InputRejection(input).None? && Truthy(input.email) && EmailHeld(users, input.email.value)
            ==> r == Some(EmailInUse)
    ensures InputRejection(input).None? && !(Truthy(input.email) && EmailHeld(users, input.email.value))
            && Truthy(input.phoneNumber) && PhoneHeld(users, input.phoneNumber.value)
            ==> r == Some(PhoneInUse)
  {
    if InputRejection(input).Some? then InputRejection(input)
    else if Truthy(input.email) && EmailHeld(users, input.email.value) then Some(EmailInUse)
    else if Truthy(input.phoneNumber) && PhoneHeld(users, input.phoneNumber.value) then Some(PhoneInUse)
    else None
  }

  /** The record `createUser` hands to the repository; the repository stamps the two times. */
  function CreateUserRecord(input: CreateUserInput, id: string): (u: User)
    requires ParseProvider(input.authProvider).Some?
  {
    User(
      id := id,
      email := input.email,
      phoneNumber := input.phoneNumber,
      authProvider := ParseProvider(input.authProvider).value,
      createdAt := 0,
      lastLoginAt := None,
      isActive := true,
      updatedAt := 0,
      fullName := None,
      address := None,
      district := None,
      location := None,
      status := None,
      googleId := None)
  }

  /** The user `createUser` stores and returns. */
  function CreatedUser(input: CreateUserInput, id: string, now: Timestamp): User
    requires ParseProvider(input.authProvider).Some?
  {
    CreateUserRecord(input, id).(createdAt := now, updatedAt := now)
  }

  /** A new user is active, has never logged in and keeps the requested provider and identifiers. */
  lemma CreatedUserShape(input: CreateUserInput, id: string, now: Timestamp)
    requires InputRejection(input).None?
    ensures var u := CreatedUser(input, id, now);
      && u.id == id && u.isActive && u.lastLoginAt.None?
      && u.email == input.email && u.phoneNumber == input.phoneNumber
      && ParseProvider(input.authProvider) == Some(u.authProvider)
      && u.createdAt == u.updatedAt == now
      && (u.authProvider == Google ==> Truthy(u.email))
      && (u.authProvider == Sms ==> Truthy(u.phoneNumber))
  {
  }

  /** Adding a user whose non-empty identifiers nobody holds keeps identifiers unique. */
  lemma AddingFreshIdentityKeepsUnique(users: map<string, User>, input: CreateUserInput, id: string, now: Timestamp)
    requires UniqueIdentities(users)
    requires id !in users
    requires CreateUserRejection(users, input).None?
    ensures UniqueIdentities(users[id := CreatedUser(input, id, now)])
  {
    var u := CreatedUser(input, id, now);
    var s := users[id := u];
    forall a, b | a in s && b in s && a != b
      ensures && (Truthy(s[a].email) ==> s[a].email != s[b].email)
              && (Truthy(s[a].phoneNumber) ==> s[a].phoneNumber != s[b].phoneNumber)
    {
      if a == id {
        assert b in users && s[b] == users[b];
        if Truthy(u.email) { assert !EmailHeld(users, u.email.value); }
        if Truthy(u.phoneNumber) { assert !PhoneHeld(users, u.phoneNumber.value); }
      } else if b == id {
        assert a in users && s[a] == users[a];
        if Truthy(u.email) { assert !EmailHeld(users, u.email.value); }
        if Truthy(u.phoneNumber) { assert !PhoneHeld(users, u.phoneNumber.value); }
      }
    }
  }

  /** A patch never touches identifiers, so it keeps them unique. */
  lemma PatchKeepsUnique(users: map<string, User>, id: string, p: UserPatch, now: Timestamp)
    requires UniqueIdentities(users) && id in users
    ensures UniqueIdentities(users[id := ApplyPatch(users[id], p, now)])
  {
    var s := users[id := ApplyPatch(users[id], p, now)];
    assert forall k | k in s :: s[k].email == users[k].email && s[k].phoneNumber == users[k].phoneNumber;
  }

  /**
   * Once a user is created with an email or a phone number, any later valid
   * request that repeats that identifier is refused with 409.
   */
  lemma SecondUserWithSameIdentifierConflicts(
    users: map<string, User>, first: CreateUserInput, second: CreateUserInput, id: string, now: Timestamp)
    requires CreateUserRejection(users, first).None?
    requires InputRejection(second).None?
    requires (Truthy(first.email) && second.email == first.email)
          || (Truthy(first.phoneNumber) && second.phoneNumber == first.phoneNumber)
    ensures var after := users[id := CreatedUser(first, id, now)];
      && CreateUserRejection(after, second).Some?
      && CreateUserRejection(after, second).value.status == 409
  {
    var after := users[id := CreatedUser(first, id, now)];
    assert id in after;
    if Truthy(first.email) && second.email == first.email {
      assert EmailHeld(after, second.email.value);
    } else {
      assert PhoneHeld(after, second.phoneNumber.value);
    }
  }

  /**
   * The user that `getOrCreateUser` finds without creating one: the holder
   * of the email for a Google login, of the phone number for an SMS login.
   */
  ghost function ExistingLogin(users: map<string, User>, input: CreateUserInput): Option<User>
  {
    if input.authProvider == "google" && Truthy(input.email) && EmailHeld(users, input.email.value) then
      var id :| id in users && users[id].email == input.email; Some(users[id])
    else if input.authProvider == "sms" && Truthy(input.phoneNumber) && PhoneHeld(users, input.phoneNumber.value) then
      var id :| id in users && users[id].phoneNumber == input.phoneNumber; Some(users[id])
    else None
  }

  /** A login can go ahead: either it finds its user or creating one is allowed. */
  ghost predicate LoginResolves(users: map<string, User>, input: CreateUserInput)
  {
    ExistingLogin(users, input).Some? || CreateUserRejection(users, input).None?
  }

  /** The user a resolving login ends up with. */
  ghost function LoginUser(users: map<string, User>, input: CreateUserInput, newId: string, now: Timestamp): User
    requires LoginResolves(users, input)
  {
    if ExistingLogin(users, input).Some? then ExistingLogin(users, input).value
    else CreatedUser(input, newId, now)
  }

  /** The users after a resolving login has found or created its user. */
  ghost function UsersAfterLogin(users: map<string, User>, input: CreateUserInput, newId: string, now: Timestamp): map<string, User>
    requires LoginResolves(users, input)
  {
    if ExistingLogin(users, input).Some? then users else users[newId := CreatedUser(input, newId, now)]
  }

  /** The patch that stamps a login. */
  function LastLoginPatch(now: Timestamp): UserPatch
  {
    EmptyPatch.(lastLoginAt := Some(now))
  }

  /**
   * The refresh-token checks of `rotateRefreshToken`, in the source's order.
   * A presented fingerprint is honoured exactly when it names a record that
   * is neither revoked nor expired (a record expiring at `now` is expired)
   * and whose owner exists and is active.
   */
  function RotationRejection(t: TokenTables, users: map<string, User>, tokenHash: string, now: Timestamp): (r: Option<AuthError>)
    ensures r.None? <==>
      && tokenHash in t.byHash
      && t.byHash[tokenHash].revokedAt.None?
      && now < t.byHash[tokenHash].expiresAt
      && t.byHash[tokenHash].userId in users
      && users[t.byHash[tokenHash].userId].isActive
    ensures (r.Some? && r.value.status == 401) <==>
      (tokenHash !in t.byHash || t.byHash[tokenHash].revokedAt.Some? || t.byHash[tokenHash].expiresAt <= now)
    ensures tokenHash !in t.byHash ==> r == Some(RefreshInvalid)
    ensures tokenHash in t.byHash && t.byHash[tokenHash].revokedAt.Some? ==> r == Some(RefreshRevoked)
    ensures tokenHash in t.byHash && t.byHash[tokenHash].revokedAt.None? && t.byHash[tokenHash].expiresAt <= now
            ==> r == Some(RefreshExpired)
    ensures tokenHash in t.byHash && t.byHash[tokenHash].revokedAt.None? && now < t.byHash[tokenHash].expiresAt
            && t.byHash[tokenHash].userId !in users
            ==> r == Some(OwnerNotFound)
    ensures tokenHash in t.byHash && t.byHash[tokenHash].revokedAt.None? && now < t.byHash[tokenHash].expiresAt
            && t.byHash[tokenHash].userId in users && !users[t.byHash[tokenHash].userId].isActive
            ==> r == Some(UserInactive)
  {
    if tokenHash !in t.byHash then Some(RefreshInvalid)
    else
      var existing := t.byHash[tokenHash];
      if existing.revokedAt.Some? then Some(RefreshRevoked)
      else if existing.expiresAt <= now then Some(RefreshExpired)
      else if existing.userId !in users then Some(OwnerNotFound)
      else if !users[existing.userId].isActive then Some(UserInactive)
      else None
  }

  /** The indexes after a successful rotation: the new record is saved, then the spent one is marked replaced. */
  function Rotated(t: TokenTables, tokenHash: string, successor: RefreshTokenRecord, now: Timestamp): TokenTables
    requires tokenHash in t.byHash
  {
    Replaced(Saved(t, successor), t.byHash[tokenHash].id, successor.id, now)
  }

  /**
   * Rotation is single use: after a successful rotation the spent record is
   * revoked and points at its successor, so presenting the same secret again,
   * at any later time, is refused as revoked.
   */
  lemma RotationIsSingleUse(
    t: TokenTables, users: map<string, User>, tokenHash: string, successor: RefreshTokenRecord,
    now: Timestamp, later: Timestamp)
    requires Consistent(t)
    requires RotationRejection(t, users, tokenHash, now).None?
    requires successor.id !in t.byId && successor.tokenHash !in t.byHash
    ensures Consistent(Rotated(t, tokenHash, successor, now))
    ensures Rotated(t, tokenHash, successor, now).byHash[tokenHash].revokedAt == Some(now)
    ensures Rotated(t, tokenHash, successor, now).byHash[tokenHash].replacedByTokenId == Some(successor.id)
    ensures RotationRejection(Rotated(t, tokenHash, successor, now), users, tokenHash, later) == Some(RefreshRevoked)
  {
    var spent := t.byHash[tokenHash];
    var saved := Saved(t, successor);
    SavedKeepsConsistent(t, successor);
    assert saved.byId[spent.id] == spent;
    ReplacedKeepsConsistent(saved, spent.id, successor.id, now);
  }

  /**
   * The record a rotation saves is honoured afterwards, up to its expiry,
   * while its owner stays active.
   */
  lemma RotatedSuccessorIsLive(
    t: TokenTables, users: map<string, User>, tokenHash: string, successor: RefreshTokenRecord,
    now: Timestamp, later: Timestamp)
    requires Consistent(t)
    requires RotationRejection(t, users, tokenHash, now).None?
    requires successor.id !in t.byId && successor.tokenHash !in t.byHash
    requires successor.revokedAt.None? && successor.userId == t.byHash[tokenHash].userId
    requires later < successor.expiresAt
    ensures RotationRejection(Rotated(t, tokenHash, successor, now), users, successor.tokenHash, later).None?
  {
    var spent := t.byHash[tokenHash];
    var saved := Saved(t, successor);
    SavedKeepsConsistent(t, successor);
    ReplacedKeepsConsistent(saved, spent.id, successor.id, now);
    var rotated := Rotated(t, tokenHash, successor, now);
    assert rotated == Replaced(saved, spent.id, successor.id, now);
    assert successor.id != spent.id;
    assert rotated.byId[successor.id] == successor;
    assert rotated.byHash[successor.tokenHash] == successor;
    assert spent.userId in users && users[spent.userId].isActive;
  }

  /** A rotation rewrites no record but the spent one. */
  lemma RotationTouchesOnlySpent(t: TokenTables, tokenHash: string, successor: RefreshTokenRecord, now: Timestamp)
    requires Consistent(t)
    requires tokenHash in t.byHash && successor.id !in t.byId
    ensures forall id | id in t.byId && id != t.byHash[tokenHash].id ::
      Rotated(t, tokenHash, successor, now).byId[id] == t.byId[id]
  {
    var spent := t.byHash[tokenHash];
    var saved := Saved(t, successor);
    forall id | id in t.byId && id != spent.id
      ensures Rotated(t, tokenHash, successor, now).byId[id] == t.byId[id]
    {
      assert saved.byId[id] == t.byId[id];
      assert Replaced(saved, spent.id, successor.id, now).byId[id] == saved.byId[id];
    }
  }

  /**
   * Logout: revokes the record a fingerprint names unless it is unknown or
   * already revoked, in which case nothing changes.
   */
  function Logout(t: TokenTables, tokenHash: string, at: Timestamp): TokenTables
  {
    if tokenHash !in t.byHash || t.byHash[tokenHash].revokedAt.Some? then t
    else Revoked(t, t.byHash[tokenHash].id, at)
  }

  /**
   * Logout revokes the presented record, keeps an earlier revocation time,
   * and leaves every other record and the consistency of the indexes as they were.
   */
  lemma LogoutRevokesOnlyThatRecord(t: TokenTables, tokenHash: string, at: Timestamp)
    requires Consistent(t)
    ensures Consistent(Logout(t, tokenHash, at))
    ensures tokenHash !in t.byHash || t.byHash[tokenHash].revokedAt.Some? ==> Logout(t, tokenHash, at) == t
    ensures tokenHash in t.byHash && t.byHash[tokenHash].revokedAt.None? ==>
      && Logout(t, tokenHash, at).byHash[tokenHash] == t.byHash[tokenHash].(revokedAt := Some(at))
      && forall id | id in t.byId && id != t.byHash[tokenHash].id :: Logout(t, tokenHash, at).byId[id] == t.byId[id]
  {
    if tokenHash in t.byHash && t.byHash[tokenHash].revokedAt.None? {
      var id := t.byHash[tokenHash].id;
      RevokedKeepsConsistent(t, id, at);
      assert t.byId[id] == t.byHash[tokenHash];
      assert Logout(t, tokenHash, at) == Revoked(t, id, at);
    }
  }

  /** Logging out twice with the same secret is logging out once. */
  lemma LogoutIdempotent(t: TokenTables, tokenHash: string, first: Timestamp, second: Timestamp)
    requires Consistent(t)
    ensures Logout(Logout(t, tokenHash, first), tokenHash, second) == Logout(t, tokenHash, first)
  {
    LogoutRevokesOnlyThatRecord(t, tokenHash, first);
  }

  class AuthService {
    const repo: InMemoryUserRepository
    const env: Env
    /** The refresh-token fingerprint: HMAC-SHA256 under the refresh key, hex-encoded. */
    const fingerprint: string -> string

    /** The store is well formed, its token indexes agree and no two users share an identifier. */
    ghost predicate Invariant()
      reads repo
    {
      repo.Valid() && Consistent(repo.Tokens()) && UniqueIdentities(repo.users)
    }

    /** `createAuthService(repo)`. */
    constructor (repo: InMemoryUserRepository, env: Env, fingerprint: string -> string)
      requires repo.Valid() && Consistent(repo.Tokens()) && UniqueIdentities(repo.users)
      ensures this.repo == repo && this.env == env && this.fingerprint == fingerprint
      ensures Invariant()
    {
      this.repo := repo;
      this.env := env;
      this.fingerprint := fingerprint;
    }

    /**
     * `createUser(input)`: refuses with the first failing check and writes
     * nothing, or stores exactly one new active user that has never logged in.
     */
    method CreateUser(input: CreateUserInput, newId: string, now: Timestamp) returns (r: Result<User, AuthError>)
      requires Invariant()
      requires newId !in repo.users
      modifies repo
      ensures Invariant()
      ensures r.Err? <==> CreateUserRejection(old(repo.users), input).Some?
      ensures r.Err? ==>
        && r.error == CreateUserRejection(old(repo.users), input).value
        && repo.users == old(repo.users) && repo.userOrder == old(repo.userOrder)
      ensures r.Ok? ==>
        && r.value == CreatedUser(input, newId, now)
        && repo.users == old(repo.users)[newId := r.value]
        && repo.userOrder == old(repo.userOrder) + [newId]
      ensures repo.Tokens() == old(repo.Tokens())
    {
      var rejection := InputRejection(input);
      if rejection.Some? {
        return Err(rejection.value);
      }
      if Truthy(input.email) {
        var holder := repo.GetUserByEmail(input.email.value);
        if holder.Some? {
          assert EmailHeld(repo.users, input.email.value);
          return Err(EmailInUse);
        }
      }
      if Truthy(input.phoneNumber) {
        var holder := repo.GetUserByPhoneNumber(input.phoneNumber.value);
        if holder.Some? {
          assert PhoneHeld(repo.users, input.phoneNumber.value);
          return Err(PhoneInUse);
        }
      }
      AddingFreshIdentityKeepsUnique(repo.users, input, newId, now);
      var u := repo.CreateUser(CreateUserRecord(input, newId), now);
      r := Ok(u);
    }

    /**
     * `getOrCreateUser(input)`: a Google login with a known email, or an SMS
     * login with a known phone number, returns that user and writes nothing;
     * any other request is `createUser`.
     */
    method GetOrCreateUser(input: CreateUserInput, newId: string, now: Timestamp) returns (r: Result<User, AuthError>)
      requires Invariant()
      requires newId !in repo.users
      modifies repo
      ensures Invariant()
      ensures repo.Tokens() == old(repo.Tokens())
      ensures ExistingLogin(old(repo.users), input).Some? ==>
        && r == Ok(ExistingLogin(old(repo.users), input).value)
        && repo.users == old(repo.users) && repo.userOrder == old(repo.userOrder)
      ensures ExistingLogin(old(repo.users), input).None? ==>
        && (r.Err? <==> CreateUserRejection(old(repo.users), input).Some?)
        && (r.Err? ==>
              && r.error == CreateUserRejection(old(repo.users), input).value
              && repo.users == old(repo.users) && repo.userOrder == old(repo.userOrder))
        && (r.Ok? ==>
              && r.value == CreatedUser(input, newId, now)
              && repo.users == old(repo.users)[newId := r.value]
              && repo.userOrder == old(repo.userOrder) + [newId])
    {
      if input.authProvider == "google" && Truthy(input.email) {
        var existing := repo.GetUserByEmail(input.email.value);
        if existing.Some? {
          assert EmailHeld(repo.users, input.email.value);
          return Ok(existing.value);
        }
      }
      if input.authProvider == "sms" && Truthy(input.phoneNumber) {
        var existing := repo.GetUserByPhoneNumber(input.phoneNumber.value);
        if existing.Some? {
          assert PhoneHeld(repo.users, input.phoneNumber.value);
          return Ok(existing.value);
        }
      }
      r := CreateUser(input, newId, now);
    }

    /**
     * `issueTokens(input)`: resolves the user as `getOrCreateUser` does;
     * refuses an inactive user with 403 and writes nothing; otherwise saves
     * exactly one new, unrevoked refresh record for the user, stamps
     * `lastLoginAt` and returns a Bearer pair. A created user joins the end
     * of the iteration order; otherwise the order is unchanged.
     */
    method IssueTokens(input: CreateUserInput, newUserId: string, tokenId: string, secret: string, now: Timestamp)
      returns (r: Result<TokenPair, AuthError>)
      requires Invariant()
      requires newUserId !in repo.users
      requires tokenId !in repo.refreshTokensById && fingerprint(secret) !in repo.refreshTokensByHash
      modifies repo
      ensures Invariant()
      ensures !LoginResolves(old(repo.users), input) ==>
        && r == Err(CreateUserRejection(old(repo.users), input).value)
        && repo.users == old(repo.users) && repo.Tokens() == old(repo.Tokens())
      ensures LoginResolves(old(repo.users), input) && !LoginUser(old(repo.users), input, newUserId, now).isActive ==>
        && r == Err(UserInactive)
        && repo.users == old(repo.users) && repo.Tokens() == old(repo.Tokens())
      ensures r.Ok? <==> LoginResolves(old(repo.users), input) && LoginUser(old(repo.users), input, newUserId, now).isActive
      ensures r.Ok? ==>
        var user := LoginUser(old(repo.users), input, newUserId, now);
        var issued := CreateRefreshToken(user.id, now, tokenId, secret, fingerprint, env.refreshTokenTtl);
        && r.value == TokenPair(
             SignAccessToken(user.id, user.authProvider, env.jwtAccessSecret, now, env.accessTokenLifetimeMs),
             secret, BearerTokenType, env.accessTokenTtl)
        && repo.Tokens() == Saved(old(repo.Tokens()), issued.record)
        && repo.users == UsersAfterLogin(old(repo.users), input, newUserId, now)[user.id := ApplyPatch(user, LastLoginPatch(now), now)]
      ensures repo.userOrder ==
        if r.Ok? && ExistingLogin(old(repo.users), input).None? then old(repo.userOrder) + [newUserId]
        else old(repo.userOrder)
    {
      var resolved := GetOrCreateUser(input, newUserId, now);
      if resolved.Err? {
        return Err(resolved.error);
      }
      var user := resolved.value;
      if !user.isActive {
        return Err(UserInactive);
      }
      var accessToken := SignAccessToken(user.id, user.authProvider, env.jwtAccessSecret, now, env.accessTokenLifetimeMs);
      var issued := CreateRefreshToken(user.id, now, tokenId, secret, fingerprint, env.refreshTokenTtl);
      SavedKeepsConsistent(repo.Tokens(), issued.record);
      repo.SaveRefreshToken(issued.record);
      assert user.id in repo.users && repo.users[user.id] == user;
      PatchKeepsUnique(repo.users, user.id, LastLoginPatch(now), now);
      var _ := repo.UpdateUser(user.id, LastLoginPatch(now), now);
      r := Ok(TokenPair(accessToken, issued.token, BearerTokenType, env.accessTokenTtl));
    }

    /**
     * `rotateRefreshToken(refreshToken)`: refuses an unknown, revoked or
     * expired token with 401, a vanished owner with 404 and an inactive one
     * with 403, writing nothing; otherwise saves a record for a new secret and
     * marks the spent record revoked and replaced by it.
     */
    method RotateRefreshToken(refreshToken: string, tokenId: string, newSecret: string, now: Timestamp)
      returns (r: Result<TokenPair, AuthError>)
      requires Invariant()
      requires tokenId !in repo.refreshTokensById && fingerprint(newSecret) !in repo.refreshTokensByHash
      modifies repo
      ensures Invariant()
      ensures repo.users == old(repo.users) && repo.userOrder == old(repo.userOrder)
      ensures var rejection := RotationRejection(old(repo.Tokens()), old(repo.users), fingerprint(refreshToken), now);
        rejection.Some? ==> r == Err(rejection.value) && repo.Tokens() == old(repo.Tokens())
      ensures RotationRejection(old(repo.Tokens()), old(repo.users), fingerprint(refreshToken), now).None? ==>
        var spent := old(repo.refreshTokensByHash)[fingerprint(refreshToken)];
        var user := old(repo.users)[spent.userId];
        var issued := CreateRefreshToken(user.id, now, tokenId, newSecret, fingerprint, env.refreshTokenTtl);
        && user.id == spent.userId
        && r == Ok(TokenPair(
             SignAccessToken(user.id, user.authProvider, env.jwtAccessSecret, now, env.accessTokenLifetimeMs),
             newSecret, BearerTokenType, env.accessTokenTtl))
        && repo.Tokens() == Rotated(old(repo.Tokens()), fingerprint(refreshToken), issued.record, now)
    {
      var tokenHash := fingerprint(refreshToken);
      var existing := repo.GetRefreshTokenByHash(tokenHash);
      if existing.None? {
        return Err(RefreshInvalid);
      }
      var spent := existing.value;
      if spent.revokedAt.Some? {
        return Err(RefreshRevoked);
      }
      if spent.expiresAt <= now {
        return Err(RefreshExpired);
      }
      var owner := repo.GetUserById(spent.userId);
      if owner.None? {
        return Err(OwnerNotFound);
      }
      var user := owner.value;
      if !user.isActive {
        return Err(UserInactive);
      }
      var accessToken := SignAccessToken(user.id, user.authProvider, env.jwtAccessSecret, now, env.accessTokenLifetimeMs);
      var issued := CreateRefreshToken(user.id, now, tokenId, newSecret, fingerprint, env.refreshTokenTtl);
      RotationIsSingleUse(repo.Tokens(), repo.users, tokenHash, issued.record, now, now);
      repo.SaveRefreshToken(issued.record);
      repo.ReplaceRefreshToken(spent.id, issued.record.id, now);
      r := Ok(TokenPair(accessToken, issued.token, BearerTokenType, env.accessTokenTtl));
    }

    /**
     * `revokeRefreshToken(refreshToken)`: logout. An unknown or already
     * revoked token changes nothing and the caller cannot tell the two apart.
     */
    method RevokeRefreshToken(refreshToken: string, now: Timestamp)
      requires Invariant()
      modifies repo
      ensures Invariant()
      ensures repo.Tokens() == Logout(old(repo.Tokens()), fingerprint(refreshToken), now)
      ensures repo.users == old(repo.users) && repo.userOrder == old(repo.userOrder)
    {
      var tokenHash := fingerprint(refreshToken);
      var existing := repo.GetRefreshTokenByHash(tokenHash);
      if existing.None? || existing.value.revokedAt.Some? {
        return;
      }
      LogoutRevokesOnlyThatRecord(repo.Tokens(), tokenHash, now);
      repo.RevokeRefreshToken(existing.value.id, now);
    }
  }
}
