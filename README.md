# Backend session core, modelled in Dafny

This project models the session core of the mobile app's backend. The parts modelled are:

- the in-memory user repository: a users map and two refresh-token indexes, one by record id and one by the secret's fingerprint;
- the auth service that runs on that repository:
  - `createUser` with its validation ladder;
  - `getOrCreateUser`;
  - `issueTokens`;
  - rotate-on-use `rotateRefreshToken`;
  - logout via `revokeRefreshToken`;
- the token utilities: `parseDurationToMs`, refresh-record construction and the access-token claims;
- the profile update rule, which trims, validates, writes the location and promotes the user to `ACTIVE`;
- the district fallback `selectDistrict`;
- the two request guards: `authenticate`, which reads the Bearer header, and the user-context guard from `createUserContext`.

Modules, one per file:

- `Common` (`common.dfy`): `Option` and `Result`.
- `Domain` (`domain.dfy`): the user and refresh-token records, and the partial-update patch (`{...current, ...updates}`).
- `JsText` (`js_text.dfy`): JavaScript `String.prototype.trim` and `split(' ')`.
- `Tokens` (`tokens.dfy`): `apps/backend/src/utils/tokens.ts`.
- `UserRepository` (`user_repository.dfy`): `apps/backend/src/repositories/inMemoryUserRepository.ts`. The repository is a class whose `map` fields its methods reassign. The token indexes also have a value-level specification: `Saved`, `Revoked`, `Replaced` and the index-agreement invariant `Consistent`.
- `Auth` (`auth_service.dfy`): `apps/backend/src/services/authService.ts`. Each check ladder is a function, each service operation is a method on `AuthService`, and every method's `ensures` ties the new store to those functions.
- `Profile` (`profile_service.dfy`): `apps/backend/src/services/profileService.ts`.
- `LocationService` (`location_service.dfy`): `selectDistrict`.
- `Middleware` (`middleware.dfy`): `apps/backend/src/middlewares/authenticate.ts` and `attachUser.ts`. Each guard is a function from the request to its outcome: either an error status with its message, or `next` with the value it attaches to the request.

Conventions:

- Clocks are a `now: nat` parameter in milliseconds, and ISO timestamps are those milliseconds.
- Random UUIDs and secrets are parameters supplied by the caller. Each method that stores one requires it to be new to the store.
- The refresh-token fingerprint is HMAC-SHA256 under the refresh key. It is an opaque, deterministic `string -> string` held by `AuthService`.
- A JWT is its claims together with the key that signed it.
- The insertion order of the users `Map` is the `userOrder` field. The lookups `getUserByEmail`, `getUserByPhoneNumber` and `getUserByGoogleId` are specified against `FirstMatch`, the first match in that order.

Behaviour of the code that the model keeps as written:

- A Google login whose email is already held returns that user, whatever provider the user signed up with (`apps/backend/src/services/authService.ts:76-81`). Nothing refuses an email collision across providers.
- `createUser` takes no external id, and a Google login needs only an email (`apps/backend/src/services/authService.ts:20-24`, `:46-48`).
- An expired refresh record is refused with 401 and stays as it is; it is not marked revoked (`apps/backend/src/services/authService.ts:130-132`).
- Presenting a spent refresh token is refused as revoked, and no other record of its rotation chain is touched (`apps/backend/src/services/authService.ts:126-128`).
- The repository interface declares neither `updateUser` nor `getUserByGoogleId` (`apps/backend/src/repositories/userRepository.ts:5-18`), and `UpdateUserInput` is imported but never declared (`apps/backend/src/repositories/inMemoryUserRepository.ts:2`). The model follows the operations the in-memory repository has (`apps/backend/src/repositories/inMemoryUserRepository.ts:96-107`). Patches carry only the fields callers pass: the last-login time and the profile fields.
- `User` declares no profile fields and no `googleId` (`apps/backend/src/domain/user.ts:3-12`). The code writes the profile fields (`apps/backend/src/services/profileService.ts:47-54`, `:64`) and reads `googleId` (`apps/backend/src/repositories/inMemoryUserRepository.ts:50-52`), so the model's `User` carries them as optional fields.

## Model

| member | source | states |
|---|---|---|
| Domain.ApplyPatch | apps/backend/src/repositories/inMemoryUserRepository.ts:27-31 | the patched user keeps id, identifiers, provider, creation time and activity; `updatedAt` is the new time; each patchable field takes the patch's value when given, else keeps its value |
| Domain.ApplyPatchTwice | apps/backend/src/services/profileService.ts:57-65 | two successive updates equal one update with the merged patch, the later write winning |
| JsText.Trim | apps/backend/src/services/profileService.ts:39-41 | the result has no leading or trailing JavaScript whitespace |
| JsText.TrimIsInfix | apps/backend/src/services/profileService.ts:39-41 | the trimmed string is a contiguous piece of the input with only whitespace cut off either side |
| JsText.TrimEmptyIffWhitespace | apps/backend/src/services/profileService.ts:43 | a trimmed field is empty exactly when the field is all whitespace |
| JsText.TrimIdempotent | apps/backend/src/services/profileService.ts:22-28 | trimming an already trimmed field changes nothing |
| JsText.Split | apps/backend/src/middlewares/authenticate.ts:16 | a split yields at least one piece and no piece contains the separator |
| JsText.JoinSplit | apps/backend/src/middlewares/authenticate.ts:16 | joining the pieces with the separator gives back the string |
| JsText.SplitHead | apps/backend/src/middlewares/authenticate.ts:16 | the first piece is the longest separator-free prefix; the other pieces are the split of what follows the separator after it |
| JsText.SplitAtSeparator | apps/backend/src/middlewares/authenticate.ts:16 | splitting `a + sep + b` is splitting `a`, then splitting `b` |
| JsText.SplitWithoutSeparator | apps/backend/src/middlewares/authenticate.ts:16 | a string without the separator splits into itself alone |
| Tokens.Decimal | apps/backend/src/utils/tokens.ts:13 | the decimal numeral of a number is a non-empty digit string |
| Tokens.DigitsValueOfDecimal | apps/backend/src/utils/tokens.ts:19 | `Number()` of a number's decimal numeral is that number |
| Tokens.ParseDurationToMs | apps/backend/src/utils/tokens.ts:12-17 | a value that does not match `^\d+[smhd]$` (any case) gives the fallback unchanged |
| Tokens.DurationOfNumeral | apps/backend/src/utils/tokens.ts:19-29 | `<n><unit>` is n times 1000, 60000, 3600000 or 86400000 for s, m, h, d |
| Tokens.DurationUnitIgnoresCase | apps/backend/src/utils/tokens.ts:13-20 | an upper-case unit letter means the same as the lower-case one |
| Tokens.DurationExamples | apps/backend/src/utils/tokens.ts:12-29 | `15m` and `015m` give 900000, `2H` gives 7200000 and `30d` gives 2592000000; `15`, `1.5h`, ` 15m`, `15min`, `m` and the empty string give the fallback |
| Tokens.CreateRefreshToken | apps/backend/src/utils/tokens.ts:62-81 | a new record has the given id and owner, is found by fingerprinting the returned secret, is neither revoked nor replaced, and expires one parsed refresh lifetime after creation |
| Tokens.NewRefreshRecord | apps/backend/src/utils/tokens.ts:70 | with the default `30d` setting, or any setting the parser refuses, a new record lives exactly 30 days |
| Tokens.JwtExpiry | apps/backend/src/utils/tokens.ts:38-42 | the `exp` claim counts whole seconds: a multiple of 1000 ms, never later than issue time plus lifetime and less than two seconds earlier |
| Tokens.SignAccessToken | apps/backend/src/utils/tokens.ts:32-43 | the token carries `{sub: userId, provider, type: 'access'}`, issuer `backend`, audience `mobile`, the access key, and a whole-second expiry within two seconds before issue time plus lifetime |
| Tokens.VerifyAccessToken | apps/backend/src/utils/tokens.ts:45-52 | verification yields the payload exactly when the key, issuer `backend`, audience `mobile` and expiry all check out |
| Tokens.VerifySignedAccessToken | apps/backend/src/utils/tokens.ts:32-52 | a signed token verifies under the same secret before its whole-second expiry, giving back `{sub, provider, type: 'access'}`; under another secret or from that expiry on it fails |
| Tokens.AccessTokenExpiresOnWholeSecond | apps/backend/src/utils/tokens.ts:38-49 | a token signed at 1999 ms for fifteen minutes is refused at 901000 ms, before 1999 + 900000 ms, and still accepted at 900999 ms |
| UserRepository.SavedKeepsConsistent | apps/backend/src/repositories/inMemoryUserRepository.ts:54-57 | saving a record with a new id and fingerprint keeps both indexes in agreement and files the record under both keys |
| UserRepository.SavingReusedFingerprintBreaksConsistency | apps/backend/src/repositories/inMemoryUserRepository.ts:54-57 | saving a second record under an existing fingerprint leaves the first record's by-id entry without a matching by-hash entry |
| UserRepository.RewrittenKeepsConsistent | apps/backend/src/repositories/inMemoryUserRepository.ts:70-72 | writing an updated record with the same id and fingerprint to both indexes keeps them in agreement |
| UserRepository.RewrittenFrame | apps/backend/src/repositories/inMemoryUserRepository.ts:70-72 | such a write changes no other record in either index |
| UserRepository.RevokedKeepsConsistent | apps/backend/src/repositories/inMemoryUserRepository.ts:63-73 | revocation keeps the indexes in agreement, sets only `revokedAt`, and changes nothing for an unknown id |
| UserRepository.ReplacedKeepsConsistent | apps/backend/src/repositories/inMemoryUserRepository.ts:75-94 | replacement keeps the indexes in agreement, sets only `revokedAt` and `replacedByTokenId`, and changes nothing for an unknown id |
| UserRepository.FirstMatch | apps/backend/src/repositories/inMemoryUserRepository.ts:40-52 | the result satisfies the predicate and is a stored user; there is none exactly when no user in iteration order satisfies it |
| UserRepository.InMemoryUserRepository.constructor | apps/backend/src/repositories/inMemoryUserRepository.ts:6-9 | the store starts with three empty maps |
| UserRepository.InMemoryUserRepository.CreateUser | apps/backend/src/repositories/inMemoryUserRepository.ts:11-18 | the input, stamped with `createdAt == updatedAt == now`, is stored under its id and returned; the id joins the iteration order if new |
| UserRepository.InMemoryUserRepository.UpdateUser | apps/backend/src/repositories/inMemoryUserRepository.ts:20-36 | an unknown id gives `None` and no change; otherwise the patched user replaces the stored one and is returned |
| UserRepository.InMemoryUserRepository.GetUserById | apps/backend/src/repositories/inMemoryUserRepository.ts:38 | the stored user under that id, `None` exactly when absent |
| UserRepository.InMemoryUserRepository.FindUser | apps/backend/src/repositories/inMemoryUserRepository.ts:41 | the loop over the iteration order returns `FirstMatch` |
| UserRepository.InMemoryUserRepository.GetUserByEmail | apps/backend/src/repositories/inMemoryUserRepository.ts:40-42 | a stored user with that email, the first in iteration order; `None` exactly when no user has it |
| UserRepository.InMemoryUserRepository.GetUserByPhoneNumber | apps/backend/src/repositories/inMemoryUserRepository.ts:44-48 | a stored user with that phone number, the first in iteration order; `None` exactly when no user has it |
| UserRepository.InMemoryUserRepository.GetUserByGoogleId | apps/backend/src/repositories/inMemoryUserRepository.ts:50-52 | a stored user with that Google id, the first in iteration order; `None` exactly when no user has it |
| UserRepository.InMemoryUserRepository.SaveRefreshToken | apps/backend/src/repositories/inMemoryUserRepository.ts:54-57 | the indexes become `Saved(old, record)`; users untouched |
| UserRepository.InMemoryUserRepository.GetRefreshTokenByHash | apps/backend/src/repositories/inMemoryUserRepository.ts:59-61 | the record filed under that fingerprint, `None` exactly when absent |
| UserRepository.InMemoryUserRepository.RevokeRefreshToken | apps/backend/src/repositories/inMemoryUserRepository.ts:63-73 | the indexes become `Revoked(old, id, at)`; users untouched |
| UserRepository.InMemoryUserRepository.ReplaceRefreshToken | apps/backend/src/repositories/inMemoryUserRepository.ts:75-94 | the indexes become `Replaced(old, id, newId, at)`; users untouched |
| Auth.InputRejection | apps/backend/src/services/authService.ts:38-52 | the input checks, first failure deciding, all 422; they pass exactly for a Google login with a non-empty email or an SMS login with a non-empty phone number; an unknown provider comes first, then a missing identifier, then a Google login without email, then an SMS login without phone number, each with its own message |
| Auth.CreateUserRejection | apps/backend/src/services/authService.ts:38-60 | `createUser` is refused exactly when an input check fails or a non-empty email or phone number is already held; a failed input check decides first, then a held email (409 email message), then a held phone number (409 phone message) |
| Auth.CreatedUserShape | apps/backend/src/services/authService.ts:62-69 | a new user has the new id, is active, has never logged in, keeps the requested provider and identifiers, and has `createdAt == updatedAt` |
| Auth.AddingFreshIdentityKeepsUnique | apps/backend/src/services/authService.ts:54-69 | a user admitted by the uniqueness checks keeps every non-empty email and phone number held by at most one user |
| Auth.PatchKeepsUnique | apps/backend/src/services/authService.ts:107 | a last-login or profile update keeps identifiers unique |
| Auth.SecondUserWithSameIdentifierConflicts | apps/backend/src/services/authService.ts:54-60 | after a user is created, a valid request repeating its email or phone number is refused with 409 |
| Auth.RotationRejection | apps/backend/src/services/authService.ts:119-142 | a presented fingerprint is honoured exactly when its record exists, is unrevoked, expires after now, and has an existing, active owner; the 401 cases are exactly unknown, revoked or expired, in that order, each with its own message; a live record whose owner is gone gives 404, an inactive owner 403 |
| Auth.RotationIsSingleUse | apps/backend/src/services/authService.ts:144-149 | after a rotation the spent record is revoked and replaced by the new id, the indexes still agree, and presenting the same secret again at any later time is refused as revoked |
| Auth.RotatedSuccessorIsLive | apps/backend/src/services/authService.ts:145-148 | the record a rotation saves is honoured up to its expiry while its owner is active |
| Auth.RotationTouchesOnlySpent | apps/backend/src/services/authService.ts:148-149 | a rotation rewrites no existing record but the spent one |
| Auth.LogoutRevokesOnlyThatRecord | apps/backend/src/services/authService.ts:160-169 | logout keeps the indexes in agreement; an unknown or revoked token changes nothing; otherwise only that record gains `revokedAt` |
| Auth.LogoutIdempotent | apps/backend/src/services/authService.ts:160-169 | logging out twice with one secret is logging out once |
| Auth.AuthService.constructor | apps/backend/src/services/authService.ts:33 | the service starts over a well-formed store whose indexes agree and whose identifiers are unique |
| Auth.AuthService.CreateUser | apps/backend/src/services/authService.ts:35-70 | refused exactly when `CreateUserRejection` says so, with that error and no write; otherwise exactly one new user, `CreatedUser`, is stored; tokens untouched; uniqueness kept |
| Auth.AuthService.GetOrCreateUser | apps/backend/src/services/authService.ts:73-91 | a Google login with a held email or an SMS login with a held phone number returns that user with no write; anything else behaves as `CreateUser` |
| Auth.AuthService.IssueTokens | apps/backend/src/services/authService.ts:94-115 | refusals come from user resolution or, with 403 and no token write, from an inactive user; on success exactly one new unrevoked record for the user is saved, `lastLoginAt` becomes now, and the pair has type `Bearer`, the configured lifetime and the new secret; a created user joins the end of the iteration order, which is otherwise unchanged, refusals included |
| Auth.AuthService.RotateRefreshToken | apps/backend/src/services/authService.ts:118-157 | refused exactly as `RotationRejection` says, with no write; otherwise the indexes become `Rotated(old, …)` and the pair carries the new secret and an access token for the owner; users untouched |
| Auth.AuthService.RevokeRefreshToken | apps/backend/src/services/authService.ts:160-169 | the indexes become `Logout(old, fingerprint(secret), now)`; users untouched |
| Profile.FilledIffHasText | apps/backend/src/services/profileService.ts:24-26 | `Boolean(field?.trim())` holds exactly for a present field that is not all whitespace |
| Profile.IsProfileComplete | apps/backend/src/services/profileService.ts:22-28 | a user is complete exactly when name, address and district are all present and none is only whitespace |
| Profile.FilledAfterTrim | apps/backend/src/services/profileService.ts:22-41 | a stored trimmed field counts as filled exactly when it is not empty |
| Profile.ProfileWriteCompletes | apps/backend/src/services/profileService.ts:22-51 | after the profile write the user is complete exactly when none of the submitted fields is blank |
| Profile.UpdatedProfileShape | apps/backend/src/services/profileService.ts:47-65 | a successful update stores the trimmed fields, writes the location only when both coordinates are given, leaves the user `ACTIVE` and complete, and keeps identity, login and activity fields |
| Profile.ProfileService.constructor | apps/backend/src/services/profileService.ts:30 | the service works on the given repository |
| Profile.ProfileService.UpdateProfile | apps/backend/src/services/profileService.ts:31-68 | an unknown user gives 404 and a blank field 422, both before any write; otherwise the stored user becomes `UpdatedProfile` and is returned as re-read; the 500 branch is unreachable; tokens and order untouched |
| LocationService.FirstPresent | apps/backend/src/services/locationService.ts:18-28 | `None` exactly when no key is present; otherwise one of the map's values |
| LocationService.FirstPresentIsFirst | apps/backend/src/services/locationService.ts:18-28 | the value under the first present key is the one chosen |
| LocationService.SelectDistrict | apps/backend/src/services/locationService.ts:13-29 | no address gives `null`; the result is `null` exactly when none of the eight keys is present, and otherwise one of the address's values |
| LocationService.SelectDistrictPriority | apps/backend/src/services/locationService.ts:19-26 | the first present key in the order `city_district`, `state_district`, `county`, `suburb`, `neighbourhood`, `city`, `town`, `village` decides |
| LocationService.EmptyValueWins | apps/backend/src/services/locationService.ts:18-27 | a present key with an empty value still wins over later keys |
| Middleware.BearerToken | apps/backend/src/middlewares/authenticate.ts:16-20 | an accepted token is non-empty and contains no space |
| Middleware.BearerTokenCharacterised | apps/backend/src/middlewares/authenticate.ts:16-20 | the header yields token `t` exactly when it is `Bearer`, one space and `t`, with `t` non-empty and space-free, followed by the end or a space |
| Middleware.AcceptedHeaderHasBearerForm | apps/backend/src/middlewares/authenticate.ts:16-20 | an accepted header has that form around its token |
| Middleware.BearerFormAccepted | apps/backend/src/middlewares/authenticate.ts:16-20 | a header of that form is accepted with that token, whatever follows the next space |
| Middleware.VerifyAccessTokenString | apps/backend/src/utils/tokens.ts:45-52 | the wire token yields its decoded payload exactly when it decodes, was signed with the access key for issuer `backend` and audience `mobile`, and has not expired |
| Middleware.Authenticate | apps/backend/src/middlewares/authenticate.ts:4-29 | every refusal is 401; the request proceeds exactly when the header carries a Bearer token that verifies, and then carries its subject and provider |
| Middleware.SignedTokenAuthenticates | apps/backend/src/middlewares/authenticate.ts:16-25 | a token the backend signed, sent as `Bearer <token>` before its whole-second expiry, lets the request through as its user |
| Middleware.MalformedHeadersRejected | apps/backend/src/middlewares/authenticate.ts:12-20 | a missing or empty header gives `Missing Authorization header.`; `Bearer  t`, `bearer t` and a bare `Bearer` give `Invalid Authorization header.` |
| Middleware.UserContext | apps/backend/src/middlewares/attachUser.ts:5-24 | the user is attached exactly when there is an auth context whose user exists and is active, and it is the stored user; no context or an unknown user is 401, an inactive user 403 |

## Left out

- `reverseGeocode`: an HTTP call with a timeout.
- Crypto internals: HMAC-SHA256, `crypto.randomBytes` and `crypto.randomUUID`. The fingerprint is an opaque function, and ids and secrets are parameters.
- JWT encoding: the compact wire form is an opaque decoding parameter of `Authenticate`, and the lifetime the signing library reads from `accessTokenTtl` is a parameter of `SignAccessToken`. The whole-second `iat` and `exp` claims are modelled by `JwtExpiry`. Clock tolerance and `notBefore` are not modelled; the source sets neither.
- Environment parsing in `apps/backend/src/config/env.ts`. Its values are parameters (`Env`).
- Tokens.ParseDurationToMs: reads the digits as an exact natural number. It does not model the floating-point rounding of `Number()` on very long digit strings, or `Date` range limits on the resulting expiry.
- Latitude and longitude are `real` values. Only whether each is present is modelled; floating-point behaviour is not.
- The Express wiring, routes and the whole mobile app.
- Google ID-token exchange, assertion replay protection, account linking by external id, and revoking a whole rotation chain on reuse. None of these has an implementation in the modelled files.
- Auth.AuthService.IssueTokens: uses one clock reading per operation. The source reads the clock separately for signing, record creation and the last-login stamp.
- Auth.AuthService.RotateRefreshToken: uses one clock reading for four values the source reads from separate clock calls. These are the expiry check (`Date.now()`, `apps/backend/src/services/authService.ts:130`), the new access token's issue time (`jwt.sign`, `apps/backend/src/utils/tokens.ts:38`), the new record's `createdAt` and `expiresAt` (`new Date()`, `apps/backend/src/utils/tokens.ts:66`), and the replacement stamp (`apps/backend/src/services/authService.ts:146`).
- Profile.ProfileService.UpdateProfile: uses one clock reading for both writes. In the source each `updateUser` call stamps its own `new Date()` (`apps/backend/src/repositories/inMemoryUserRepository.ts:30`), so the returned user's `updatedAt` is the second reading.
- The aliasing of the user object returned by `createUser` with the stored one is not modelled. Users are values.
