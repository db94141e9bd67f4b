/**
 * The backend's records (apps/backend/src/domain/user.ts) and the partial
 * update that the in-memory repository merges into a stored user.
 */
module Domain {
  import opened Common

  /** An instant, as milliseconds since the Unix epoch (the source stores ISO-8601 strings). */
  type Timestamp = nat

  /** The two login providers the backend recognises. */
  datatype AuthProvider = Google | Sms

  /** Reads a provider as a client sends it; any other string is unrecognised. */
  function ParseProvider(s: string): Option<AuthProvider>
  {
    if s == "google" then Some(Google) else if s == "sms" then Some(Sms) else None
  }

  /** The status value that marks a user whose profile is complete. */
  const ActiveStatus: string := "ACTIVE"

  /** A point on the map; the source's floating-point pair, whose values are never inspected. */
  datatype Location = Location(latitude: real, longitude: real)

  /**
   * A stored user. The first eight fields are the declared `User` type; the
   * profile fields and `status` are written by the profile service and
   * `googleId` is read by the repository's Google-id lookup, although the
   * declared type lists none of them. An absent optional field is `None`.
   */
  datatype User = User(
    id: string,
    email: Option<string>,
    phoneNumber: Option<string>,
    authProvider: AuthProvider,
    createdAt: Timestamp,
    lastLoginAt: Option<Timestamp>,
    isActive: bool,
    updatedAt: Timestamp,
    fullName: Option<string>,
    address: Option<string>,
    district: Option<string>,
    location: Option<Location>,
    status: Option<string>,
    googleId: Option<string>)

  /** One issued refresh token; the raw secret is never stored, only its fingerprint. */
  datatype RefreshTokenRecord = RefreshTokenRecord(
    id: string,
    userId: string,
    tokenHash: string,
    expiresAt: Timestamp,
    createdAt: Timestamp,
    revokedAt: Option<Timestamp>,
    replacedByTokenId: Option<string>)

  /**
   * The fields a caller may overwrite in a stored user (the repository's
   * update input): a `Some` field is written, a `None` field is kept.
   */
  datatype UserPatch = UserPatch(
    lastLoginAt: Option<Timestamp>,
    fullName: Option<string>,
    address: Option<string>,
    district: Option<string>,
    location: Option<Location>,
    status: Option<string>)

  const EmptyPatch: UserPatch := UserPatch(None, None, None, None, None, None)

  /** The value of one optional field after a patch: the patch's value when it has one. */
  function Override<T>(patch: Option<T>, current: Option<T>): Option<T>
  {
    if patch.Some? then patch else current
  }

  /**
   * The user after `{ ...current, ...updates, updatedAt: now }`: the fields
   * named in the patch are replaced, `updatedAt` is stamped and every other
   * field keeps its value.
   */
  function ApplyPatch(u: User, p: UserPatch, now: Timestamp): (r: User)
    ensures r.id == u.id && r.email == u.email && r.phoneNumber == u.phoneNumber
    ensures r.authProvider == u.authProvider && r.createdAt == u.createdAt
    ensures r.isActive == u.isActive && r.googleId == u.googleId
    ensures r.updatedAt == now
    ensures p.lastLoginAt.Some? ==> r.lastLoginAt == p.lastLoginAt
    ensures p.lastLoginAt.None? ==> r.lastLoginAt == u.lastLoginAt
    ensures p.fullName.Some? ==> r.fullName == p.fullName
    ensures p.fullName.None? ==> r.fullName == u.fullName
    ensures p.address.Some? ==> r.address == p.address
    ensures p.address.None? ==> r.address == u.address
    ensures p.district.Some? ==> r.district == p.district
    ensures p.district.None? ==> r.district == u.district
    ensures p.location.Some? ==> r.location == p.location
    ensures p.location.None? ==> r.location == u.location
    ensures p.status.Some? ==> r.status == p.status
    ensures p.status.None? ==> r.status == u.status
  {
    u.(lastLoginAt := Override(p.lastLoginAt, u.lastLoginAt),
       fullName := Override(p.fullName, u.fullName),
       address := Override(p.address, u.address),
       district := Override(p.district, u.district),
       location := Override(p.location, u.location),
       status := Override(p.status, u.status),
       updatedAt := now)
  }

  /** Two successive patches, the later one winning where both name a field. */
  function MergePatches(first: UserPatch, second: UserPatch): UserPatch
  {
    UserPatch(
      Override(second.lastLoginAt, first.lastLoginAt),
      Override(second.fullName, first.fullName),
      Override(second.address, first.address),
      Override(second.district, first.district),
      Override(second.location, first.location),
      Override(second.status, first.status))
  }

  /** Two updates in a row leave the user as one update with the merged patch at the later time. */
  lemma ApplyPatchTwice(u: User, p: UserPatch, q: UserPatch, t1: Timestamp, t2: Timestamp)
    ensures ApplyPatch(ApplyPatch(u, p, t1), q, t2) == ApplyPatch(u, MergePatches(p, q), t2)
  {
  }
}
