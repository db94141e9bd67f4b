/**
 * The profile service (apps/backend/src/services/profileService.ts): trims and
 * checks the submitted name, address and district, writes them (and the
 * location when both coordinates are given), and marks a complete profile
 * `ACTIVE`.
 */
module Profile {
  import opened Common
  import opened Domain
  import opened JsText
  import opened UserRepository

  /** A failure with the HTTP status the route layer answers with. */
  datatype ProfileError = ProfileError(message: string, status: nat)

  const ProfileUserNotFound: ProfileError := ProfileError("User not found.", 404)
  const FieldsRequired: ProfileError := ProfileError("Full name, address, and district are required.", 422)
  const UpdateFailed: ProfileError := ProfileError("Unable to update profile.", 500)

  /** The submitted profile; a coordinate is present only when the client sent a finite number. */
  datatype ProfileUpdateInput = ProfileUpdateInput(
    userId: string,
    fullName: string,
    address: string,
    district: string,
    latitude: Option<real>,
    longitude: Option<real>)

  /** `Boolean(field?.trim())`: present and not blank. */
  predicate Filled(field: Option<string>)
  {
    field.Some? && Trim(field.value) != ""
  }

  /** A field holds some character that is not whitespace. */
  predicate HasText(field: Option<string>)
  {
    field.Some? && !AllWhitespace(field.value)
  }

  /** `Boolean(field?.trim())` holds exactly for a present field that is not all whitespace. */
  lemma FilledIffHasText(field: Option<string>)
    ensures Filled(field) <==> HasText(field)
  {
    if field.Some? {
      TrimEmptyIffWhitespace(field.value);
    }
  }

  /**
   * `isProfileComplete(user)`: name, address and district are all present
   * and none of them is only whitespace.
   */
  predicate IsProfileComplete(u: User): (r: bool)
    ensures r <==> HasText(u.fullName) && HasText(u.address) && HasText(u.district)
  {
    FilledIffHasText(u.fullName);
    FilledIffHasText(u.address);
    FilledIffHasText(u.district);
    Filled(u.fullName) && Filled(u.address) && Filled(u.district)
  }

  /** None of the three submitted fields is blank. */
  predicate FieldsPresent(input: ProfileUpdateInput)
  {
    Trim(input.fullName) != "" && Trim(input.address) != "" && Trim(input.district) != ""
  }

  /** The `updates` object: the trimmed fields, and the location when both coordinates are present. */
  function ProfilePatch(input: ProfileUpdateInput): UserPatch
  {
    var fields := EmptyPatch.(
      fullName := Some(Trim(input.fullName)),
      address := Some(Trim(input.address)),
      district := Some(Trim(input.district)));
    if input.latitude.Some? && input.longitude.Some? then
      fields.(location := Some(Location(input.latitude.value, input.longitude.value)))
    else fields
  }

  /** The second write: promote to `ACTIVE`. */
  const ActivatePatch: UserPatch := EmptyPatch.(status := Some(ActiveStatus))

  /** The stored user after a successful update: the profile write, then the promotion unless already `ACTIVE`. */
  function UpdatedProfile(u: User, input: ProfileUpdateInput, now: Timestamp): User
  {
    var updated := ApplyPatch(u, ProfilePatch(input), now);
    if IsProfileComplete(updated) && updated.status != Some(ActiveStatus) then ApplyPatch(updated, ActivatePatch, now)
    else updated
  }

  /** A trimmed field is filled exactly when it is not empty. */
  lemma FilledAfterTrim(s: string)
    ensures Filled(Some(Trim(s))) <==> Trim(s) != ""
  {
    TrimIdempotent(s);
  }

  /** After the profile write the user is complete exactly when the submitted fields were not blank. */
  lemma ProfileWriteCompletes(u: User, input: ProfileUpdateInput, now: Timestamp)
    ensures IsProfileComplete(ApplyPatch(u, ProfilePatch(input), now)) <==> FieldsPresent(input)
  {
    var written := ApplyPatch(u, ProfilePatch(input), now);
    assert written.fullName == Some(Trim(input.fullName));
    assert written.address == Some(Trim(input.address));
    assert written.district == Some(Trim(input.district));
    FilledAfterTrim(input.fullName);
    FilledAfterTrim(input.address);
    FilledAfterTrim(input.district);
  }

  /**
   * A successful update leaves the user `ACTIVE` and complete, with the
   * trimmed fields stored, the location written only when both coordinates
   * were given, and the identity, login and activity fields untouched.
   */
  lemma UpdatedProfileShape(u: User, input: ProfileUpdateInput, now: Timestamp)
    requires FieldsPresent(input)
    ensures var r := UpdatedProfile(u, input, now);
      && r.status == Some(ActiveStatus)
      && IsProfileComplete(r)
      && r.fullName == Some(Trim(input.fullName))
      && r.address == Some(Trim(input.address))
      && r.district == Some(Trim(input.district))
      && r.location == (if input.latitude.Some? && input.longitude.Some?
                        then Some(Location(input.latitude.value, input.longitude.value))
                        else u.location)
      && r.id == u.id && r.email == u.email && r.phoneNumber == u.phoneNumber
      && r.authProvider == u.authProvider && r.isActive == u.isActive
      && r.lastLoginAt == u.lastLoginAt && r.createdAt == u.createdAt && r.updatedAt == now
  {
    var p := ProfilePatch(input);
    assert p.fullName == Some(Trim(input.fullName)) && p.address == Some(Trim(input.address));
    assert p.district == Some(Trim(input.district)) && p.status.None? && p.lastLoginAt.None?;
    assert p.location == (if input.latitude.Some? && input.longitude.Some?
                          then Some(Location(input.latitude.value, input.longitude.value))
                          else None);
    var written := ApplyPatch(u, p, now);
    ProfileWriteCompletes(u, input, now);
    assert IsProfileComplete(written);
    if written.status != Some(ActiveStatus) {
      var promoted := ApplyPatch(written, ActivatePatch, now);
      assert UpdatedProfile(u, input, now) == promoted;
      assert promoted.fullName == written.fullName && promoted.address == written.address;
      assert promoted.district == written.district;
    }
  }

  /** Writing the same key twice keeps only the second write. */
  lemma OverwriteTwice(m: map<string, User>, k: string, first: User, second: User)
    ensures m[k := first][k := second] == m[k := second]
  {
  }

  class ProfileService {
    const repo: InMemoryUserRepository

    /** `createProfileService(repo)`. */
    constructor (repo: InMemoryUserRepository)
      ensures this.repo == repo
    {
      this.repo := repo;
    }

    /**
     * `updateProfile(input)`: an unknown user is refused with 404 and blank
     * fields with 422, before anything is written; otherwise the user is
     * updated and the re-read user returned. The 500 branch is never taken.
     */
    method UpdateProfile(input: ProfileUpdateInput, now: Timestamp) returns (r: Result<Option<User>, ProfileError>)
      requires repo.Valid()
      modifies repo
      ensures repo.Valid()
      ensures repo.userOrder == old(repo.userOrder) && repo.Tokens() == old(repo.Tokens())
      ensures input.userId !in old(repo.users) ==> r == Err(ProfileUserNotFound) && repo.users == old(repo.users)
      ensures input.userId in old(repo.users) && !FieldsPresent(input) ==>
        r == Err(FieldsRequired) && repo.users == old(repo.users)
      ensures input.userId in old(repo.users) && FieldsPresent(input) ==>
        var u := UpdatedProfile(old(repo.users)[input.userId], input, now);
        && repo.users == old(repo.users)[input.userId := u]
        && r == Ok(Some(u))
    {
      var user := repo.GetUserById(input.userId);
      if user.None? {
        return Err(ProfileUserNotFound);
      }
      var trimmedName := Trim(input.fullName);
      var trimmedAddress := Trim(input.address);
      var trimmedDistrict := Trim(input.district);
      if trimmedName == "" || trimmedAddress == "" || trimmedDistrict == "" {
        return Err(FieldsRequired);
      }
      var updates := EmptyPatch.(fullName := Some(trimmedName), address := Some(trimmedAddress), district := Some(trimmedDistrict));
      if input.latitude.Some? && input.longitude.Some? {
        updates := updates.(location := Some(Location(input.latitude.value, input.longitude.value)));
      }
      assert updates == ProfilePatch(input);
      ghost var before := repo.users;
      var updated := repo.UpdateUser(input.userId, updates, now);
      if updated.None? {
        return Err(UpdateFailed);
      }
      ghost var expected := UpdatedProfile(before[input.userId], input, now);
      assert updated.value == ApplyPatch(before[input.userId], ProfilePatch(input), now);
      ghost var written := repo.users;
      assert written == before[input.userId := updated.value];
      if IsProfileComplete(updated.value) && updated.value.status != Some(ActiveStatus) {
        assert expected == ApplyPatch(updated.value, ActivatePatch, now);
        var _ := repo.UpdateUser(input.userId, ActivatePatch, now);
        assert repo.users == written[input.userId := expected];
        OverwriteTwice(before, input.userId, updated.value, expected);
      } else {
        assert expected == updated.value;
      }
      r := Ok(repo.GetUserById(input.userId));
    }
  }
}
