/**
 * The in-memory user repository
 * (apps/backend/src/repositories/inMemoryUserRepository.ts): a users map and
 * two indexes of refresh-token records, one by record id and one by the
 * secret's fingerprint, all updated in place.
 */
module UserRepository {
  import opened Common
  import opened Domain

  /** The two refresh-token indexes, as values. */
  datatype TokenTables = TokenTables(
    byId: map<string, RefreshTokenRecord>,
    byHash: map<string, RefreshTokenRecord>)

  /**
   * The indexes describe one set of records: each record is filed under its
   * own id and under its own fingerprint, and both entries hold the same value.
   */
  ghost predicate Consistent(t: TokenTables)
  {
    && (forall id | id in t.byId ::
          && t.byId[id].id == id
          && t.byId[id].tokenHash in t.byHash
          && t.byHash[t.byId[id].tokenHash] == t.byId[id])
    && (forall h | h in t.byHash ::
          && t.byHash[h].tokenHash == h
          && t.byHash[h].id in t.byId
          && t.byId[t.byHash[h].id] == t.byHash[h])
  }

  /** `saveRefreshToken(record)`: the record is filed under its id and under its fingerprint. */
  function Saved(t: TokenTables, r: RefreshTokenRecord): TokenTables
  {
    TokenTables(t.byId[r.id := r], t.byHash[r.tokenHash := r])
  }

  /** Overwrites the record filed under `id` in both indexes, at its old fingerprint. */
  function Rewritten(t: TokenTables, id: string, updated: RefreshTokenRecord): TokenTables
    requires id in t.byId
  {
    TokenTables(t.byId[id := updated], t.byHash[t.byId[id].tokenHash := updated])
  }

  /** `revokeRefreshToken(tokenId, revokedAt)`: stamps the revocation time; an unknown id changes nothing. */
  function Revoked(t: TokenTables, id: string, at: Timestamp): TokenTables
  {
    if id !in t.byId then t else Rewritten(t, id, t.byId[id].(revokedAt := Some(at)))
  }

  /**
   * `replaceRefreshToken(tokenId, replacedByTokenId, revokedAt)`: stamps the
   * revocation time and the successor's id; an unknown id changes nothing.
   */
  function Replaced(t: TokenTables, id: string, newId: string, at: Timestamp): TokenTables
  {
    if id !in t.byId then t
    else Rewritten(t, id, t.byId[id].(revokedAt := Some(at), replacedByTokenId := Some(newId)))
  }

  /** Saving a record whose id and fingerprint are both new keeps the indexes consistent. */
  lemma SavedKeepsConsistent(t: TokenTables, r: RefreshTokenRecord)
    requires Consistent(t)
    requires r.id !in t.byId && r.tokenHash !in t.byHash
    ensures Consistent(Saved(t, r))
    ensures Saved(t, r).byHash[r.tokenHash] == r && Saved(t, r).byId[r.id] == r
  {
    var s := Saved(t, r);
    forall id | id in s.byId
      ensures s.byId[id].id == id && s.byId[id].tokenHash in s.byHash && s.byHash[s.byId[id].tokenHash] == s.byId[id]
    {
      if id != r.id {
        assert t.byId[id].tokenHash != r.tokenHash;
      }
    }
  }

  /** Without a new fingerprint, saving can leave an id whose fingerprint entry holds another record. */
  lemma SavingReusedFingerprintBreaksConsistency()
    ensures var old1 := RefreshTokenRecord("a", "u", "h", 10, 0, None, None);
            var new1 := RefreshTokenRecord("b", "u", "h", 10, 0, None, None);
            var t := TokenTables(map["a" := old1], map["h" := old1]);
            Consistent(t) && new1.id !in t.byId && !Consistent(Saved(t, new1))
  {
    var old1 := RefreshTokenRecord("a", "u", "h", 10, 0, None, None);
    var new1 := RefreshTokenRecord("b", "u", "h", 10, 0, None, None);
    var s := Saved(TokenTables(map["a" := old1], map["h" := old1]), new1);
    assert "a" in s.byId && s.byHash[s.byId["a"].tokenHash] != s.byId["a"];
  }

  /** Rewriting a record without touching its id or fingerprint keeps the indexes consistent. */
  lemma RewrittenKeepsConsistent(t: TokenTables, id: string, updated: RefreshTokenRecord)
    requires Consistent(t) && id in t.byId
    requires updated.id == id && updated.tokenHash == t.byId[id].tokenHash
    ensures Consistent(Rewritten(t, id, updated))
  {
    var s := Rewritten(t, id, updated);
    var h := t.byId[id].tokenHash;
    forall k | k in s.byId
      ensures s.byId[k].id == k && s.byId[k].tokenHash in s.byHash && s.byHash[s.byId[k].tokenHash] == s.byId[k]
    {
      if k != id {
        assert t.byId[k].tokenHash != h;
      }
    }
    forall g | g in s.byHash
      ensures s.byHash[g].tokenHash == g && s.byHash[g].id in s.byId && s.byId[s.byHash[g].id] == s.byHash[g]
    {
      if g != h {
        assert t.byHash[g].id != id;
      }
    }
  }

  /** A rewrite files the new value under the id and the old fingerprint and touches no other id. */
  lemma RewrittenFrame(t: TokenTables, id: string, updated: RefreshTokenRecord)
    requires Consistent(t) && id in t.byId
    ensures Rewritten(t, id, updated).byId.Keys == t.byId.Keys
    ensures Rewritten(t, id, updated).byHash.Keys == t.byHash.Keys
    ensures forall k | k in t.byId && k != id :: Rewritten(t, id, updated).byId[k] == t.byId[k]
    ensures Rewritten(t, id, updated).byId[id] == updated
    ensures Rewritten(t, id, updated).byHash[t.byId[id].tokenHash] == updated
  {
    assert t.byId[id].tokenHash in t.byHash;
  }

  /**
   * Revocation keeps the indexes consistent and changes one record, in both
   * indexes, only in its revocation time.
   */
  lemma RevokedKeepsConsistent(t: TokenTables, id: string, at: Timestamp)
    requires Consistent(t)
    ensures Consistent(Revoked(t, id, at))
    ensures Revoked(t, id, at).byId.Keys == t.byId.Keys && Revoked(t, id, at).byHash.Keys == t.byHash.Keys
    ensures forall k | k in t.byId && k != id :: Revoked(t, id, at).byId[k] == t.byId[k]
    ensures id in t.byId ==>
      && Revoked(t, id, at).byId[id] == t.byId[id].(revokedAt := Some(at))
      && Revoked(t, id, at).byHash[t.byId[id].tokenHash] == t.byId[id].(revokedAt := Some(at))
  {
    if id in t.byId {
      var updated := t.byId[id].(revokedAt := Some(at));
      RewrittenKeepsConsistent(t, id, updated);
      RewrittenFrame(t, id, updated);
    }
  }

  /**
   * Replacement keeps the indexes consistent and changes one record, in both
   * indexes, only in its revocation time and successor id.
   */
  lemma ReplacedKeepsConsistent(t: TokenTables, id: string, newId: string, at: Timestamp)
    requires Consistent(t)
    ensures Consistent(Replaced(t, id, newId, at))
    ensures Replaced(t, id, newId, at).byId.Keys == t.byId.Keys && Replaced(t, id, newId, at).byHash.Keys == t.byHash.Keys
    ensures forall k | k in t.byId && k != id :: Replaced(t, id, newId, at).byId[k] == t.byId[k]
    ensures id in t.byId ==>
      var updated := t.byId[id].(revokedAt := Some(at), replacedByTokenId := Some(newId));
      && Replaced(t, id, newId, at).byId[id] == updated
      && Replaced(t, id, newId, at).byHash[t.byId[id].tokenHash] == updated
  {
    if id in t.byId {
      var updated := t.byId[id].(revokedAt := Some(at), replacedByTokenId := Some(newId));
      RewrittenKeepsConsistent(t, id, updated);
      RewrittenFrame(t, id, updated);
    }
  }

  /** The first user in `order` that `matches` accepts: `Array.from(users.values()).find(matches)`. */
  function FirstMatch(users: map<string, User>, order: seq<string>, matches: User -> bool): (r: Option<User>)
    requires forall i | 0 <= i < |order| :: order[i] in users
    ensures r.Some? ==> matches(r.value) && r.value in users.Values
    ensures r.None? <==> forall i | 0 <= i < |order| :: !matches(users[order[i]])
  {
    if |order| == 0 then None
    else if matches(users[order[0]]) then Some(users[order[0]])
    else FirstMatch(users, order[1..], matches)
  }

  class InMemoryUserRepository {
    var users: map<string, User>
    /** The iteration order of the `users` Map: every id once, in order of first insertion. */
    var userOrder: seq<string>
    var refreshTokensById: map<string, RefreshTokenRecord>
    var refreshTokensByHash: map<string, RefreshTokenRecord>

    /** Each user is stored under its own id, and the iteration order lists exactly the stored ids. */
    ghost predicate Valid()
      reads this
    {
      && (forall id | id in users :: users[id].id == id)
      && (forall i | 0 <= i < |userOrder| :: userOrder[i] in users)
      && (forall id | id in users :: id in userOrder)
      && (forall i, j | 0 <= i < j < |userOrder| :: userOrder[i] != userOrder[j])
    }

    /** The two token indexes as a value. */
    function Tokens(): TokenTables
      reads this
    {
      TokenTables(refreshTokensById, refreshTokensByHash)
    }

    /** `createInMemoryUserRepository()`: three empty maps. */
    constructor ()
      ensures Valid() && users == map[] && userOrder == []
      ensures Tokens() == TokenTables(map[], map[])
    {
      users := map[];
      userOrder := [];
      refreshTokensById := map[];
      refreshTokensByHash := map[];
    }

    /**
     * `createUser(input)`: stores the input, stamped with the same creation
     * and update time, under its id (an existing entry with that id is
     * overwritten in place).
     */
    method CreateUser(input: User, now: Timestamp) returns (u: User)
      requires Valid()
      modifies this
      ensures Valid()
      ensures u == input.(createdAt := now, updatedAt := now)
      ensures users == old(users)[u.id := u]
      ensures userOrder == if u.id in old(users) then old(userOrder) else old(userOrder) + [u.id]
      ensures Tokens() == old(Tokens())
    {
      u := input.(createdAt := now, updatedAt := now);
      if u.id !in users {
        userOrder := userOrder + [u.id];
      }
      users := users[u.id := u];
    }

    /**
     * `updateUser(id, updates)`: merges the patch into the stored user and
     * stamps `updatedAt`; an unknown id gives `None` and changes nothing.
     */
    method UpdateUser(id: string, updates: UserPatch, now: Timestamp) returns (r: Option<User>)
      requires Valid()
      modifies this
      ensures Valid()
      ensures id !in old(users) ==> r.None? && users == old(users)
      ensures id in old(users) ==>
        && r == Some(ApplyPatch(old(users)[id], updates, now))
        && users == old(users)[id := r.value]
      ensures userOrder == old(userOrder) && Tokens() == old(Tokens())
    {
      if id !in users {
        return None;
      }
      var updated := ApplyPatch(users[id], updates, now);
      users := users[id := updated];
      r := Some(updated);
    }

    /** `getUserById(id)`. */
    function GetUserById(id: string): (r: Option<User>)
      reads this
      ensures r.Some? <==> id in users
      ensures r.Some? ==> r.value == users[id]
    {
      if id in users then Some(users[id]) else None
    }

    /** The scan behind the three lookups: the first stored user, in iteration order, that `matches` accepts. */
    method FindUser(matches: User -> bool) returns (r: Option<User>)
      requires Valid()
      ensures r == FirstMatch(users, userOrder, matches)
    {
      var i := 0;
      while i < |userOrder|
        invariant 0 <= i <= |userOrder|
        invariant FirstMatch(users, userOrder[i..], matches) == FirstMatch(users, userOrder, matches)
      {
        var u := users[userOrder[i]];
        if matches(u) {
          return Some(u);
        }
        assert userOrder[i..][1..] == userOrder[i + 1..];
        i := i + 1;
      }
      return None;
    }

    /** `getUserByEmail(email)`: a stored user with that email, the first one if several; `None` only when no user has it. */
    method GetUserByEmail(email: string) returns (r: Option<User>)
      requires Valid()
      ensures r.Some? ==> r.value.email == Some(email) && r.value.id in users && users[r.value.id] == r.value
      ensures r.None? <==> forall id | id in users :: users[id].email != Some(email)
      ensures r == FirstMatch(users, userOrder, (u: User) => u.email == Some(email))
    {
      r := FindUser((u: User) => u.email == Some(email));
    }

    /** `getUserByPhoneNumber(phoneNumber)`: as the email lookup, on the phone number. */
    method GetUserByPhoneNumber(phoneNumber: string) returns (r: Option<User>)
      requires Valid()
      ensures r.Some? ==> r.value.phoneNumber == Some(phoneNumber) && r.value.id in users && users[r.value.id] == r.value
      ensures r.None? <==> forall id | id in users :: users[id].phoneNumber != Some(phoneNumber)
      ensures r == FirstMatch(users, userOrder, (u: User) => u.phoneNumber == Some(phoneNumber))
    {
      r := FindUser((u: User) => u.phoneNumber == Some(phoneNumber));
    }

    /** `getUserByGoogleId(googleId)`: as the email lookup, on the Google subject id. */
    method GetUserByGoogleId(googleId: string) returns (r: Option<User>)
      requires Valid()
      ensures r.Some? ==> r.value.googleId == Some(googleId) && r.value.id in users && users[r.value.id] == r.value
      ensures r.None? <==> forall id | id in users :: users[id].googleId != Some(googleId)
      ensures r == FirstMatch(users, userOrder, (u: User) => u.googleId == Some(googleId))
    {
      r := FindUser((u: User) => u.googleId == Some(googleId));
    }

    /** `saveRefreshToken(record)`. */
    method SaveRefreshToken(record: RefreshTokenRecord)
      modifies this
      ensures Tokens() == Saved(old(Tokens()), record)
      ensures users == old(users) && userOrder == old(userOrder)
    {
      refreshTokensById := refreshTokensById[record.id := record];
      refreshTokensByHash := refreshTokensByHash[record.tokenHash := record];
    }

    /** `getRefreshTokenByHash(tokenHash)`. */
    function GetRefreshTokenByHash(tokenHash: string): (r: Option<RefreshTokenRecord>)
      reads this
      ensures r.Some? <==> tokenHash in refreshTokensByHash
      ensures r.Some? ==> r.value == refreshTokensByHash[tokenHash]
    {
      if tokenHash in refreshTokensByHash then Some(refreshTokensByHash[tokenHash]) else None
    }

    /** `revokeRefreshToken(tokenId, revokedAt)`. */
    method RevokeRefreshToken(tokenId: string, revokedAt: Timestamp)
      modifies this
      ensures Tokens() == Revoked(old(Tokens()), tokenId, revokedAt)
      ensures users == old(users) && userOrder == old(userOrder)
    {
      if tokenId !in refreshTokensById {
        return;
      }
      var record := refreshTokensById[tokenId];
      var updated := record.(revokedAt := Some(revokedAt));
      refreshTokensById := refreshTokensById[tokenId := updated];
      refreshTokensByHash := refreshTokensByHash[record.tokenHash := updated];
    }

    /** `replaceRefreshToken(tokenId, replacedByTokenId, revokedAt)`. */
    method ReplaceRefreshToken(tokenId: string, replacedByTokenId: string, revokedAt: Timestamp)
      modifies this
      ensures Tokens() == Replaced(old(Tokens()), tokenId, replacedByTokenId, revokedAt)
      ensures users == old(users) && userOrder == old(userOrder)
    {
      if tokenId !in refreshTokensById {
        return;
      }
      var record := refreshTokensById[tokenId];
      var updated := record.(revokedAt := Some(revokedAt), replacedByTokenId := Some(replacedByTokenId));
      refreshTokensById := refreshTokensById[tokenId := updated];
      refreshTokensByHash := refreshTokensByHash[record.tokenHash := updated];
    }
  }
}
