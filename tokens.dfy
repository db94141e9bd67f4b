/**
 * Token utilities (apps/backend/src/utils/tokens.ts): the duration parser,
 * refresh-record construction and the access-token payload.
 *
 * The cryptography is outside the model. The refresh-token fingerprint
 * (HMAC-SHA256 under the server's refresh key, hex-encoded) is a
 * deterministic function handed in by the caller. A signed access token is
 * represented by its claims together with the key it was signed with, so that
 * verification under another key fails, as a signature check would.
 */
module Tokens {
  import opened Common
  import opened Domain

  const SecondMs: nat := 1000
  const MinuteMs: nat := 60_000
  const HourMs: nat := 3_600_000
  const DayMs: nat := 86_400_000

  /** The fallback the refresh-record builder passes to the parser: thirty days. */
  const DefaultRefreshTtlMs: nat := 30 * DayMs

  /** The refresh-token lifetime the configuration falls back to. */
  const DefaultRefreshTokenTtl: string := "30d"

  /** `\d`: an ASCII decimal digit. */
  predicate IsDigit(c: char)
  {
    '0' <= c <= '9'
  }

  predicate AllDigits(s: string)
  {
    forall i | 0 <= i < |s| :: IsDigit(s[i])
  }

  /** `[smhd]` under the `i` flag: one of the four unit letters in either case. */
  predicate IsUnit(c: char)
  {
    c in "smhdSMHD"
  }

  /** The lower-case form of a unit letter (`match[2].toLowerCase()`). */
  function LowerUnit(c: char): char
    requires IsUnit(c)
  {
    if c == 'S' then 's' else if c == 'M' then 'm' else if c == 'H' then 'h' else if c == 'D' then 'd' else c
  }

  /** The length of one unit in milliseconds, looked up by its lower-case letter. */
  function UnitMs(c: char): (r: nat)
    requires IsUnit(c)
  {
    match LowerUnit(c)
    case 's' => SecondMs
    case 'm' => MinuteMs
    case 'h' => HourMs
    case _ => DayMs
  }

  /** The whole of `value` matches `/^(\d+)([smhd])$/i`. */
  predicate MatchesDuration(value: string)
  {
    |value| >= 2 && AllDigits(value[..|value| - 1]) && IsUnit(value[|value| - 1])
  }

  /** `Number(digits)` for a string of decimal digits (leading zeros allowed). */
  function DigitsValue(s: string): nat
    requires AllDigits(s)
  {
    if |s| == 0 then 0 else 10 * DigitsValue(s[..|s| - 1]) + (s[|s| - 1] as int - '0' as int)
  }

  /** The decimal numeral of `n` without leading zeros. */
  function Decimal(n: nat): (r: string)
    ensures |r| >= 1 && AllDigits(r)
  {
    var last := ['0' + (n % 10) as char];
    if n < 10 then last else Decimal(n / 10) + last
  }

  /** Reading back a numeral gives the number it was written from. */
  lemma {:induction false} DigitsValueOfDecimal(n: nat)
    ensures DigitsValue(Decimal(n)) == n
  {
    var s := Decimal(n);
    if n >= 10 {
      DigitsValueOfDecimal(n / 10);
      assert s[..|s| - 1] == Decimal(n / 10);
    }
  }

  /**
   * `parseDurationToMs(value, fallbackMs)`: a count of seconds, minutes, hours
   * or days, in milliseconds; anything that is not digits followed by one
   * unit letter gives the fallback.
   */
  function ParseDurationToMs(value: string, fallbackMs: nat): (r: nat)
    ensures !MatchesDuration(value) ==> r == fallbackMs
  {
    if !MatchesDuration(value) then fallbackMs
    else DigitsValue(value[..|value| - 1]) * UnitMs(value[|value| - 1])
  }

  /** `<n><unit>` parses to n times the unit's length, whatever the fallback. */
  lemma DurationOfNumeral(n: nat, unit: char, fallbackMs: nat)
    requires IsUnit(unit)
    ensures ParseDurationToMs(Decimal(n) + [unit], fallbackMs) == n * UnitMs(unit)
  {
    var s := Decimal(n) + [unit];
    assert s[..|s| - 1] == Decimal(n);
    DigitsValueOfDecimal(n);
  }

  /** The unit letter is read without regard to case: `2H` is `2h`. */
  lemma DurationUnitIgnoresCase(digits: string, unit: char, fallbackMs: nat)
    requires unit in "smhd"
    requires |digits| >= 1 && AllDigits(digits)
    ensures var upper := if unit == 's' then 'S' else if unit == 'm' then 'M' else if unit == 'h' then 'H' else 'D';
            ParseDurationToMs(digits + [upper], fallbackMs) == ParseDurationToMs(digits + [unit], fallbackMs)
  {
    var upper := if unit == 's' then 'S' else if unit == 'm' then 'M' else if unit == 'h' then 'H' else 'D';
    assert (digits + [upper])[..|digits|] == digits;
    assert (digits + [unit])[..|digits|] == digits;
  }

  /** Sample readings, the accepted ones and the ones that fall back. */
  lemma DurationExamples(fallbackMs: nat)
    ensures ParseDurationToMs("15m", fallbackMs) == 15 * MinuteMs
    ensures ParseDurationToMs("2H", fallbackMs) == 7_200_000
    ensures ParseDurationToMs("015m", fallbackMs) == 900_000
    ensures ParseDurationToMs("30d", fallbackMs) == 2_592_000_000
    ensures ParseDurationToMs("15", fallbackMs) == fallbackMs
    ensures ParseDurationToMs("1.5h", fallbackMs) == fallbackMs
    ensures ParseDurationToMs(" 15m", fallbackMs) == fallbackMs
    ensures ParseDurationToMs("15min", fallbackMs) == fallbackMs
    ensures ParseDurationToMs("m", fallbackMs) == fallbackMs
    ensures ParseDurationToMs("", fallbackMs) == fallbackMs
  {
    assert "15m"[..2] == "15" && "15"[..1] == "1" && DigitsValue("15") == 15;
    assert "2H"[..1] == "2" && DigitsValue("2") == 2;
    assert "015m"[..3] == "015" && "015"[..2] == "01" && "01"[..1] == "0";
    assert DigitsValue("01") == 1 && DigitsValue("015") == 15;
    assert "30d"[..2] == "30" && "30"[..1] == "3" && DigitsValue("30") == 30;
    assert !IsUnit('5');
    assert !IsDigit('.') && "1.5h"[..3][1] == '.';
    assert !IsDigit(' ') && " 15m"[..3][0] == ' ';
    assert !IsUnit('n');
  }

  /** A fresh refresh secret together with the record that is stored for it. */
  datatype IssuedRefreshToken = IssuedRefreshToken(token: string, record: RefreshTokenRecord)

  /**
   * `createRefreshToken(userId)`: the clock reading, the record id and the
   * random secret are supplied by the caller. The record belongs to the user,
   * is neither revoked nor replaced, stores only the secret's fingerprint (so
   * fingerprinting the returned secret finds it) and expires one parsed
   * refresh lifetime after its creation.
   */
  function CreateRefreshToken(
    userId: string, now: Timestamp, tokenId: string, secret: string,
    fingerprint: string -> string, refreshTokenTtl: string): (issued: IssuedRefreshToken)
    ensures issued.record.id == tokenId && issued.record.userId == userId
    ensures fingerprint(issued.token) == issued.record.tokenHash
    ensures issued.record.createdAt == now
    ensures issued.record.revokedAt.None? && issued.record.replacedByTokenId.None?
    ensures issued.record.expiresAt - issued.record.createdAt == ParseDurationToMs(refreshTokenTtl, DefaultRefreshTtlMs)
  {
    IssuedRefreshToken(
      secret,
      RefreshTokenRecord(
        id := tokenId,
        userId := userId,
        tokenHash := fingerprint(secret),
        expiresAt := now + ParseDurationToMs(refreshTokenTtl, DefaultRefreshTtlMs),
        createdAt := now,
        revokedAt := None,
        replacedByTokenId := None))
  }

  /**
   * With the default `30d` setting, and with any setting the parser does not
   * accept, a new record lives exactly thirty days.
   */
  lemma NewRefreshRecord(
    userId: string, now: Timestamp, tokenId: string, secret: string,
    fingerprint: string -> string, refreshTokenTtl: string)
    requires refreshTokenTtl == DefaultRefreshTokenTtl || !MatchesDuration(refreshTokenTtl)
    ensures CreateRefreshToken(userId, now, tokenId, secret, fingerprint, refreshTokenTtl).record.expiresAt == now + 30 * DayMs
  {
    DurationExamples(DefaultRefreshTtlMs);
  }

  /** The issuer and audience fixed into every access token and checked on verification. */
  const Issuer: string := "backend"
  const Audience: string := "mobile"
  const AccessTokenType: string := "access"

  /** `AccessTokenPayload`: subject, provider and the `type: 'access'` discriminator. */
  datatype AccessTokenPayload = AccessTokenPayload(sub: string, provider: AuthProvider, tokenType: string)

  /** A signed access token, represented by its claims and the key that signed it. */
  datatype SignedAccessToken = SignedAccessToken(
    payload: AccessTokenPayload,
    issuer: string,
    audience: string,
    signingKey: string,
    expiresAt: Timestamp)

  /**
   * The `exp` claim the signing library writes, in milliseconds: it counts
   * whole seconds, taking the issue time (`iat`) rounded down to the second and
   * adding the lifetime rounded down to the second. It never exceeds the exact
   * expiry and falls short of it by less than two seconds.
   */
  function JwtExpiry(issuedAt: Timestamp, lifetimeMs: nat): (r: Timestamp)
    ensures r % SecondMs == 0
    ensures r <= issuedAt + lifetimeMs < r + 2 * SecondMs
  {
    (issuedAt / SecondMs + lifetimeMs / SecondMs) * SecondMs
  }

  /**
   * `signAccessToken(userId, provider)`: the payload `{sub, provider, type:
   * 'access'}` under the fixed issuer and audience, signed with the access
   * key, expiring at `JwtExpiry`. `lifetimeMs` is the signing library's
   * reading of the configured access-token lifetime.
   */
  function SignAccessToken(
    userId: string, provider: AuthProvider, accessSecret: string,
    now: Timestamp, lifetimeMs: nat): (t: SignedAccessToken)
    ensures t.payload.sub == userId && t.payload.provider == provider && t.payload.tokenType == AccessTokenType
    ensures t.issuer == Issuer && t.audience == Audience && t.signingKey == accessSecret
    ensures t.expiresAt % SecondMs == 0 && t.expiresAt <= now + lifetimeMs < t.expiresAt + 2 * SecondMs
  {
    SignedAccessToken(
      AccessTokenPayload(userId, provider, AccessTokenType), Issuer, Audience, accessSecret,
      JwtExpiry(now, lifetimeMs))
  }

  /**
   * `verifyAccessToken(token)`: the payload when the signature, issuer,
   * audience and expiry all check out; `None` where the library throws.
   */
  function VerifyAccessToken(t: SignedAccessToken, accessSecret: string, now: Timestamp): (r: Option<AccessTokenPayload>)
    ensures r.Some? <==> t.signingKey == accessSecret && t.issuer == Issuer && t.audience == Audience && now < t.expiresAt
    ensures r.Some? ==> r.value == t.payload
  {
    if t.signingKey == accessSecret && t.issuer == Issuer && t.audience == Audience && now < t.expiresAt
    then Some(t.payload)
    else None
  }

  /**
   * What the backend signs, it verifies under the same secret until the
   * whole-second expiry, recovering the subject and provider; under any other
   * secret, or from that expiry on, verification fails.
   */
  lemma VerifySignedAccessToken(
    userId: string, provider: AuthProvider, secret: string, issuedAt: Timestamp,
    lifetimeMs: nat, verifySecret: string, now: Timestamp)
    ensures VerifyAccessToken(SignAccessToken(userId, provider, secret, issuedAt, lifetimeMs), verifySecret, now)
         == if verifySecret == secret && now < JwtExpiry(issuedAt, lifetimeMs)
            then Some(AccessTokenPayload(userId, provider, "access"))
            else None
  {
  }

  /**
   * The whole-second rounding shortens a token's life: signed at 1999 ms for
   * fifteen minutes, it is refused from 901000 ms on, though 1999 + 900000
   * ms have not yet passed; at 900999 ms it is still accepted.
   */
  lemma AccessTokenExpiresOnWholeSecond(userId: string, provider: AuthProvider, secret: string)
    ensures VerifyAccessToken(SignAccessToken(userId, provider, secret, 1999, 15 * MinuteMs), secret, 901_000).None?
    ensures VerifyAccessToken(SignAccessToken(userId, provider, secret, 1999, 15 * MinuteMs), secret, 900_999).Some?
    ensures 901_000 < 1999 + 15 * MinuteMs
  {
    assert JwtExpiry(1999, 15 * MinuteMs) == 901_000;
  }
}
