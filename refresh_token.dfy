/** The RefreshToken entity and its IsActive property. */
module RefreshTokens {
  import opened Wrappers

  /** A stored refresh token. Instants are UTC seconds. */
  datatype RefreshToken = RefreshToken(
    userId: nat,
    token: string,
    expiresAt: int,
    isRevoked: bool,
    revokedAt: Option<int>,
    replacedByToken: Option<string>,
    createdAt: int)

  /** IsActive: not revoked and not yet expired. */
  predicate IsActive(t: RefreshToken, now: int) {
    !t.isRevoked && t.expiresAt > now
  }

  /** A token as the object initialiser builds it: IsRevoked defaults to
      false, RevokedAt and ReplacedByToken to null. */
  function Issue(userId: nat, token: string, expiresAt: int, createdAt: int): (t: RefreshToken)
    ensures t.userId == userId && t.token == token && t.expiresAt == expiresAt && t.createdAt == createdAt
    ensures !t.isRevoked && t.revokedAt.None? && t.replacedByToken.None?
  {
    RefreshToken(userId, token, expiresAt, false, None, None, createdAt)
  }

  /** A revoked token is never active. */
  lemma RevokedIsNeverActive(t: RefreshToken, now: int)
    requires t.isRevoked
    ensures !IsActive(t, now)
  {
  }

  /** A token is not active from its expiry instant on, the instant itself included. */
  lemma ExpiredIsNotActive(t: RefreshToken, now: int)
    requires t.expiresAt <= now
    ensures !IsActive(t, now)
  {
  }

  /** A freshly issued token is active at exactly the instants before its expiry. */
  lemma IssuedIsActiveUntilExpiry(userId: nat, token: string, expiresAt: int, createdAt: int, now: int)
    ensures IsActive(Issue(userId, token, expiresAt, createdAt), now) <==> now < expiresAt
  {
  }
}
