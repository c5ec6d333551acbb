/** The refresh_tokens table and the statements that act on it. Each function is one SQL statement. */
module RefreshTokens {
  import opened Prelude

  const REFRESH_LIFETIME: nat := 7 * DAY
  const CLEANUP_GRACE: nat := 30 * DAY

  // A refresh JWT carries only user, organisation and second-granular times, and HS256 is deterministic,
  // so two tokens of one user generated in the same second are the same string.
  datatype Token = Token(user: int, org: int, issuedSecond: nat) {
    function IssuedAt(): nat { issuedSecond * SECOND }
    function Expiry(): nat { IssuedAt() + REFRESH_LIFETIME }
  }

  /** GenerateRefreshToken at instant `now`. */
  function Generate(user: int, org: int, now: nat): Token {
    Token(user, org, SecondOf(now))
  }

  datatype Row = Row(id: nat, user: int, device: string, issuedAt: nat, expiresAt: nat,
                     revokedAt: Option<nat>, replacedBy: Option<nat>, updatedAt: nat)

  // token_fingerprint is UNIQUE and the hash is taken to be injective, so the token itself is the key.
  type Table = map<Token, Row>

  predicate Live(rows: Table, t: Token) {
    t in rows && rows[t].revokedAt.None?
  }

  predicate IdExists(rows: Table, id: nat) {
    exists t :: t in rows && rows[t].id == id
  }

  /** INSERT: violating UNIQUE(token_fingerprint) stores nothing. */
  function Insert(rows: Table, id: nat, t: Token, device: string, now: nat): Table {
    if t in rows then rows
    else rows[t := Row(id, t.user, device, now, now + REFRESH_LIFETIME, None, None, now)]
  }

  /** The id StoreRefreshToken returns: zero when the INSERT failed. */
  function InsertedId(rows: Table, id: nat, t: Token): nat {
    if t in rows then 0 else id
  }

  /** UPDATE ... WHERE token_fingerprint = $4; a replacement id that is no row violates the foreign key. */
  function RevokeOne(rows: Table, t: Token, replacement: Option<nat>, now: nat): Table {
    if t in rows && (replacement.Some? ==> IdExists(rows, replacement.value)) then
      rows[t := rows[t].(revokedAt := Some(now), replacedBy := replacement, updatedAt := now)]
    else rows
  }

  /** UPDATE ... SET revoked_at WHERE <victims> AND revoked_at IS NULL. */
  function RevokeLive(rows: Table, victims: set<Token>, now: nat): Table {
    map t | t in rows ::
      if t in victims && rows[t].revokedAt.None? then rows[t].(revokedAt := Some(now), updatedAt := now)
      else rows[t]
  }

  function TokensOf(rows: Table, user: int): set<Token> {
    set t | t in rows && rows[t].user == user
  }

  function SessionOf(rows: Table, user: int, id: nat): set<Token> {
    set t | t in rows && rows[t].user == user && rows[t].id == id
  }

  predicate Stale(row: Row, now: nat) {
    || row.expiresAt + CLEANUP_GRACE < now
    || (row.revokedAt.Some? && row.revokedAt.value + CLEANUP_GRACE < now)
  }

  predicate IdKept(rows: Table, id: nat, now: nat) {
    exists t :: t in rows && !Stale(rows[t], now) && rows[t].id == id
  }

  /** CleanupExpiredTokens; replaced_by_token_id is declared ON DELETE SET NULL. */
  function Cleanup(rows: Table, now: nat): Table {
    map t | t in rows && !Stale(rows[t], now) ::
      if rows[t].replacedBy.Some? && !IdKept(rows, rows[t].replacedBy.value, now)
      then rows[t].(replacedBy := None)
      else rows[t]
  }

  /** The rows GetActiveSessions selects and GetSessionCount counts. */
  function ActiveSessions(rows: Table, user: int, now: nat): Table {
    map t | t in rows && rows[t].user == user && rows[t].revokedAt.None? && now < rows[t].expiresAt :: rows[t]
  }
}
