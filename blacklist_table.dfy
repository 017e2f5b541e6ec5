/**
 * The `tokenBlacklist` table as both blacklist repositories see it: `token`
 * is a unique column; `expiredAt` is stored but no lookup reads it.
 */
module BlacklistTable {
  import opened Wrappers
  import opened Errors
  import opened Tables

  /** A revoked token and the instant, in milliseconds, the row is meant to lapse. */
  datatype BlacklistEntry = BlacklistEntry(token: string, expiredAt: int)

  /** `7 * 24 * 60 * 60 * 1000`: seven days in milliseconds. */
  const BlacklistTtl: nat := 7 * 24 * 60 * 60 * 1000

  const TokenBlacklisted: AppError := NotFoundError("token is blacklisted")
  const AlreadyBlacklisted: AppError := NotFoundError("Token already blacklisted")

  /** Whether `findFirst({where: {token}})` finds a row. */
  predicate Listed(rows: seq<BlacklistEntry>, token: string)
  {
    exists j :: 0 <= j < |rows| && rows[j].token == token
  }

  ghost predicate UniqueTokens(rows: seq<BlacklistEntry>)
  {
    forall i, j :: 0 <= i < |rows| && 0 <= j < |rows| && i != j ==> rows[i].token != rows[j].token
  }

  /**
   * `isBlacklisted(token)` in both repositories, for a query that does not
   * itself fail: `false` for an absent token, and for a listed one the
   * NotFoundError("token is blacklisted") that the catch block passes on. It
   * never answers `true`.
   */
  function IsBlacklisted(rows: seq<BlacklistEntry>, token: string): (r: Result<bool, AppError>)
    ensures r == Ok(false) <==> !Listed(rows, token)
    ensures r.Err? <==> Listed(rows, token)
    ensures r.Err? ==> r.error == TokenBlacklisted
    ensures r != Ok(true)
  {
    if FirstIndex(rows, (e: BlacklistEntry) => e.token == token).Some? then Err(TokenBlacklisted) else Ok(false)
  }

  /** `prisma.tokenBlacklist.create({data: {token, expiredAt: now + 7 days}})`. */
  function InsertEntry(rows: seq<BlacklistEntry>, token: string, now: int): (r: (seq<BlacklistEntry>, Result<BlacklistEntry, DbFailure>))
    ensures r.1.Err? <==> Listed(rows, token)
    ensures r.1.Err? ==> r.0 == rows && r.1.error == UniqueViolation
    ensures r.1.Ok? ==> r.1.value == BlacklistEntry(token, now + BlacklistTtl) && r.0 == rows + [r.1.value]
    ensures UniqueTokens(rows) ==> UniqueTokens(r.0)
  {
    var entry := BlacklistEntry(token, now + BlacklistTtl);
    if FirstIndex(rows, (e: BlacklistEntry) => e.token == token).Some? then (rows, Err(UniqueViolation))
    else (rows + [entry], Ok(entry))
  }

  /** A listed token stays listed at every later instant: nothing compares `expiredAt` with the clock. */
  lemma {:induction false} RevocationIsPermanent(rows: seq<BlacklistEntry>, token: string, other: string, now: int)
    requires Listed(rows, token)
    ensures Listed(InsertEntry(rows, other, now).0, token)
    ensures IsBlacklisted(InsertEntry(rows, other, now).0, token) == Err(TokenBlacklisted)
  {
    var j :| 0 <= j < |rows| && rows[j].token == token;
    assert InsertEntry(rows, other, now).0[j] == rows[j];
  }
}
