/** src/infrastructure/db/auth/token.blacklist.repo.ts: the blacklist the wired service uses. */
module BlacklistRepo {
  import opened Wrappers
  import opened Errors
  import opened Tables
  import opened BlacklistTable

  /** The catch block of `isBlacklisted` for a fault of the query. */
  function LookupFailure(f: DbFailure): (e: AppError)
    ensures e == DBError("Failed to check token blacklist status in database")
  {
    DBError("Failed to check token blacklist status in database")
  }

  /** The catch block of `addToBlacklist`: a duplicate is a NotFoundError, any other failure a DBError. */
  function AddFailure(f: DbFailure): (e: AppError)
    ensures e == AlreadyBlacklisted <==> f == UniqueViolation
    ensures f != UniqueViolation ==> e == DBError("Failed to add token to blacklist in database")
  {
    if f == UniqueViolation then AlreadyBlacklisted
    else DBError("Failed to add token to blacklist in database")
  }

  /** `addToBlacklist(token)` at clock `now` (ms). */
  function AddToken(rows: seq<BlacklistEntry>, token: string, now: int): (r: (seq<BlacklistEntry>, Result<(), AppError>))
    ensures r.1.Err? <==> Listed(rows, token)
    ensures r.1.Err? ==> r.0 == rows && r.1.error == AlreadyBlacklisted
    ensures r.1.Ok? ==> r.0 == rows + [BlacklistEntry(token, now + BlacklistTtl)]
    ensures Listed(r.0, token)
    ensures UniqueTokens(rows) ==> UniqueTokens(r.0)
  {
    var (rows', result) := InsertEntry(rows, token, now);
    assert result.Ok? ==> rows'[|rows|].token == token;
    if result.Ok? then (rows', Ok(())) else (rows', Err(AddFailure(result.error)))
  }

  /** The blacklist table, appended to by `addToBlacklist`. */
  class TokenBlacklistRepository {
    var rows: seq<BlacklistEntry>

    ghost predicate Valid()
      reads this
    {
      UniqueTokens(rows)
    }

    constructor ()
      ensures Valid() && rows == []
    {
      rows := [];
    }

    method Add(token: string, now: int) returns (r: Result<(), AppError>)
      requires Valid()
      modifies this
      ensures Valid()
      ensures (rows, r) == AddToken(old(rows), token, now)
    {
      var (next, result) := InsertEntry(rows, token, now);
      rows := next;
      if result.Ok? {
        r := Ok(());
      } else {
        r := Err(AddFailure(result.error));
      }
    }
  }
}
