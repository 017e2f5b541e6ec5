/**
 * `authMiddleware` of src/presentation/middleware/authorization.ts: the
 * token is the second space-separated field of the `authorization` header;
 * it is handed to the wired service's `verifyAccessToken`, and the request
 * is given the user's id and role.
 */
module Middleware {
  import opened Wrappers
  import opened Errors
  import opened Text
  import opened Jwt
  import Passwords
  import opened AuthState
  import Users = UserRepo
  import Blacklist = BlacklistTable
  import AuthSpec
  import AuthProperties

  /** What the middleware adds to the request context: `{userId, Role}`. */
  datatype Principal = Principal(userId: string, role: string)

  const TokenNotProvided: AppError := AuthorizationError("Token not provided")

  /** `headers.authorization?.split(" ")[1]`, with `undefined` and `""` both read as no token. */
  function BearerToken(header: Option<string>): (token: Option<string>)
    ensures token.Some? ==> token.value != "" && ' ' !in token.value
    ensures token.Some? ==> header.Some? && |Split(header.value, ' ')| >= 2 && token.value == Split(header.value, ' ')[1]
    ensures token.None? <==> header.None? || |Split(header.value, ' ')| < 2 || Split(header.value, ' ')[1] == ""
  {
    if header.None? then None
    else
      var fields := Split(header.value, ' ');
      if |fields| < 2 || fields[1] == "" then None else Some(fields[1])
  }

  /** The derive step: no token, no call; otherwise the outcome of `verifyAccessToken`, its error unchanged. */
  function Authorize(s: Stores, jwt: JWTProvider, header: Option<string>, now: nat): Result<Principal, AppError>
  {
    match BearerToken(header)
    case None => Err(TokenNotProvided)
    case Some(token) =>
      match AuthSpec.VerifyAccessToken(s, jwt, token, now)
      case Err(e) => Err(e)
      case Ok(user) => Ok(Principal(user.id, user.role))
  }

  /** `Authorize` is `verifyAccessToken` on the extracted token, projected to `{userId, Role}`, or "Token not provided" without one. */
  lemma AuthorizeDelegates(s: Stores, jwt: JWTProvider, header: Option<string>, now: nat)
    ensures BearerToken(header).None? ==> Authorize(s, jwt, header, now) == Err(TokenNotProvided)
    ensures BearerToken(header).Some? ==>
      var r := AuthSpec.VerifyAccessToken(s, jwt, BearerToken(header).value, now);
      && (Authorize(s, jwt, header, now).Err? <==> r.Err?)
      && (r.Err? ==> Authorize(s, jwt, header, now) == Err(r.error))
      && (r.Ok? ==> Authorize(s, jwt, header, now) == Ok(Principal(r.value.id, r.value.role)))
  {
  }

  /** A header `"<scheme> <token>"`, token non-empty and space-free, yields that token, whatever the scheme word. */
  lemma {:induction false} SchemeAndToken(scheme: string, token: string, rest: string)
    requires ' ' !in scheme && ' ' !in token && token != ""
    ensures BearerToken(Some(scheme + " " + token)) == Some(token)
    ensures BearerToken(Some(scheme + " " + token + " " + rest)) == Some(token)
  {
    SplitAfterPiece(scheme, ' ', token);
    SplitWithout(token, ' ');
    assert scheme + " " + token == scheme + [' '] + token;
    var longer := scheme + " " + token + " " + rest;
    assert longer == scheme + [' '] + (token + [' '] + rest);
    SplitAfterPiece(scheme, ' ', token + [' '] + rest);
    SplitAfterPiece(token, ' ', rest);
  }

  /** A header with no space, such as a bare token without "Bearer ", gives "Token not provided". */
  lemma {:induction false} BareTokenRefused(header: string)
    requires ' ' !in header
    ensures BearerToken(Some(header)) == None
  {
    SplitWithout(header, ' ');
  }

  /** A header whose scheme is followed by two spaces leaves an empty second field, and is refused. */
  lemma {:induction false} DoubleSpaceRefused(scheme: string, rest: string)
    requires ' ' !in scheme
    ensures BearerToken(Some(scheme + "  " + rest)) == None
  {
    assert scheme + "  " + rest == scheme + [' '] + ([' '] + rest);
    SplitAfterPiece(scheme, ' ', [' '] + rest);
    SplitAfterPiece([], ' ', rest);
    assert [] + [' '] + rest == [' '] + rest;
  }

  /** A token that has been logged out is denied at the middleware, at every later instant. */
  lemma LoggedOutTokenDenied(s: Stores, jwt: JWTProvider, scheme: string, token: string, now: nat)
    requires ' ' !in scheme && ' ' !in token && token != ""
    requires Blacklist.Listed(s.blacklist, token)
    ensures Authorize(s, jwt, Some(scheme + " " + token), now) == Err(Blacklist.TokenBlacklisted)
  {
    SchemeAndToken(scheme, token, "");
    AuthProperties.BlacklistedTokenDenied(s, jwt, token, now);
  }

  /** A validly signed token of an unverified or banned user is denied at the middleware. */
  lemma FlaggedUserDenied(s: Stores, jwt: JWTProvider, scheme: string, token: string, now: nat, claims: Claims, user: Users.User)
    requires ' ' !in scheme && ' ' !in token && token != ""
    requires !Blacklist.Listed(s.blacklist, token)
    requires jwt.Verify(token, now) == Ok(claims) && Users.FindUser(s.users, claims.id) == Ok(user)
    requires !user.isVerified || user.onBanned
    ensures Authorize(s, jwt, Some(scheme + " " + token), now).Err?
    ensures !user.isVerified ==> Authorize(s, jwt, Some(scheme + " " + token), now) == Err(AuthSpec.NotVerified)
    ensures user.isVerified ==> Authorize(s, jwt, Some(scheme + " " + token), now) == Err(AuthSpec.Banned)
  {
    SchemeAndToken(scheme, token, "");
    AuthProperties.AccessTokenFlags(s, jwt, token, now, claims, user);
  }

  /** A well-formed header whose token `verifyAccessToken` accepts gives that user's id and role. */
  lemma AcceptedTokenAuthorizes(s: Stores, jwt: JWTProvider, scheme: string, token: string, now: nat, user: Users.User)
    requires ' ' !in scheme && ' ' !in token && token != ""
    requires AuthSpec.VerifyAccessToken(s, jwt, token, now) == Ok(user)
    ensures Authorize(s, jwt, Some(scheme + " " + token), now) == Ok(Principal(user.id, user.role))
  {
    SchemeAndToken(scheme, token, "");
  }

  /**
   * A login session at the middleware: the `Bearer <token>` header of a token from
   * `loginUser`, presented within seven days and not logged out, gives the
   * user's own id and role. The scheme word is never read, so any word
   * without a space stands in for "Bearer".
   */
  lemma LoginSessionAuthorizes(s: Stores, jwt: JWTProvider, email: string, password: string, now: nat, later: nat, i: nat, scheme: string)
    requires jwt.Valid() && ' ' !in scheme
    requires i < |s.users| && Users.FindUser(s.users, s.users[i].id) == Ok(s.users[i])
    requires Users.FindUser(s.users, email) == Ok(s.users[i])
    requires s.users[i].isVerified && !s.users[i].onBanned && s.users[i].password == Some(Passwords.Hash(password))
    requires later / 1000 < now / 1000 + SessionLifetime
    ensures AuthSpec.LoginUser(s, jwt, email, password, now).Ok?
    ensures var token := AuthSpec.LoginUser(s, jwt, email, password, now).value;
      !Blacklist.Listed(s.blacklist, token) ==>
        Authorize(s, jwt, Some(scheme + " " + token), later) == Ok(Principal(s.users[i].id, s.users[i].role))
  {
    var user := s.users[i];
    var token := jwt.Sign(AuthSpec.TokenClaims(user, "login"), now);
    assert AuthSpec.LoginUser(s, jwt, email, password, now) == Ok(token);
    if !Blacklist.Listed(s.blacklist, token) {
      AuthProperties.LoginThenAccess(s, jwt, email, password, now, later, i);
      assert AuthSpec.VerifyAccessToken(s, jwt, token, later) == Ok(user);
      AcceptedTokenAuthorizes(s, jwt, scheme, token, later, user);
    }
  }
}
