/**
 * What the operations of the wired `AuthServices` promise, proved about
 * their specification in AuthSpec (and so, through the methods' contracts,
 * about the service itself).
 */
module AuthProperties {
  import opened Wrappers
  import opened Errors
  import opened Passwords
  import opened Jwt
  import opened Mail
  import opened AuthState
  import opened UserDto
  import opened AuthSpec
  import Users = UserRepo
  import Otps = OtpTable
  import OtpRepo
  import Blacklist = BlacklistTable
  import BlacklistRepo

  // ---------------------------------------------------------------- registerUser

  /** An email whose user is already verified is refused, and no store changes. */
  lemma RegisterVerifiedEmailFails(s: Stores, jwt: JWTProvider, defaultRole: string, firstName: string, lastName: string,
                                   email: string, password: string, env: Env, user: Users.User)
    requires jwt.Valid()
    requires Users.FindUser(s.users, email) == Ok(user) && user.isVerified
    ensures RegisterUser(s, jwt, defaultRole, firstName, lastName, email, password, env) == (s, Err(EmailTaken))
    ensures Status(EmailTaken) == 401
  {
  }

  /**
   * The shared tail of registration and `forgotPassword`: with the mail
   * provider up and an OTP row that can be written, the user's OTP takes the
   * drawn code, the code email carrying the token is recorded, the user table
   * and the blacklist are untouched, and the token verifies to `{id, role, type}`.
   */
  lemma IssueCodeSucceeds(s: Stores, jwt: JWTProvider, u: Users.User, tokenType: string, purpose: CodePurpose, env: Env)
    requires jwt.Valid() && s.mailUp
    requires OtpRepo.CreateOtp(s.otps, u.id, OtpText(env.otpCode), env.newOtpId).1.Ok?
    ensures var (s', r) := IssueCode(s, jwt, u, tokenType, purpose, env);
      && r.Ok?
      && s'.users == s.users && s'.blacklist == s.blacklist && s'.mailUp == s.mailUp
      && s'.otps == OtpRepo.CreateOtp(s.otps, u.id, OtpText(env.otpCode), env.newOtpId).0
      && s'.outbox == s.outbox + [CodeEmail(purpose, r.value, OtpText(env.otpCode))]
      && jwt.Verify(r.value, env.now) == Ok(TokenClaims(u, tokenType))
  {
    var token := jwt.Sign(TokenClaims(u, tokenType), env.now);
    assert IssueCode(s, jwt, u, tokenType, purpose, env).1 == Ok(token);
    ProviderRoundTrip(jwt, TokenClaims(u, tokenType), env.now, env.now);
  }

  /** For a user with no OTP row, the upsert appends one under the database's fresh id. */
  lemma CreateOtpForNewUser(otps: seq<Otps.Otp>, userId: string, code: string, newId: string)
    requires forall j :: 0 <= j < |otps| ==> otps[j].id != newId && otps[j].userId != userId
    ensures OtpRepo.CreateOtp(otps, userId, code, newId) == (otps + [Otps.Otp(newId, userId, code)], Ok(Otps.Otp(newId, userId, code)))
  {
    assert !Otps.ClashesWithOthers(otps, Otps.Otp(newId, userId, code), |otps|);
  }

  /**
   * An email no user has: exactly one new, unverified row is appended, one
   * OTP with the drawn code is stored for it, the code email is recorded, and
   * the token returned verifies to a "register-user" payload for the new row.
   */
  lemma RegisterFreshEmail(s: Stores, jwt: JWTProvider, defaultRole: string, firstName: string, lastName: string,
                           email: string, password: string, env: Env)
    requires jwt.Valid() && s.mailUp
    requires forall j :: 0 <= j < |s.users| ==> !Users.MatchesKey(s.users[j], email)
    requires !Users.ClashesWithOthers(s.users, Users.NewRecord(env.newUserId, NewAccount(firstName, lastName, email, password, env), defaultRole), |s.users|)
    requires forall j :: 0 <= j < |s.otps| ==> s.otps[j].id != env.newOtpId && s.otps[j].userId != env.newUserId
    ensures var u := Users.NewRecord(env.newUserId, NewAccount(firstName, lastName, email, password, env), defaultRole);
      var code := OtpText(env.otpCode);
      var (s', r) := RegisterUser(s, jwt, defaultRole, firstName, lastName, email, password, env);
      && r.Ok?
      && s'.users == s.users + [u] && !u.isVerified && u.email == email
      && u.username == Some(Username(firstName, env.usernameSuffix)) && u.password == Some(Hash(password))
      && s'.otps == s.otps + [Otps.Otp(env.newOtpId, u.id, code)]
      && s'.outbox == s.outbox + [VerificationCode(r.value, code)]
      && s'.blacklist == s.blacklist && s'.mailUp == s.mailUp
      && jwt.Verify(r.value, env.now) == Ok(TokenClaims(u, "register-user"))
  {
    var u := Users.NewRecord(env.newUserId, NewAccount(firstName, lastName, email, password, env), defaultRole);
    assert RegisterAttempt(s, jwt, firstName, lastName, email, password, env) == (s, Err(Users.UserNotFound));
    var s1 := s.(users := s.users + [u]);
    assert RegisterNew(s, jwt, defaultRole, firstName, lastName, email, password, env)
        == IssueCode(s1, jwt, u, "register-user", Registration, env);
    CreateOtpForNewUser(s1.otps, u.id, OtpText(env.otpCode), env.newOtpId);
    IssueCodeSucceeds(s1, jwt, u, "register-user", Registration, env);
    var outcome := IssueCode(s1, jwt, u, "register-user", Registration, env);
    assert RegisterUser(s, jwt, defaultRole, firstName, lastName, email, password, env) == outcome;
  }

  /** The profile update of a re-registration succeeds on the user's own row when the new username is free. */
  lemma ProfileUpdateSucceeds(users: seq<Users.User>, i: nat, patch: Users.UserPatch)
    requires Users.UniqueRows(users) && i < |users|
    requires patch.username.Some? ==> forall j :: 0 <= j < |users| && j != i ==> users[j].username != patch.username
    ensures Users.UpdateUser(users, users[i].id, patch) == (users[i := Users.Apply(users[i], patch)], Ok(Users.Apply(users[i], patch)))
  {
    var v := Users.Apply(users[i], patch);
    assert Users.IndexOfId(users, users[i].id) == Some(i) by {
      var k := Users.IndexOfId(users, users[i].id).value;
      if k != i {
        assert Users.Clash(users[k], users[i]);
      }
    }
    assert !Users.ClashesWithOthers(users, v, i) by {
      forall j | 0 <= j < |users| && j != i ensures !Users.Clash(users[j], v) {
        assert !Users.Clash(users[j], users[i]);
      }
    }
  }

  /** Re-registration of an unverified user reduces to issuing a "verify" code for the updated row. */
  lemma RegisterUnverifiedReduces(s: Stores, jwt: JWTProvider, defaultRole: string, firstName: string, lastName: string,
                                  email: string, password: string, env: Env, i: nat)
    requires jwt.Valid() && Users.UniqueRows(s.users)
    requires i < |s.users| && Users.FindUser(s.users, email) == Ok(s.users[i]) && !s.users[i].isVerified
    requires forall j :: 0 <= j < |s.users| && j != i ==> s.users[j].username != Some(Username(firstName, env.usernameSuffix))
    ensures var v := Users.Apply(s.users[i], ProfilePatch(firstName, lastName, Username(firstName, env.usernameSuffix), password));
      RegisterAttempt(s, jwt, firstName, lastName, email, password, env) == IssueCode(s.(users := s.users[i := v]), jwt, v, "verify", Registration, env)
  {
    var patch := ProfilePatch(firstName, lastName, Username(firstName, env.usernameSuffix), password);
    ProfileUpdateSucceeds(s.users, i, patch);
  }

  /**
   * An email whose user is not verified yet: that same row is overwritten in
   * place with the new names, a fresh username, the new hash and an empty
   * avatar, no row is added, and the token returned verifies to a "verify"
   * payload for that row.
   */
  lemma RegisterUnverifiedUpdatesInPlace(s: Stores, jwt: JWTProvider, defaultRole: string, firstName: string, lastName: string,
                                         email: string, password: string, env: Env, i: nat)
    requires jwt.Valid() && Users.UniqueRows(s.users) && Otps.UniqueRows(s.otps) && s.mailUp
    requires i < |s.users| && Users.FindUser(s.users, email) == Ok(s.users[i]) && !s.users[i].isVerified
    requires forall j :: 0 <= j < |s.users| && j != i ==> s.users[j].username != Some(Username(firstName, env.usernameSuffix))
    requires forall j :: 0 <= j < |s.otps| ==> s.otps[j].id != env.newOtpId
    ensures var v := Users.Apply(s.users[i], ProfilePatch(firstName, lastName, Username(firstName, env.usernameSuffix), password));
      var (s', r) := RegisterUser(s, jwt, defaultRole, firstName, lastName, email, password, env);
      && r.Ok?
      && s'.users == s.users[i := v] && |s'.users| == |s.users|
      && v.id == s.users[i].id && v.email == s.users[i].email && v.avatar == "" && v.password == Some(Hash(password))
      && s'.blacklist == s.blacklist
      && jwt.Verify(r.value, env.now) == Ok(TokenClaims(v, "verify"))
  {
    var v := Users.Apply(s.users[i], ProfilePatch(firstName, lastName, Username(firstName, env.usernameSuffix), password));
    RegisterUnverifiedReduces(s, jwt, defaultRole, firstName, lastName, email, password, env, i);
    var s1 := s.(users := s.users[i := v]);
    UserCodeCanBeStored(s1.otps, v.id, OtpText(env.otpCode), env.newOtpId);
    IssueCodeSucceeds(s1, jwt, v, "verify", Registration, env);
    var outcome := IssueCode(s1, jwt, v, "verify", Registration, env);
    assert RegisterUser(s, jwt, defaultRole, firstName, lastName, email, password, env) == outcome;
    assert outcome.0.users == s1.users;
  }

  /** Re-registration replaces the user's pending OTP: the user has one, and every OTP of theirs holds the new code. */
  lemma RegisterUnverifiedRenewsCode(s: Stores, jwt: JWTProvider, defaultRole: string, firstName: string, lastName: string,
                                     email: string, password: string, env: Env, i: nat)
    requires jwt.Valid() && Users.UniqueRows(s.users) && Otps.UniqueRows(s.otps) && s.mailUp
    requires i < |s.users| && Users.FindUser(s.users, email) == Ok(s.users[i]) && !s.users[i].isVerified
    requires forall j :: 0 <= j < |s.users| && j != i ==> s.users[j].username != Some(Username(firstName, env.usernameSuffix))
    requires forall j :: 0 <= j < |s.otps| ==> s.otps[j].id != env.newOtpId
    ensures var code := OtpText(env.otpCode);
      var userId := s.users[i].id;
      var (s', r) := RegisterUser(s, jwt, defaultRole, firstName, lastName, email, password, env);
      && r.Ok?
      && (exists k :: 0 <= k < |s'.otps| && s'.otps[k].userId == userId)
      && (forall k :: 0 <= k < |s'.otps| && s'.otps[k].userId == userId ==> s'.otps[k].code == code)
      && s'.outbox == s.outbox + [VerificationCode(r.value, code)]
  {
    var v := Users.Apply(s.users[i], ProfilePatch(firstName, lastName, Username(firstName, env.usernameSuffix), password));
    RegisterUnverifiedReduces(s, jwt, defaultRole, firstName, lastName, email, password, env, i);
    var s1 := s.(users := s.users[i := v]);
    UserCodeCanBeStored(s1.otps, v.id, OtpText(env.otpCode), env.newOtpId);
    IssueCodeSucceeds(s1, jwt, v, "verify", Registration, env);
    var outcome := IssueCode(s1, jwt, v, "verify", Registration, env);
    assert RegisterUser(s, jwt, defaultRole, firstName, lastName, email, password, env) == outcome;
    assert outcome.0.users == s1.users;
  }

  /** With a fresh id for a new row, the upsert of a user's code succeeds and leaves that user exactly one record, holding the code. */
  lemma UserCodeCanBeStored(otps: seq<Otps.Otp>, userId: string, code: string, newId: string)
    requires Otps.UniqueRows(otps)
    requires forall j :: 0 <= j < |otps| ==> otps[j].id != newId
    ensures var (otps', r) := OtpRepo.CreateOtp(otps, userId, code, newId);
      && r.Ok? && r.value in otps'
      && (exists k :: 0 <= k < |otps'| && otps'[k].userId == userId)
      && (forall k :: 0 <= k < |otps'| && otps'[k].userId == userId ==> otps'[k].code == code)
  {
    var created := OtpRepo.CreateOtp(otps, userId, code, newId);
    assert created.1.Ok? by {
      if forall j :: 0 <= j < |otps| ==> otps[j].userId != userId {
        CreateOtpForNewUser(otps, userId, code, newId);
      }
    }
    Otps.UpsertLeavesOneCode(otps, userId, code, newId);
    var k :| 0 <= k < |created.0| && created.0[k] == created.1.value;
  }

  // ---------------------------------------------------------- verifyRegistration

  /** A token that does not verify fails with "Verification Error", and no store changes. */
  lemma VerifyRegistrationBadToken(s: Stores, jwt: JWTProvider, token: string, code: string, now: nat)
    requires jwt.Verify(token, now).Err?
    ensures VerifyRegistration(s, jwt, token, code, now) == (s, Err(VerificationFailed))
  {
  }

  /** A user who is already verified is told so, and no store changes. */
  lemma VerifyRegistrationAlreadyVerified(s: Stores, jwt: JWTProvider, token: string, code: string, now: nat, claims: Claims, user: Users.User)
    requires jwt.Verify(token, now) == Ok(claims)
    requires Users.FindUser(s.users, claims.id) == Ok(user) && user.isVerified
    ensures VerifyRegistration(s, jwt, token, code, now) == (s, Err(AlreadyVerified))
  {
  }

  /**
   * A token whose user is missing, a code that finds no OTP, and an OTP that
   * belongs to someone else all fail with "Kode OTP Salah", and neither the
   * OTP nor the user changes.
   */
  lemma VerifyRegistrationWrongCode(s: Stores, jwt: JWTProvider, token: string, code: string, now: nat, claims: Claims)
    requires jwt.Verify(token, now) == Ok(claims)
    requires || Users.FindUser(s.users, claims.id).Err?
             || (&& Users.FindUser(s.users, claims.id).Ok?
                 && !Users.FindUser(s.users, claims.id).value.isVerified
                 && (|| Otps.GetOne(s.otps, code).Err?
                     || Otps.GetOne(s.otps, code).value.userId != Users.FindUser(s.users, claims.id).value.id))
    ensures VerifyRegistration(s, jwt, token, code, now) == (s, Err(WrongOtp))
  {
  }

  /** Deleting a record read from a table with unique ids removes exactly that record. */
  lemma DeleteReadRecord(otps: seq<Otps.Otp>, otp: Otps.Otp)
    requires Otps.UniqueRows(otps) && otp in otps
    ensures var (otps', r) := OtpRepo.DeleteOtp(otps, otp.id);
      && r.Ok?
      && multiset(otps') + multiset{otp} == multiset(otps)
      && forall j :: 0 <= j < |otps'| ==> otps'[j].id != otp.id
  {
    var (otps', r) := OtpRepo.DeleteOtp(otps, otp.id);
    var o :| o in otps && o.id == otp.id && multiset(otps') + multiset{o} == multiset(otps);
    var a :| 0 <= a < |otps| && otps[a] == o;
    var b :| 0 <= b < |otps| && otps[b] == otp;
    if a != b {
      assert Otps.Clash(otps[a], otps[b]);
    }
  }

  /**
   * The right code for the token's user: the OTP is consumed, the user row is
   * marked verified in place, the welcome email is recorded, and the view
   * returned is that of the row as it was read, still unverified.
   */
  lemma VerifyRegistrationSucceeds(s: Stores, jwt: JWTProvider, token: string, code: string, now: nat, claims: Claims, i: nat, otp: Otps.Otp)
    requires Consistent(s) && s.mailUp
    requires jwt.Verify(token, now) == Ok(claims)
    requires i < |s.users| && s.users[i].id == claims.id && Users.FindUser(s.users, claims.id) == Ok(s.users[i])
    requires !s.users[i].isVerified
    requires Otps.GetOne(s.otps, code) == Ok(otp) && otp.userId == claims.id
    ensures var (s', r) := VerifyRegistration(s, jwt, token, code, now);
      && r == Ok(FromEntity(s.users[i])) && !r.value.isVerified
      && s'.users == s.users[i := s.users[i].(isVerified := true)]
      && multiset(s'.otps) + multiset{otp} == multiset(s.otps)
      && (forall j :: 0 <= j < |s'.otps| ==> s'.otps[j].id != otp.id)
      && s'.outbox == s.outbox + [VerificationSuccess(s.users[i].email)]
      && s'.blacklist == s.blacklist
  {
    var user := s.users[i];
    DeleteReadRecord(s.otps, otp);
    var otps := OtpRepo.DeleteOtp(s.otps, otp.id).0;
    Users.UpdateKeepingKeys(s.users, i, MarkVerified);
    assert Users.Apply(user, MarkVerified) == user.(isVerified := true);
    var outcome := CompleteRegistration(s, claims, user, otp);
    assert outcome == (s.(otps := otps, users := s.users[i := user.(isVerified := true)], outbox := s.outbox + [VerificationSuccess(user.email)]), Ok(FromEntity(user)));
    assert VerifyRegistrationAttempt(s, jwt, token, code, now) == outcome;
  }

  // ------------------------------------------------------------------- loginUser

  /**
   * `loginUser` runs its checks in a fixed order: verification, then the
   * ban, then the presence of a hash, then the password. Each failing check
   * gives its own AuthorizationError; passing all four gives a "login" token
   * that verifies for seven days.
   */
  lemma LoginCheckOrder(s: Stores, jwt: JWTProvider, email: string, password: string, now: nat, later: nat, user: Users.User)
    requires jwt.Valid()
    requires Users.FindUser(s.users, email) == Ok(user)
    ensures var r := LoginUser(s, jwt, email, password, now);
      && (!user.isVerified ==> r == Err(NotVerifiedAtLogin))
      && (user.isVerified && user.onBanned ==> r == Err(Banned))
      && (user.isVerified && !user.onBanned && user.password.None? ==> r == Err(NoPassword))
      && (user.isVerified && !user.onBanned && user.password.Some? && user.password != Some(Hash(password)) ==> r == Err(WrongPassword))
      && (r.Ok? <==> user.isVerified && !user.onBanned && user.password == Some(Hash(password)))
      && (r.Ok? && later / 1000 < now / 1000 + SessionLifetime ==> jwt.Verify(r.value, later) == Ok(TokenClaims(user, "login")))
  {
    ProviderRoundTrip(jwt, TokenClaims(user, "login"), now, later);
  }

  /** An email that finds no user gives "Akun tidak ditemukan". */
  lemma LoginUnknownEmail(s: Stores, jwt: JWTProvider, email: string, password: string, now: nat)
    requires jwt.Valid()
    requires forall j :: 0 <= j < |s.users| ==> !Users.MatchesKey(s.users[j], email)
    ensures LoginUser(s, jwt, email, password, now) == Err(UnknownAccount)
  {
  }

  /** With no database fault, every login failure is an AuthorizationError (HTTP 401). */
  lemma LoginFailuresAreUnauthorized(s: Stores, jwt: JWTProvider, email: string, password: string, now: nat)
    requires jwt.Valid()
    ensures var r := LoginUser(s, jwt, email, password, now);
      r.Err? ==> r.error.AuthorizationError? && Status(r.error) == 401
  {
  }

  // ----------------------------------------------------------- verifyAccessToken

  /** A listed token is refused with NotFoundError("token is blacklisted") before its signature is looked at. */
  lemma BlacklistedTokenDenied(s: Stores, jwt: JWTProvider, token: string, now: nat)
    requires Blacklist.Listed(s.blacklist, token)
    ensures VerifyAccessToken(s, jwt, token, now) == Err(Blacklist.TokenBlacklisted)
    ensures Status(Blacklist.TokenBlacklisted) == 404
  {
  }

  /**
   * For a token that is not listed and verifies, the outcome is decided by
   * the account flags alone: unverified first, then banned, else the row.
   */
  lemma AccessTokenFlags(s: Stores, jwt: JWTProvider, token: string, now: nat, claims: Claims, user: Users.User)
    requires !Blacklist.Listed(s.blacklist, token)
    requires jwt.Verify(token, now) == Ok(claims)
    requires Users.FindUser(s.users, claims.id) == Ok(user)
    ensures var r := VerifyAccessToken(s, jwt, token, now);
      && (!user.isVerified ==> r == Err(NotVerified))
      && (user.isVerified && user.onBanned ==> r == Err(Banned))
      && (r.Ok? <==> user.isVerified && !user.onBanned)
      && (r.Ok? ==> r.value == user)
  {
  }

  /** A token that does not verify, and is not listed, gives "Verification Error". */
  lemma AccessTokenBadSignature(s: Stores, jwt: JWTProvider, token: string, now: nat)
    requires !Blacklist.Listed(s.blacklist, token)
    requires jwt.Verify(token, now).Err?
    ensures VerifyAccessToken(s, jwt, token, now) == Err(VerificationFailed)
  {
  }

  /**
   * The session a successful login opens: for seven days its token gives
   * back the user's own row, as long as the token is not blacklisted.
   */
  lemma LoginThenAccess(s: Stores, jwt: JWTProvider, email: string, password: string, now: nat, later: nat, i: nat)
    requires jwt.Valid()
    requires i < |s.users| && Users.FindUser(s.users, s.users[i].id) == Ok(s.users[i])
    requires Users.FindUser(s.users, email) == Ok(s.users[i])
    requires s.users[i].isVerified && !s.users[i].onBanned && s.users[i].password == Some(Hash(password))
    requires later / 1000 < now / 1000 + SessionLifetime
    ensures LoginUser(s, jwt, email, password, now).Ok?
    ensures var token := LoginUser(s, jwt, email, password, now).value;
      !Blacklist.Listed(s.blacklist, token) ==> VerifyAccessToken(s, jwt, token, later) == Ok(s.users[i])
  {
    var user := s.users[i];
    ProviderRoundTrip(jwt, TokenClaims(user, "login"), now, later);
  }

  // ---------------------------------------------------------------------- logout

  /** A token that does not verify cannot be logged out: "Verification Error", and nothing changes. */
  lemma LogoutBadToken(s: Stores, jwt: JWTProvider, token: string, now: nat)
    requires jwt.Verify(token, now).Err?
    ensures Logout(s, jwt, token, now) == (s, Err(VerificationFailed))
  {
  }

  /**
   * Logging out a valid token that is not yet listed appends one row that
   * lapses seven days on, and from then on, at every instant, the token is
   * refused by `verifyAccessToken`; no other store changes.
   */
  lemma LogoutRevokes(s: Stores, jwt: JWTProvider, token: string, now: nat, later: nat)
    requires jwt.Verify(token, now).Ok? && !Blacklist.Listed(s.blacklist, token)
    ensures var (s', r) := Logout(s, jwt, token, now);
      && r == Ok(())
      && s' == s.(blacklist := s.blacklist + [Blacklist.BlacklistEntry(token, now + Blacklist.BlacklistTtl)])
      && VerifyAccessToken(s', jwt, token, later) == Err(Blacklist.TokenBlacklisted)
  {
    BlacklistedTokenDenied(Logout(s, jwt, token, now).0, jwt, token, later);
  }

  /** A token that is already listed gives "Token already blacklisted" (a NotFoundError), and nothing changes. */
  lemma LogoutTwice(s: Stores, jwt: JWTProvider, token: string, now: nat)
    requires jwt.Verify(token, now).Ok? && Blacklist.Listed(s.blacklist, token)
    ensures Logout(s, jwt, token, now) == (s, Err(Blacklist.AlreadyBlacklisted))
  {
  }

  /** Only the first of two logouts of one token succeeds; the second leaves the stores as the first left them. */
  lemma LogoutIsNotRepeatable(s: Stores, jwt: JWTProvider, token: string, now: nat, later: nat)
    requires jwt.Verify(token, now).Ok? && jwt.Verify(token, later).Ok?
    ensures var (s1, _) := Logout(s, jwt, token, now);
      Logout(s1, jwt, token, later) == (s1, Err(Blacklist.AlreadyBlacklisted))
  {
    var (s1, _) := Logout(s, jwt, token, now);
    LogoutTwice(s1, jwt, token, later);
  }

  // -------------------------------------------------------------- forgotPassword

  /** The three refusals of `forgotPassword`, each leaving every store as it was. */
  lemma ForgotPasswordRefusals(s: Stores, jwt: JWTProvider, email: string, env: Env)
    requires jwt.Valid()
    ensures var r := ForgotPassword(s, jwt, email, env);
      && ((forall j :: 0 <= j < |s.users| ==> !Users.MatchesKey(s.users[j], email)) ==> r == (s, Err(UnknownEmail)))
      && (Users.FindUser(s.users, email).Ok? && !Users.FindUser(s.users, email).value.isVerified ==> r == (s, Err(NotVerifiedForReset)))
      && ((&& Users.FindUser(s.users, email).Ok? && Users.FindUser(s.users, email).value.isVerified
           && Users.FindUser(s.users, email).value.password.None?) ==> r == (s, Err(NoPassword)))
  {
  }

  /**
   * A verified user with a password gets a fresh code stored against their
   * id, an email carrying it, and a "forgot-password" token for one hour.
   * Nothing here depends on `onBanned`: a banned user is served the same way.
   */
  lemma ForgotPasswordIssuesCode(s: Stores, jwt: JWTProvider, email: string, env: Env, user: Users.User, later: nat)
    requires jwt.Valid() && s.mailUp
    requires Users.FindUser(s.users, email) == Ok(user) && user.isVerified && user.password.Some?
    requires OtpRepo.CreateOtp(s.otps, user.id, OtpText(env.otpCode), env.newOtpId).1.Ok?
    requires later / 1000 < env.now / 1000 + VerificationLifetime
    ensures var (s', r) := ForgotPassword(s, jwt, email, env);
      && r.Ok?
      && jwt.Verify(r.value, later) == Ok(TokenClaims(user, "forgot-password"))
      && s'.users == s.users && s'.blacklist == s.blacklist
      && s'.otps == OtpRepo.CreateOtp(s.otps, user.id, OtpText(env.otpCode), env.newOtpId).0
      && s'.outbox == s.outbox + [ForgotPasswordCode(r.value, OtpText(env.otpCode))]
  {
    IssueCodeSucceeds(s, jwt, user, "forgot-password", PasswordReset, env);
    ProviderRoundTrip(jwt, TokenClaims(user, "forgot-password"), env.now, later);
  }

  /** A pending OTP of the user is replaced in place: the record keeps its id and takes the new code. */
  lemma ForgotPasswordReplacesOtp(s: Stores, jwt: JWTProvider, email: string, env: Env, user: Users.User, k: nat)
    requires jwt.Valid() && s.mailUp && Otps.UniqueRows(s.otps)
    requires Users.FindUser(s.users, email) == Ok(user) && user.isVerified && user.password.Some?
    requires k < |s.otps| && s.otps[k].userId == user.id
    ensures var (s', r) := ForgotPassword(s, jwt, email, env);
      && r.Ok?
      && s'.otps == s.otps[k := Otps.Otp(s.otps[k].id, user.id, OtpText(env.otpCode))]
  {
    var (otps, created) := OtpRepo.CreateOtp(s.otps, user.id, OtpText(env.otpCode), env.newOtpId);
    var i :| 0 <= i < |s.otps| && s.otps[i].userId == user.id && created.value.id == s.otps[i].id && otps == s.otps[i := created.value];
    if i != k {
      assert Otps.Clash(s.otps[i], s.otps[k]);
    }
    IssueCodeSucceeds(s, jwt, user, "forgot-password", PasswordReset, env);
    var outcome := IssueCode(s, jwt, user, "forgot-password", PasswordReset, env);
    assert ForgotPasswordAttempt(s, jwt, email, env) == outcome;
  }

  // -------------------------------------------------------- verifyForgotPassword

  /** The right code consumes the OTP and yields a "verify-forgot-password" token; users and mail are untouched. */
  lemma VerifyForgotPasswordConsumes(s: Stores, jwt: JWTProvider, token: string, code: string, now: nat, claims: Claims, user: Users.User, otp: Otps.Otp)
    requires jwt.Valid() && Otps.UniqueRows(s.otps)
    requires jwt.Verify(token, now) == Ok(claims)
    requires Users.FindUser(s.users, claims.id) == Ok(user)
    requires Otps.GetOne(s.otps, code) == Ok(otp) && otp.userId == user.id
    ensures var (s', r) := VerifyForgotPassword(s, jwt, token, code, now);
      && r == Ok(jwt.Sign(TokenClaims(user, "verify-forgot-password"), now))
      && multiset(s'.otps) + multiset{otp} == multiset(s.otps)
      && (forall j :: 0 <= j < |s'.otps| ==> s'.otps[j].id != otp.id)
      && s'.users == s.users && s'.blacklist == s.blacklist && s'.outbox == s.outbox
  {
    DeleteReadRecord(s.otps, otp);
    var otps := OtpRepo.DeleteOtp(s.otps, otp.id).0;
    var outcome := (s.(otps := otps), Ok(jwt.Sign(TokenClaims(user, "verify-forgot-password"), now)));
    assert VerifyForgotPasswordAttempt(s, jwt, token, code, now) == outcome;
  }

  /** A bad token gives "Verification Error"; a missing user or OTP, or another user's OTP, gives "Invalid OTP code"; nothing changes. */
  lemma VerifyForgotPasswordRefusals(s: Stores, jwt: JWTProvider, token: string, code: string, now: nat)
    requires jwt.Valid()
    ensures var r := VerifyForgotPassword(s, jwt, token, code, now);
      && (jwt.Verify(token, now).Err? ==> r == (s, Err(VerificationFailed)))
      && (jwt.Verify(token, now).Ok? && Users.FindUser(s.users, jwt.Verify(token, now).value.id).Err? ==> r == (s, Err(InvalidOtp)))
      && (&& jwt.Verify(token, now).Ok? && Users.FindUser(s.users, jwt.Verify(token, now).value.id).Ok?
          && (|| Otps.GetOne(s.otps, code).Err?
              || Otps.GetOne(s.otps, code).value.userId != Users.FindUser(s.users, jwt.Verify(token, now).value.id).value.id)
          ==> r == (s, Err(InvalidOtp)))
  {
  }

  /**
   * The code is looked up by `userId` or `code`, so the user's own id passes
   * as the code whenever the user has a pending OTP and no record's code
   * happens to equal that id.
   */
  lemma UserIdPassesAsCode(s: Stores, jwt: JWTProvider, token: string, now: nat, claims: Claims, user: Users.User, k: nat)
    requires jwt.Valid() && Otps.UniqueRows(s.otps)
    requires jwt.Verify(token, now) == Ok(claims)
    requires Users.FindUser(s.users, claims.id) == Ok(user)
    requires k < |s.otps| && s.otps[k].userId == user.id
    requires forall j :: 0 <= j < |s.otps| ==> s.otps[j].code != user.id
    ensures VerifyForgotPassword(s, jwt, token, user.id, now).1 == Ok(jwt.Sign(TokenClaims(user, "verify-forgot-password"), now))
  {
    var found := Otps.GetOne(s.otps, user.id);
    assert Otps.MatchesKey(s.otps[k], user.id);
    assert found.Ok? && found.value.userId == user.id;
    VerifyForgotPasswordConsumes(s, jwt, token, user.id, now, claims, user, found.value);
  }

  // --------------------------------------------------------------- resetPassword

  /**
   * A token that verifies and names a user sets that user's hash and
   * nothing else. The call answers `Ok` even when the confirmation email
   * fails: that failure is swallowed, and the outbox is left as it was.
   * The token's `type` is never read: any token the provider signed will do.
   */
  lemma ResetPasswordChangesOnlyHash(s: Stores, jwt: JWTProvider, token: string, password: string, now: nat, claims: Claims, user: Users.User)
    requires Users.UniqueRows(s.users)
    requires jwt.Verify(token, now) == Ok(claims)
    requires Users.FindUser(s.users, claims.id) == Ok(user)
    ensures var (s', r) := ResetPassword(s, jwt, token, password, now);
      && r == Ok(())
      && (exists k :: 0 <= k < |s.users| && s.users[k] == user && s'.users == s.users[k := user.(password := Some(Hash(password)))])
      && s'.otps == s.otps && s'.blacklist == s.blacklist
      && s'.outbox == (if s.mailUp then s.outbox + [PasswordResetSuccess(user.email)] else s.outbox)
  {
    var k :| 0 <= k < |s.users| && s.users[k] == user;
    ResetPasswordAttemptAt(s, jwt, token, password, now, claims, user, k);
    var sent := Deliver(s.outbox, s.mailUp, PasswordResetSuccess(user.email)).1;
    // A failed confirmation email is an EmailError, which the catch block swallows.
    if !s.mailUp {
      assert sent.error.EmailError?;
    }
  }

  /** The `try` block of `resetPassword` for the token's user at row `k`: that row takes the new hash, then the confirmation email goes out. */
  lemma ResetPasswordAttemptAt(s: Stores, jwt: JWTProvider, token: string, password: string, now: nat, claims: Claims, user: Users.User, k: nat)
    requires Users.UniqueRows(s.users)
    requires jwt.Verify(token, now) == Ok(claims)
    requires Users.FindUser(s.users, claims.id) == Ok(user)
    requires k < |s.users| && s.users[k] == user
    ensures var (outbox, sent) := Deliver(s.outbox, s.mailUp, PasswordResetSuccess(user.email));
      ResetPasswordAttempt(s, jwt, token, password, now) == (s.(users := s.users[k := user.(password := Some(Hash(password)))], outbox := outbox), sent)
  {
    Users.UpdateKeepingKeys(s.users, k, NewPassword(password));
    assert Users.Apply(user, NewPassword(password)) == user.(password := Some(Hash(password)));
  }

  /** `resetPassword` reports only "Invalid OTP code" and "Verification Error"; every other failure reads as success. */
  lemma ResetPasswordErrors(s: Stores, jwt: JWTProvider, token: string, password: string, now: nat)
    ensures var r := ResetPassword(s, jwt, token, password, now).1;
      r.Err? ==> r == Err(InvalidOtp) || r == Err(VerificationFailed)
    ensures jwt.Verify(token, now).Err? ==> ResetPassword(s, jwt, token, password, now) == (s, Err(VerificationFailed))
  {
  }

  /**
   * The "forgot-password" token that `forgotPassword` hands back resets the
   * password directly, within its hour, with no code ever presented:
   * `verifyForgotPassword` is not on the path.
   */
  lemma ForgotTokenResetsPassword(s: Stores, jwt: JWTProvider, email: string, env: Env, password: string, later: nat, i: nat)
    requires jwt.Valid() && s.mailUp && Users.UniqueRows(s.users)
    requires i < |s.users| && Users.FindUser(s.users, email) == Ok(s.users[i])
    requires Users.FindUser(s.users, s.users[i].id) == Ok(s.users[i])
    requires s.users[i].isVerified && s.users[i].password.Some?
    requires OtpRepo.CreateOtp(s.otps, s.users[i].id, OtpText(env.otpCode), env.newOtpId).1.Ok?
    requires later / 1000 < env.now / 1000 + VerificationLifetime
    ensures var (s1, issued) := ForgotPassword(s, jwt, email, env);
      && issued.Ok?
      && var (s2, r) := ResetPassword(s1, jwt, issued.value, password, later);
      && r == Ok(())
      && s2.users == s.users[i := s.users[i].(password := Some(Hash(password)))]
  {
    var user := s.users[i];
    ForgotPasswordIssuesCode(s, jwt, email, env, user, later);
    var (s1, issued) := ForgotPassword(s, jwt, email, env);
    ResetPasswordChangesOnlyHash(s1, jwt, issued.value, password, later, TokenClaims(user, "forgot-password"), user);
    var k :| 0 <= k < |s.users| && s.users[k] == user && ResetPassword(s1, jwt, issued.value, password, later).0.users == s.users[k := user.(password := Some(Hash(password)))];
    if k != i {
      assert Users.Clash(s.users[k], s.users[i]);
    }
  }

  // ------------------------------------------------------------------- invariant

  /** The shared tail keeps the unique constraints on every path. */
  lemma IssueCodeKeepsConsistent(s: Stores, jwt: JWTProvider, u: Users.User, tokenType: string, purpose: CodePurpose, env: Env)
    requires jwt.Valid() && Consistent(s)
    ensures Consistent(IssueCode(s, jwt, u, tokenType, purpose, env).0)
  {
    var (otps, created) := OtpRepo.CreateOtp(s.otps, u.id, OtpText(env.otpCode), env.newOtpId);
    assert Otps.UniqueRows(otps);
  }

  /** `registerUser` keeps the unique constraints on every path, failures included. */
  lemma RegisterKeepsConsistent(s: Stores, jwt: JWTProvider, defaultRole: string, firstName: string, lastName: string,
                                email: string, password: string, env: Env)
    requires jwt.Valid() && Consistent(s)
    ensures Consistent(RegisterUser(s, jwt, defaultRole, firstName, lastName, email, password, env).0)
  {
    var (s1, attempt) := RegisterAttempt(s, jwt, firstName, lastName, email, password, env);
    assert Consistent(s1) by {
      match Users.FindUser(s.users, email)
      case Err(_) =>
      case Ok(user) =>
        if !user.isVerified {
          var patch := ProfilePatch(firstName, lastName, Username(firstName, env.usernameSuffix), password);
          var (users, updated) := Users.UpdateUser(s.users, user.id, patch);
          if updated.Ok? {
            IssueCodeKeepsConsistent(s.(users := users), jwt, updated.value, "verify", Registration, env);
          }
        }
    }
    var (users, created) := Users.CreateUser(s1.users, NewAccount(firstName, lastName, email, password, env), env.newUserId, defaultRole);
    if created.Ok? {
      IssueCodeKeepsConsistent(s1.(users := users), jwt, created.value, "register-user", Registration, env);
    }
  }

  /** `verifyRegistration` keeps the unique constraints on every path. */
  lemma VerifyRegistrationKeepsConsistent(s: Stores, jwt: JWTProvider, token: string, code: string, now: nat)
    requires Consistent(s)
    ensures Consistent(VerifyRegistration(s, jwt, token, code, now).0)
  {
    var s1 := VerifyRegistrationAttempt(s, jwt, token, code, now).0;
    assert VerifyRegistration(s, jwt, token, code, now).0 == s1;
    match jwt.Verify(token, now)
    case Err(_) =>
    case Ok(claims) =>
      match Users.FindUser(s.users, claims.id)
      case Err(_) =>
      case Ok(user) =>
        match Otps.GetOne(s.otps, code)
        case Err(_) =>
        case Ok(otp) =>
          if !user.isVerified && otp.userId == user.id {
            assert s1 == CompleteRegistration(s, claims, user, otp).0;
            CompleteRegistrationKeepsConsistent(s, claims, user, otp);
          }
  }

  /** The tail of `verifyRegistration` keeps the unique constraints, whichever step fails. */
  lemma CompleteRegistrationKeepsConsistent(s: Stores, claims: Claims, user: Users.User, otp: Otps.Otp)
    requires Consistent(s)
    ensures Consistent(CompleteRegistration(s, claims, user, otp).0)
  {
  }

  /** `logout` keeps the unique constraints on every path. */
  lemma LogoutKeepsConsistent(s: Stores, jwt: JWTProvider, token: string, now: nat)
    requires Consistent(s)
    ensures Consistent(Logout(s, jwt, token, now).0)
  {
  }

  /** `forgotPassword` keeps the unique constraints on every path. */
  lemma ForgotPasswordKeepsConsistent(s: Stores, jwt: JWTProvider, email: string, env: Env)
    requires jwt.Valid() && Consistent(s)
    ensures Consistent(ForgotPassword(s, jwt, email, env).0)
  {
    var s1 := ForgotPasswordAttempt(s, jwt, email, env).0;
    assert ForgotPassword(s, jwt, email, env).0 == s1;
    match Users.FindUser(s.users, email)
    case Err(_) =>
    case Ok(user) =>
      if user.isVerified && user.password.Some? {
        IssueCodeKeepsConsistent(s, jwt, user, "forgot-password", PasswordReset, env);
        assert s1 == IssueCode(s, jwt, user, "forgot-password", PasswordReset, env).0;
      }
  }

  /** `verifyForgotPassword` keeps the unique constraints on every path. */
  lemma VerifyForgotPasswordKeepsConsistent(s: Stores, jwt: JWTProvider, token: string, code: string, now: nat)
    requires jwt.Valid() && Consistent(s)
    ensures Consistent(VerifyForgotPassword(s, jwt, token, code, now).0)
  {
  }

  /** `resetPassword` keeps the unique constraints on every path. */
  lemma ResetPasswordKeepsConsistent(s: Stores, jwt: JWTProvider, token: string, password: string, now: nat)
    requires Consistent(s)
    ensures Consistent(ResetPassword(s, jwt, token, password, now).0)
  {
  }
}
