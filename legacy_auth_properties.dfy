/**
 * What the operations of the legacy `AuthServices` promise, proved about
 * LegacyAuthSpec, and how its decisions line up with those of the wired
 * service in AuthSpec.
 */
module LegacyAuthProperties {
  import opened Wrappers
  import opened Errors
  import opened Passwords
  import opened Jwt
  import opened Mail
  import opened AuthState
  import opened UserDto
  import opened LegacyAuthSpec
  import Users = UserRepo
  import Otps = OtpTable
  import LegacyOtpRepo
  import Blacklist = BlacklistTable
  import LegacyBlacklistRepo
  import AuthSpec
  import AuthProperties

  // ---------------------------------------------------------------- registerUser

  /** An email whose user is already verified gives "User already exists", and no store changes. */
  lemma RegisterVerifiedEmailFails(s: Stores, jwt: JWTProvider, defaultRole: string, name: string, email: string,
                                   phone: string, password: string, env: Env, user: Users.User)
    requires jwt.Valid()
    requires Users.FindUser(s.users, email) == Ok(user) && user.isVerified
    ensures RegisterUser(s, jwt, defaultRole, name, email, phone, password, env) == (s, Err(UserExists))
  {
  }

  /** With the mail provider up and an OTP row that can be written, the code is stored and mailed and the token carries email and name. */
  lemma IssueCodeSucceeds(s: Stores, jwt: JWTProvider, u: Users.User, tokenType: string, purpose: CodePurpose, env: Env)
    requires jwt.Valid() && s.mailUp
    requires LegacyOtpRepo.CreateOtp(s.otps, u.id, OtpText(env.otpCode), env.newOtpId).1.Ok?
    ensures var (s', r) := IssueCode(s, jwt, u, tokenType, purpose, env);
      && r.Ok?
      && s'.users == s.users && s'.blacklist == s.blacklist
      && s'.otps == LegacyOtpRepo.CreateOtp(s.otps, u.id, OtpText(env.otpCode), env.newOtpId).0
      && s'.outbox == s.outbox + [CodeEmail(purpose, r.value, OtpText(env.otpCode))]
      && jwt.Verify(r.value, env.now) == Ok(Claims(u.id, u.role, tokenType, Some(u.email), u.name))
  {
    var token := jwt.Sign(TokenClaims(u, tokenType), env.now);
    assert IssueCode(s, jwt, u, tokenType, purpose, env).1 == Ok(token);
    ProviderRoundTrip(jwt, TokenClaims(u, tokenType), env.now, env.now);
  }

  /**
   * An email no user has: one new unverified row is appended, holding the
   * name, phone and hash and no username, one OTP with the drawn code is
   * stored for it and mailed, and the token verifies to a "register-user"
   * payload that carries the new row's email and name.
   */
  lemma RegisterFreshEmail(s: Stores, jwt: JWTProvider, defaultRole: string, name: string, email: string,
                           phone: string, password: string, env: Env)
    requires jwt.Valid() && s.mailUp
    requires forall j :: 0 <= j < |s.users| ==> !Users.MatchesKey(s.users[j], email)
    requires !Users.ClashesWithOthers(s.users, Users.NewRecord(env.newUserId, NewAccount(name, email, phone, password), defaultRole), |s.users|)
    requires forall j :: 0 <= j < |s.otps| ==> s.otps[j].id != env.newOtpId && s.otps[j].userId != env.newUserId
    ensures var u := Users.NewRecord(env.newUserId, NewAccount(name, email, phone, password), defaultRole);
      var code := OtpText(env.otpCode);
      var (s', r) := RegisterUser(s, jwt, defaultRole, name, email, phone, password, env);
      && r.Ok?
      && s'.users == s.users + [u] && !u.isVerified && u.email == email
      && u.name == Some(name) && u.phone == Some(phone) && u.username.None? && u.password == Some(Hash(password))
      && s'.otps == s.otps + [Otps.Otp(env.newOtpId, u.id, code)]
      && s'.outbox == s.outbox + [VerificationCode(r.value, code)]
      && jwt.Verify(r.value, env.now) == Ok(Claims(u.id, u.role, "register-user", Some(email), Some(name)))
  {
    var u := Users.NewRecord(env.newUserId, NewAccount(name, email, phone, password), defaultRole);
    assert RegisterAttempt(s, jwt, name, email, phone, password, env) == (s, Err(Users.UserNotFound));
    var s1 := s.(users := s.users + [u]);
    assert RegisterNew(s, jwt, defaultRole, name, email, phone, password, env)
        == IssueCode(s1, jwt, u, "register-user", Registration, env);
    assert !Otps.ClashesWithOthers(s1.otps, Otps.Otp(env.newOtpId, u.id, OtpText(env.otpCode)), |s1.otps|);
    IssueCodeSucceeds(s1, jwt, u, "register-user", Registration, env);
    var outcome := IssueCode(s1, jwt, u, "register-user", Registration, env);
    assert RegisterUser(s, jwt, defaultRole, name, email, phone, password, env) == outcome;
  }

  /**
   * Re-registration of an unverified user overwrites name, phone, hash and
   * avatar of that same row and leaves its username, first and last name
   * as they were.
   */
  lemma RegisterUnverifiedReduces(s: Stores, jwt: JWTProvider, name: string, email: string, phone: string,
                                  password: string, env: Env, i: nat)
    requires jwt.Valid() && Users.UniqueRows(s.users)
    requires i < |s.users| && Users.FindUser(s.users, email) == Ok(s.users[i]) && !s.users[i].isVerified
    ensures var v := s.users[i].(name := Some(name), phone := Some(phone), password := Some(Hash(password)), avatar := "");
      RegisterAttempt(s, jwt, name, email, phone, password, env) == IssueCode(s.(users := s.users[i := v]), jwt, v, "verify", Registration, env)
  {
    Users.UpdateKeepingKeys(s.users, i, ProfilePatch(name, phone, password));
    assert Users.Apply(s.users[i], ProfilePatch(name, phone, password))
        == s.users[i].(name := Some(name), phone := Some(phone), password := Some(Hash(password)), avatar := "");
  }

  /**
   * An email whose user is not verified yet: that same row is overwritten in
   * place with the new name, phone, hash and an empty avatar, no row is
   * added, the code email is recorded, and the token verifies to a "verify"
   * payload carrying the row's id, email, new name and role.
   */
  lemma RegisterUnverifiedUpdatesInPlace(s: Stores, jwt: JWTProvider, defaultRole: string, name: string, email: string,
                                         phone: string, password: string, env: Env, i: nat)
    requires jwt.Valid() && Users.UniqueRows(s.users) && s.mailUp
    requires i < |s.users| && Users.FindUser(s.users, email) == Ok(s.users[i]) && !s.users[i].isVerified
    requires forall j :: 0 <= j < |s.otps| ==> s.otps[j].id != env.newOtpId
    ensures var v := s.users[i].(name := Some(name), phone := Some(phone), password := Some(Hash(password)), avatar := "");
      var (s', r) := RegisterUser(s, jwt, defaultRole, name, email, phone, password, env);
      && r.Ok?
      && s'.users == s.users[i := v] && |s'.users| == |s.users|
      && s'.blacklist == s.blacklist
      && s'.outbox == s.outbox + [VerificationCode(r.value, OtpText(env.otpCode))]
      && jwt.Verify(r.value, env.now) == Ok(Claims(s.users[i].id, s.users[i].role, "verify", Some(s.users[i].email), Some(name)))
  {
    var v := s.users[i].(name := Some(name), phone := Some(phone), password := Some(Hash(password)), avatar := "");
    RegisterUnverifiedReduces(s, jwt, name, email, phone, password, env, i);
    var s1 := s.(users := s.users[i := v]);
    var code := OtpText(env.otpCode);
    assert LegacyOtpRepo.CreateOtp(s1.otps, v.id, code, env.newOtpId).1.Ok? by {
      if forall j :: 0 <= j < |s1.otps| ==> s1.otps[j].userId != v.id {
        assert !Otps.ClashesWithOthers(s1.otps, Otps.Otp(env.newOtpId, v.id, code), |s1.otps|);
      }
    }
    IssueCodeSucceeds(s1, jwt, v, "verify", Registration, env);
    var outcome := IssueCode(s1, jwt, v, "verify", Registration, env);
    assert RegisterUser(s, jwt, defaultRole, name, email, phone, password, env) == outcome;
  }

  // ---------------------------------------------------------- verifyRegistration

  /** The right code consumes the OTP and marks the user verified; unlike the wired service, no email is sent. */
  lemma VerifyRegistrationSucceeds(s: Stores, jwt: JWTProvider, token: string, code: string, now: nat, claims: Claims, i: nat, otp: Otps.Otp)
    requires Consistent(s)
    requires jwt.Verify(token, now) == Ok(claims)
    requires i < |s.users| && s.users[i].id == claims.id && Users.FindUser(s.users, claims.id) == Ok(s.users[i])
    requires !s.users[i].isVerified
    requires Otps.GetOne(s.otps, code) == Ok(otp) && otp.userId == claims.id
    ensures var (s', r) := VerifyRegistration(s, jwt, token, code, now);
      && r == Ok(FromEntity(s.users[i]))
      && s'.users == s.users[i := s.users[i].(isVerified := true)]
      && multiset(s'.otps) + multiset{otp} == multiset(s.otps)
      && s'.outbox == s.outbox && s'.blacklist == s.blacklist
  {
    var user := s.users[i];
    DeleteReadRecord(s.otps, otp);
    var otps := LegacyOtpRepo.DeleteOtp(s.otps, otp.id).0;
    Users.UpdateKeepingKeys(s.users, i, AuthSpec.MarkVerified);
    assert Users.Apply(user, AuthSpec.MarkVerified) == user.(isVerified := true);
    var outcome := CompleteRegistration(s, claims, user, otp);
    assert outcome == (s.(otps := otps, users := s.users[i := user.(isVerified := true)]), Ok(FromEntity(user)));
    assert VerifyRegistrationAttempt(s, jwt, token, code, now) == outcome;
  }

  /** The legacy `delete` of a record read from a table with unique ids succeeds and removes exactly that record. */
  lemma DeleteReadRecord(otps: seq<Otps.Otp>, otp: Otps.Otp)
    requires Otps.UniqueRows(otps) && otp in otps
    ensures var (otps', r) := LegacyOtpRepo.DeleteOtp(otps, otp.id);
      r.Ok? && multiset(otps') + multiset{otp} == multiset(otps)
  {
    var (otps', r) := LegacyOtpRepo.DeleteOtp(otps, otp.id);
    var o :| o in otps && o.id == otp.id && multiset(otps') + multiset{o} == multiset(otps);
    var a :| 0 <= a < |otps| && otps[a] == o;
    var b :| 0 <= b < |otps| && otps[b] == otp;
    if a != b {
      assert Otps.Clash(otps[a], otps[b]);
    }
  }

  /** A bad token, a missing user, a verified user, a missing OTP and another user's OTP: each refusal leaves every store as it was. */
  lemma VerifyRegistrationRefusals(s: Stores, jwt: JWTProvider, token: string, code: string, now: nat, claims: Claims)
    requires jwt.Verify(token, now).Err? || jwt.Verify(token, now) == Ok(claims)
    ensures var r := VerifyRegistration(s, jwt, token, code, now);
      var found := Users.FindUser(s.users, claims.id);
      && (jwt.Verify(token, now).Err? ==> r == (s, Err(VerificationFailed)))
      && (jwt.Verify(token, now).Ok? && found.Err? ==> r == (s, Err(AuthSpec.InvalidOtp)))
      && (jwt.Verify(token, now).Ok? && found.Ok? && found.value.isVerified ==> r == (s, Err(AuthSpec.AlreadyVerified)))
      && ((&& jwt.Verify(token, now).Ok? && found.Ok? && !found.value.isVerified
           && (Otps.GetOne(s.otps, code).Err? || Otps.GetOne(s.otps, code).value.userId != found.value.id))
          ==> r == (s, Err(AuthSpec.InvalidOtp)))
  {
  }

  // ------------------------------------------------------------------- loginUser

  /**
   * `loginUser` makes exactly the decision the wired service makes: the same
   * users get in, and only the messages for an unknown account and a wrong
   * password differ.
   */
  lemma LoginMatchesWired(s: Stores, jwt: JWTProvider, email: string, password: string, now: nat)
    requires jwt.Valid()
    ensures var r := LoginUser(s, jwt, email, password, now);
      var w := AuthSpec.LoginUser(s, jwt, email, password, now);
      && (r.Ok? <==> w.Ok?)
      && (r.Err? && r.error != InvalidCredentials && r.error != InvalidPassword ==> w == Err(r.error))
      && (r == Err(InvalidCredentials) <==> w == Err(AuthSpec.UnknownAccount))
      && (r == Err(InvalidPassword) <==> w == Err(AuthSpec.WrongPassword))
  {
    match Users.FindUser(s.users, email)
    case Err(_) =>
    case Ok(user) =>
      assert LoginAttempt(s, jwt, email, password, now).Err? ==> LoginAttempt(s, jwt, email, password, now).error != InvalidCredentials;
  }

  /** A successful login returns the view of the user's row and a "login" token, carrying email and name, for seven days. */
  lemma LoginReturnsViewAndToken(s: Stores, jwt: JWTProvider, email: string, password: string, now: nat, later: nat, user: Users.User)
    requires jwt.Valid()
    requires Users.FindUser(s.users, email) == Ok(user)
    requires later / 1000 < now / 1000 + SessionLifetime
    ensures var r := LoginUser(s, jwt, email, password, now);
      && (r.Ok? <==> user.isVerified && !user.onBanned && user.password == Some(Hash(password)))
      && (r.Ok? ==> r.value.user == FromEntity(user))
      && (r.Ok? ==> jwt.Verify(r.value.token, later) == Ok(Claims(user.id, user.role, "login", Some(user.email), user.name)))
  {
    if user.isVerified && !user.onBanned && user.password == Some(Hash(password)) {
      var token := jwt.Sign(TokenClaims(user, "login"), now);
      assert LoginAttempt(s, jwt, email, password, now) == Ok(LoginResult(FromEntity(user), token));
      ProviderRoundTrip(jwt, TokenClaims(user, "login"), now, later);
    }
  }

  // ----------------------------------------------------------- verifyAccessToken

  /** `verifyAccessToken` refuses exactly what the wired one refuses, with the same error, and returns the view of the row the wired one returns. */
  lemma AccessTokenMatchesWired(s: Stores, jwt: JWTProvider, token: string, now: nat)
    ensures var r := VerifyAccessToken(s, jwt, token, now);
      var w := AuthSpec.VerifyAccessToken(s, jwt, token, now);
      && (r.Err? <==> w.Err?)
      && (r.Err? ==> r.error == w.error)
      && (r.Ok? ==> r.value == FromEntity(w.value))
  {
  }

  /** A listed token is refused with NotFoundError("token is blacklisted"). */
  lemma BlacklistedTokenDenied(s: Stores, jwt: JWTProvider, token: string, now: nat)
    requires Blacklist.Listed(s.blacklist, token)
    ensures VerifyAccessToken(s, jwt, token, now) == Err(Blacklist.TokenBlacklisted)
  {
    AccessTokenMatchesWired(s, jwt, token, now);
    AuthProperties.BlacklistedTokenDenied(s, jwt, token, now);
  }

  // ---------------------------------------------------------------------- logout

  /**
   * `logout` changes the stores exactly as the wired one does and returns
   * the same outcome: the two blacklist repositories differ only in the
   * messages of database faults, which are not modelled.
   */
  lemma LogoutMatchesWired(s: Stores, jwt: JWTProvider, token: string, now: nat)
    ensures Logout(s, jwt, token, now) == AuthSpec.Logout(s, jwt, token, now)
  {
  }

  /** After a logout, at every instant, the token is refused by `verifyAccessToken`. */
  lemma LogoutRevokes(s: Stores, jwt: JWTProvider, token: string, now: nat, later: nat)
    requires jwt.Verify(token, now).Ok? && !Blacklist.Listed(s.blacklist, token)
    ensures var (s', r) := Logout(s, jwt, token, now);
      && r == Ok(())
      && s' == s.(blacklist := s.blacklist + [Blacklist.BlacklistEntry(token, now + Blacklist.BlacklistTtl)])
      && VerifyAccessToken(s', jwt, token, later) == Err(Blacklist.TokenBlacklisted)
  {
    LogoutMatchesWired(s, jwt, token, now);
    AuthProperties.LogoutRevokes(s, jwt, token, now, later);
    BlacklistedTokenDenied(Logout(s, jwt, token, now).0, jwt, token, later);
  }

  // -------------------------------------------------------------- forgotPassword

  /** The refusals of `forgotPassword`, each leaving every store as it was; the unverified case reuses the login message. */
  lemma ForgotPasswordRefusals(s: Stores, jwt: JWTProvider, email: string, env: Env)
    requires jwt.Valid()
    ensures var r := ForgotPassword(s, jwt, email, env);
      && ((forall j :: 0 <= j < |s.users| ==> !Users.MatchesKey(s.users[j], email)) ==> r == (s, Err(EmailNotFound)))
      && (Users.FindUser(s.users, email).Ok? && !Users.FindUser(s.users, email).value.isVerified ==> r == (s, Err(AuthSpec.NotVerifiedAtLogin)))
      && ((&& Users.FindUser(s.users, email).Ok? && Users.FindUser(s.users, email).value.isVerified
           && Users.FindUser(s.users, email).value.password.None?) ==> r == (s, Err(AuthSpec.NoPassword)))
  {
  }

  /** A verified user with a password, banned or not, gets a code and a "forgot-password" token for one hour. */
  lemma ForgotPasswordIssuesCode(s: Stores, jwt: JWTProvider, email: string, env: Env, user: Users.User, later: nat)
    requires jwt.Valid() && s.mailUp
    requires Users.FindUser(s.users, email) == Ok(user) && user.isVerified && user.password.Some?
    requires LegacyOtpRepo.CreateOtp(s.otps, user.id, OtpText(env.otpCode), env.newOtpId).1.Ok?
    requires later / 1000 < env.now / 1000 + VerificationLifetime
    ensures var (s', r) := ForgotPassword(s, jwt, email, env);
      && r.Ok?
      && jwt.Verify(r.value, later) == Ok(TokenClaims(user, "forgot-password"))
      && s'.users == s.users
      && s'.outbox == s.outbox + [ForgotPasswordCode(r.value, OtpText(env.otpCode))]
  {
    IssueCodeSucceeds(s, jwt, user, "forgot-password", PasswordReset, env);
    ProviderRoundTrip(jwt, TokenClaims(user, "forgot-password"), env.now, later);
  }

  // -------------------------------------------------------- verifyForgotPassword

  /** The right code consumes the OTP and yields a "verify-forgot-password" token; users and mail are untouched. */
  lemma VerifyForgotPasswordConsumes(s: Stores, jwt: JWTProvider, token: string, code: string, now: nat, claims: Claims, user: Users.User, otp: Otps.Otp)
    requires jwt.Valid()
    requires jwt.Verify(token, now) == Ok(claims)
    requires Users.FindUser(s.users, claims.id) == Ok(user)
    requires Otps.GetOne(s.otps, code) == Ok(otp) && otp.userId == user.id
    ensures var (s', r) := VerifyForgotPassword(s, jwt, token, code, now);
      && r == Ok(jwt.Sign(TokenClaims(user, "verify-forgot-password"), now))
      && (exists o :: o in s.otps && o.id == otp.id && multiset(s'.otps) + multiset{o} == multiset(s.otps))
      && s'.users == s.users && s'.outbox == s.outbox && s'.blacklist == s.blacklist
  {
    var (otps, deleted) := LegacyOtpRepo.DeleteOtp(s.otps, otp.id);
    assert deleted.Ok? by {
      var j :| 0 <= j < |s.otps| && s.otps[j] == otp;
      assert s.otps[j].id == otp.id;
    }
    var outcome := (s.(otps := otps), Ok(jwt.Sign(TokenClaims(user, "verify-forgot-password"), now)));
    assert VerifyForgotPasswordAttempt(s, jwt, token, code, now) == outcome;
  }

  // --------------------------------------------------------------- resetPassword

  /**
   * A token that verifies and names a user sets that user's hash and
   * nothing else, and returns the view of the row as it was read. No
   * confirmation email is sent.
   */
  lemma ResetPasswordChangesOnlyHash(s: Stores, jwt: JWTProvider, token: string, password: string, now: nat, claims: Claims, user: Users.User)
    requires Users.UniqueRows(s.users)
    requires jwt.Verify(token, now) == Ok(claims)
    requires Users.FindUser(s.users, claims.id) == Ok(user)
    ensures var (s', r) := ResetPassword(s, jwt, token, password, now);
      && r == Ok(Some(FromEntity(user)))
      && (exists k :: 0 <= k < |s.users| && s.users[k] == user && s'.users == s.users[k := user.(password := Some(Hash(password)))])
      && s'.otps == s.otps && s'.blacklist == s.blacklist && s'.outbox == s.outbox
  {
    var k :| 0 <= k < |s.users| && s.users[k] == user;
    Users.UpdateKeepingKeys(s.users, k, AuthSpec.NewPassword(password));
    assert Users.Apply(user, AuthSpec.NewPassword(password)) == user.(password := Some(Hash(password)));
    var outcome := (s.(users := s.users[k := user.(password := Some(Hash(password)))]), Ok(FromEntity(user)));
    assert ResetPasswordAttempt(s, jwt, token, password, now) == outcome;
  }

  /**
   * The catch block of `resetPassword` reports only "Invalid OTP code" and
   * "Verification Error"; every other failure, whatever its class, comes
   * out as the `undefined` of a success.
   */
  lemma ResetPasswordCatchSwallows(r: Result<UserView, AppError>)
    ensures var c := ResetPasswordCatch(r);
      && (c.Err? ==> c == Err(AuthSpec.InvalidOtp) || c == Err(VerificationFailed))
      && (c == Ok(None) <==> r.Err? && !r.error.NotFoundError? && !r.error.JWTError?)
      && (r.Ok? <==> c.Ok? && c.value.Some?)
  {
  }

  /** The "forgot-password" token that `forgotPassword` returns resets the password directly, within its hour, without the code. */
  lemma ForgotTokenResetsPassword(s: Stores, jwt: JWTProvider, email: string, env: Env, password: string, later: nat, i: nat)
    requires jwt.Valid() && s.mailUp && Users.UniqueRows(s.users)
    requires i < |s.users| && Users.FindUser(s.users, email) == Ok(s.users[i])
    requires Users.FindUser(s.users, s.users[i].id) == Ok(s.users[i])
    requires s.users[i].isVerified && s.users[i].password.Some?
    requires LegacyOtpRepo.CreateOtp(s.otps, s.users[i].id, OtpText(env.otpCode), env.newOtpId).1.Ok?
    requires later / 1000 < env.now / 1000 + VerificationLifetime
    ensures var (s1, issued) := ForgotPassword(s, jwt, email, env);
      && issued.Ok?
      && var (s2, r) := ResetPassword(s1, jwt, issued.value, password, later);
      && r == Ok(Some(FromEntity(s.users[i])))
      && s2.users == s.users[i := s.users[i].(password := Some(Hash(password)))]
  {
    var user := s.users[i];
    ForgotPasswordIssuesCode(s, jwt, email, env, user, later);
    var (s1, issued) := ForgotPassword(s, jwt, email, env);
    ResetPasswordChangesOnlyHash(s1, jwt, issued.value, password, later, TokenClaims(user, "forgot-password"), user);
    var k :| 0 <= k < |s.users| && s.users[k] == user && ResetPassword(s1, jwt, issued.value, password, later).0.users == s.users[k := user.(password := Some(Hash(password)))];
    if k != i {
      assert Users.Clash(s.users[k], s.users[i]);
    }
  }
}
