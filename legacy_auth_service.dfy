/**
 * `AuthServices` of src/application/services/auth.services.ts: the legacy
 * service, over the user repository and JWT provider the wired service also
 * uses and over the legacy OTP and blacklist repositories. Each method runs
 * the source's steps against those objects and is proved to do what the
 * matching function of LegacyAuthSpec describes.
 */
module LegacyAuthService {
  import opened Wrappers
  import opened Errors
  import opened Passwords
  import opened Jwt
  import opened Mail
  import opened AuthState
  import opened UserDto
  import opened LegacyAuthSpec
  import Users = UserRepo
  import Otps = OtpTable
  import LegacyOtpRepo
  import Blacklist = BlacklistTable
  import LegacyBlacklistRepo
  import AuthSpec

  class AuthServices {
    const userRepo: Users.UserRepository
    const otpRepo: LegacyOtpRepo.OtpRepository
    const emailServices: Mailer
    const jwt: JWTProvider
    const tokenBlacklist: LegacyBlacklistRepo.TokenBlacklistRepository

    ghost predicate Valid()
      reads userRepo, otpRepo, tokenBlacklist
    {
      userRepo.Valid() && otpRepo.Valid() && tokenBlacklist.Valid() && jwt.Valid()
    }

    /** The state of everything the service drives. */
    function Snapshot(): Stores
      reads userRepo, otpRepo, tokenBlacklist, emailServices
    {
      Stores(userRepo.rows, otpRepo.rows, tokenBlacklist.rows, emailServices.outbox, emailServices.available)
    }

    constructor (userRepo: Users.UserRepository, otpRepo: LegacyOtpRepo.OtpRepository, emailServices: Mailer,
                 jwt: JWTProvider, tokenBlacklist: LegacyBlacklistRepo.TokenBlacklistRepository)
      requires userRepo.Valid() && otpRepo.Valid() && tokenBlacklist.Valid() && jwt.Valid()
      ensures Valid()
      ensures this.userRepo == userRepo && this.otpRepo == otpRepo && this.emailServices == emailServices
      ensures this.jwt == jwt && this.tokenBlacklist == tokenBlacklist
    {
      this.userRepo := userRepo;
      this.otpRepo := otpRepo;
      this.emailServices := emailServices;
      this.jwt := jwt;
      this.tokenBlacklist := tokenBlacklist;
    }

    method IssueCode(u: Users.User, tokenType: string, purpose: CodePurpose, env: Env) returns (r: Result<string, AppError>)
      requires Valid()
      modifies otpRepo, emailServices
      ensures Valid()
      ensures (Snapshot(), r) == LegacyAuthSpec.IssueCode(old(Snapshot()), jwt, u, tokenType, purpose, env)
    {
      var code := OtpText(env.otpCode);
      var created := otpRepo.Create(u.id, code, env.newOtpId);
      if created.Err? {
        return Err(created.error);
      }
      var token := jwt.Sign(TokenClaims(u, tokenType), env.now);
      var sent := emailServices.Send(CodeEmail(purpose, token, code));
      if sent.Err? {
        return Err(sent.error);
      }
      r := Ok(token);
    }

    method RegisterAttempt(name: string, email: string, phone: string, password: string, env: Env)
      returns (r: Result<string, AppError>)
      requires Valid()
      modifies userRepo, otpRepo, emailServices
      ensures Valid()
      ensures (Snapshot(), r) == LegacyAuthSpec.RegisterAttempt(old(Snapshot()), jwt, name, email, phone, password, env)
    {
      var found := Users.FindUser(userRepo.rows, email);
      if found.Err? {
        return Err(found.error);
      }
      var user := found.value;
      if user.isVerified {
        return Err(UserExists);
      }
      Users.UpdateFoundRow(userRepo.rows, email, ProfilePatch(name, phone, password));
      var updated := userRepo.Update(user.id, ProfilePatch(name, phone, password));
      // The patch writes no username, so updating the row just read cannot fail.
      assert updated.Ok?;
      r := IssueCode(updated.value, "verify", Registration, env);
    }

    method RegisterNew(name: string, email: string, phone: string, password: string, env: Env)
      returns (r: Result<string, AppError>)
      requires Valid()
      modifies userRepo, otpRepo, emailServices
      ensures Valid()
      ensures (Snapshot(), r) == LegacyAuthSpec.RegisterNew(old(Snapshot()), jwt, userRepo.defaultRole, name, email, phone, password, env)
    {
      var created := userRepo.Create(NewAccount(name, email, phone, password), env.newUserId);
      if created.Err? {
        return Err(created.error);
      }
      r := IssueCode(created.value, "register-user", Registration, env);
    }

    /** `registerUser(name, email, phone, password)`; `env` carries the `randomInt` draw for the code. */
    method RegisterUser(name: string, email: string, phone: string, password: string, env: Env)
      returns (r: Result<string, AppError>)
      requires Valid() && DrawsInRange(env)
      modifies userRepo, otpRepo, emailServices
      ensures Valid()
      ensures (Snapshot(), r) == LegacyAuthSpec.RegisterUser(old(Snapshot()), jwt, userRepo.defaultRole, name, email, phone, password, env)
    {
      r := RegisterAttempt(name, email, phone, password, env);
      if r.Err? && r.error.NotFoundError? {
        r := RegisterNew(name, email, phone, password, env);
      }
    }

    /** `verifyRegistration(token, code)` */
    method VerifyRegistration(token: string, code: string, now: nat) returns (r: Result<UserView, AppError>)
      requires Valid()
      modifies userRepo, otpRepo
      ensures Valid()
      ensures (Snapshot(), r) == LegacyAuthSpec.VerifyRegistration(old(Snapshot()), jwt, token, code, now)
    {
      ghost var before := Snapshot();
      var verified := jwt.Verify(token, now);
      if verified.Err? {
        return Err(OtpCatch(verified.error));
      }
      var claims := verified.value;
      var found := Users.FindUser(userRepo.rows, claims.id);
      if found.Err? {
        return Err(OtpCatch(found.error));
      }
      var user := found.value;
      if user.isVerified {
        return Err(OtpCatch(AuthSpec.AlreadyVerified));
      }
      var otp := Otps.GetOne(otpRepo.rows, code);
      if otp.Err? {
        return Err(OtpCatch(otp.error));
      }
      if otp.value.userId != user.id {
        return Err(OtpCatch(AuthSpec.InvalidOtp));
      }
      assert LegacyAuthSpec.VerifyRegistrationAttempt(before, jwt, token, code, now) == LegacyAuthSpec.CompleteRegistration(before, claims, user, otp.value);
      r := CompleteRegistration(claims, user, otp.value);
      r := Caught(r, OtpCatch);
    }

    /** The end of `verifyRegistration`'s `try` block: the OTP is deleted and the user marked verified. */
    method CompleteRegistration(claims: Claims, user: Users.User, otp: Otps.Otp) returns (r: Result<UserView, AppError>)
      requires Valid()
      modifies userRepo, otpRepo
      ensures Valid()
      ensures (Snapshot(), r) == LegacyAuthSpec.CompleteRegistration(old(Snapshot()), claims, user, otp)
    {
      var deleted := otpRepo.Delete(otp.id);
      if deleted.Err? {
        return Err(deleted.error);
      }
      var updated := userRepo.Update(claims.id, AuthSpec.MarkVerified);
      if updated.Err? {
        return Err(updated.error);
      }
      r := Ok(FromEntity(user));
    }

    /** `loginUser(email, password)` */
    method LoginUser(email: string, password: string, now: nat) returns (r: Result<LoginResult, AppError>)
      requires Valid()
      ensures r == LegacyAuthSpec.LoginUser(Snapshot(), jwt, email, password, now)
    {
      var found := Users.FindUser(userRepo.rows, email);
      if found.Err? {
        return Err(CatchNotFound(found.error, InvalidCredentials));
      }
      var user := found.value;
      if !user.isVerified {
        return Err(AuthSpec.NotVerifiedAtLogin);
      }
      if user.onBanned {
        return Err(AuthSpec.Banned);
      }
      if user.password.None? {
        return Err(AuthSpec.NoPassword);
      }
      if !Matches(password, user.password.value) {
        return Err(InvalidPassword);
      }
      var token := jwt.Sign(TokenClaims(user, "login"), now);
      r := Ok(LoginResult(FromEntity(user), token));
    }

    /** `verifyAccessToken(token)` */
    method VerifyAccessToken(token: string, now: nat) returns (r: Result<UserView, AppError>)
      requires Valid()
      ensures r == LegacyAuthSpec.VerifyAccessToken(Snapshot(), jwt, token, now)
    {
      var listed := Blacklist.IsBlacklisted(tokenBlacklist.rows, token);
      if listed.Err? {
        return Err(CatchJwt(listed.error));
      }
      var verified := jwt.Verify(token, now);
      if verified.Err? {
        return Err(CatchJwt(verified.error));
      }
      var found := Users.FindUser(userRepo.rows, verified.value.id);
      if found.Err? {
        return Err(CatchJwt(found.error));
      }
      var user := found.value;
      if !user.isVerified {
        return Err(AuthSpec.NotVerified);
      }
      if user.onBanned {
        return Err(AuthSpec.Banned);
      }
      r := Ok(FromEntity(user));
    }

    /** `logout(token)` */
    method Logout(token: string, now: nat) returns (r: Result<(), AppError>)
      requires Valid()
      modifies tokenBlacklist
      ensures Valid()
      ensures (Snapshot(), r) == LegacyAuthSpec.Logout(old(Snapshot()), jwt, token, now)
    {
      var verified := jwt.Verify(token, now);
      if verified.Err? {
        return Err(CatchJwt(verified.error));
      }
      r := tokenBlacklist.Add(token, now);
      if r.Err? {
        r := Err(CatchJwt(r.error));
      }
    }

    /** `forgotPassword(email)`; `env` carries the `randomInt` draw for the code. */
    method ForgotPassword(email: string, env: Env) returns (r: Result<string, AppError>)
      requires Valid() && DrawsInRange(env)
      modifies otpRepo, emailServices
      ensures Valid()
      ensures (Snapshot(), r) == LegacyAuthSpec.ForgotPassword(old(Snapshot()), jwt, email, env)
    {
      var found := Users.FindUser(userRepo.rows, email);
      if found.Err? {
        return Err(CatchNotFound(found.error, EmailNotFound));
      }
      var user := found.value;
      if !user.isVerified {
        return Err(AuthSpec.NotVerifiedAtLogin);
      }
      if user.password.None? {
        return Err(AuthSpec.NoPassword);
      }
      r := IssueCode(user, "forgot-password", PasswordReset, env);
      if r.Err? {
        r := Err(CatchNotFound(r.error, EmailNotFound));
      }
    }

    /** `verifyForgotPassword(token, code)` */
    method VerifyForgotPassword(token: string, code: string, now: nat) returns (r: Result<string, AppError>)
      requires Valid()
      modifies otpRepo
      ensures Valid()
      ensures (Snapshot(), r) == LegacyAuthSpec.VerifyForgotPassword(old(Snapshot()), jwt, token, code, now)
    {
      ghost var before := Snapshot();
      var verified := jwt.Verify(token, now);
      if verified.Err? {
        return Err(OtpCatch(verified.error));
      }
      var found := Users.FindUser(userRepo.rows, verified.value.id);
      if found.Err? {
        return Err(OtpCatch(found.error));
      }
      var user := found.value;
      var otp := Otps.GetOne(otpRepo.rows, code);
      if otp.Err? {
        return Err(OtpCatch(otp.error));
      }
      if otp.value.userId != user.id {
        return Err(OtpCatch(AuthSpec.InvalidOtp));
      }
      var deleted := otpRepo.Delete(otp.value.id);
      // The record was just read from the table, so deleting it cannot fail.
      assert deleted.Ok?;
      r := Ok(jwt.Sign(TokenClaims(user, "verify-forgot-password"), now));
      assert LegacyAuthSpec.VerifyForgotPasswordAttempt(before, jwt, token, code, now) == (Snapshot(), r);
    }

    /** `resetPassword(token, password)`: `Ok(None)` stands for the `undefined` of a swallowed failure. */
    method ResetPassword(token: string, password: string, now: nat) returns (r: Result<Option<UserView>, AppError>)
      requires Valid()
      modifies userRepo
      ensures Valid()
      ensures (Snapshot(), r) == LegacyAuthSpec.ResetPassword(old(Snapshot()), jwt, token, password, now)
    {
      var verified := jwt.Verify(token, now);
      if verified.Err? {
        return ResetPasswordCatch(Err(verified.error));
      }
      var found := Users.FindUser(userRepo.rows, verified.value.id);
      if found.Err? {
        return ResetPasswordCatch(Err(found.error));
      }
      var user := found.value;
      Users.UpdateFoundRow(userRepo.rows, verified.value.id, AuthSpec.NewPassword(password));
      var updated := userRepo.Update(user.id, AuthSpec.NewPassword(password));
      // The row was just read and the patch leaves its keys alone, so the update cannot fail.
      assert updated.Ok?;
      r := ResetPasswordCatch(Ok(FromEntity(user)));
    }
  }
}
