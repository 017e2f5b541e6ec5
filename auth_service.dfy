/**
 * `AuthServices` of src/application/services/auth/auth.services.ts: the
 * wired service, holding the repositories, the mail gateway and the JWT
 * provider it is constructed with. Each method runs the source's steps
 * against those objects and is proved to do what the matching function of
 * AuthSpec describes.
 */
module AuthService {
  import opened Wrappers
  import opened Errors
  import opened Passwords
  import opened Jwt
  import opened Mail
  import opened AuthState
  import opened UserDto
  import opened AuthSpec
  import Users = UserRepo
  import Otps = OtpTable
  import OtpRepo
  import Blacklist = BlacklistTable
  import BlacklistRepo

  class AuthServices {
    const userRepo: Users.UserRepository
    const otpRepo: OtpRepo.OtpRepository
    const emailServices: Mailer
    const jwt: JWTProvider
    const tokenBlacklist: BlacklistRepo.TokenBlacklistRepository

    ghost predicate Valid()
      reads userRepo, otpRepo, tokenBlacklist
    {
      userRepo.Valid() && otpRepo.Valid() && tokenBlacklist.Valid() && jwt.Valid()
    }

    /** The state of everything the service drives. */
    function Snapshot(): Stores
      reads userRepo, otpRepo, tokenBlacklist, emailServices
    {
      Stores(userRepo.rows, otpRepo.rows, tokenBlacklist.rows, emailServices.outbox, emailServices.available)
    }

    constructor (userRepo: Users.UserRepository, otpRepo: OtpRepo.OtpRepository, emailServices: Mailer,
                 jwt: JWTProvider, tokenBlacklist: BlacklistRepo.TokenBlacklistRepository)
      requires userRepo.Valid() && otpRepo.Valid() && tokenBlacklist.Valid() && jwt.Valid()
      ensures Valid()
      ensures this.userRepo == userRepo && this.otpRepo == otpRepo && this.emailServices == emailServices
      ensures this.jwt == jwt && this.tokenBlacklist == tokenBlacklist
    {
      this.userRepo := userRepo;
      this.otpRepo := otpRepo;
      this.emailServices := emailServices;
      this.jwt := jwt;
      this.tokenBlacklist := tokenBlacklist;
    }

    method IssueCode(u: Users.User, tokenType: string, purpose: CodePurpose, env: Env) returns (r: Result<string, AppError>)
      requires Valid()
      modifies otpRepo, emailServices
      ensures Valid()
      ensures (Snapshot(), r) == AuthSpec.IssueCode(old(Snapshot()), jwt, u, tokenType, purpose, env)
    {
      var code := OtpText(env.otpCode);
      var created := otpRepo.Create(u.id, code, env.newOtpId);
      if created.Err? {
        return Err(created.error);
      }
      var token := jwt.Sign(TokenClaims(u, tokenType), env.now);
      var sent := emailServices.Send(CodeEmail(purpose, token, code));
      if sent.Err? {
        return Err(sent.error);
      }
      r := Ok(token);
    }

    method RegisterAttempt(firstName: string, lastName: string, email: string, password: string, env: Env)
      returns (r: Result<string, AppError>)
      requires Valid()
      modifies userRepo, otpRepo, emailServices
      ensures Valid()
      ensures (Snapshot(), r) == AuthSpec.RegisterAttempt(old(Snapshot()), jwt, firstName, lastName, email, password, env)
    {
      var found := Users.FindUser(userRepo.rows, email);
      if found.Err? {
        return Err(found.error);
      }
      var user := found.value;
      if user.isVerified {
        return Err(EmailTaken);
      }
      var patch := ProfilePatch(firstName, lastName, Username(firstName, env.usernameSuffix), password);
      var updated := userRepo.Update(user.id, patch);
      if updated.Err? {
        return Err(updated.error);
      }
      r := IssueCode(updated.value, "verify", Registration, env);
    }

    method RegisterNew(firstName: string, lastName: string, email: string, password: string, env: Env)
      returns (r: Result<string, AppError>)
      requires Valid()
      modifies userRepo, otpRepo, emailServices
      ensures Valid()
      ensures (Snapshot(), r) == AuthSpec.RegisterNew(old(Snapshot()), jwt, userRepo.defaultRole, firstName, lastName, email, password, env)
    {
      var created := userRepo.Create(NewAccount(firstName, lastName, email, password, env), env.newUserId);
      if created.Err? {
        return Err(created.error);
      }
      r := IssueCode(created.value, "register-user", Registration, env);
    }

    /** `registerUser(first_name, last_name, email, password)`; `env` carries the two `randomInt` draws. */
    method RegisterUser(firstName: string, lastName: string, email: string, password: string, env: Env)
      returns (r: Result<string, AppError>)
      requires Valid() && DrawsInRange(env)
      modifies userRepo, otpRepo, emailServices
      ensures Valid()
      ensures (Snapshot(), r) == AuthSpec.RegisterUser(old(Snapshot()), jwt, userRepo.defaultRole, firstName, lastName, email, password, env)
    {
      r := RegisterAttempt(firstName, lastName, email, password, env);
      if r.Err? && r.error.NotFoundError? {
        r := RegisterNew(firstName, lastName, email, password, env);
      }
    }

    /** `verifyRegistration(token, code)` */
    method VerifyRegistration(token: string, code: string, now: nat) returns (r: Result<UserView, AppError>)
      requires Valid()
      modifies userRepo, otpRepo, emailServices
      ensures Valid()
      ensures (Snapshot(), r) == AuthSpec.VerifyRegistration(old(Snapshot()), jwt, token, code, now)
    {
      ghost var before := Snapshot();
      var verified := jwt.Verify(token, now);
      if verified.Err? {
        return Err(VerifyRegistrationCatch(verified.error));
      }
      var claims := verified.value;
      var found := Users.FindUser(userRepo.rows, claims.id);
      if found.Err? {
        return Err(VerifyRegistrationCatch(found.error));
      }
      var user := found.value;
      if user.isVerified {
        return Err(VerifyRegistrationCatch(AlreadyVerified));
      }
      var otp := Otps.GetOne(otpRepo.rows, code);
      if otp.Err? {
        return Err(VerifyRegistrationCatch(otp.error));
      }
      if otp.value.userId != user.id {
        return Err(VerifyRegistrationCatch(WrongOtp));
      }
      assert AuthSpec.VerifyRegistrationAttempt(before, jwt, token, code, now) == AuthSpec.CompleteRegistration(before, claims, user, otp.value);
      r := CompleteRegistration(claims, user, otp.value);
      r := Caught(r, VerifyRegistrationCatch);
    }

    /** The end of `verifyRegistration`'s `try` block: the OTP is deleted, the user marked verified, the welcome email sent. */
    method CompleteRegistration(claims: Claims, user: Users.User, otp: Otps.Otp) returns (r: Result<UserView, AppError>)
      requires Valid()
      modifies userRepo, otpRepo, emailServices
      ensures Valid()
      ensures (Snapshot(), r) == AuthSpec.CompleteRegistration(old(Snapshot()), claims, user, otp)
    {
      var deleted := otpRepo.Delete(otp.id);
      if deleted.Err? {
        return Err(deleted.error);
      }
      var updated := userRepo.Update(claims.id, MarkVerified);
      if updated.Err? {
        return Err(updated.error);
      }
      var sent := emailServices.Send(VerificationSuccess(user.email));
      if sent.Err? {
        return Err(sent.error);
      }
      r := Ok(FromEntity(user));
    }

    /** `loginUser(email, password)` */
    method LoginUser(email: string, password: string, now: nat) returns (r: Result<string, AppError>)
      requires Valid()
      ensures r == AuthSpec.LoginUser(Snapshot(), jwt, email, password, now)
    {
      var found := Users.FindUser(userRepo.rows, email);
      if found.Err? {
        return Err(CatchNotFound(found.error, UnknownAccount));
      }
      var user := found.value;
      if !user.isVerified {
        return Err(NotVerifiedAtLogin);
      }
      if user.onBanned {
        return Err(Banned);
      }
      if user.password.None? {
        return Err(NoPassword);
      }
      if !Matches(password, user.password.value) {
        return Err(WrongPassword);
      }
      r := Ok(jwt.Sign(TokenClaims(user, "login"), now));
    }

    /** `verifyAccessToken(token)` */
    method VerifyAccessToken(token: string, now: nat) returns (r: Result<Users.User, AppError>)
      requires Valid()
      ensures r == AuthSpec.VerifyAccessToken(Snapshot(), jwt, token, now)
    {
      var listed := Blacklist.IsBlacklisted(tokenBlacklist.rows, token);
      if listed.Err? {
        return Err(CatchJwt(listed.error));
      }
      var verified := jwt.Verify(token, now);
      if verified.Err? {
        return Err(CatchJwt(verified.error));
      }
      var found := Users.FindUser(userRepo.rows, verified.value.id);
      if found.Err? {
        return Err(CatchJwt(found.error));
      }
      var user := found.value;
      if !user.isVerified {
        return Err(NotVerified);
      }
      if user.onBanned {
        return Err(Banned);
      }
      r := Ok(user);
    }

    /** `logout(token)` */
    method Logout(token: string, now: nat) returns (r: Result<(), AppError>)
      requires Valid()
      modifies tokenBlacklist
      ensures Valid()
      ensures (Snapshot(), r) == AuthSpec.Logout(old(Snapshot()), jwt, token, now)
    {
      var verified := jwt.Verify(token, now);
      if verified.Err? {
        return Err(CatchJwt(verified.error));
      }
      r := tokenBlacklist.Add(token, now);
      if r.Err? {
        r := Err(CatchJwt(r.error));
      }
    }

    /** `forgotPassword(email)`; `env` carries the `randomInt` draw for the code. */
    method ForgotPassword(email: string, env: Env) returns (r: Result<string, AppError>)
      requires Valid() && DrawsInRange(env)
      modifies otpRepo, emailServices
      ensures Valid()
      ensures (Snapshot(), r) == AuthSpec.ForgotPassword(old(Snapshot()), jwt, email, env)
    {
      var found := Users.FindUser(userRepo.rows, email);
      if found.Err? {
        return Err(CatchNotFound(found.error, UnknownEmail));
      }
      var user := found.value;
      if !user.isVerified {
        return Err(NotVerifiedForReset);
      }
      if user.password.None? {
        return Err(NoPassword);
      }
      r := IssueCode(user, "forgot-password", PasswordReset, env);
      if r.Err? {
        r := Err(CatchNotFound(r.error, UnknownEmail));
      }
    }

    /** `verifyForgotPassword(token, code)` */
    method VerifyForgotPassword(token: string, code: string, now: nat) returns (r: Result<string, AppError>)
      requires Valid()
      modifies otpRepo
      ensures Valid()
      ensures (Snapshot(), r) == AuthSpec.VerifyForgotPassword(old(Snapshot()), jwt, token, code, now)
    {
      ghost var before := Snapshot();
      var verified := jwt.Verify(token, now);
      if verified.Err? {
        return Err(VerifyForgotPasswordCatch(verified.error));
      }
      var found := Users.FindUser(userRepo.rows, verified.value.id);
      if found.Err? {
        return Err(VerifyForgotPasswordCatch(found.error));
      }
      var user := found.value;
      var otp := Otps.GetOne(otpRepo.rows, code);
      if otp.Err? {
        return Err(VerifyForgotPasswordCatch(otp.error));
      }
      if otp.value.userId != user.id {
        return Err(VerifyForgotPasswordCatch(InvalidOtp));
      }
      var deleted := otpRepo.Delete(otp.value.id);
      // The record was just read from the table, so deleting it cannot fail.
      assert deleted.Ok?;
      r := Ok(jwt.Sign(TokenClaims(user, "verify-forgot-password"), now));
      assert AuthSpec.VerifyForgotPasswordAttempt(before, jwt, token, code, now) == (Snapshot(), r);
    }

    /** `resetPassword(token, password)`: `Ok(())` stands for the `undefined` it returns. */
    method ResetPassword(token: string, password: string, now: nat) returns (r: Result<(), AppError>)
      requires Valid()
      modifies userRepo, emailServices
      ensures Valid()
      ensures (Snapshot(), r) == AuthSpec.ResetPassword(old(Snapshot()), jwt, token, password, now)
    {
      var verified := jwt.Verify(token, now);
      if verified.Err? {
        return ResetPasswordCatch(Err(verified.error));
      }
      var found := Users.FindUser(userRepo.rows, verified.value.id);
      if found.Err? {
        return ResetPasswordCatch(Err(found.error));
      }
      var user := found.value;
      Users.UpdateFoundRow(userRepo.rows, verified.value.id, NewPassword(password));
      var updated := userRepo.Update(user.id, NewPassword(password));
      // The row was just read and the patch leaves its keys alone, so the update cannot fail.
      assert updated.Ok?;
      var sent := emailServices.Send(PasswordResetSuccess(user.email));
      r := ResetPasswordCatch(sent);
    }
  }
}
