/**
 * The operations of `AuthServices` (src/application/services/auth/auth.services.ts),
 * the wired service, as functions from the stores before a call to the
 * stores after it and the call's outcome. Each `...Attempt` function is a
 * `try` block, run step by step with every store change kept when a later
 * step fails; the operation itself applies the `catch` block to its outcome.
 */
module AuthSpec {
  import opened Wrappers
  import opened Errors
  import opened Passwords
  import opened Jwt
  import opened Mail
  import opened AuthState
  import opened UserDto
  import Users = UserRepo
  import Otps = OtpTable
  import OtpRepo
  import Blacklist = BlacklistTable
  import BlacklistRepo

  const EmailTaken: AppError := AuthorizationError("Email User sudah terdaftar")
  const AlreadyVerified: AppError := AuthorizationError("User already verified")
  const WrongOtp: AppError := AuthorizationError("Kode OTP Salah")
  const NotVerifiedAtLogin: AppError := AuthorizationError("account not verified, check your email for verification")
  const Banned: AppError := AuthorizationError("account is banned")
  const NoPassword: AppError := AuthorizationError("Please login via google account")
  const WrongPassword: AppError := AuthorizationError("Password Salah")
  const UnknownAccount: AppError := AuthorizationError("Akun tidak ditemukan")
  const NotVerified: AppError := AuthorizationError("account not verified")
  const NotVerifiedForReset: AppError := AuthorizationError("Akun belum terverifikasi, cek email atau daftar ulang.")
  const UnknownEmail: AppError := AuthorizationError("Email tidak ditemukan")
  const InvalidOtp: AppError := AuthorizationError("Invalid OTP code")

  /** The payload of every token this service signs: `{id, role, type}`. */
  function TokenClaims(u: Users.User, tokenType: string): Claims
  {
    Claims(u.id, u.role, tokenType, None, None)
  }

  /** The OTP upsert, the signing and the code email that end both registration paths and `forgotPassword`. */
  function IssueCode(s: Stores, jwt: JWTProvider, u: Users.User, tokenType: string, purpose: CodePurpose, env: Env): (Stores, Result<string, AppError>)
    requires jwt.Valid()
  {
    var code := OtpText(env.otpCode);
    var (otps, created) := OtpRepo.CreateOtp(s.otps, u.id, code, env.newOtpId);
    if created.Err? then (s.(otps := otps), Err(created.error))
    else
      var token := jwt.Sign(TokenClaims(u, tokenType), env.now);
      var (outbox, sent) := Deliver(s.outbox, s.mailUp, CodeEmail(purpose, token, code));
      (s.(otps := otps, outbox := outbox), if sent.Ok? then Ok(token) else Err(sent.error))
  }

  /** The columns registration writes over an unverified user's row. */
  function ProfilePatch(firstName: string, lastName: string, username: string, password: string): Users.UserPatch
  {
    Users.UserPatch(Some(firstName), Some(lastName), None, Some(username), None, Some(Hash(password)), Some(""), None)
  }

  /** `registerUser` on an email whose user is not yet verified: that row is overwritten, then a "verify" token is issued. */
  function RegisterExisting(s: Stores, jwt: JWTProvider, user: Users.User, firstName: string, lastName: string, password: string, env: Env): (Stores, Result<string, AppError>)
    requires jwt.Valid()
  {
    var patch := ProfilePatch(firstName, lastName, Username(firstName, env.usernameSuffix), password);
    var (users, updated) := Users.UpdateUser(s.users, user.id, patch);
    if updated.Err? then (s.(users := users), Err(updated.error))
    else IssueCode(s.(users := users), jwt, updated.value, "verify", Registration, env)
  }

  /** The `try` block of `registerUser`. */
  function RegisterAttempt(s: Stores, jwt: JWTProvider, firstName: string, lastName: string, email: string, password: string, env: Env): (Stores, Result<string, AppError>)
    requires jwt.Valid()
  {
    match Users.FindUser(s.users, email)
    case Err(e) => (s, Err(e))
    case Ok(user) =>
      if user.isVerified then (s, Err(EmailTaken))
      else RegisterExisting(s, jwt, user, firstName, lastName, password, env)
  }

  /** The row the `catch` block of `registerUser` creates. */
  function NewAccount(firstName: string, lastName: string, email: string, password: string, env: Env): Users.NewUser
  {
    Users.NewUser(Some(firstName), Some(lastName), None, Some(Username(firstName, env.usernameSuffix)), email, None, Some(Hash(password)), "")
  }

  /** The `catch (NotFoundError)` block of `registerUser`: a new row, then a "register-user" token. */
  function RegisterNew(s: Stores, jwt: JWTProvider, defaultRole: string, firstName: string, lastName: string, email: string, password: string, env: Env): (Stores, Result<string, AppError>)
    requires jwt.Valid()
  {
    var (users, created) := Users.CreateUser(s.users, NewAccount(firstName, lastName, email, password, env), env.newUserId, defaultRole);
    if created.Err? then (s.(users := users), Err(created.error))
    else IssueCode(s.(users := users), jwt, created.value, "register-user", Registration, env)
  }

  /** `registerUser(first_name, last_name, email, password)` */
  function RegisterUser(s: Stores, jwt: JWTProvider, defaultRole: string, firstName: string, lastName: string, email: string, password: string, env: Env): (Stores, Result<string, AppError>)
    requires jwt.Valid()
  {
    var (s1, attempt) := RegisterAttempt(s, jwt, firstName, lastName, email, password, env);
    if attempt.Err? && attempt.error.NotFoundError? then RegisterNew(s1, jwt, defaultRole, firstName, lastName, email, password, env)
    else (s1, attempt)
  }

  const MarkVerified: Users.UserPatch := Users.NoChange.(isVerified := Some(true))

  /** The steps of `verifyRegistration` after the OTP check: consume it, mark the user verified, send the welcome email. */
  function CompleteRegistration(s: Stores, claims: Claims, user: Users.User, otp: Otps.Otp): (Stores, Result<UserView, AppError>)
  {
    var (otps, deleted) := OtpRepo.DeleteOtp(s.otps, otp.id);
    if deleted.Err? then (s.(otps := otps), Err(deleted.error))
    else
      var (users, updated) := Users.UpdateUser(s.users, claims.id, MarkVerified);
      if updated.Err? then (s.(otps := otps, users := users), Err(updated.error))
      else
        var (outbox, sent) := Deliver(s.outbox, s.mailUp, VerificationSuccess(user.email));
        (s.(otps := otps, users := users, outbox := outbox), if sent.Ok? then Ok(FromEntity(user)) else Err(sent.error))
  }

  /** The `try` block of `verifyRegistration`. */
  function VerifyRegistrationAttempt(s: Stores, jwt: JWTProvider, token: string, code: string, now: nat): (Stores, Result<UserView, AppError>)
  {
    match jwt.Verify(token, now)
    case Err(e) => (s, Err(e))
    case Ok(claims) =>
      match Users.FindUser(s.users, claims.id)
      case Err(e) => (s, Err(e))
      case Ok(user) =>
        if user.isVerified then (s, Err(AlreadyVerified))
        else match Otps.GetOne(s.otps, code)
          case Err(e) => (s, Err(e))
          case Ok(otp) =>
            if otp.userId != user.id then (s, Err(WrongOtp))
            else CompleteRegistration(s, claims, user, otp)
  }

  function VerifyRegistrationCatch(e: AppError): AppError
  {
    CatchJwt(CatchNotFound(e, WrongOtp))
  }

  /** `verifyRegistration(token, code)` */
  function VerifyRegistration(s: Stores, jwt: JWTProvider, token: string, code: string, now: nat): (Stores, Result<UserView, AppError>)
  {
    var (s1, attempt) := VerifyRegistrationAttempt(s, jwt, token, code, now);
    (s1, Caught(attempt, VerifyRegistrationCatch))
  }

  /** The `try` block of `loginUser`: four checks in a fixed order, then a "login" token. */
  function LoginAttempt(s: Stores, jwt: JWTProvider, email: string, password: string, now: nat): Result<string, AppError>
    requires jwt.Valid()
  {
    match Users.FindUser(s.users, email)
    case Err(e) => Err(e)
    case Ok(user) =>
      if !user.isVerified then Err(NotVerifiedAtLogin)
      else if user.onBanned then Err(Banned)
      else if user.password.None? then Err(NoPassword)
      else if !Matches(password, user.password.value) then Err(WrongPassword)
      else Ok(jwt.Sign(TokenClaims(user, "login"), now))
  }

  /** `loginUser(email, password)`, which changes no store; its `{token}` is the token itself here. */
  function LoginUser(s: Stores, jwt: JWTProvider, email: string, password: string, now: nat): Result<string, AppError>
    requires jwt.Valid()
  {
    Caught(LoginAttempt(s, jwt, email, password, now), e => CatchNotFound(e, UnknownAccount))
  }

  /** The `try` block of `verifyAccessToken`: the blacklist first, then the signature, then the account flags. */
  function VerifyAccessTokenAttempt(s: Stores, jwt: JWTProvider, token: string, now: nat): Result<Users.User, AppError>
  {
    match Blacklist.IsBlacklisted(s.blacklist, token)
    case Err(e) => Err(e)
    case Ok(_) =>
      match jwt.Verify(token, now)
      case Err(e) => Err(e)
      case Ok(claims) =>
        match Users.FindUser(s.users, claims.id)
        case Err(e) => Err(e)
        case Ok(user) =>
          if !user.isVerified then Err(NotVerified)
          else if user.onBanned then Err(Banned)
          else Ok(user)
  }

  /** `verifyAccessToken(token)`, which changes no store and returns the user row itself. */
  function VerifyAccessToken(s: Stores, jwt: JWTProvider, token: string, now: nat): Result<Users.User, AppError>
  {
    Caught(VerifyAccessTokenAttempt(s, jwt, token, now), CatchJwt)
  }

  /** `logout(token)`: a token that verifies is added to the blacklist. */
  function Logout(s: Stores, jwt: JWTProvider, token: string, now: nat): (Stores, Result<(), AppError>)
  {
    var attempt :=
      match jwt.Verify(token, now)
      case Err(e) => (s, Err(e))
      case Ok(_) =>
        var (blacklist, added) := BlacklistRepo.AddToken(s.blacklist, token, now);
        (s.(blacklist := blacklist), added);
    (attempt.0, Caught(attempt.1, CatchJwt))
  }

  /** The `try` block of `forgotPassword`: a verified user with a password gets a fresh OTP and a "forgot-password" token. */
  function ForgotPasswordAttempt(s: Stores, jwt: JWTProvider, email: string, env: Env): (Stores, Result<string, AppError>)
    requires jwt.Valid()
  {
    match Users.FindUser(s.users, email)
    case Err(e) => (s, Err(e))
    case Ok(user) =>
      if !user.isVerified then (s, Err(NotVerifiedForReset))
      else if user.password.None? then (s, Err(NoPassword))
      else IssueCode(s, jwt, user, "forgot-password", PasswordReset, env)
  }

  /** `forgotPassword(email)` */
  function ForgotPassword(s: Stores, jwt: JWTProvider, email: string, env: Env): (Stores, Result<string, AppError>)
    requires jwt.Valid()
  {
    var (s1, attempt) := ForgotPasswordAttempt(s, jwt, email, env);
    (s1, Caught(attempt, e => CatchNotFound(e, UnknownEmail)))
  }

  /** The `try` block of `verifyForgotPassword`: the OTP is consumed and a "verify-forgot-password" token issued. */
  function VerifyForgotPasswordAttempt(s: Stores, jwt: JWTProvider, token: string, code: string, now: nat): (Stores, Result<string, AppError>)
    requires jwt.Valid()
  {
    match jwt.Verify(token, now)
    case Err(e) => (s, Err(e))
    case Ok(claims) =>
      match Users.FindUser(s.users, claims.id)
      case Err(e) => (s, Err(e))
      case Ok(user) =>
        match Otps.GetOne(s.otps, code)
        case Err(e) => (s, Err(e))
        case Ok(otp) =>
          if otp.userId != user.id then (s, Err(InvalidOtp))
          else
            var (otps, deleted) := OtpRepo.DeleteOtp(s.otps, otp.id);
            if deleted.Err? then (s.(otps := otps), Err(deleted.error))
            else (s.(otps := otps), Ok(jwt.Sign(TokenClaims(user, "verify-forgot-password"), now)))
  }

  function VerifyForgotPasswordCatch(e: AppError): AppError
  {
    CatchJwt(CatchNotFound(e, InvalidOtp))
  }

  /** `verifyForgotPassword(token, code)` */
  function VerifyForgotPassword(s: Stores, jwt: JWTProvider, token: string, code: string, now: nat): (Stores, Result<string, AppError>)
    requires jwt.Valid()
  {
    var (s1, attempt) := VerifyForgotPasswordAttempt(s, jwt, token, code, now);
    (s1, Caught(attempt, VerifyForgotPasswordCatch))
  }

  /** The one column `resetPassword` writes. */
  function NewPassword(password: string): Users.UserPatch
  {
    Users.NoChange.(password := Some(Hash(password)))
  }

  /** The `try` block of `resetPassword`: the token's user gets the new hash and a confirmation email. */
  function ResetPasswordAttempt(s: Stores, jwt: JWTProvider, token: string, password: string, now: nat): (Stores, Result<(), AppError>)
  {
    match jwt.Verify(token, now)
    case Err(e) => (s, Err(e))
    case Ok(claims) =>
      match Users.FindUser(s.users, claims.id)
      case Err(e) => (s, Err(e))
      case Ok(user) =>
        var (users, updated) := Users.UpdateUser(s.users, user.id, NewPassword(password));
        if updated.Err? then (s.(users := users), Err(updated.error))
        else
          var (outbox, sent) := Deliver(s.outbox, s.mailUp, PasswordResetSuccess(user.email));
          (s.(users := users, outbox := outbox), sent)
  }

  /**
   * The `catch` block of `resetPassword`: NotFoundError and JWTError are
   * translated, and every other failure is swallowed, so the call returns
   * `undefined` as if it had succeeded.
   */
  function ResetPasswordCatch(r: Result<(), AppError>): Result<(), AppError>
  {
    if r.Ok? then r
    else if r.error.NotFoundError? then Err(InvalidOtp)
    else if r.error.JWTError? then Err(VerificationFailed)
    else Ok(())
  }

  /** `resetPassword(token, password)` */
  function ResetPassword(s: Stores, jwt: JWTProvider, token: string, password: string, now: nat): (Stores, Result<(), AppError>)
  {
    var (s1, attempt) := ResetPasswordAttempt(s, jwt, token, password, now);
    (s1, ResetPasswordCatch(attempt))
  }
}
