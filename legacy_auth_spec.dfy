/**
 * The operations of the legacy `AuthServices` (src/application/services/auth.services.ts)
 * as functions of the stores, in the same style as AuthSpec. It differs from
 * the wired service in its profile columns (`name`, `phone`), in the payload
 * it signs (email and name added), in several messages, and in what it
 * returns; it sends no confirmation emails, and its OTP and blacklist
 * repositories are the legacy ones.
 */
module LegacyAuthSpec {
  import opened Wrappers
  import opened Errors
  import opened Passwords
  import opened Jwt
  import opened Mail
  import opened AuthState
  import opened UserDto
  import Users = UserRepo
  import Otps = OtpTable
  import LegacyOtpRepo
  import Blacklist = BlacklistTable
  import LegacyBlacklistRepo
  import AuthSpec

  const UserExists: AppError := AuthorizationError("User already exists")
  const InvalidPassword: AppError := AuthorizationError("Invalid password")
  const InvalidCredentials: AppError := AuthorizationError("Invalid Credentials")
  const EmailNotFound: AppError := AuthorizationError("Email not found")

  /** The payload of every token this service signs: `{id, email, name, role, type}`. */
  function TokenClaims(u: Users.User, tokenType: string): Claims
  {
    Claims(u.id, u.role, tokenType, Some(u.email), u.name)
  }

  /** OTP upsert, signing and code email, as at the end of both registration paths and `forgotPassword`. */
  function IssueCode(s: Stores, jwt: JWTProvider, u: Users.User, tokenType: string, purpose: CodePurpose, env: Env): (Stores, Result<string, AppError>)
    requires jwt.Valid()
  {
    var code := OtpText(env.otpCode);
    var (otps, created) := LegacyOtpRepo.CreateOtp(s.otps, u.id, code, env.newOtpId);
    if created.Err? then (s.(otps := otps), Err(created.error))
    else
      var token := jwt.Sign(TokenClaims(u, tokenType), env.now);
      var (outbox, sent) := Deliver(s.outbox, s.mailUp, CodeEmail(purpose, token, code));
      (s.(otps := otps, outbox := outbox), if sent.Ok? then Ok(token) else Err(sent.error))
  }

  /** `{name, phone, password, avatar: ""}`: the columns re-registration writes; no username. */
  function ProfilePatch(name: string, phone: string, password: string): Users.UserPatch
  {
    Users.UserPatch(None, None, Some(name), None, Some(phone), Some(Hash(password)), Some(""), None)
  }

  function RegisterExisting(s: Stores, jwt: JWTProvider, user: Users.User, name: string, phone: string, password: string, env: Env): (Stores, Result<string, AppError>)
    requires jwt.Valid()
  {
    var (users, updated) := Users.UpdateUser(s.users, user.id, ProfilePatch(name, phone, password));
    if updated.Err? then (s.(users := users), Err(updated.error))
    else IssueCode(s.(users := users), jwt, updated.value, "verify", Registration, env)
  }

  /** The `try` block of `registerUser`. */
  function RegisterAttempt(s: Stores, jwt: JWTProvider, name: string, email: string, phone: string, password: string, env: Env): (Stores, Result<string, AppError>)
    requires jwt.Valid()
  {
    match Users.FindUser(s.users, email)
    case Err(e) => (s, Err(e))
    case Ok(user) =>
      if user.isVerified then (s, Err(UserExists))
      else RegisterExisting(s, jwt, user, name, phone, password, env)
  }

  /** `{name, email, phone, password, avatar: ""}`: the row the `catch` block creates; no username. */
  function NewAccount(name: string, email: string, phone: string, password: string): Users.NewUser
  {
    Users.NewUser(None, None, Some(name), None, email, Some(phone), Some(Hash(password)), "")
  }

  function RegisterNew(s: Stores, jwt: JWTProvider, defaultRole: string, name: string, email: string, phone: string, password: string, env: Env): (Stores, Result<string, AppError>)
    requires jwt.Valid()
  {
    var (users, created) := Users.CreateUser(s.users, NewAccount(name, email, phone, password), env.newUserId, defaultRole);
    if created.Err? then (s.(users := users), Err(created.error))
    else IssueCode(s.(users := users), jwt, created.value, "register-user", Registration, env)
  }

  /** `registerUser(name, email, phone, password)` */
  function RegisterUser(s: Stores, jwt: JWTProvider, defaultRole: string, name: string, email: string, phone: string, password: string, env: Env): (Stores, Result<string, AppError>)
    requires jwt.Valid()
  {
    var (s1, attempt) := RegisterAttempt(s, jwt, name, email, phone, password, env);
    if attempt.Err? && attempt.error.NotFoundError? then RegisterNew(s1, jwt, defaultRole, name, email, phone, password, env)
    else (s1, attempt)
  }

  /** The steps of `verifyRegistration` after the OTP check: consume it and mark the user verified; no email. */
  function CompleteRegistration(s: Stores, claims: Claims, user: Users.User, otp: Otps.Otp): (Stores, Result<UserView, AppError>)
  {
    var (otps, deleted) := LegacyOtpRepo.DeleteOtp(s.otps, otp.id);
    if deleted.Err? then (s.(otps := otps), Err(deleted.error))
    else
      var (users, updated) := Users.UpdateUser(s.users, claims.id, AuthSpec.MarkVerified);
      if updated.Err? then (s.(otps := otps, users := users), Err(updated.error))
      else (s.(otps := otps, users := users), Ok(FromEntity(user)))
  }

  /** The `try` block of `verifyRegistration`. */
  function VerifyRegistrationAttempt(s: Stores, jwt: JWTProvider, token: string, code: string, now: nat): (Stores, Result<UserView, AppError>)
  {
    match jwt.Verify(token, now)
    case Err(e) => (s, Err(e))
    case Ok(claims) =>
      match Users.FindUser(s.users, claims.id)
      case Err(e) => (s, Err(e))
      case Ok(user) =>
        if user.isVerified then (s, Err(AuthSpec.AlreadyVerified))
        else match Otps.GetOne(s.otps, code)
          case Err(e) => (s, Err(e))
          case Ok(otp) =>
            if otp.userId != user.id then (s, Err(AuthSpec.InvalidOtp))
            else CompleteRegistration(s, claims, user, otp)
  }

  function OtpCatch(e: AppError): AppError
  {
    CatchJwt(CatchNotFound(e, AuthSpec.InvalidOtp))
  }

  /** `verifyRegistration(token, code)` */
  function VerifyRegistration(s: Stores, jwt: JWTProvider, token: string, code: string, now: nat): (Stores, Result<UserView, AppError>)
  {
    var (s1, attempt) := VerifyRegistrationAttempt(s, jwt, token, code, now);
    (s1, Caught(attempt, OtpCatch))
  }

  /** What `loginUser` returns: `{user, token}`. */
  datatype LoginResult = LoginResult(user: UserView, token: string)

  /** The `try` block of `loginUser`. */
  function LoginAttempt(s: Stores, jwt: JWTProvider, email: string, password: string, now: nat): Result<LoginResult, AppError>
    requires jwt.Valid()
  {
    match Users.FindUser(s.users, email)
    case Err(e) => Err(e)
    case Ok(user) =>
      if !user.isVerified then Err(AuthSpec.NotVerifiedAtLogin)
      else if user.onBanned then Err(AuthSpec.Banned)
      else if user.password.None? then Err(AuthSpec.NoPassword)
      else if !Matches(password, user.password.value) then Err(InvalidPassword)
      else Ok(LoginResult(FromEntity(user), jwt.Sign(TokenClaims(user, "login"), now)))
  }

  /** `loginUser(email, password)`, which changes no store. */
  function LoginUser(s: Stores, jwt: JWTProvider, email: string, password: string, now: nat): Result<LoginResult, AppError>
    requires jwt.Valid()
  {
    Caught(LoginAttempt(s, jwt, email, password, now), e => CatchNotFound(e, InvalidCredentials))
  }

  /** The `try` block of `verifyAccessToken`. */
  function VerifyAccessTokenAttempt(s: Stores, jwt: JWTProvider, token: string, now: nat): Result<UserView, AppError>
  {
    match Blacklist.IsBlacklisted(s.blacklist, token)
    case Err(e) => Err(e)
    case Ok(_) =>
      match jwt.Verify(token, now)
      case Err(e) => Err(e)
      case Ok(claims) =>
        match Users.FindUser(s.users, claims.id)
        case Err(e) => Err(e)
        case Ok(user) =>
          if !user.isVerified then Err(AuthSpec.NotVerified)
          else if user.onBanned then Err(AuthSpec.Banned)
          else Ok(FromEntity(user))
  }

  /** `verifyAccessToken(token)`, which changes no store and returns the user's view. */
  function VerifyAccessToken(s: Stores, jwt: JWTProvider, token: string, now: nat): Result<UserView, AppError>
  {
    Caught(VerifyAccessTokenAttempt(s, jwt, token, now), CatchJwt)
  }

  /** `logout(token)` */
  function Logout(s: Stores, jwt: JWTProvider, token: string, now: nat): (Stores, Result<(), AppError>)
  {
    var attempt :=
      match jwt.Verify(token, now)
      case Err(e) => (s, Err(e))
      case Ok(_) =>
        var (blacklist, added) := LegacyBlacklistRepo.AddToken(s.blacklist, token, now);
        (s.(blacklist := blacklist), added);
    (attempt.0, Caught(attempt.1, CatchJwt))
  }

  /** The `try` block of `forgotPassword`. */
  function ForgotPasswordAttempt(s: Stores, jwt: JWTProvider, email: string, env: Env): (Stores, Result<string, AppError>)
    requires jwt.Valid()
  {
    match Users.FindUser(s.users, email)
    case Err(e) => (s, Err(e))
    case Ok(user) =>
      if !user.isVerified then (s, Err(AuthSpec.NotVerifiedAtLogin))
      else if user.password.None? then (s, Err(AuthSpec.NoPassword))
      else IssueCode(s, jwt, user, "forgot-password", PasswordReset, env)
  }

  /** `forgotPassword(email)` */
  function ForgotPassword(s: Stores, jwt: JWTProvider, email: string, env: Env): (Stores, Result<string, AppError>)
    requires jwt.Valid()
  {
    var (s1, attempt) := ForgotPasswordAttempt(s, jwt, email, env);
    (s1, Caught(attempt, e => CatchNotFound(e, EmailNotFound)))
  }

  /** The `try` block of `verifyForgotPassword`. */
  function VerifyForgotPasswordAttempt(s: Stores, jwt: JWTProvider, token: string, code: string, now: nat): (Stores, Result<string, AppError>)
    requires jwt.Valid()
  {
    match jwt.Verify(token, now)
    case Err(e) => (s, Err(e))
    case Ok(claims) =>
      match Users.FindUser(s.users, claims.id)
      case Err(e) => (s, Err(e))
      case Ok(user) =>
        match Otps.GetOne(s.otps, code)
        case Err(e) => (s, Err(e))
        case Ok(otp) =>
          if otp.userId != user.id then (s, Err(AuthSpec.InvalidOtp))
          else
            var (otps, deleted) := LegacyOtpRepo.DeleteOtp(s.otps, otp.id);
            if deleted.Err? then (s.(otps := otps), Err(deleted.error))
            else (s.(otps := otps), Ok(jwt.Sign(TokenClaims(user, "verify-forgot-password"), now)))
  }

  /** `verifyForgotPassword(token, code)` */
  function VerifyForgotPassword(s: Stores, jwt: JWTProvider, token: string, code: string, now: nat): (Stores, Result<string, AppError>)
    requires jwt.Valid()
  {
    var (s1, attempt) := VerifyForgotPasswordAttempt(s, jwt, token, code, now);
    (s1, Caught(attempt, OtpCatch))
  }

  /** The `try` block of `resetPassword`: the new hash, then the view of the row as it was read. */
  function ResetPasswordAttempt(s: Stores, jwt: JWTProvider, token: string, password: string, now: nat): (Stores, Result<UserView, AppError>)
  {
    match jwt.Verify(token, now)
    case Err(e) => (s, Err(e))
    case Ok(claims) =>
      match Users.FindUser(s.users, claims.id)
      case Err(e) => (s, Err(e))
      case Ok(user) =>
        var (users, updated) := Users.UpdateUser(s.users, user.id, AuthSpec.NewPassword(password));
        if updated.Err? then (s.(users := users), Err(updated.error))
        else (s.(users := users), Ok(FromEntity(user)))
  }

  /**
   * The `catch` block of `resetPassword`: NotFoundError and JWTError are
   * translated; any other failure is dropped and the call returns
   * `undefined`, which is `Ok(None)` here.
   */
  function ResetPasswordCatch(r: Result<UserView, AppError>): Result<Option<UserView>, AppError>
  {
    if r.Ok? then Ok(Some(r.value))
    else if r.error.NotFoundError? then Err(AuthSpec.InvalidOtp)
    else if r.error.JWTError? then Err(VerificationFailed)
    else Ok(None)
  }

  /** `resetPassword(token, password)` */
  function ResetPassword(s: Stores, jwt: JWTProvider, token: string, password: string, now: nat): (Stores, Result<Option<UserView>, AppError>)
  {
    var (s1, attempt) := ResetPasswordAttempt(s, jwt, token, password, now);
    (s1, ResetPasswordCatch(attempt))
  }
}
