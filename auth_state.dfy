/**
 * What both auth services share: the state of the stores they drive, the
 * values one call draws from the clock, `crypto.randomInt` and the database,
 * the generated username and OTP text, and the two catch-block translations.
 */
module AuthState {
  import opened Wrappers
  import opened Errors
  import opened Text
  import opened Mail
  import Users = UserRepo
  import Otps = OtpTable
  import Blacklist = BlacklistTable

  /** The user, OTP and blacklist tables, the mail outbox and whether the mail provider is up. */
  datatype Stores = Stores(
    users: seq<Users.User>,
    otps: seq<Otps.Otp>,
    blacklist: seq<Blacklist.BlacklistEntry>,
    outbox: seq<Email>,
    mailUp: bool)

  /** The unique constraints of the three tables. */
  ghost predicate Consistent(s: Stores)
  {
    Users.UniqueRows(s.users) && Otps.UniqueRows(s.otps) && Blacklist.UniqueTokens(s.blacklist)
  }

  /**
   * The outside values of one call: the clock in milliseconds, the two
   * `crypto.randomInt` draws, and the ids the database would give a new
   * user row and a new OTP row.
   */
  datatype Env = Env(now: nat, usernameSuffix: nat, otpCode: nat, newUserId: string, newOtpId: string)

  /** `randomInt(min, max)` excludes `max`: the suffix is in [1000, 9998], the code in [100000, 999998]. */
  predicate DrawsInRange(env: Env)
  {
    1000 <= env.usernameSuffix < 9999 && 100000 <= env.otpCode < 999999
  }

  /** `randomInt(100000, 999999).toString()` */
  function OtpText(n: nat): string
  {
    DecimalString(n)
  }

  /** Every generated OTP is six decimal digits, the first non-zero, and reads back as the number drawn. */
  lemma OtpTextShape(n: nat)
    requires 100000 <= n < 999999
    ensures |OtpText(n)| == 6 && AllDigits(OtpText(n)) && OtpText(n)[0] != '0'
    ensures ParseDecimal(OtpText(n)) == n
  {
    SixDigits(n);
    ParseDecimalString(n);
  }

  /** `first_name.toLowerCase() + randomInt(1000, 9999).toString()` */
  function Username(firstName: string, suffix: nat): string
  {
    LowerAscii(firstName) + DecimalString(suffix)
  }

  /** A generated username is the lower-cased first name followed by exactly four digits that read back as the suffix drawn. */
  lemma UsernameShape(firstName: string, suffix: nat)
    requires 1000 <= suffix < 9999
    ensures var u := Username(firstName, suffix);
      && |u| == |firstName| + 4
      && u[..|firstName|] == LowerAscii(firstName)
      && AllDigits(u[|firstName|..]) && ParseDecimal(u[|firstName|..]) == suffix
      && (forall i :: 0 <= i < |firstName| ==> !IsUpperAscii(u[i]))
  {
    FourDigits(suffix);
    ParseDecimalString(suffix);
    var u := Username(firstName, suffix);
    assert u[|firstName|..] == DecimalString(suffix);
    assert u[..|firstName|] == LowerAscii(firstName);
  }

  /** Which of the two code messages carries a fresh OTP. */
  datatype CodePurpose = Registration | PasswordReset

  function CodeEmail(purpose: CodePurpose, token: string, code: string): Email
  {
    match purpose
    case Registration => VerificationCode(token, code)
    case PasswordReset => ForgotPasswordCode(token, code)
  }

  const VerificationFailed: AppError := AuthorizationError("Verification Error")

  /**
   * A catch block that swaps a NotFoundError for the service's own error and
   * rethrows anything else as it is. With a replacement of another class, no
   * NotFoundError gets out.
   */
  function CatchNotFound(e: AppError, replacement: AppError): (r: AppError)
    ensures e.NotFoundError? ==> r == replacement
    ensures !e.NotFoundError? ==> r == e
    ensures !replacement.NotFoundError? ==> !r.NotFoundError?
  {
    if e.NotFoundError? then replacement else e
  }

  /**
   * A catch block that reports a failed token check as
   * AuthorizationError("Verification Error") and rethrows anything else as
   * it is, so no JWTError leaves the service.
   */
  function CatchJwt(e: AppError): (r: AppError)
    ensures e.JWTError? ==> r == VerificationFailed
    ensures !e.JWTError? ==> r == e
    ensures !r.JWTError?
  {
    if e.JWTError? then VerificationFailed else e
  }

  /** The translation of a whole attempt's outcome; the stores keep every change made before the failure. */
  function Caught<T>(r: Result<T, AppError>, translate: AppError -> AppError): Result<T, AppError>
  {
    if r.Err? then Err(translate(r.error)) else r
  }
}
