# Authentication core of backend-nukilansalaf, in Dafny

This project models the account and session core of the backend-nukilansalaf
news backend:

- registration with an emailed one-time code (OTP);
- login with a signed token;
- token checks on every protected request;
- logout by blacklisting the token;
- password recovery (forgot, verify code, reset).

It covers two copies of the auth service. The **wired** service
(`src/application/services/auth/auth.services.ts`) is the one the
application instantiates. The **legacy** service
(`src/application/services/auth.services.ts`) still ships. The model also
includes:

- the repositories both services drive: users, OTPs (two versions) and the
  token blacklist (two versions);
- the JWT provider with its two lifetimes;
- the user DTO;
- the mail gateway;
- the error classes;
- the bearer-token middleware.

## How the model is built

**Tables and repositories.**

- Each database table is a `seq` of rows, and a `findFirst` yields the first
  row that matches.
- Each repository has two parts:
  - pure functions over the rows (`UserRepo.UpdateUser`, `OtpTable.Upsert`,
    `BlacklistTable.InsertEntry`, …). Each contract states what the
    operation does and which database failure it raises;
  - a class that holds the rows as a field. Its methods update that field
    and are proved equal to those functions.

**Services.**

- `AuthSpec` (wired) and `LegacyAuthSpec` (legacy) define every service
  operation as a function over a snapshot of all the stores: users, OTPs,
  blacklist, outbox, and whether mail is up.
- Each operation is written as its `try` block followed by its `catch`
  translation. Changes made before a failure stay in the stores, just as a
  database write stays committed in the source.
- The classes `AuthService.AuthServices` and `LegacyAuthService.AuthServices`
  run the source's steps against the repository objects. Each method is
  proved to leave the snapshot and return the result that the spec
  function gives for the old snapshot.
- `AuthProperties` and `LegacyAuthProperties` prove what the operations
  promise about those spec functions.

**Middleware.** `Middleware.Authorize` is the derive step of
`src/presentation/middleware/authorization.ts`, written as a function.

**Inputs from the outside world become parameters.**

| source input | parameter |
|---|---|
| the clock (`Date.now()`) | `now` |
| the random draws (`crypto.randomInt`) | fields of `Env` |
| database-generated ids | fields of `Env` |
| whether the mail provider accepts messages | `mailUp` |
| the HMAC | an abstract parameter `mac` of the handlers |

**Behaviours of the code kept as written.**

- A blacklisted token is refused with NotFoundError("token is blacklisted"),
  a 404, rather than with an AuthorizationError.
- A second logout of the same token fails with NotFoundError("Token already
  blacklisted"), so logout cannot be repeated.
- Blacklist entries are written to expire seven days on, but that expiry is
  never read: a logged-out token stays refused for good.
- The verification token, used for registration and forgotten passwords,
  lives one hour (`"1h"`).
- `resetPassword` swallows every failure other than a NotFoundError or a
  JWTError and returns `undefined`. The model returns `Ok(())` in the wired
  service and `Ok(None)` in the legacy one.
- `randomInt(min, max)` excludes `max`. Codes are therefore drawn from
  [100000, 999998] and username suffixes from [1000, 9998].

## Model

| member | source | states |
|---|---|---|
| Errors.Status | src/infrastructure/entity/error.ts:1-42 | The HTTP status is 401 exactly for authorization and JWT errors, 404 exactly for NotFoundError, 400 exactly for ValidationError, and 500 exactly for database and email errors. |
| Errors.CodeIdentifiesClass | src/infrastructure/entity/error.ts:1-42 | Two errors have the same `code` exactly when they are of the same class. Errors of the same class have the same status. |
| Passwords.MatchesIffSame | src/application/services/auth/auth.services.ts:153-157 | A stored hash verifies the password it was made from and no other. |
| UserDto.FromEntitySameView | src/application/dtos/user.DTO.ts:10-23 | Two users have the same view exactly when they differ at most in the password hash and the legacy `name` column. |
| UserDto.FromEntityHidesPassword | src/application/dtos/user.DTO.ts:10-23 | The view never depends on the password hash. |
| UserDto.FromEntityCopiesFields | src/application/dtos/user.DTO.ts:11-22 | Each of the ten fields of the view is the user column of the same name. |
| Mail.Deliver | src/application/communications/mail/mail.services.ts:16-158 | A send succeeds exactly when the provider is up. A success appends the message to the outbox. A failure leaves the outbox as it was and is an EmailError with status 500. |
| Mail.Mailer.constructor | src/application/communications/mail/mail.services.ts:16-158 | A new gateway has the given availability and an empty outbox. |
| Mail.Mailer.Send | src/application/communications/mail/mail.services.ts:16-158 | The outbox and the result are those `Deliver` gives, and the availability is unchanged. |
| Tables.FirstIndex | src/infrastructure/db/user/user.repo.ts:35-49 | `findFirst`: the index of a row that satisfies the filter with no earlier row satisfying it, or none exactly when no row does. |
| Tables.RemoveAt | src/infrastructure/db/auth/otp.repo.ts:71-89 | Removing row `i` keeps the rows before it and shifts down the rows after it. |
| Tables.RemoveAtElements | src/infrastructure/db/auth/otp.repo.ts:71-89 | Removing row `i` takes away exactly that row from the multiset of rows. |
| Text.DigitChar | src/application/services/auth/auth.services.ts:48 | The character for digit `d` is a digit whose value is `d`. |
| Text.DecimalString | src/application/services/auth/auth.services.ts:48 | `toString()` of a non-negative integer is a non-empty string of digits that starts with '0' only for zero. |
| Text.ParseDecimalString | src/application/services/auth/auth.services.ts:48 | Reading back the decimal form of `n` gives `n`. |
| Text.DecimalStringInjective | src/application/services/auth/auth.services.ts:48 | Distinct numbers have distinct decimal forms. |
| Text.DecimalStringLength | src/application/services/auth/auth.services.ts:48 | A number in [10^k, 10^(k+1)) prints as k + 1 characters. |
| Text.SixDigits | src/application/services/auth/auth.services.ts:48 | Every number in [100000, 999999] prints as six digits with a non-zero first digit. |
| Text.FourDigits | src/application/services/auth/auth.services.ts:37 | Every number in [1000, 9999] prints as four digits with a non-zero first digit. |
| Text.LowerChar | src/application/services/auth/auth.services.ts:38 | An ASCII capital becomes the letter 32 code points up. Every other character is unchanged. No capital remains. |
| Text.LowerAscii | src/application/services/auth/auth.services.ts:38 | `toLowerCase()` keeps the length and lower-cases each character on its own. |
| Text.LowerAsciiIdempotent | src/application/services/auth/auth.services.ts:38 | Lower-cased text has no ASCII capital, and lower-casing it again changes nothing. |
| Text.Split | src/presentation/middleware/authorization.ts:8 | `split(sep)` gives at least one piece, and no piece contains the separator. |
| Text.JoinSplit | src/presentation/middleware/authorization.ts:8 | Joining the pieces of a split on the same separator gives back the string. |
| Text.SplitAfterPiece | src/presentation/middleware/authorization.ts:8 | A separator-free prefix followed by the separator is split off as the first piece. |
| Text.SplitWithout | src/presentation/middleware/authorization.ts:8 | A string without the separator splits into one piece: itself. |
| Text.SplitJoin | src/presentation/middleware/authorization.ts:8 | Splitting a join of separator-free pieces gives back the pieces. |
| Text.JoinAvoids | src/presentation/middleware/authorization.ts:8 | A character that is neither the separator nor in any piece does not occur in the join. |
| Text.JoinStartsWithFirst | src/presentation/middleware/authorization.ts:8 | A join begins with its first piece. |
| AuthState.OtpTextShape | src/application/services/auth/auth.services.ts:48 | Every generated code is six digits with a non-zero first digit, and it reads back as the number drawn. |
| AuthState.UsernameShape | src/application/services/auth/auth.services.ts:37-38 | A generated username is the lower-cased first name followed by four digits that read back as the suffix drawn. |
| AuthState.CatchNotFound | src/application/services/auth/auth.services.ts:170-172 | A catch block that replaces a NotFoundError with its own error and rethrows every other error unchanged. With a replacement of another class, no NotFoundError leaves it. |
| AuthState.CatchJwt | src/application/services/auth/auth.services.ts:122-132 | A JWTError becomes AuthorizationError("Verification Error"). Every other error is rethrown unchanged. No JWTError leaves it. |
| Jwt.CharCodes | src/application/security/jwt/jwt.provider.ts:37-46 | A string is encoded as one decimal code per character, in order. |
| Jwt.DecodeCharCodes | src/application/security/jwt/jwt.provider.ts:37-60 | Decoding the character codes of a string gives the string back. |
| Jwt.DecodeEncodeText | src/application/security/jwt/jwt.provider.ts:37-60 | A text claim reads back as it was written. |
| Jwt.DecodeEncodeOptional | src/application/security/jwt/jwt.provider.ts:37-60 | An optional claim (present or absent) reads back as it was written. |
| Jwt.EncodeTextIsField | src/application/security/jwt/jwt.provider.ts:37-46 | An encoded text uses only the field alphabet of the token. |
| Jwt.EncodeOptionalIsField | src/application/security/jwt/jwt.provider.ts:37-46 | An encoded optional claim uses only the field alphabet. |
| Jwt.DecodeClaimFields | src/application/security/jwt/jwt.provider.ts:37-60 | The six payload fields of a token decode to the claims and the expiry they encode. |
| Jwt.TokenFieldsAreFields | src/application/security/jwt/jwt.provider.ts:37-46 | Every field of a signed token, the signature included, uses only the field alphabet. |
| Jwt.FieldsAvoid | src/application/security/jwt/jwt.provider.ts:37-46 | A character outside the field alphabet occurs in no field. |
| Jwt.VerifyWith | src/application/security/jwt/jwt.provider.ts:48-60 | A handler accepts a token exactly when it decodes under the handler's key and its `exp` has not passed. It then returns the token's claims. Every failure is the same JWTError. |
| Jwt.DecodeSigned | src/application/security/jwt/jwt.provider.ts:37-46 | A signed token decodes, under any handler with the same key, to its claims and to the expiry `now/1000 + lifetime`. |
| Jwt.SignThenVerify | src/application/security/jwt/jwt.provider.ts:37-60 | A signed token verifies to its claims exactly while its own lifetime has not run out, under any handler with the same key. |
| Jwt.SignedHasNoSpace | src/application/security/jwt/jwt.provider.ts:37-46 | A signed token is non-empty and has no space, so it fits in a `Bearer <token>` header. |
| Jwt.JWTProvider.constructor | src/application/security/jwt/jwt.provider.ts:13-34 | Both handlers share the secret and the MAC. The verification handler lasts one hour and the session handler seven days. |
| Jwt.JWTProvider.Sign | src/application/security/jwt/jwt.provider.ts:37-46 | A token whose claims decode back exactly, expiring seven days on for type "login" and one hour on for every other type. It has no space and is not empty. |
| Jwt.JWTProvider.Verify | src/application/security/jwt/jwt.provider.ts:48-60 | The token is accepted exactly when it decodes under the shared key and is unexpired. Every failure is JWTError("Error verifying JWT"). |
| Jwt.ProviderRoundTrip | src/application/security/jwt/jwt.provider.ts:37-60 | A token the provider signed verifies to its claims until its own lifetime ends, and after that is refused with the JWTError. |
| Jwt.LoginOutlivesOthers | src/application/security/jwt/jwt.provider.ts:20-46 | Between one hour and seven days after signing, a "login" token still verifies and every other token signed at the same instant is refused. |
| Jwt.NewJWTProvider | src/application/security/jwt/jwt.provider.ts:13-16 | Construction fails exactly when `JWT_SECRET` is unset or empty, with "JWT_SECRET is not defined". Otherwise the provider is valid and uses that secret. |
| UserRepo.ApplyKeepsIdentity | src/infrastructure/db/user/user.repo.ts:88-112 | The patches the services pass never change the id, the email, the ban flag or the role. |
| UserRepo.ApplyNoChange | src/infrastructure/db/user/user.repo.ts:88-112 | An update that supplies no column leaves the row as it was. |
| UserRepo.ApplyIdempotent | src/infrastructure/db/user/user.repo.ts:88-112 | Applying the same update twice is the same as applying it once. |
| UserRepo.FindUser | src/infrastructure/db/user/user.repo.ts:33-66 | `getOne(key)` gives the first row whose id, email or username is the key. It gives NotFoundError("User not found") exactly when no row matches. |
| UserRepo.LookupFailure | src/infrastructure/db/user/user.repo.ts:56-65 | A fault of the lookup query itself becomes a DBError. |
| UserRepo.CreateFailure | src/infrastructure/db/user/user.repo.ts:68-86 | Every create failure is a DBError. A unique conflict, and only that, gets the conflict message. |
| UserRepo.UpdateFailure | src/infrastructure/db/user/user.repo.ts:98-111 | A missing row, and only that, is NotFoundError. A unique conflict, and only that, gets the conflict message. Every other failure is a DBError. |
| UserRepo.InsertRow | src/infrastructure/db/user/user.repo.ts:68-86 | The row is appended unless it clashes on a unique column; a clash changes nothing. The unique constraints are kept. |
| UserRepo.CreateUser | src/infrastructure/db/user/user.repo.ts:68-86 | The new row is unverified, not banned and has the default role. It is appended, or, on a clash, nothing changes and the DBError conflict is raised. |
| UserRepo.IndexOfId | src/infrastructure/db/user/user.repo.ts:88-112 | Finds a row with the given id, or none exactly when no row has it. |
| UserRepo.UpdateRow | src/infrastructure/db/user/user.repo.ts:88-112 | Fails with P2025 exactly when no row has the id. With unique ids, it fails with P2002 exactly when the patched row would clash with another row, and otherwise succeeds. A failure changes nothing. A success replaces that row with the patched one. The unique constraints are kept. |
| UserRepo.UpdateUser | src/infrastructure/db/user/user.repo.ts:88-112 | NotFoundError exactly when no row has the id. With unique ids, it gives the conflict DBError exactly when the patched row would clash with another row, and otherwise succeeds. A failure changes nothing. A success replaces that row with the patched one, which clashes with no other row. The unique constraints are kept. |
| UserRepo.UsernameTaken | src/infrastructure/db/user/user.repo.ts:114-133 | True exactly when some row has that username. |
| UserRepo.UpdateAddressesOwnRow | src/infrastructure/db/user/user.repo.ts:88-112 | With unique ids, an update by a row's id changes at most that row. |
| UserRepo.FindUserById | src/infrastructure/db/user/user.repo.ts:33-66 | When no email or username equals another row's id, a lookup by a row's id finds that row. |
| UserRepo.UpdateKeepingKeys | src/infrastructure/db/user/user.repo.ts:88-112 | An update that keeps the username succeeds on the addressed row. That row takes the patch and every other row is untouched. |
| UserRepo.UpdateFoundRow | src/infrastructure/db/user/user.repo.ts:33-112 | A row just found by `getOne` can be updated by its id with any patch that keeps its username, and only that row changes. |
| UserRepo.UserRepository.constructor | src/infrastructure/db/user/user.repo.ts:15-16 | A new repository has an empty table and the schema's default role. |
| UserRepo.UserRepository.Create | src/infrastructure/db/user/user.repo.ts:68-86 | The table and the result are what `CreateUser` gives for the old table. |
| UserRepo.UserRepository.Update | src/infrastructure/db/user/user.repo.ts:88-112 | The table and the result are what `UpdateUser` gives for the old table. |
| OtpTable.FindOtp | src/infrastructure/db/auth/otp.repo.ts:15-43 | The first record whose userId or code equals the key, or none exactly when no record matches. |
| OtpTable.GetOne | src/infrastructure/db/auth/otp.repo.ts:15-43 | A matching record from the table, or NotFoundError exactly when no record matches. |
| OtpTable.UserIdFindsARecord | src/infrastructure/db/auth/otp.repo.ts:15-43 | Looking up by the userId of any record always finds a record. |
| OtpTable.IndexOfUser | src/infrastructure/db/auth/otp.repo.ts:45-69 | Finds the record of a user, or none exactly when the user has none. |
| OtpTable.IndexOfId | src/infrastructure/db/auth/otp.repo.ts:71-89 | Finds the record with an id, or none exactly when no record has it. |
| OtpTable.Upsert | src/infrastructure/db/auth/otp.repo.ts:47-55 | A user who has a record always succeeds: that record keeps its id and takes the new code. A user with no record gets one appended under the fresh id, unless it clashes. A conflict changes nothing. The unique constraints are kept. |
| OtpTable.UpdateRow | src/infrastructure/db/otp.repo.ts:64-81 | Fails with P2025 exactly when no record has the id. With unique ids, it fails with P2002 exactly when the patched record would clash with another, and otherwise that record alone takes the patch. The unique constraints are kept. |
| OtpTable.DeleteRow | src/infrastructure/db/auth/otp.repo.ts:71-89 | Fails with P2025 exactly when no record has the id. Otherwise it removes one record with that id and, with unique ids, leaves none. |
| OtpTable.UpsertLeavesOneCode | src/infrastructure/db/auth/otp.repo.ts:45-69 | After a successful upsert the user has exactly one record, and it holds the last code given. |
| OtpTable.UpsertKeepsOthers | src/infrastructure/db/auth/otp.repo.ts:45-69 | An upsert touches no other user's records. |
| OtpRepo.LookupFailure | src/infrastructure/db/auth/otp.repo.ts:35-42 | A fault of the lookup query is DBError("Failed to retrieve OTP from database"). |
| OtpRepo.CreateFailure | src/infrastructure/db/auth/otp.repo.ts:58-68 | Every create failure is a DBError. A unique conflict, and only that, gets its own message. |
| OtpRepo.DeleteFailure | src/infrastructure/db/auth/otp.repo.ts:78-88 | A missing record, and only that, is NotFoundError("OTP not found"). Every other failure is a DBError. |
| OtpRepo.CreateOtp | src/infrastructure/db/auth/otp.repo.ts:45-69 | The user's OTP holds the new code and the user keeps a single record. A failure changes nothing. The unique constraints are kept. |
| OtpRepo.DeleteOtp | src/infrastructure/db/auth/otp.repo.ts:71-89 | Removes the record with that id, or fails with NotFoundError("OTP not found") exactly when there is none. |
| OtpRepo.OtpRepository.constructor | src/infrastructure/db/auth/otp.repo.ts:12-13 | A new repository has an empty table. |
| OtpRepo.OtpRepository.Create | src/infrastructure/db/auth/otp.repo.ts:45-69 | The table and the result are what `CreateOtp` gives for the old table. |
| OtpRepo.OtpRepository.Delete | src/infrastructure/db/auth/otp.repo.ts:71-89 | The table and the result are what `DeleteOtp` gives for the old table. |
| LegacyOtpRepo.LookupFailure | src/infrastructure/db/otp.repo.ts:34-39 | A fault of the lookup query is DBError("Database error"). |
| LegacyOtpRepo.CreateFailure | src/infrastructure/db/otp.repo.ts:55-61 | Every create failure is a DBError. A known Prisma error, and only that, is "Error getting resources from DB2". |
| LegacyOtpRepo.WriteFailure | src/infrastructure/db/otp.repo.ts:74-80 | Every update or delete failure is a DBError, a missing record included. A known Prisma error, and only that, is "Error getting resources from DB". |
| LegacyOtpRepo.CreateOtp | src/infrastructure/db/otp.repo.ts:42-62 | The user's OTP holds the new code and the user keeps a single record. A failure changes nothing. |
| LegacyOtpRepo.UpdateOtp | src/infrastructure/db/otp.repo.ts:64-81 | A missing record is a DBError and changes nothing. With unique ids, an existing record fails exactly when the patched record would clash. Otherwise exactly that record takes the patch. |
| LegacyOtpRepo.UpdateKeepingOwner | src/infrastructure/db/otp.repo.ts:64-81 | An update that leaves `userId` alone always succeeds on an existing record. That record takes the patch and every other record stays. |
| LegacyOtpRepo.DeleteOtp | src/infrastructure/db/otp.repo.ts:83-97 | Removes a record with that id, or fails with a DBError (not NotFoundError) exactly when there is none. |
| LegacyOtpRepo.OtpRepository.constructor | src/infrastructure/db/otp.repo.ts:11-12 | A new repository has an empty table. |
| LegacyOtpRepo.OtpRepository.Create | src/infrastructure/db/otp.repo.ts:42-62 | The table and the result are what `CreateOtp` gives for the old table. |
| LegacyOtpRepo.OtpRepository.Update | src/infrastructure/db/otp.repo.ts:64-81 | The table and the result are what `UpdateOtp` gives for the old table. |
| LegacyOtpRepo.OtpRepository.Delete | src/infrastructure/db/otp.repo.ts:83-97 | The table and the result are what `DeleteOtp` gives for the old table. |
| BlacklistTable.IsBlacklisted | src/infrastructure/db/auth/token.blacklist.repo.ts:14-34 | `false` exactly for an absent token. A listed token is NotFoundError("token is blacklisted"). The answer is never `true`. |
| BlacklistTable.InsertEntry | src/infrastructure/db/auth/token.blacklist.repo.ts:36-53 | Appends the token with an expiry seven days on. It fails with P2002 exactly when the token is already listed, and then changes nothing. The tokens stay unique. |
| BlacklistTable.RevocationIsPermanent | src/infrastructure/db/auth/token.blacklist.repo.ts:14-34 | A listed token stays listed and refused whatever is added later. No expiry is ever compared with the clock. |
| BlacklistRepo.LookupFailure | src/infrastructure/db/auth/token.blacklist.repo.ts:27-33 | A fault of the lookup query is a DBError with the check message. |
| BlacklistRepo.AddFailure | src/infrastructure/db/auth/token.blacklist.repo.ts:44-52 | A duplicate, and only that, is NotFoundError("Token already blacklisted"). Every other failure is a DBError. |
| BlacklistRepo.AddToken | src/infrastructure/db/auth/token.blacklist.repo.ts:36-53 | Fails exactly when the token is already listed, changing nothing. Otherwise it appends the token with an expiry seven days on. Either way the token is listed afterwards. |
| BlacklistRepo.TokenBlacklistRepository.constructor | src/infrastructure/db/auth/token.blacklist.repo.ts:11-12 | A new repository has an empty table. |
| BlacklistRepo.TokenBlacklistRepository.Add | src/infrastructure/db/auth/token.blacklist.repo.ts:36-53 | The table and the result are what `AddToken` gives for the old table. |
| LegacyBlacklistRepo.LookupFailure | src/infrastructure/db/token.blacklist.repo.ts:27-32 | A fault of the lookup query is DBError("Database error"). |
| LegacyBlacklistRepo.AddFailure | src/infrastructure/db/token.blacklist.repo.ts:43-50 | A duplicate, and only that, is NotFoundError("Token already blacklisted"). Every other failure is DBError("Database operation failed"). |
| LegacyBlacklistRepo.AddToken | src/infrastructure/db/token.blacklist.repo.ts:35-51 | Fails exactly when the token is already listed, changing nothing. Otherwise it appends the token with an expiry seven days on. |
| LegacyBlacklistRepo.TokenBlacklistRepository.constructor | src/infrastructure/db/token.blacklist.repo.ts:11-12 | A new repository has an empty table. |
| LegacyBlacklistRepo.TokenBlacklistRepository.Add | src/infrastructure/db/token.blacklist.repo.ts:35-51 | The table and the result are what `AddToken` gives for the old table. |
| AuthService.AuthServices.constructor | src/application/services/auth/auth.services.ts:17-23 | The service holds the five collaborators it is given. |
| AuthService.AuthServices.IssueCode | src/application/services/auth/auth.services.ts:48-61 | The stores and result are those of the shared tail of registration and forgotPassword: store the code, sign the token, send the code email. |
| AuthService.AuthServices.RegisterAttempt | src/application/services/auth/auth.services.ts:31-66 | The stores and result are those of the `try` block of `registerUser`. |
| AuthService.AuthServices.RegisterNew | src/application/services/auth/auth.services.ts:68-96 | The stores and result are those of the new-user path in the catch block of `registerUser`. |
| AuthService.AuthServices.RegisterUser | src/application/services/auth/auth.services.ts:25-99 | The stores and result are what `registerUser` gives for the old stores. |
| AuthService.AuthServices.VerifyRegistration | src/application/services/auth/auth.services.ts:101-133 | The stores and result are what `verifyRegistration` gives for the old stores. |
| AuthService.AuthServices.CompleteRegistration | src/application/services/auth/auth.services.ts:116-121 | The stores and result are those of the delete-update-send steps that end `verifyRegistration`. |
| AuthService.AuthServices.LoginUser | src/application/services/auth/auth.services.ts:135-175 | Changes nothing, and returns what `loginUser` gives. |
| AuthService.AuthServices.VerifyAccessToken | src/application/services/auth/auth.services.ts:177-198 | Changes nothing, and returns what `verifyAccessToken` gives. |
| AuthService.AuthServices.Logout | src/application/services/auth/auth.services.ts:200-210 | The stores and result are what `logout` gives for the old stores. |
| AuthService.AuthServices.ForgotPassword | src/application/services/auth/auth.services.ts:212-248 | The stores and result are what `forgotPassword` gives for the old stores. |
| AuthService.AuthServices.VerifyForgotPassword | src/application/services/auth/auth.services.ts:250-281 | The stores and result are what `verifyForgotPassword` gives for the old stores. |
| AuthService.AuthServices.ResetPassword | src/application/services/auth/auth.services.ts:283-305 | The stores and result are what `resetPassword` gives for the old stores. |
| AuthProperties.RegisterVerifiedEmailFails | src/application/services/auth/auth.services.ts:66 | Registering an email whose user is verified fails with "Email User sudah terdaftar" and changes no store. |
| AuthProperties.IssueCodeSucceeds | src/application/services/auth/auth.services.ts:48-61 | With mail up and a writable OTP row, the user's OTP takes the drawn code and the code email with the token is recorded. Users and blacklist are untouched. The token verifies to the user's id and role and the given type. |
| AuthProperties.CreateOtpForNewUser | src/application/services/auth/auth.services.ts:83-84 | A user with no OTP gets one record appended under the database's fresh id. |
| AuthProperties.RegisterFreshEmail | src/application/services/auth/auth.services.ts:68-96 | A new email appends exactly one unverified row and stores one OTP with the drawn code for it. The code email is recorded. The token verifies to a "register-user" payload for the new row. |
| AuthProperties.ProfileUpdateSucceeds | src/application/services/auth/auth.services.ts:40-46 | The profile update of a re-registration succeeds on the user's own row when the new username is free. |
| AuthProperties.RegisterUnverifiedReduces | src/application/services/auth/auth.services.ts:34-64 | Re-registering an unverified user updates its row and then issues a "verify" code for the updated row. |
| AuthProperties.RegisterUnverifiedUpdatesInPlace | src/application/services/auth/auth.services.ts:34-64 | The existing row is overwritten in place with the new names, a fresh username, the new hash and an empty avatar. No row is added. The token is a "verify" token for that row. |
| AuthProperties.RegisterUnverifiedRenewsCode | src/application/services/auth/auth.services.ts:48-52 | After re-registration the user has an OTP, and every OTP of theirs holds the new code. |
| AuthProperties.UserCodeCanBeStored | src/application/services/auth/auth.services.ts:48-52 | With a fresh id, storing a user's code succeeds and leaves that user exactly one record, holding the code. |
| AuthProperties.VerifyRegistrationBadToken | src/application/services/auth/auth.services.ts:122-132 | A token that does not verify gives "Verification Error" and changes no store. |
| AuthProperties.VerifyRegistrationAlreadyVerified | src/application/services/auth/auth.services.ts:106-108 | A user who is already verified gets that refusal and no store changes. |
| AuthProperties.VerifyRegistrationWrongCode | src/application/services/auth/auth.services.ts:110-114 | A missing user, a code that finds no OTP, or another user's OTP all give "Kode OTP Salah". Neither the OTP nor the user changes. |
| AuthProperties.DeleteReadRecord | src/infrastructure/db/auth/otp.repo.ts:71-89 | Deleting a record read from a table with unique ids removes exactly that record. |
| AuthProperties.VerifyRegistrationSucceeds | src/application/services/auth/auth.services.ts:116-121 | The right code consumes the OTP and marks the user row verified in place. The welcome email is recorded. The view returned is that of the row as read, still unverified. |
| AuthProperties.LoginCheckOrder | src/application/services/auth/auth.services.ts:139-168 | Login checks verification, then the ban, then the presence of a hash, then the password, each failure with its own AuthorizationError. Passing all four gives a "login" token that verifies for seven days. |
| AuthProperties.LoginUnknownEmail | src/application/services/auth/auth.services.ts:170-172 | An email that finds no user gives "Akun tidak ditemukan". |
| AuthProperties.LoginFailuresAreUnauthorized | src/application/services/auth/auth.services.ts:135-175 | Without a database fault, every login failure is an AuthorizationError with status 401. |
| AuthProperties.BlacklistedTokenDenied | src/application/services/auth/auth.services.ts:177-179 | A listed token is refused with NotFoundError("token is blacklisted") whatever its signature. |
| AuthProperties.AccessTokenFlags | src/application/services/auth/auth.services.ts:181-191 | For an unlisted token that verifies, the result depends only on the account flags: unverified first, then banned, otherwise the row. |
| AuthProperties.AccessTokenBadSignature | src/application/services/auth/auth.services.ts:177-198 | An unlisted token that does not verify gives "Verification Error". |
| AuthProperties.LoginThenAccess | src/application/services/auth/auth.services.ts:135-198 | A successful login's token returns the user's own row from `verifyAccessToken` for seven days, while it is not blacklisted. |
| AuthProperties.LogoutBadToken | src/application/services/auth/auth.services.ts:200-210 | A token that does not verify cannot be logged out: "Verification Error", and nothing changes. |
| AuthProperties.LogoutRevokes | src/application/services/auth/auth.services.ts:200-210 | Logging out a valid, unlisted token appends one entry expiring seven days on and changes no other store. The token is refused at every later instant. |
| AuthProperties.LogoutTwice | src/infrastructure/db/auth/token.blacklist.repo.ts:44-50 | Logging out a listed token gives NotFoundError("Token already blacklisted") and changes nothing. |
| AuthProperties.LogoutIsNotRepeatable | src/application/services/auth/auth.services.ts:200-210 | Of two logouts of one token only the first succeeds. The second leaves the stores as the first left them. |
| AuthProperties.ForgotPasswordRefusals | src/application/services/auth/auth.services.ts:216-224 | Each of the three refusals (unknown email, unverified user, no password) leaves every store as it was. |
| AuthProperties.ForgotPasswordIssuesCode | src/application/services/auth/auth.services.ts:226-237 | A verified user with a password gets a fresh stored code, an email carrying it, and a "forgot-password" token valid for one hour. A banned user is served the same way. |
| AuthProperties.ForgotPasswordReplacesOtp | src/application/services/auth/auth.services.ts:226-230 | A pending OTP of the user keeps its id and takes the new code. |
| AuthProperties.VerifyForgotPasswordConsumes | src/application/services/auth/auth.services.ts:250-281 | The right code removes the OTP and yields a "verify-forgot-password" token. Users and mail are untouched. |
| AuthProperties.VerifyForgotPasswordRefusals | src/application/services/auth/auth.services.ts:250-281 | A bad token gives "Verification Error". A missing user, a missing OTP or another user's OTP gives "Invalid OTP code". Nothing changes. |
| AuthProperties.UserIdPassesAsCode | src/application/services/auth/auth.services.ts:254-258 | The user's own id is accepted as the code whenever the user has a pending OTP and no record's code equals that id. |
| AuthProperties.ResetPasswordAttemptAt | src/application/services/auth/auth.services.ts:285-295 | The try block of `resetPassword` sets the new hash on the token's user row and then sends the confirmation email. |
| AuthProperties.ResetPasswordChangesOnlyHash | src/application/services/auth/auth.services.ts:283-305 | A verifying token that names a user changes that user's hash and nothing else. The answer is a success even when the email fails. The token's type is never read. |
| AuthProperties.ResetPasswordErrors | src/application/services/auth/auth.services.ts:296-304 | `resetPassword` reports only "Invalid OTP code" and "Verification Error". Every other failure reads as success. |
| AuthProperties.ForgotTokenResetsPassword | src/application/services/auth/auth.services.ts:212-305 | The token `forgotPassword` returns resets the password within its hour without any code being presented. |
| AuthProperties.IssueCodeKeepsConsistent | src/application/services/auth/auth.services.ts:48-61 | Issuing a code keeps the unique constraints of all three tables on every path. |
| AuthProperties.RegisterKeepsConsistent | src/application/services/auth/auth.services.ts:25-99 | `registerUser` keeps the unique constraints on every path, failures included. |
| AuthProperties.VerifyRegistrationKeepsConsistent | src/application/services/auth/auth.services.ts:101-133 | `verifyRegistration` keeps the unique constraints on every path. |
| AuthProperties.CompleteRegistrationKeepsConsistent | src/application/services/auth/auth.services.ts:116-121 | The last steps of `verifyRegistration` keep the unique constraints, whichever step fails. |
| AuthProperties.LogoutKeepsConsistent | src/application/services/auth/auth.services.ts:200-210 | `logout` keeps the unique constraints on every path. |
| AuthProperties.ForgotPasswordKeepsConsistent | src/application/services/auth/auth.services.ts:212-248 | `forgotPassword` keeps the unique constraints on every path. |
| AuthProperties.VerifyForgotPasswordKeepsConsistent | src/application/services/auth/auth.services.ts:250-281 | `verifyForgotPassword` keeps the unique constraints on every path. |
| AuthProperties.ResetPasswordKeepsConsistent | src/application/services/auth/auth.services.ts:283-305 | `resetPassword` keeps the unique constraints on every path. |
| LegacyAuthService.AuthServices.constructor | src/application/services/auth.services.ts:22-28 | The service holds the five collaborators it is given. |
| LegacyAuthService.AuthServices.IssueCode | src/application/services/auth.services.ts:48-62 | The stores and result are those of the shared tail: store the code, sign the token, send the code email. |
| LegacyAuthService.AuthServices.RegisterAttempt | src/application/services/auth.services.ts:36-67 | The stores and result are those of the `try` block of `registerUser`. |
| LegacyAuthService.AuthServices.RegisterNew | src/application/services/auth.services.ts:68-93 | The stores and result are those of the new-user path in the catch block. |
| LegacyAuthService.AuthServices.RegisterUser | src/application/services/auth.services.ts:30-96 | The stores and result are what `registerUser` gives for the old stores. |
| LegacyAuthService.AuthServices.VerifyRegistration | src/application/services/auth.services.ts:98-128 | The stores and result are what `verifyRegistration` gives for the old stores. |
| LegacyAuthService.AuthServices.CompleteRegistration | src/application/services/auth.services.ts:113-116 | The stores and result are those of the delete and update steps that end `verifyRegistration`. |
| LegacyAuthService.AuthServices.LoginUser | src/application/services/auth.services.ts:130-172 | Changes nothing, and returns what `loginUser` gives. |
| LegacyAuthService.AuthServices.VerifyAccessToken | src/application/services/auth.services.ts:174-195 | Changes nothing, and returns what `verifyAccessToken` gives. |
| LegacyAuthService.AuthServices.Logout | src/application/services/auth.services.ts:197-207 | The stores and result are what `logout` gives for the old stores. |
| LegacyAuthService.AuthServices.ForgotPassword | src/application/services/auth.services.ts:209-246 | The stores and result are what `forgotPassword` gives for the old stores. |
| LegacyAuthService.AuthServices.VerifyForgotPassword | src/application/services/auth.services.ts:248-280 | The stores and result are what `verifyForgotPassword` gives for the old stores. |
| LegacyAuthService.AuthServices.ResetPassword | src/application/services/auth.services.ts:282-302 | The stores and result are what `resetPassword` gives for the old stores. |
| LegacyAuthProperties.RegisterVerifiedEmailFails | src/application/services/auth.services.ts:67 | Registering an email whose user is verified gives "User already exists" and changes no store. |
| LegacyAuthProperties.IssueCodeSucceeds | src/application/services/auth.services.ts:48-62 | With mail up and a writable OTP row, the code is stored and mailed. The token carries the user's email and name. |
| LegacyAuthProperties.RegisterFreshEmail | src/application/services/auth.services.ts:68-93 | A new email appends one unverified row with the name, phone and hash and no username. One OTP with the drawn code is stored and mailed. The token is a "register-user" token carrying the new row's email and name. |
| LegacyAuthProperties.RegisterUnverifiedReduces | src/application/services/auth.services.ts:39-65 | Re-registering an unverified user overwrites the name, phone, hash and avatar of that row. Its username and its first and last names stay as they were. |
| LegacyAuthProperties.RegisterUnverifiedUpdatesInPlace | src/application/services/auth.services.ts:39-65 | Re-registering an unverified user overwrites that same row in place with the new name, phone, hash and an empty avatar. No row is added and the blacklist is untouched. The code email is recorded. The token is a "verify" token carrying the row's id, email, new name and role. |
| LegacyAuthProperties.VerifyRegistrationSucceeds | src/application/services/auth.services.ts:113-116 | The right code consumes the OTP and marks the user verified, and no email is sent. |
| LegacyAuthProperties.DeleteReadRecord | src/infrastructure/db/otp.repo.ts:83-97 | The legacy delete of a record read from a table with unique ids succeeds and removes exactly that record. |
| LegacyAuthProperties.VerifyRegistrationRefusals | src/application/services/auth.services.ts:98-128 | Each refusal leaves every store as it was: a bad token, a missing user, a verified user, a missing OTP, or another user's OTP. |
| LegacyAuthProperties.LoginMatchesWired | src/application/services/auth.services.ts:130-172 | The legacy login lets exactly the same users in as the wired one under the same checks. Only the messages for an unknown account and a wrong password differ. |
| LegacyAuthProperties.LoginReturnsViewAndToken | src/application/services/auth.services.ts:154-165 | A successful login returns the view of the user's row and a "login" token, carrying email and name, that verifies for seven days. |
| LegacyAuthProperties.AccessTokenMatchesWired | src/application/services/auth.services.ts:174-195 | The legacy `verifyAccessToken` refuses exactly what the wired one refuses, with the same error. It returns the view of the row the wired one returns. |
| LegacyAuthProperties.BlacklistedTokenDenied | src/application/services/auth.services.ts:174-177 | A listed token is refused with NotFoundError("token is blacklisted"). |
| LegacyAuthProperties.LogoutMatchesWired | src/application/services/auth.services.ts:197-207 | The legacy `logout` changes the stores exactly as the wired one does and returns the same outcome. |
| LegacyAuthProperties.LogoutRevokes | src/application/services/auth.services.ts:197-207 | After a logout the token is refused by `verifyAccessToken` at every instant. |
| LegacyAuthProperties.ForgotPasswordRefusals | src/application/services/auth.services.ts:209-246 | Each refusal leaves every store as it was. The unverified case reuses the login message. |
| LegacyAuthProperties.ForgotPasswordIssuesCode | src/application/services/auth.services.ts:223-239 | A verified user with a password, banned or not, gets a code and a "forgot-password" token valid for one hour. |
| LegacyAuthProperties.VerifyForgotPasswordConsumes | src/application/services/auth.services.ts:248-280 | The right code removes the OTP and yields a "verify-forgot-password" token. Users and mail are untouched. |
| LegacyAuthProperties.ResetPasswordChangesOnlyHash | src/application/services/auth.services.ts:282-292 | A verifying token that names a user changes that user's hash and nothing else. It returns the view of the row as read, and sends no email. |
| LegacyAuthProperties.ResetPasswordCatchSwallows | src/application/services/auth.services.ts:293-301 | The catch block reports only "Invalid OTP code" and "Verification Error". Every other failure comes out as the `undefined` of a success. |
| LegacyAuthProperties.ForgotTokenResetsPassword | src/application/services/auth.services.ts:209-302 | The token `forgotPassword` returns resets the password directly within its hour, without the code. |
| Middleware.BearerToken | src/presentation/middleware/authorization.ts:8-12 | The token is the second space-separated field of the header. The result is none exactly when there is no header, no second field, or an empty one. A token found is non-empty and has no space. |
| Middleware.AuthorizeDelegates | src/presentation/middleware/authorization.ts:7-16 | Without a token the request gets "Token not provided". Otherwise it fails exactly when `verifyAccessToken` fails, with the same error, and on success gets the user's id and role. |
| Middleware.SchemeAndToken | src/presentation/middleware/authorization.ts:8 | A header `"<scheme> <token>"` yields that token, whatever the scheme word and whatever follows a further space. |
| Middleware.BareTokenRefused | src/presentation/middleware/authorization.ts:8-12 | A header without a space, such as a bare token, gives no token. |
| Middleware.DoubleSpaceRefused | src/presentation/middleware/authorization.ts:8-12 | A scheme followed by two spaces leaves the second field empty, and the header is refused. |
| Middleware.LoggedOutTokenDenied | src/presentation/middleware/authorization.ts:14-15 | A logged-out token is refused at the middleware with "token is blacklisted". |
| Middleware.FlaggedUserDenied | src/presentation/middleware/authorization.ts:14-15 | A validly signed token of an unverified user is refused as unverified, and one of a banned user as banned. |
| Middleware.AcceptedTokenAuthorizes | src/presentation/middleware/authorization.ts:14-15 | A well-formed header whose token `verifyAccessToken` accepts gives that user's id and role. |
| Middleware.LoginSessionAuthorizes | src/presentation/middleware/authorization.ts:7-16 | For seven days, and while it is not blacklisted, the header carrying a login token gives the user's own id and role. |

## Left out

- **Database faults.** Connection loss and other faults are never raised by the model. Only unique conflicts (P2002) and missing rows (P2025) arise from the tables. The repositories' translation of the other faults is modelled (`LookupFailure`, `CreateFailure`, `AddFailure`, …) but nothing feeds them.
- **Signing errors.** Signing never fails in the model, so the "Error signing JWT" branch of the provider is unreachable.
- **Token format.** HS256 and the library's token format are replaced by an abstract MAC and a field encoding of the model's own. `iat` is not carried; only `exp` is.
- **Unicode case.** `toLowerCase()` is modelled on ASCII letters only.
- **Password hashing.** `Bun.password` hashing is idealised as injective and deterministic, with no salt and no cost.
- **`getAll`.** The user repository's `getAll` is not used by the auth core and is not modelled.
- **Legacy user repository.** The legacy service is modelled over the same user repository as the wired one. Its separate repository file is not part of this model. The framework's NotFoundError and the project's own NotFoundError class are merged.
- **`AutorizationError`.** The legacy service imports a misspelled `AutorizationError` from src/infrastructure/entity/error.ts, which exports only DBError, AuthorizationError, NotFoundError and ValidationError; as written the legacy service fails at that import. The model gives the evidently intended AuthorizationError (401) in its place.
- **OTP expiry.** OTP timestamps do not exist in the source and codes never expire. Blacklist `expiredAt` is stored but never read, and the model does the same.
- **Concurrency.** `async` interleavings and concurrent requests are not modelled. Each operation runs to completion on its own.
- **Mail.** The mail service is reduced to an outbox and an availability flag. Message bodies, HTML templates and the Resend API calls are left out.
- **Mail-side token check.** `sendVerificationCode` and `sendForgotPasswordCode` verify the token again and look the user up before sending. Any failure there becomes EmailError("Terjadi kesalahan saat mengirim email"). The model does not include that check and lookup; in the model they always succeed, so only the gateway's availability decides the outcome.
- UserRepo.UserPatch: the source's `update` takes any `Partial<User>`. The model's patch covers only the columns the services write: names, username, phone, password, avatar and isVerified. Patches to `email`, `role`, `onBanned` and `id` are not modelled, so the email conflict of `update` arises only through `username`. `OtpTable.OtpPatch` likewise covers only `userId` and `code`.
- **Stale middleware.** `src/presentation/middleware/autorization.ts` reads the wrong header and is not wired; it is not modelled.
- **Random draws.** The catch path of `registerUser` draws new random values for the username suffix and the code. The model takes all draws from `Env`.
- **Unique columns.** The unique columns of the schema (user id, email and username; OTP id and userId; blacklist token) are taken as given. The Prisma schema is not part of this model.
- **Routers and validation.** HTTP routing, cookies and request-body validation sit outside the core.
