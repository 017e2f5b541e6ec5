/**
 * The error taxonomy of the service layer: the four classes of
 * src/infrastructure/entity/error.ts, plus JWTError (thrown by the token
 * provider) and EmailError (thrown by the mail gateway). The web framework's
 * own NotFoundError, which the current repositories throw, is merged with
 * NotFoundError here: both carry status 404.
 */
module Errors {

  datatype AppError =
    | DBError(message: string)
    | AuthorizationError(message: string)
    | NotFoundError(message: string)
    | ValidationError(message: string)
    | JWTError(message: string)
    | EmailError(message: string)

  /** The HTTP status each error class sets in its constructor. */
  function Status(e: AppError): (status: nat)
    ensures status in {400, 401, 404, 500}
    ensures status == 401 <==> e.AuthorizationError? || e.JWTError?
    ensures status == 404 <==> e.NotFoundError?
    ensures status == 400 <==> e.ValidationError?
    ensures status == 500 <==> e.DBError? || e.EmailError?
  {
    match e
    case DBError(_) => 500
    case AuthorizationError(_) => 401
    case NotFoundError(_) => 404
    case ValidationError(_) => 400
    case JWTError(_) => 401
    case EmailError(_) => 500
  }

  /** The constant `code` each error class sets in its constructor. */
  function Code(e: AppError): string
  {
    match e
    case DBError(_) => "DB_ERROR"
    case AuthorizationError(_) => "AUTHORIZATION_ERROR"
    case NotFoundError(_) => "NOTFOUND_ERROR"
    case ValidationError(_) => "VALIDATION_ERROR"
    case JWTError(_) => "JWT_ERROR"
    case EmailError(_) => "EMAIL_ERROR"
  }

  /** Two errors are of the same class. */
  predicate SameClass(a: AppError, b: AppError)
  {
    (a.DBError? && b.DBError?) || (a.AuthorizationError? && b.AuthorizationError?)
    || (a.NotFoundError? && b.NotFoundError?) || (a.ValidationError? && b.ValidationError?)
    || (a.JWTError? && b.JWTError?) || (a.EmailError? && b.EmailError?)
  }

  /** The code alone tells the error class, and the message is kept apart from it. */
  lemma CodeIdentifiesClass(a: AppError, b: AppError)
    ensures Code(a) == Code(b) <==> SameClass(a, b)
    ensures SameClass(a, b) ==> Status(a) == Status(b)
  {
  }
}
