/** The application error type and its HTTP mapping. */
module AppErrors {

  datatype AppError =
    | NotFound(msg: string)
    | BadRequest(msg: string)
    | Unauthorized(msg: string)
    | Forbidden(msg: string)
    | InternalError(msg: string)
    | DatabaseError(msg: string)

  /** `Result<T, AppError>`. */
  datatype Outcome<T> = Ok(value: T) | Err(error: AppError)

  /** `status_code`. */
  function StatusCode(e: AppError): (code: int)
    ensures code in {400, 401, 403, 404, 500}
    ensures code == 404 <==> e.NotFound?
    ensures code == 400 <==> e.BadRequest?
    ensures code == 401 <==> e.Unauthorized?
    ensures code == 403 <==> e.Forbidden?
    ensures code == 500 <==> e.InternalError? || e.DatabaseError?
  {
    match e
    case NotFound(_) => 404
    case BadRequest(_) => 400
    case Unauthorized(_) => 401
    case Forbidden(_) => 403
    case InternalError(_) => 500
    case DatabaseError(_) => 500
  }

  /** The `error` field of the JSON body. */
  function ErrorType(e: AppError): string {
    match e
    case NotFound(_) => "NOT_FOUND"
    case BadRequest(_) => "BAD_REQUEST"
    case Unauthorized(_) => "UNAUTHORIZED"
    case Forbidden(_) => "FORBIDDEN"
    case InternalError(_) => "INTERNAL_ERROR"
    case DatabaseError(_) => "DATABASE_ERROR"
  }

  /** The JSON body `{ error, message }` of an error response. */
  datatype ErrorBody = ErrorBody(error: string, message: string)

  /** `error_response`: the status and a body carrying the variant's type
      string and its message unchanged. */
  function ErrorResponse(e: AppError): (r: (int, ErrorBody))
    ensures r.0 == StatusCode(e)
    ensures r.1.message == e.msg
  {
    (StatusCode(e), ErrorBody(ErrorType(e), e.msg))
  }

  /** Variants are told apart by their type string even where they share a
      status code, and the body's message is always the carried string. */
  lemma ErrorTypeInjective(e1: AppError, e2: AppError)
    ensures ErrorType(e1) == ErrorType(e2) <==> (
      (e1.NotFound? && e2.NotFound?) || (e1.BadRequest? && e2.BadRequest?)
      || (e1.Unauthorized? && e2.Unauthorized?) || (e1.Forbidden? && e2.Forbidden?)
      || (e1.InternalError? && e2.InternalError?) || (e1.DatabaseError? && e2.DatabaseError?))
    ensures ErrorResponse(e1) == ErrorResponse(e2) <==> e1 == e2
  {}

  /** `From<sqlx::Error>`: the database error's text becomes the message. */
  function FromDatabase(errText: string): (e: AppError)
    ensures e.DatabaseError? && StatusCode(e) == 500 && e.msg == errText
  {
    DatabaseError(errText)
  }

  /** `From<std::env::VarError>`. */
  function FromEnvVar(errText: string): (e: AppError)
    ensures e.InternalError? && StatusCode(e) == 500
    ensures e.msg == "Environment variable error: " + errText
  {
    InternalError("Environment variable error: " + errText)
  }
}
