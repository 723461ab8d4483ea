/** The response envelope of the share service: the success record, the
    error record carried by a thrown HTTP error, the table of error codes,
    and the two constructors every handler uses. */
module ApiResponse {
  import opened Wrappers

  /** The keys of `API_ERROR_CODES`. */
  datatype ErrorCode =
    | ValidationError
    | NotFound
    | Unauthorized
    | Forbidden
    | Expired
    | ServerError
    | InvalidJson
    | FileTooLarge

  /** The string `API_ERROR_CODES` stores under a key. */
  function CodeName(c: ErrorCode): string {
    match c
    case ValidationError => "VALIDATION_ERROR"
    case NotFound => "NOT_FOUND"
    case Unauthorized => "UNAUTHORIZED"
    case Forbidden => "FORBIDDEN"
    case Expired => "EXPIRED"
    case ServerError => "SERVER_ERROR"
    case InvalidJson => "INVALID_JSON"
    case FileTooLarge => "FILE_TOO_LARGE"
  }

  /** `API_ERROR_CODES` as a table from key to stored string. */
  const ApiErrorCodes: map<string, string> := map[
    "VALIDATION_ERROR" := "VALIDATION_ERROR",
    "NOT_FOUND" := "NOT_FOUND",
    "UNAUTHORIZED" := "UNAUTHORIZED",
    "FORBIDDEN" := "FORBIDDEN",
    "EXPIRED" := "EXPIRED",
    "SERVER_ERROR" := "SERVER_ERROR",
    "INVALID_JSON" := "INVALID_JSON",
    "FILE_TOO_LARGE" := "FILE_TOO_LARGE"
  ]

  /** Every key of the table stores its own name, the table has exactly the
      eight keys of `ErrorCode`, and distinct codes have distinct strings. */
  lemma ErrorCodeTable()
    ensures forall k :: k in ApiErrorCodes ==> ApiErrorCodes[k] == k
    ensures forall c :: CodeName(c) in ApiErrorCodes && ApiErrorCodes[CodeName(c)] == CodeName(c)
    ensures forall k :: k in ApiErrorCodes ==> exists c :: CodeName(c) == k
    ensures forall c, d :: CodeName(c) == CodeName(d) ==> c == d
  {
    forall k | k in ApiErrorCodes
      ensures exists c :: CodeName(c) == k
    {
      if k == "VALIDATION_ERROR" { assert CodeName(ValidationError) == k; }
      else if k == "NOT_FOUND" { assert CodeName(NotFound) == k; }
      else if k == "UNAUTHORIZED" { assert CodeName(Unauthorized) == k; }
      else if k == "FORBIDDEN" { assert CodeName(Forbidden) == k; }
      else if k == "EXPIRED" { assert CodeName(Expired) == k; }
      else if k == "SERVER_ERROR" { assert CodeName(ServerError) == k; }
      else if k == "INVALID_JSON" { assert CodeName(InvalidJson) == k; }
      else { assert CodeName(FileTooLarge) == k; }
    }
  }

  /** `{ code, message, details }`. */
  datatype ErrorBody = ErrorBody(code: string, message: string, details: Option<string>)

  /** `ApiErrorResponse`: `success` is always false for it. */
  datatype ErrorResponse = ErrorResponse(success: bool, error: ErrorBody)

  /** `ApiSuccessResponse<T>`. */
  datatype ApiSuccess<T> = ApiSuccess(success: bool, data: T, message: Option<string>)

  /** The error `createError({ statusCode, data })` throws. Its `message` is
      the one the test set-up gives it: the body's message, or "Error". */
  datatype HttpError = HttpError(statusCode: int, message: string, data: ErrorResponse)

  /** Anything a handler can throw: an HTTP error made by `createApiError`,
      or an error from a framework or library call, whose `statusCode` is 0
      when it has none. */
  datatype Thrown =
    | Api(err: HttpError)
    | Foreign(name: string, message: string, statusCode: int)
  {
    /** `error.statusCode`, 0 standing for "absent". */
    function StatusCode(): int {
      match this
      case Api(e) => e.statusCode
      case Foreign(_, _, s) => s
    }

    /** `error.message`. */
    function Message(): string {
      match this
      case Api(e) => e.message
      case Foreign(_, m, _) => m
    }
  }

  /** A handler's answer on the success path: the HTTP status and the body. */
  datatype Response<T> = Response(status: int, body: ApiSuccess<T>)

  function CreateApiSuccess<T>(data: T, message: Option<string>): (r: ApiSuccess<T>)
    ensures r.success && r.data == data && r.message == message
  {
    ApiSuccess(true, data, message)
  }

  /** The error value `createApiError` throws. */
  function ApiError(statusCode: int, code: ErrorCode, message: string, details: Option<string>): (e: HttpError)
    ensures e.statusCode == statusCode
    ensures !e.data.success
    ensures e.data.error == ErrorBody(CodeName(code), message, details)
    ensures e.message == (if message == "" then "Error" else message)
  {
    HttpError(statusCode, if message == "" then "Error" else message,
              ErrorResponse(false, ErrorBody(CodeName(code), message, details)))
  }

  /** `createApiError` never returns: whatever result type the caller
      expects, the outcome is the thrown error. */
  function CreateApiError<T>(statusCode: int, code: ErrorCode, message: string, details: Option<string>): (r: Result<T, HttpError>)
    ensures r.Failure?
    ensures r.error.statusCode == statusCode && !r.error.data.success
    ensures r.error.data.error == ErrorBody(CodeName(code), message, details)
  {
    Failure(ApiError(statusCode, code, message, details))
  }

  /** The error has the given status and code. */
  predicate IsApiError(e: HttpError, statusCode: int, code: ErrorCode) {
    e.statusCode == statusCode && e.data.error.code == CodeName(code)
  }
}
