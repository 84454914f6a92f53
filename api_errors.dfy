/** How the admin API client turns a failed request into an error value
    (src/api/config/axios.ts): the response interceptor's status table and
    the wrapper every request method shares. */
module ApiErrors {
  import opened Wrappers

  /** The body of an error response as far as the client reads it. */
  datatype ErrorBody = ErrorBody(message: Option<string>, code: Option<string>)

  /** What axios hands the interceptor: the response, when there was one,
      and the error's own message ("" when it has none). */
  datatype ErrorResponse = ErrorResponse(status: Option<int>, data: Option<ErrorBody>)

  datatype HttpFailure = HttpFailure(response: Option<ErrorResponse>, message: string)

  /** `ApiError`: a message, and a code and status code when known. */
  datatype ApiError = ApiError(message: string, code: Option<string>, statusCode: Option<int>)

  const DefaultMessage := "\U{C54C} \U{C218} \U{C5C6}\U{B294} \U{C624}\U{B958}\U{AC00} \U{BC1C}\U{C0DD}\U{D588}\U{C2B5}\U{B2C8}\U{B2E4}."
  const UnauthorizedMessage := "\U{C778}\U{C99D}\U{C774} \U{D544}\U{C694}\U{D569}\U{B2C8}\U{B2E4}. \U{B85C}\U{ADF8}\U{C778}\U{D574}\U{C8FC}\U{C138}\U{C694}."
  const ForbiddenMessage := "\U{C811}\U{ADFC} \U{AD8C}\U{D55C}\U{C774} \U{C5C6}\U{C2B5}\U{B2C8}\U{B2E4}."
  const NotFoundMessage := "\U{C694}\U{CCAD}\U{D55C} \U{B9AC}\U{C18C}\U{C2A4}\U{B97C} \U{CC3E}\U{C744} \U{C218} \U{C5C6}\U{C2B5}\U{B2C8}\U{B2E4}."
  const ServerErrorMessage := "\U{C11C}\U{BC84} \U{C624}\U{B958}\U{AC00} \U{BC1C}\U{C0DD}\U{D588}\U{C2B5}\U{B2C8}\U{B2E4}. \U{C7A0}\U{C2DC} \U{D6C4} \U{B2E4}\U{C2DC} \U{C2DC}\U{B3C4}\U{D574}\U{C8FC}\U{C138}\U{C694}."

  /** `error.response?.status`. */
  function Status(e: HttpFailure): Option<int> {
    if e.response.Some? then e.response.value.status else None
  }

  /** `error.response?.data?.message`. */
  function ServerMessage(e: HttpFailure): Option<string> {
    if e.response.Some? && e.response.value.data.Some? then e.response.value.data.value.message else None
  }

  /** `error.response?.data?.code`. */
  function ServerCode(e: HttpFailure): Option<string> {
    if e.response.Some? && e.response.value.data.Some? then e.response.value.data.value.code else None
  }

  /** The first of the server's message and the error's own message that is
      present and not empty, else the default text. */
  function FallbackMessage(e: HttpFailure): (m: string)
    ensures m != ""
    ensures ServerMessage(e).Some? && ServerMessage(e).value != "" ==> m == ServerMessage(e).value
    ensures (ServerMessage(e).None? || ServerMessage(e).value == "") && e.message != "" ==> m == e.message
    ensures (ServerMessage(e).None? || ServerMessage(e).value == "") && e.message == "" ==> m == DefaultMessage
  {
    var server := ServerMessage(e);
    if server.Some? && server.value != "" then server.value
    else if e.message != "" then e.message
    else DefaultMessage
  }

  /** The statuses the interceptor rewrites, with their message and code. */
  function Override(status: Option<int>): (r: Option<(string, string)>)
    ensures r.Some? <==> status.Some? && (status.value == 401 || status.value == 403 || status.value == 404 || status.value >= 500)
  {
    if status == Some(401) then Some((UnauthorizedMessage, "UNAUTHORIZED"))
    else if status == Some(403) then Some((ForbiddenMessage, "FORBIDDEN"))
    else if status == Some(404) then Some((NotFoundMessage, "NOT_FOUND"))
    else if status.Some? && status.value >= 500 then Some((ServerErrorMessage, "SERVER_ERROR"))
    else None
  }

  /** The error the interceptor rejects with, as a table. */
  function ErrorFor(e: HttpFailure): ApiError {
    match Override(Status(e))
    case Some((message, code)) => ApiError(message, Some(code), Status(e))
    case None => ApiError(FallbackMessage(e), ServerCode(e), Status(e))
  }

  /** The table the interceptor implements: 401, 403, 404 and every status
      from 500 up get a fixed code and message; every other status, and a
      failure without a response, keeps the server's code and the first
      message available. The status code is always copied and the message
      is never empty. */
  lemma ErrorForTable(e: HttpFailure)
    ensures var r := ErrorFor(e);
      && r.statusCode == Status(e)
      && r.message != ""
      && (Status(e) == Some(401) ==> r.code == Some("UNAUTHORIZED") && r.message == UnauthorizedMessage)
      && (Status(e) == Some(403) ==> r.code == Some("FORBIDDEN") && r.message == ForbiddenMessage)
      && (Status(e) == Some(404) ==> r.code == Some("NOT_FOUND") && r.message == NotFoundMessage)
      && (Status(e).Some? && Status(e).value >= 500 ==> r.code == Some("SERVER_ERROR") && r.message == ServerErrorMessage)
      && (Override(Status(e)).None? ==> r.code == ServerCode(e) && r.message == FallbackMessage(e))
  {
  }

  /** The response interceptor's error handler: the error built from the
      response, then the four status rules applied one after another. */
  method Intercept(e: HttpFailure) returns (apiError: ApiError)
    ensures apiError == ErrorFor(e)
  {
    apiError := ApiError(FallbackMessage(e), ServerCode(e), Status(e));
    var status := Status(e);
    if status == Some(401) {
      apiError := apiError.(message := UnauthorizedMessage, code := Some("UNAUTHORIZED"));
    }
    if status == Some(403) {
      apiError := apiError.(message := ForbiddenMessage, code := Some("FORBIDDEN"));
    }
    if status == Some(404) {
      apiError := apiError.(message := NotFoundMessage, code := Some("NOT_FOUND"));
    }
    if status.Some? && status.value >= 500 {
      apiError := apiError.(message := ServerErrorMessage, code := Some("SERVER_ERROR"));
    }
  }

  /** What the awaited request produced: the response data, or what was
      thrown - the interceptor's `{ error }` object, an `Error` with its
      message, or any other value. */
  datatype Thrown = Intercepted(error: ApiError) | ErrorInstance(message: string) | OtherValue
  datatype Outcome<T> = Responded(data: T) | Rejected(thrown: Thrown)

  /** `ApiResponse<T>`. */
  datatype ApiResponse<T> = ApiResponse(data: Option<T>, error: Option<ApiError>)

  /** The `try`/`catch` shared by `apiClient.get`, `post`, `put`, `delete`
      and `patch`. */
  function Normalize<T>(o: Outcome<T>): (r: ApiResponse<T>)
    ensures r.data.Some? <==> o.Responded?
    ensures r.error.Some? <==> o.Rejected?
  {
    match o
    case Responded(d) => ApiResponse(Some(d), None)
    case Rejected(Intercepted(err)) => ApiResponse(None, Some(err))
    case Rejected(ErrorInstance(m)) => ApiResponse(None, Some(ApiError(m, Some("UNKNOWN_ERROR"), None)))
    case Rejected(OtherValue) => ApiResponse(None, Some(ApiError(DefaultMessage, Some("UNKNOWN_ERROR"), None)))
  }

  /** A response passes its data through; the interceptor's error reaches
      the caller unchanged; anything else thrown becomes UNKNOWN_ERROR with
      the error's message or the default text and no status. */
  lemma NormalizeFacts<T>(o: Outcome<T>)
    ensures o.Responded? ==> Normalize(o) == ApiResponse(Some(o.data), None)
    ensures o.Rejected? && o.thrown.Intercepted? ==> Normalize(o).error == Some(o.thrown.error)
    ensures o.Rejected? && !o.thrown.Intercepted? ==>
      Normalize(o).error.value.code == Some("UNKNOWN_ERROR") && Normalize(o).error.value.statusCode.None?
    ensures o == Rejected(OtherValue) ==> Normalize(o).error.value.message == DefaultMessage
  {
  }

  /** A request that fails at the server reaches its caller as exactly the
      interceptor's error: no data, a non-empty message, the status, and
      the code the status table gives. */
  lemma FailedRequest<T>(e: HttpFailure, r: ApiResponse<T>)
    requires r == Normalize<T>(Rejected(Intercepted(ErrorFor(e))))
    ensures r.data.None? && r.error == Some(ErrorFor(e))
    ensures r.error.value.message != "" && r.error.value.statusCode == Status(e)
    ensures Override(Status(e)).Some? ==> r.error.value.code == Some(Override(Status(e)).value.1)
  {
    ErrorForTable(e);
  }
}
