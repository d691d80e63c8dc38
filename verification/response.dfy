/** The JSON envelopes of pkg/response and the HTTP status each helper sets. */
module Response {
  import opened Wrappers
  import opened Schemas

  const StatusOK: int := 200
  const StatusCreated: int := 201
  const StatusBadRequest: int := 400
  const StatusUnauthorized: int := 401
  const StatusInternalServerError: int := 500

  /** One entry of a validation failure; `value` is never filled in by the validator. */
  datatype ValidationError = ValidationError(field: string, message: string, value: string)

  datatype ErrorData = ErrorData(code: int, message: string, details: seq<ValidationError>)

  /** The page metadata of a paginated listing. */
  datatype Pagination = Pagination(
    page: int, size: int, total: int, totalPages: int, hasNext: bool, hasPrev: bool)

  /** The `data` member; `Null` is Go's nil (omitted from a base envelope, `null`
      in a paginated one). */
  datatype Payload =
    | Null
    | AuthData(auth: AuthResponse)
    | UserData(user: UserResponse)
    | UserList(users: seq<UserResponse>)
    | BookData(book: BookResponse)
    | BookList(books: seq<BookResponse>)
    | IdData(id: nat)

  datatype Body =
    | Base(success: bool, message: string, data: Payload, error: Option<ErrorData>)
    | Paged(success: bool, message: string, data: Payload, pagination: Pagination)

  datatype HttpResponse = HttpResponse(status: int, body: Body)

  /** What every helper guarantees: success exactly when no error object and a 2xx
      status; a failure's error object repeats the status as its code and the top-level
      message as its own; paginated envelopes are always 200 successes. */
  predicate Coherent(r: HttpResponse) {
    match r.body
    case Base(ok, msg, _, err) =>
      && (ok <==> err.None?)
      && (ok <==> 200 <= r.status < 300)
      && (err.Some? ==> err.value.code == r.status && err.value.message == msg)
    case Paged(ok, _, _, _) => ok && r.status == StatusOK
  }

  /** A failure envelope carrying `message` and no validation details. */
  predicate FailsWith(r: HttpResponse, status: int, message: string) {
    && r.status == status
    && r.body.Base?
    && !r.body.success
    && r.body.message == message
    && r.body.data == Null
    && r.body.error == Some(ErrorData(status, message, []))
  }

  predicate SucceedsWith(r: HttpResponse, status: int, message: string, data: Payload) {
    r.status == status && r.body == Base(true, message, data, None)
  }

  function Success(message: string, data: Payload): (r: HttpResponse)
    ensures Coherent(r) && SucceedsWith(r, StatusOK, message, data)
  {
    HttpResponse(StatusOK, Base(true, message, data, None))
  }

  function Created(message: string, data: Payload): (r: HttpResponse)
    ensures Coherent(r) && SucceedsWith(r, StatusCreated, message, data)
  {
    HttpResponse(StatusCreated, Base(true, message, data, None))
  }

  function Failure(status: int, message: string, details: seq<ValidationError>): HttpResponse {
    HttpResponse(status, Base(false, message, Null, Some(ErrorData(status, message, details))))
  }

  function BadRequest(message: string): (r: HttpResponse)
    ensures Coherent(r) && FailsWith(r, StatusBadRequest, message)
  {
    Failure(StatusBadRequest, message, [])
  }

  /** A 400 whose error object carries the validator's entries unchanged. */
  function ValidationFailed(message: string, details: seq<ValidationError>): (r: HttpResponse)
    ensures Coherent(r) && r.status == StatusBadRequest && !r.body.success
    ensures r.body.message == message && r.body.error == Some(ErrorData(StatusBadRequest, message, details))
  {
    Failure(StatusBadRequest, message, details)
  }

  function Paginated(message: string, data: Payload, pagination: Pagination): (r: HttpResponse)
    ensures Coherent(r) && r.status == StatusOK
    ensures r.body == Paged(true, message, data, pagination)
  {
    HttpResponse(StatusOK, Paged(true, message, data, pagination))
  }

  function Unauthorized(message: string): (r: HttpResponse)
    ensures Coherent(r) && FailsWith(r, StatusUnauthorized, message)
  {
    Failure(StatusUnauthorized, message, [])
  }

  function InternalError(message: string): (r: HttpResponse)
    ensures Coherent(r) && FailsWith(r, StatusInternalServerError, message)
  {
    Failure(StatusInternalServerError, message, [])
  }
}
