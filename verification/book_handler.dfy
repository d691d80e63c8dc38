/** internal/handlers/book_handler.go: the book endpoints. Unlike the user handler,
    ids are not checked for positivity (a negative id wraps to a large `uint`), and
    non-numeric page or size values are refused instead of defaulted. */
module BookHandler {
  import opened Wrappers
  import opened Schemas
  import opened Store
  import opened Response
  import opened Collaborators
  import opened Paging
  import opened Web
  import Strconv
  import Validator
  import BookService
  import Models

  const InvalidId: string := "Invalid ID"
  const MissingUserId: string := "User ID is not in context."
  const ValidationFailedMessage: string := "Validation failed"

  /** `uint(strconv.Atoi(raw))`, or the parse error. */
  function ParseId(raw: string): (r: Result<nat>)
    ensures Strconv.Atoi(raw).Err? ==> r == Err(Strconv.Atoi(raw).error)
    ensures Strconv.Atoi(raw).Ok? ==> r.Ok? && r.value < Strconv.TwoTo64
    ensures Strconv.Atoi(raw).Ok? && Strconv.Atoi(raw).value >= 0 ==> r == Ok(Strconv.Atoi(raw).value)
    ensures Strconv.Atoi(raw).Ok? && Strconv.Atoi(raw).value < 0 ==> r == Ok(Strconv.Atoi(raw).value + Strconv.TwoTo64)
  {
    match Strconv.Atoi(raw)
    case Err(e) => Err(e)
    case Ok(i) => Ok(Strconv.ToUint(i))
  }

  /** Every 64-bit integer's decimal spelling is read back as the `uint` it converts
      to: itself when non-negative, wrapped by 2^64 when negative. */
  lemma ParseIdRoundTrip(n: int)
    requires Strconv.MinInt64 <= n <= Strconv.MaxInt64
    ensures n >= 0 ==> ParseId(Strconv.Itoa(n)) == Ok(n)
    ensures n < 0 ==> ParseId(Strconv.Itoa(n)) == Ok(n + Strconv.TwoTo64)
  {
    Strconv.ItoaRoundTrip(n);
  }

  /** "-1" is accepted and becomes the largest `uint`. */
  lemma NegativeIdWraps()
    ensures ParseId("-1") == Ok(Strconv.TwoTo64 - 1)
  {
    Strconv.AtoiNegated("1");
  }

  /** The user id local, then the body, then validation, then `service`; a refusal
      leaves the store untouched. Success is a 200, not a 201. */
  function CreateWith(deps: Deps, db: Db, userId: Option<nat>, body: Result<CreateBookRequest>,
                      service: (Models.Stamp, Db, CreateBookRequest, nat) -> Step<BookResponse>): (o: Outcome)
    ensures Coherent(o.response)
    ensures userId.None? ==> o == Outcome(BadRequest(MissingUserId), db)
    ensures userId.Some? && body.Err? ==> o == Outcome(BadRequest(body.error), db)
    ensures userId.Some? && body.Ok? && !CreateBookValid(body.value) ==>
      o == Outcome(ValidationFailed(ValidationFailedMessage, Validator.ValidateStruct(CreateBookFields(body.value), deps.isEmail)), db)
    ensures userId.Some? && body.Ok? && CreateBookValid(body.value) ==>
      var s := service(deps.now, db, body.value, userId.value);
      && o.db == s.db
      && (s.result.Err? ==> o.response == BadRequest(s.result.error))
      && (s.result.Ok? ==> o.response == Success("Success create book", BookData(s.result.value)))
  {
    match userId
    case None => Outcome(BadRequest(MissingUserId), db)
    case Some(uid) =>
      match body
      case Err(e) => Outcome(BadRequest(e), db)
      case Ok(req) =>
        var errors := Validator.ValidateStruct(CreateBookFields(req), deps.isEmail);
        CreateBookTagsMeanValid(req, deps.isEmail);
        if errors != [] then Outcome(ValidationFailed(ValidationFailedMessage, errors), db)
        else
          var s := service(deps.now, db, req, uid);
          match s.result
          case Err(e) => Outcome(BadRequest(e), s.db)
          case Ok(b) => Outcome(Success("Success create book", BookData(b)), s.db)
  }

  /** The endpoint as written: a valid request reaches the service's create as
      written, which reloads the new book by its owner's id. */
  function Create(deps: Deps, db: Db, userId: Option<nat>, body: Result<CreateBookRequest>): (o: Outcome)
    ensures Coherent(o.response)
    ensures userId.None? ==> o == Outcome(BadRequest(MissingUserId), db)
    ensures userId.Some? && body.Err? ==> o == Outcome(BadRequest(body.error), db)
    ensures userId.Some? && body.Ok? && !CreateBookValid(body.value) ==>
      o == Outcome(ValidationFailed(ValidationFailedMessage, Validator.ValidateStruct(CreateBookFields(body.value), deps.isEmail)), db)
    ensures userId.Some? && body.Ok? && CreateBookValid(body.value) ==>
      var s := BookService.CreateAsWritten(deps.now, db, body.value, userId.value);
      && o.db == s.db
      && (s.result.Err? ==> o.response == BadRequest(s.result.error))
      && (s.result.Ok? ==> o.response == Success("Success create book", BookData(s.result.value)))
  {
    CreateWith(deps, db, userId, body, BookService.CreateAsWritten)
  }

  /** The endpoint over the corrected service create: in a well-formed store a valid
      request from a user with a row is answered with the book it stored. */
  function CreateIntended(deps: Deps, db: Db, userId: Option<nat>, body: Result<CreateBookRequest>): (o: Outcome)
    ensures Coherent(o.response)
    ensures userId.None? ==> o == Outcome(BadRequest(MissingUserId), db)
    ensures userId.Some? && body.Err? ==> o == Outcome(BadRequest(body.error), db)
    ensures userId.Some? && body.Ok? && !CreateBookValid(body.value) ==>
      o == Outcome(ValidationFailed(ValidationFailedMessage, Validator.ValidateStruct(CreateBookFields(body.value), deps.isEmail)), db)
    ensures userId.Some? && body.Ok? && CreateBookValid(body.value) ==>
      var s := BookService.Create(deps.now, db, body.value, userId.value);
      && o.db == s.db
      && (s.result.Err? ==> o.response == BadRequest(s.result.error))
      && (s.result.Ok? ==> o.response == Success("Success create book", BookData(s.result.value)))
  {
    CreateWith(deps, db, userId, body, BookService.Create)
  }

  /** On seven users and no books, user 7 posting a valid book is answered 400
      "could not get book" although the book is stored as book 1; the corrected
      endpoint answers 200 with that book on the same store. */
  lemma CreateAnswersCouldNotGetBook(deps: Deps)
    ensures var db := BookService.SevenReaders();
      var req := CreateBookRequest("T", "A", "");
      var o := Create(deps, db, Some(7), Ok(req));
      && o.response == BadRequest(BookService.CouldNotGetBook)
      && |o.db.books| == 1 && o.db.books[0].title == "T" && o.db.books[0].userId == 7
      && CreateIntended(deps, db, Some(7), Ok(req)).db == o.db
      && CreateIntended(deps, db, Some(7), Ok(req)).response.status == StatusOK
  {
    var db := BookService.SevenReaders();
    var req := CreateBookRequest("T", "A", "");
    assert CreateBookValid(req);
    BookService.CreateAsWrittenFailsExample();
    BookService.CreateAsWrittenFailsAfterInsert(deps.now, db, req, 7);
  }

  function GetById(db: Db, raw: string): (r: HttpResponse)
    ensures Coherent(r)
    ensures ParseId(raw).Err? ==> r == BadRequest(InvalidId)
    ensures ParseId(raw).Ok? ==>
      match BookService.GetById(db, ParseId(raw).value)
      case Err(e) => r == BadRequest(e)
      case Ok(b) => r == Success("Success get book", BookData(b))
  {
    match ParseId(raw)
    case Err(_) => BadRequest(InvalidId)
    case Ok(id) =>
      match BookService.GetById(db, id)
      case Err(e) => BadRequest(e)
      case Ok(b) => Success("Success get book", BookData(b))
  }

  /** page and size default to "1" and "10" when absent; a non-numeric value is a 400
      with the parse error; any number, however small, is passed on. */
  function ListParams(q: map<string, string>): (r: Result<PaginationParams>)
    ensures Strconv.Atoi(QueryValue(q, "page", "1")).Err? ==> r == Err(Strconv.Atoi(QueryValue(q, "page", "1")).error)
    ensures Strconv.Atoi(QueryValue(q, "page", "1")).Ok? && Strconv.Atoi(QueryValue(q, "size", "10")).Err? ==>
      r == Err(Strconv.Atoi(QueryValue(q, "size", "10")).error)
    ensures r.Ok? <==> Strconv.Atoi(QueryValue(q, "page", "1")).Ok? && Strconv.Atoi(QueryValue(q, "size", "10")).Ok?
    ensures r.Ok? ==>
      && r.value.page == Strconv.Atoi(QueryValue(q, "page", "1")).value
      && r.value.size == Strconv.Atoi(QueryValue(q, "size", "10")).value
      && r.value.sort == QueryValue(q, "sort", "")
      && r.value.order == QueryValue(q, "order", "")
      && r.value.search == QueryValue(q, "search", "")
  {
    match Strconv.Atoi(QueryValue(q, "page", "1"))
    case Err(e) => Err(e)
    case Ok(page) =>
      match Strconv.Atoi(QueryValue(q, "size", "10"))
      case Err(e) => Err(e)
      case Ok(size) =>
        Ok(PaginationParams(page, size, QueryValue(q, "sort", ""), QueryValue(q, "order", ""), QueryValue(q, "search", "")))
  }

  /** A query spelling out every parameter, with 64-bit page and size, is read back
      exactly; empty sort, order and search strings read as absent ones. */
  lemma ListParamsRoundTrip(page: int, size: int, sort: string, order: string, search: string)
    requires Strconv.MinInt64 <= page <= Strconv.MaxInt64 && Strconv.MinInt64 <= size <= Strconv.MaxInt64
    ensures ListParams(map["page" := Strconv.Itoa(page), "size" := Strconv.Itoa(size),
                           "sort" := sort, "order" := order, "search" := search])
      == Ok(PaginationParams(page, size, sort, order, search))
  {
    var q := map["page" := Strconv.Itoa(page), "size" := Strconv.Itoa(size),
                 "sort" := sort, "order" := order, "search" := search];
    assert QueryValue(q, "page", "1") == Strconv.Itoa(page) by {
      assert "page" != "size" && "page" != "sort" && "page" != "order" && "page" != "search";
    }
    assert QueryValue(q, "size", "10") == Strconv.Itoa(size) by {
      assert "size" != "sort" && "size" != "order" && "size" != "search";
    }
    assert QueryValue(q, "sort", "") == sort by {
      assert "sort" != "order" && "sort" != "search";
    }
    assert QueryValue(q, "order", "") == order by {
      assert "order" != "search";
    }
    assert QueryValue(q, "search", "") == search;
    Strconv.ItoaRoundTrip(page);
    Strconv.ItoaRoundTrip(size);
  }

  /** An absent query lists page 1 of size 10. */
  lemma ListParamsDefaults()
    ensures ListParams(map[]) == Ok(PaginationParams(1, 10, "", "", ""))
  {
    assert QueryValue(map[], "page", "1") == Strconv.Itoa(1);
    assert QueryValue(map[], "size", "10") == Strconv.Itoa(10) by {
      assert Strconv.NatDigits(10) == "10";
    }
    Strconv.ItoaRoundTrip(1);
    Strconv.ItoaRoundTrip(10);
  }

  /** A negative page is not clamped. */
  lemma ListParamsNegativePage()
    ensures ListParams(map["page" := "-2"]).Ok? && ListParams(map["page" := "-2"]).value.page == -2
  {
    var q := map["page" := "-2"];
    assert QueryValue(q, "page", "1") == "-2";
    assert QueryValue(q, "size", "10") == Strconv.Itoa(10) by {
      assert "size" != "page";
      assert Strconv.NatDigits(10) == "10";
    }
    Strconv.AtoiNegated("2");
    Strconv.ItoaRoundTrip(10);
  }

  method GetAll(list: BookService.BookQuery, q: map<string, string>) returns (r: HttpResponse)
    ensures Coherent(r)
    ensures ListParams(q).Err? ==> r == BadRequest(ListParams(q).error)
    ensures ListParams(q).Ok? && list(WithDefaults(ListParams(q).value)).Err? ==>
      r == BadRequest(list(WithDefaults(ListParams(q).value)).error)
    ensures ListParams(q).Ok? && list(WithDefaults(ListParams(q).value)).Ok? ==>
      var p := WithDefaults(ListParams(q).value);
      var (rows, total) := list(p).value;
      && r == Paginated("Books retrieved successfully", r.body.data, CalculatePagination(p.page, p.size, total))
      && r.body.data.BookList?
      && |r.body.data.books| == |rows|
      && forall i :: 0 <= i < |rows| ==> r.body.data.books[i] == BookToResponse(rows[i])
  {
    match ListParams(q)
    case Err(e) => r := BadRequest(e);
    case Ok(params) =>
      var page := BookService.GetAll(list, params);
      match page
      case Err(e) => r := BadRequest(e);
      case Ok(p) => r := Paginated("Books retrieved successfully", BookList(p.books), p.pagination);
  }

  /** Id (with the parse error's text), then body, then validation, then the service. */
  function Update(deps: Deps, db: Db, raw: string, body: Result<UpdateBookRequest>): (o: Outcome)
    ensures Coherent(o.response)
    ensures ParseId(raw).Err? ==> o == Outcome(BadRequest(ParseId(raw).error), db)
    ensures ParseId(raw).Ok? && body.Err? ==> o == Outcome(BadRequest(body.error), db)
    ensures ParseId(raw).Ok? && body.Ok? && !UpdateBookValid(body.value) ==>
      o == Outcome(ValidationFailed(ValidationFailedMessage, Validator.ValidateStruct(UpdateBookFields(body.value), deps.isEmail)), db)
    ensures ParseId(raw).Ok? && body.Ok? && UpdateBookValid(body.value) ==>
      var s := BookService.Update(deps.now, db, ParseId(raw).value, body.value);
      && o.db == s.db
      && (s.result.Err? ==> o.response == BadRequest(s.result.error))
      && (s.result.Ok? ==> o.response == Success("Success update book", BookData(s.result.value)))
  {
    match ParseId(raw)
    case Err(e) => Outcome(BadRequest(e), db)
    case Ok(id) =>
      match body
      case Err(e) => Outcome(BadRequest(e), db)
      case Ok(req) =>
        var errors := Validator.ValidateStruct(UpdateBookFields(req), deps.isEmail);
        UpdateBookTagsMeanValid(req, deps.isEmail);
        if errors != [] then Outcome(ValidationFailed(ValidationFailedMessage, errors), db)
        else
          var s := BookService.Update(deps.now, db, id, req);
          match s.result
          case Err(e) => Outcome(BadRequest(e), s.db)
          case Ok(b) => Outcome(Success("Success update book", BookData(b)), s.db)
  }

  /** A successful delete answers with the deleted id. */
  function Delete(db: Db, raw: string): (o: Outcome)
    ensures Coherent(o.response)
    ensures ParseId(raw).Err? ==> o == Outcome(BadRequest(ParseId(raw).error), db)
    ensures ParseId(raw).Ok? ==>
      var s := BookService.Delete(db, ParseId(raw).value);
      && o.db == s.db
      && (s.result.Err? ==> o.response == BadRequest(s.result.error))
      && (s.result.Ok? ==> o.response == Success("Success delete book", IdData(ParseId(raw).value)))
  {
    match ParseId(raw)
    case Err(e) => Outcome(BadRequest(e), db)
    case Ok(id) =>
      var s := BookService.Delete(db, id);
      match s.result
      case Err(e) => Outcome(BadRequest(e), s.db)
      case Ok(_) => Outcome(Success("Success delete book", IdData(id)), s.db)
  }
}
