/** internal/handlers/user_handler.go: query and path normalisation and the
    pipelines of the user-management endpoints. */
module UserHandler {
  import opened Wrappers
  import opened Schemas
  import opened Store
  import opened Response
  import opened Collaborators
  import opened Paging
  import opened Web
  import Strconv
  import Validator
  import UserService

  const InvalidId: string := "Invalid ID"
  const ValidationFailedMessage: string := "Validation failed"

  /** `page`: a missing, non-numeric or non-positive value becomes 1. */
  function PageNumber(q: map<string, string>): (page: int)
    ensures page >= 1
    ensures var v := Strconv.Atoi(QueryValue(q, "page", "1"));
      page == (if v.Ok? && v.value >= 1 then v.value else 1)
  {
    match Strconv.Atoi(QueryValue(q, "page", "1"))
    case Ok(v) => if v < 1 then 1 else v
    case Err(_) => 1
  }

  /** `size`: a missing, non-numeric or non-positive value becomes 10; there is no
      upper bound. */
  function PageSize(q: map<string, string>): (size: int)
    ensures size >= 1
    ensures var v := Strconv.Atoi(QueryValue(q, "size", "10"));
      size == (if v.Ok? && v.value >= 1 then v.value else 10)
  {
    match Strconv.Atoi(QueryValue(q, "size", "10"))
    case Ok(v) => if v < 1 then 10 else v
    case Err(_) => 10
  }

  function ListParams(q: map<string, string>): (p: PaginationParams)
    ensures p.page >= 1 && p.size >= 1
  {
    PaginationParams(PageNumber(q), PageSize(q), QueryValue(q, "sort", ""), QueryValue(q, "order", ""), QueryValue(q, "search", ""))
  }

  /** Whatever the query, the listing is asked for a positive page and size, which
      defaulting then leaves unchanged. */
  lemma ListParamsAlwaysPositive(q: map<string, string>)
    ensures var p := ListParams(q);
      WithDefaults(p).page == p.page && WithDefaults(p).size == p.size
  {
  }

  /** A negative, zero or non-numeric value falls back to the default. */
  lemma ListParamsFallBack()
    ensures PageNumber(map["page" := "-4"]) == 1
    ensures PageNumber(map["page" := "x"]) == 1
    ensures PageSize(map["size" := "0"]) == 10
  {
    Strconv.AtoiNegated("4");
    assert !Strconv.IsDigit("x"[0]);
  }

  /** A query spelling out a positive 64-bit page and size is read back exactly. */
  lemma ListParamsRoundTrip(page: int, size: int)
    requires 1 <= page <= Strconv.MaxInt64 && 1 <= size <= Strconv.MaxInt64
    ensures ListParams(map["page" := Strconv.Itoa(page), "size" := Strconv.Itoa(size)])
      == PaginationParams(page, size, "", "", "")
  {
    var q := map["page" := Strconv.Itoa(page), "size" := Strconv.Itoa(size)];
    assert QueryValue(q, "page", "1") == Strconv.Itoa(page) by {
      assert "page" != "size";
    }
    assert QueryValue(q, "size", "10") == Strconv.Itoa(size);
    assert QueryValue(q, "sort", "") == "" && QueryValue(q, "order", "") == "" && QueryValue(q, "search", "") == "" by {
      assert "sort" != "page" && "sort" != "size" && "order" != "page" && "order" != "size";
      assert "search" != "page" && "search" != "size";
    }
    Strconv.ItoaRoundTrip(page);
    Strconv.ItoaRoundTrip(size);
  }

  /** The `:id` segment: a positive integer, otherwise "Invalid ID". */
  function ParseId(raw: string): (id: Option<nat>)
    ensures id.Some? <==> Strconv.Atoi(raw).Ok? && Strconv.Atoi(raw).value > 0
    ensures id.Some? ==> id.value == Strconv.Atoi(raw).value
  {
    match Strconv.Atoi(raw)
    case Ok(i) => if i <= 0 then None else Some(Strconv.ToUint(i))
    case Err(_) => None
  }

  /** Every positive 64-bit id is read back from its decimal spelling. */
  lemma ParseIdRoundTrip(id: int)
    requires 1 <= id <= Strconv.MaxInt64
    ensures ParseId(Strconv.Itoa(id)) == Some(id)
  {
    Strconv.ItoaRoundTrip(id);
  }

  method GetAll(list: UserService.UserQuery, q: map<string, string>) returns (r: HttpResponse)
    ensures Coherent(r)
    ensures list(WithDefaults(ListParams(q))).Err? ==> r == BadRequest(list(WithDefaults(ListParams(q))).error)
    ensures list(WithDefaults(ListParams(q))).Ok? ==>
      var p := ListParams(q);
      var (rows, total) := list(WithDefaults(p)).value;
      && r == Paginated("Users rerieved successfully", r.body.data, CalculatePagination(p.page, p.size, total))
      && (r.body.data == Null <==> |rows| == 0)
      && (|rows| > 0 ==>
            && r.body.data.UserList?
            && |r.body.data.users| == |rows|
            && forall i :: 0 <= i < |rows| ==> r.body.data.users[i] == UserToResponse(rows[i]))
  {
    ListParamsAlwaysPositive(q);
    var page := UserService.GetAll(list, ListParams(q));
    match page
    case Err(e) => r := BadRequest(e);
    case Ok(p) =>
      var data := if p.users.None? then Null else UserList(p.users.value);
      r := Paginated("Users rerieved successfully", data, p.pagination);
  }

  function GetByID(db: Db, raw: string): (r: HttpResponse)
    ensures Coherent(r)
    ensures ParseId(raw).None? ==> r == BadRequest(InvalidId)
    ensures ParseId(raw).Some? ==>
      match UserService.GetByID(db, ParseId(raw).value)
      case Err(e) => r == BadRequest(e)
      case Ok(u) => r == Success("User retrieved successfully", UserData(u))
  {
    match ParseId(raw)
    case None => BadRequest(InvalidId)
    case Some(id) =>
      match UserService.GetByID(db, id)
      case Err(e) => BadRequest(e)
      case Ok(u) => Success("User retrieved successfully", UserData(u))
  }

  /** Id, then body, then validation, then the service; each refusal leaves the store
      untouched. */
  function Update(deps: Deps, db: Db, raw: string, body: Result<UpdateUserRequest>): (o: Outcome)
    ensures Coherent(o.response)
    ensures ParseId(raw).None? ==> o == Outcome(BadRequest(InvalidId), db)
    ensures ParseId(raw).Some? && body.Err? ==> o == Outcome(BadRequest(body.error), db)
    ensures ParseId(raw).Some? && body.Ok? && !UpdateUserValid(body.value, deps.isEmail) ==>
      o == Outcome(ValidationFailed(ValidationFailedMessage, Validator.ValidateStruct(UpdateUserFields(body.value), deps.isEmail)), db)
    ensures ParseId(raw).Some? && body.Ok? && UpdateUserValid(body.value, deps.isEmail) ==>
      var s := UserService.Update(deps, db, ParseId(raw).value, body.value);
      && o.db == s.db
      && (s.result.Err? ==> o.response == BadRequest(s.result.error))
      && (s.result.Ok? ==> o.response == Success("User updated successfully", UserData(s.result.value)))
    ensures o.db != db ==> o.response.status == StatusOK
  {
    match ParseId(raw)
    case None => Outcome(BadRequest(InvalidId), db)
    case Some(id) =>
      match body
      case Err(e) => Outcome(BadRequest(e), db)
      case Ok(req) =>
        var errors := Validator.ValidateStruct(UpdateUserFields(req), deps.isEmail);
        UpdateUserTagsMeanValid(req, deps.isEmail);
        if errors != [] then Outcome(ValidationFailed(ValidationFailedMessage, errors), db)
        else
          var s := UserService.Update(deps, db, id, req);
          match s.result
          case Err(e) => Outcome(BadRequest(e), s.db)
          case Ok(u) => Outcome(Success("User updated successfully", UserData(u)), s.db)
  }

  function Delete(db: Db, raw: string): (o: Outcome)
    ensures Coherent(o.response)
    ensures ParseId(raw).None? ==> o == Outcome(BadRequest(InvalidId), db)
    ensures ParseId(raw).Some? ==>
      var s := UserService.Delete(db, ParseId(raw).value);
      && o.db == s.db
      && (s.result.Err? ==> o.response == BadRequest(s.result.error))
      && (s.result.Ok? ==> o.response == Success("User deleted successfully", Null))
  {
    match ParseId(raw)
    case None => Outcome(BadRequest(InvalidId), db)
    case Some(id) =>
      var s := UserService.Delete(db, id);
      match s.result
      case Err(e) => Outcome(BadRequest(e), s.db)
      case Ok(_) => Outcome(Success("User deleted successfully", Null), s.db)
  }
}
