/** internal/services/user_service.go: listing, lookup, partial update and soft
    delete of users. */
module UserService {
  import opened Wrappers
  import opened Models
  import opened Schemas
  import opened Store
  import opened Collaborators
  import opened Response
  import opened Paging
  import Roles

  const UserNotFound: string := "User not found"
  const UpdateFailed: string := "user update failed"
  const DeleteFailed: string := "user delete failed"

  /** A listing as the handler receives it. `users` is `None` for Go's nil slice,
      which is what an empty listing produces. */
  datatype UserPage = UserPage(users: Option<seq<UserResponse>>, pagination: Pagination)

  /** The repository's answer to a listing query: a window of rows and the total
      count of matching rows. Search, sort and the SQL window are not modelled. */
  type UserQuery = PaginationParams -> Result<(seq<User>, nat)>

  /** The Go loop that appends one response per row. */
  method ToResponses(rows: seq<User>) returns (out: Option<seq<UserResponse>>)
    ensures |rows| == 0 <==> out.None?
    ensures out.Some? ==> |out.value| == |rows| && forall i :: 0 <= i < |rows| ==> out.value[i] == UserToResponse(rows[i])
  {
    out := None;
    var i := 0;
    while i < |rows|
      invariant 0 <= i <= |rows|
      invariant i == 0 <==> out.None?
      invariant out.Some? ==> |out.value| == i && forall k :: 0 <= k < i ==> out.value[k] == UserToResponse(rows[k])
    {
      var acc := if out.None? then [] else out.value;
      out := Some(acc + [UserToResponse(rows[i])]);
      i := i + 1;
    }
  }

  /** The repository is queried with the defaulted parameters; on success each row
      becomes one response, in order, and the metadata comes from the defaulted page
      and size and the repository's total. */
  method GetAll(query: UserQuery, params: PaginationParams) returns (r: Result<UserPage>)
    ensures query(WithDefaults(params)).Err? ==> r == Err(query(WithDefaults(params)).error)
    ensures query(WithDefaults(params)).Ok? ==>
      var (rows, total) := query(WithDefaults(params)).value;
      var q := WithDefaults(params);
      && r.Ok?
      && r.value.pagination == CalculatePagination(q.page, q.size, total)
      && (r.value.users.None? <==> |rows| == 0)
      && (r.value.users.Some? ==>
            && |r.value.users.value| == |rows|
            && forall i :: 0 <= i < |rows| ==> r.value.users.value[i] == UserToResponse(rows[i]))
  {
    var q := WithDefaults(params);
    match query(q)
    case Err(e) => r := Err(e);
    case Ok((rows, total)) =>
      var users := ToResponses(rows);
      r := Ok(UserPage(users, CalculatePagination(q.page, q.size, total)));
  }

  /** The live user's public view; the repository's error text is passed on. */
  function GetByID(db: Db, id: nat): (r: Result<UserResponse>)
    ensures r.Ok? <==> FindUserById(db, id).Ok?
    ensures r.Ok? ==> r.value == UserToResponse(FindUserById(db, id).value)
    ensures r.Err? ==> r.error == FindUserById(db, id).error
  {
    match FindUserById(db, id)
    case Err(e) => Err(e)
    case Ok(u) => Ok(UserToResponse(u))
  }

  /** "Empty means keep": each non-empty field of the request overwrites its column
      (username writes `name`), a role only when it is a valid one, and the password
      column receives `digest`, computed by the caller from a non-empty password. */
  function Merge(u: User, req: UpdateUserRequest, digest: string): (m: User)
    ensures m.id == u.id && m.createdAt == u.createdAt && m.updatedAt == u.updatedAt && m.deleted == u.deleted
    ensures m.email == (if req.email == "" then u.email else req.email)
    ensures m.name == (if req.username == "" then u.name else req.username)
    ensures m.role == (if req.role != "" && Roles.IsValidRole(req.role) then req.role else u.role)
    ensures m.password == (if req.password == "" then u.password else digest)
  {
    var email := if req.email != "" then req.email else u.email;
    var name := if req.username != "" then req.username else u.name;
    var role := if req.role != "" && Roles.IsValidRole(req.role) then req.role else u.role;
    var password := if req.password != "" then digest else u.password;
    u.(email := email, name := name, role := role, password := password)
  }

  /** An all-empty request changes nothing, an invalid role is ignored rather than
      refused, and merging the same request twice is merging it once. */
  lemma MergeLaws(u: User, req: UpdateUserRequest, digest: string)
    ensures Merge(u, UpdateUserRequest("", "", "", ""), digest) == u
    ensures !Roles.IsValidRole(req.role) ==> Merge(u, req, digest).role == u.role
    ensures Merge(Merge(u, req, digest), req, digest) == Merge(u, req, digest)
  {
  }

  /** A missing user is refused with nothing written; a non-empty password is hashed
      (a hashing error is passed on); the merged record is written, and a failed write
      becomes "user update failed"; the write fails exactly when the store refuses
      writes or another row (deleted or not) holds the merged email. On success the response is the merged record,
      restamped, and it is what the store now holds. */
  function Update(deps: Deps, db: Db, id: nat, req: UpdateUserRequest): (s: Step<UserResponse>)
    ensures FindUserById(db, id).Err? ==> s == Step(Err(UserNotFound), db)
    ensures s.result.Err? ==> s.db == db
    ensures FindUserById(db, id).Ok? && req.password != "" && deps.hashPassword(req.password).Err? ==>
      s == Step(Err(deps.hashPassword(req.password).error), db)
    ensures FindUserById(db, id).Ok? && (req.password == "" || deps.hashPassword(req.password).Ok?) && s.result.Err? ==>
      s.result.error == UpdateFailed
    ensures FindUserById(db, id).Ok? && (req.password == "" || deps.hashPassword(req.password).Ok?) ==>
      var prior := FindUserById(db, id).value;
      var digest := if req.password == "" then prior.password else deps.hashPassword(req.password).value;
      (s.result.Ok? <==> db.writeFault.None? && !EmailHeldByOther(db.users, Merge(prior, req, digest).email, id))
    ensures s.result.Ok? ==>
      && FindUserById(db, id).Ok?
      && var prior := FindUserById(db, id).value;
      && (req.password == "" || deps.hashPassword(req.password).Ok?)
      && var digest := if req.password == "" then prior.password else deps.hashPassword(req.password).value;
      && var saved := Merge(prior, req, digest).(updatedAt := deps.now);
      && s.result.value == UserToResponse(saved)
      && (Wf(db) ==> s.db == db.(users := db.users[id - 1 := saved]))
    ensures Wf(db) ==> Wf(s.db)
  {
    match FindUserById(db, id)
    case Err(_) => Step(Err(UserNotFound), db)
    case Ok(u) =>
      var digest := if req.password == "" then Ok(u.password) else deps.hashPassword(req.password);
      match digest
      case Err(e) => Step(Err(e), db)
      case Ok(d) =>
        match UpdateUser(db, id, Merge(u, req, d), deps.now)
        case Err(_) => Step(Err(UpdateFailed), db)
        case Ok((saved, db')) => Step(Ok(UserToResponse(saved)), db')
  }

  /** Existence is checked first: a missing user is refused without a delete call;
      a found one is soft-deleted unless the store refuses the write, which is
      answered "user delete failed". */
  function Delete(db: Db, id: nat): (s: Step<()>)
    ensures FindUserById(db, id).Err? ==> s == Step(Err(UserNotFound), db)
    ensures FindUserById(db, id).Ok? && db.writeFault.Some? ==> s == Step(Err(DeleteFailed), db)
    ensures s.result.Ok? <==> FindUserById(db, id).Ok? && db.writeFault.None?
    ensures s.result.Err? ==> s.db == db && (s.result.error == UserNotFound || s.result.error == DeleteFailed)
    ensures s.result.Ok? ==> FindUserById(db, id).Ok? && s.db == db.(users := db.users[id - 1 := db.users[id - 1].(deleted := true)])
    ensures Wf(db) ==> Wf(s.db)
  {
    match FindUserById(db, id)
    case Err(_) => Step(Err(UserNotFound), db)
    case Ok(_) =>
      match SoftDeleteUser(db, id)
      case Err(_) => Step(Err(DeleteFailed), db)
      case Ok(db') => Step(Ok(()), db')
  }

  /** Read-your-write: after a successful update, looking the user up returns exactly
      the update's response. */
  lemma UpdateThenGet(deps: Deps, db: Db, id: nat, req: UpdateUserRequest)
    requires Wf(db) && Update(deps, db, id, req).result.Ok?
    ensures var s := Update(deps, db, id, req);
      GetByID(s.db, id) == Ok(s.result.value)
  {
  }

  /** After a successful delete the user is gone for lookups, and deleting again is
      refused as not found. */
  lemma DeleteThenGone(db: Db, id: nat)
    requires Delete(db, id).result.Ok?
    ensures var s := Delete(db, id);
      && GetByID(s.db, id) == Err(RecordNotFound)
      && Delete(s.db, id) == Step(Err(UserNotFound), s.db)
  {
  }
}
