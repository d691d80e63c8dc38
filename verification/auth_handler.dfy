/** internal/handlers/auth_handler.go: the register, login and profile endpoints.
    A request body arrives already decoded, or as the decoder's error. */
module AuthHandler {
  import opened Wrappers
  import opened Schemas
  import opened Store
  import opened Response
  import opened Collaborators
  import opened Web
  import Tags
  import Validator
  import AuthService
  import Middleware
  import Roles

  const InvalidBody: string := "Invalid request body"
  const ValidationFailedMessage: string := "Validation failed"
  const MissingUserId: string := "User ID not found in context"

  /** Body, then validation, then the service: each stage short-circuits with the
      store untouched. A service error is a 400 carrying its text; success is 201. */
  function Register(deps: Deps, db: Db, body: Result<RegisterRequest>): (o: Outcome)
    ensures Coherent(o.response)
    ensures body.Err? ==> o == Outcome(BadRequest(InvalidBody), db)
    ensures body.Ok? && !RegisterValid(body.value, deps.isEmail) ==>
      var details := Validator.ValidateStruct(RegisterFields(body.value), deps.isEmail);
      o == Outcome(ValidationFailed(ValidationFailedMessage, details), db) && |details| > 0
    ensures body.Ok? && RegisterValid(body.value, deps.isEmail) ==>
      var s := AuthService.Register(deps, db, body.value);
      && o.db == s.db
      && (s.result.Err? ==> o.response == BadRequest(s.result.error))
      && (s.result.Ok? ==> o.response == Created("User registered successfully", AuthData(s.result.value)))
    ensures o.response.status == StatusCreated <==>
      body.Ok? && RegisterValid(body.value, deps.isEmail) && AuthService.Register(deps, db, body.value).result.Ok?
  {
    match body
    case Err(_) => Outcome(BadRequest(InvalidBody), db)
    case Ok(req) =>
      var errors := Validator.ValidateStruct(RegisterFields(req), deps.isEmail);
      RegisterTagsMeanValid(req, deps.isEmail);
      if errors != [] then Outcome(ValidationFailed(ValidationFailedMessage, errors), db)
      else
        var s := AuthService.Register(deps, db, req);
        match s.result
        case Err(e) => Outcome(BadRequest(e), s.db)
        case Ok(auth) => Outcome(Created("User registered successfully", AuthData(auth)), s.db)
  }

  /** Same pipeline; login never writes, and success is 200. */
  function Login(deps: Deps, db: Db, body: Result<LoginRequest>): (r: HttpResponse)
    ensures Coherent(r)
    ensures body.Err? ==> r == BadRequest(InvalidBody)
    ensures body.Ok? && !LoginValid(body.value, deps.isEmail) ==>
      r == ValidationFailed(ValidationFailedMessage, Validator.ValidateStruct(LoginFields(body.value), deps.isEmail))
    ensures body.Ok? && LoginValid(body.value, deps.isEmail) ==>
      match AuthService.Login(deps, db, body.value)
      case Err(e) => r == BadRequest(e)
      case Ok(auth) => r == Success("User logged in successfully", AuthData(auth))
  {
    match body
    case Err(_) => BadRequest(InvalidBody)
    case Ok(req) =>
      var errors := Validator.ValidateStruct(LoginFields(req), deps.isEmail);
      LoginTagsMeanValid(req, deps.isEmail);
      if errors != [] then ValidationFailed(ValidationFailedMessage, errors)
      else
        match AuthService.Login(deps, db, req)
        case Err(e) => BadRequest(e)
        case Ok(auth) => Success("User logged in successfully", AuthData(auth))
  }

  /** `userId` is the `user_id` local when it holds a `uint`, `None` otherwise. */
  function GetProfile(db: Db, userId: Option<nat>): (r: HttpResponse)
    ensures Coherent(r)
    ensures userId.None? ==> r == BadRequest(MissingUserId)
    ensures userId.Some? ==>
      match AuthService.GetProfile(db, userId.value)
      case Err(e) => r == BadRequest(e)
      case Ok(u) => r == Success("Profile retrieved successfully", UserData(u))
  {
    match userId
    case None => BadRequest(MissingUserId)
    case Some(id) =>
      match AuthService.GetProfile(db, id)
      case Err(e) => BadRequest(e)
      case Ok(u) => Success("Profile retrieved successfully", UserData(u))
  }

  /** The profile route behind the gate, reading `user_id` from the admitted locals. */
  function ProtectedProfile(deps: Deps, db: Db, header: string): HttpResponse {
    Middleware.Guard(deps, header, (l: Middleware.Locals) => GetProfile(db, Some(l.userId)))
  }

  /** Assumption: a token the issuer minted validates, with the subject it was minted for. */
  ghost predicate TokensValidate(d: Deps) {
    forall id, e, p, t :: d.generateToken(id, e, p, d.secret) == Ok(t) ==>
      d.validateToken(t, d.secret).Ok? && d.validateToken(t, d.secret).value.userId == id
  }

  /** End to end: a successful registration returns 201 with role USER, and presenting
      its token as "Bearer <token>" on the profile route returns that same identity. */
  lemma RegisterThenProfileWithToken(deps: Deps, db: Db, req: RegisterRequest)
    requires Wf(db) && TokensValidate(deps)
    requires Register(deps, db, Ok(req)).response.status == StatusCreated
    ensures var o := Register(deps, db, Ok(req));
      var auth := AuthService.Register(deps, db, req).result.value;
      && auth.user.role == Roles.RoleUser
      && ProtectedProfile(deps, o.db, Middleware.BearerMark + auth.token)
         == Success("Profile retrieved successfully", UserData(auth.user))
  {
    var s := AuthService.Register(deps, db, req);
    var auth := s.result.value;
    var u := s.db.users[|s.db.users| - 1];
    Middleware.ExtractFromBearerHeader(auth.token);
    assert deps.generateToken(u.id, u.email, u.password, deps.secret) == Ok(auth.token);
  }
}
