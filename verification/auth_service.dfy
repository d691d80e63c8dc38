/** internal/services/auth_service.go: registration, login and profile lookup over
    the abstract user table. */
module AuthService {
  import opened Wrappers
  import opened Models
  import opened Schemas
  import opened Store
  import opened Collaborators
  import Roles

  const EmailInUse: string := "email already in use"
  const CouldNotHash: string := "could not hash password"
  const CouldNotCreateUser: string := "could not create user"
  const CouldNotGenerateToken: string := "could not generate token"
  const CouldNotFindUser: string := "could not find user"
  const InvalidPassword: string := "invalid password"

  /** The row `Register` asks the store to insert. */
  function NewUser(req: RegisterRequest, digest: string): User {
    User(0, req.email, req.username, digest, Roles.RoleUser, 0, 0, false)
  }

  /** An email held by a live user is refused with the store untouched; otherwise the
      password is hashed, exactly one row is appended (email, username as name, the
      digest, role USER), and a token is minted from that row. Each failing stage has
      its own text; only a token failure leaves the new row behind. Registration
      succeeds exactly when the store is reachable and accepts writes, no row (not even a deleted one)
      holds the email, the password hashes and a token can be minted for the new row. */
  function Register(deps: Deps, db: Db, req: RegisterRequest): (s: Step<AuthResponse>)
    ensures FindUserByEmail(db, req.email).Ok? ==> s == Step(Err(EmailInUse), db)
    ensures FindUserByEmail(db, req.email).Err? && deps.hashPassword(req.password).Err? ==>
      s == Step(Err(CouldNotHash), db)
    ensures FindUserByEmail(db, req.email).Err? && deps.hashPassword(req.password).Ok? ==>
      var ins := InsertUser(db, NewUser(req, deps.hashPassword(req.password).value), deps.now);
      && (ins.Err? ==> s == Step(Err(CouldNotCreateUser), db))
      && (ins.Ok? ==>
            var u := ins.value.0;
            match deps.generateToken(u.id, u.email, u.password, deps.secret)
            case Err(_) => s == Step(Err(CouldNotGenerateToken), ins.value.1)
            case Ok(token) => s == Step(Ok(AuthResponse(token, UserToResponse(u))), ins.value.1))
    ensures s.result.Ok? <==>
      && db.fault.None? && db.writeFault.None?
      && !EmailHeldByOther(db.users, req.email, 0)
      && deps.hashPassword(req.password).Ok?
      && deps.generateToken(|db.users| + 1, req.email, deps.hashPassword(req.password).value, deps.secret).Ok?
    ensures s.result.Err? && s.result.error != CouldNotGenerateToken ==> s.db == db
    ensures s.db != db ==>
      && deps.hashPassword(req.password).Ok?
      && |s.db.users| == |db.users| + 1
      && var u := s.db.users[|s.db.users| - 1];
      && s.db == db.(users := db.users + [u])
      && u.id == |db.users| + 1 && !u.deleted
      && u.email == req.email && u.name == req.username && u.role == Roles.RoleUser
      && deps.hashPassword(req.password) == Ok(u.password)
      && (s.result.Ok? ==>
            && s.result.value.user == UserToResponse(u)
            && deps.generateToken(u.id, u.email, u.password, deps.secret) == Ok(s.result.value.token))
    ensures s.result.Ok? ==> s.db != db
    ensures Wf(db) ==> Wf(s.db)
  {
    if FindUserByEmail(db, req.email).Ok? then Step(Err(EmailInUse), db)
    else
      match deps.hashPassword(req.password)
      case Err(_) => Step(Err(CouldNotHash), db)
      case Ok(digest) =>
        match InsertUser(db, NewUser(req, digest), deps.now)
        case Err(_) => Step(Err(CouldNotCreateUser), db)
        case Ok((u, db')) =>
          assert db'.users[|db'.users| - 1] == u;
          match deps.generateToken(u.id, u.email, u.password, deps.secret)
          case Err(_) => Step(Err(CouldNotGenerateToken), db')
          case Ok(token) => Step(Ok(AuthResponse(token, UserToResponse(u))), db')
  }

  /** Login reads the store and never writes it (its result carries no store). An
      unknown email, a wrong password and a token failure are reported differently;
      otherwise the answer is the minted token with the user's public view. */
  function Login(deps: Deps, db: Db, req: LoginRequest): (r: Result<AuthResponse>)
    ensures FindUserByEmail(db, req.email).Err? ==> r == Err(CouldNotFindUser)
    ensures FindUserByEmail(db, req.email).Ok? ==>
      var u := FindUserByEmail(db, req.email).value;
      && (!deps.checkPassword(req.password, u.password) ==> r == Err(InvalidPassword))
      && (deps.checkPassword(req.password, u.password) ==>
            match deps.generateToken(u.id, u.email, u.password, deps.secret)
            case Err(_) => r == Err(CouldNotGenerateToken)
            case Ok(token) => r == Ok(AuthResponse(token, UserToResponse(u))))
      && (r.Ok? ==>
            && deps.checkPassword(req.password, u.password)
            && r.value.user == UserToResponse(u)
            && deps.generateToken(u.id, u.email, u.password, deps.secret) == Ok(r.value.token))
    ensures r.Ok? ==> exists u :: u in db.users && !u.deleted && u.email == req.email && r.value.user == UserToResponse(u)
  {
    match FindUserByEmail(db, req.email)
    case Err(_) => Err(CouldNotFindUser)
    case Ok(u) =>
      if !deps.checkPassword(req.password, u.password) then Err(InvalidPassword)
      else
        match deps.generateToken(u.id, u.email, u.password, deps.secret)
        case Err(_) => Err(CouldNotGenerateToken)
        case Ok(token) => Ok(AuthResponse(token, UserToResponse(u)))
  }

  /** The public view of the live user with this id. */
  function GetProfile(db: Db, id: nat): (r: Result<UserResponse>)
    ensures r.Ok? <==> FindUserById(db, id).Ok?
    ensures r.Ok? ==> r.value == UserToResponse(FindUserById(db, id).value)
    ensures r.Err? ==> r.error == CouldNotFindUser
  {
    match FindUserById(db, id)
    case Err(_) => Err(CouldNotFindUser)
    case Ok(u) => Ok(UserToResponse(u))
  }

  /** A registered user can log in with the same password (given that a password
      checks against its own digest), sees the identity registration returned, and
      gets the token the issuer mints for the new row. */
  lemma RegisterThenLogin(deps: Deps, db: Db, req: RegisterRequest)
    requires Wf(db) && HashChecks(deps)
    requires Register(deps, db, req).result.Ok?
    ensures var s := Register(deps, db, req);
      var u := s.db.users[|s.db.users| - 1];
      var r := Login(deps, s.db, LoginRequest(req.email, req.password));
      && r.Ok?
      && r.value.user == s.result.value.user
      && deps.generateToken(u.id, u.email, u.password, deps.secret) == Ok(r.value.token)
  {
    var s := Register(deps, db, req);
    var u := s.db.users[|s.db.users| - 1];
    assert FindUserByEmail(db, req.email).Err?;
    assert forall i :: 0 <= i < |db.users| ==> db.users[i].email != req.email || db.users[i].deleted;
    assert FindUserByEmail(s.db, req.email) == Ok(u) by {
      assert forall i :: 0 <= i < |db.users| ==> s.db.users[i] == db.users[i];
    }
  }

  /** Registering an email twice: the second attempt is refused and changes nothing. */
  lemma RegisterTwiceRefused(deps: Deps, db: Db, req: RegisterRequest, again: RegisterRequest)
    requires Register(deps, db, req).result.Ok? && again.email == req.email
    ensures var s := Register(deps, db, req);
      Register(deps, s.db, again) == Step(Err(EmailInUse), s.db)
  {
    var s := Register(deps, db, req);
    assert FindUserByEmail(s.db, req.email).Ok? by {
      assert s.db.users[|s.db.users| - 1].email == req.email;
    }
  }

  /** The profile of a freshly registered user is the identity registration returned,
      and its role is USER. */
  lemma RegisterThenProfile(deps: Deps, db: Db, req: RegisterRequest)
    requires Wf(db) && Register(deps, db, req).result.Ok?
    ensures var s := Register(deps, db, req);
      && GetProfile(s.db, s.result.value.user.id) == Ok(s.result.value.user)
      && s.result.value.user.role == Roles.RoleUser
  {
  }
}
