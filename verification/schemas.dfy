/** Request and response shapes of internal/schemas: the tag lists of each request,
    an independent statement of when each request is valid, and the projections
    from stored rows to responses, which never carry the password digest. */
module Schemas {
  import opened Wrappers
  import opened Models
  import opened Tags
  import Roles

  datatype RegisterRequest = RegisterRequest(email: string, username: string, password: string)
  datatype LoginRequest = LoginRequest(email: string, password: string)
  datatype UpdateUserRequest = UpdateUserRequest(email: string, username: string, password: string, role: string)
  datatype CreateBookRequest = CreateBookRequest(title: string, author: string, description: string)
  datatype UpdateBookRequest = UpdateBookRequest(title: string, author: string, description: string)

  /** The public view of a user: no password, no deletion marker. */
  datatype UserResponse = UserResponse(
    id: nat, email: string, name: string, role: string, createdAt: Stamp, updatedAt: Stamp)

  datatype AuthResponse = AuthResponse(token: string, user: UserResponse)

  datatype BookResponse = BookResponse(
    id: nat, title: string, author: string, desc: string, userId: nat,
    user: UserResponse, createdAt: Stamp, updatedAt: Stamp)

  // ---------------------------------------------------------------- tag lists

  function RegisterFields(req: RegisterRequest): seq<Field> {
    [ Field("Email", req.email, [Required, Email]),
      Field("Username", req.username, [Required, Min(2), Max(100)]),
      Field("Password", req.password, [Required, Min(8)]) ]
  }

  function LoginFields(req: LoginRequest): seq<Field> {
    [ Field("Email", req.email, [Required, Email]),
      Field("Password", req.password, [Required, Min(8)]) ]
  }

  function UpdateUserFields(req: UpdateUserRequest): seq<Field> {
    [ Field("Email", req.email, [OmitEmpty, Email]),
      Field("Username", req.username, [OmitEmpty, Min(2)]),
      Field("Password", req.password, [OmitEmpty, Min(8)]),
      Field("Role", req.role, [OmitEmpty, OneOf(["USER", "ADMIN"])]) ]
  }

  function CreateBookFields(req: CreateBookRequest): seq<Field> {
    [ Field("Title", req.title, [Required, Min(1), Max(200)]),
      Field("Author", req.author, [Required, Min(1), Max(200)]),
      Field("Description", req.description, [OmitEmpty, Max(1000)]) ]
  }

  function UpdateBookFields(req: UpdateBookRequest): seq<Field> {
    [ Field("Title", req.title, [OmitEmpty, Min(1), Max(200)]),
      Field("Author", req.author, [OmitEmpty, Min(1), Max(200)]),
      Field("Description", req.description, [OmitEmpty, Max(1000)]) ]
  }

  // ------------------------------------------------- validity, stated directly

  predicate RegisterValid(req: RegisterRequest, isEmail: string -> bool) {
    && req.email != "" && isEmail(req.email)
    && 2 <= |req.username| <= 100
    && |req.password| >= 8
  }

  predicate LoginValid(req: LoginRequest, isEmail: string -> bool) {
    && req.email != "" && isEmail(req.email)
    && |req.password| >= 8
  }

  /** Every field optional; a present field must meet its bound. */
  predicate UpdateUserValid(req: UpdateUserRequest, isEmail: string -> bool) {
    && (req.email == "" || isEmail(req.email))
    && (req.username == "" || |req.username| >= 2)
    && (req.password == "" || |req.password| >= 8)
    && (req.role == "" || Roles.IsValidRole(req.role))
  }

  predicate CreateBookValid(req: CreateBookRequest) {
    && 1 <= |req.title| <= 200
    && 1 <= |req.author| <= 200
    && |req.description| <= 1000
  }

  predicate UpdateBookValid(req: UpdateBookRequest) {
    && |req.title| <= 200
    && |req.author| <= 200
    && |req.description| <= 1000
  }

  /** `required,min=lo,max=hi` accepts exactly the lengths lo..hi. */
  lemma RequiredBetween(v: string, lo: nat, hi: nat, isEmail: string -> bool)
    requires lo >= 1
    ensures FirstFailure(v, [Required, Min(lo), Max(hi)], isEmail).None? <==> lo <= |v| <= hi
  {
    var rs := [Required, Min(lo), Max(hi)];
    assert rs[1..] == [Min(lo), Max(hi)];
    assert rs[1..][1..] == [Max(hi)];
  }

  /** `omitempty,min=lo,max=hi` accepts the empty value and the lengths lo..hi. */
  lemma OptionalBetween(v: string, lo: nat, hi: nat, isEmail: string -> bool)
    ensures FirstFailure(v, [OmitEmpty, Min(lo), Max(hi)], isEmail).None? <==> v == "" || lo <= |v| <= hi
  {
    var rs := [OmitEmpty, Min(lo), Max(hi)];
    assert rs[1..] == [Min(lo), Max(hi)];
    assert rs[1..][1..] == [Max(hi)];
  }

  /** `omitempty,<r>` accepts the empty value and every value `r` accepts. */
  lemma OptionalOne(v: string, r: Rule, isEmail: string -> bool)
    requires r != OmitEmpty
    ensures FirstFailure(v, [OmitEmpty, r], isEmail).None? <==> v == "" || !Fails(r, v, isEmail)
  {
    OmitEmptyPrefix(v, [r], isEmail);
    assert [OmitEmpty] + [r] == [OmitEmpty, r];
  }

  /** `omitempty,max=hi` accepts every length up to hi. */
  lemma OptionalAtMost(v: string, hi: nat, isEmail: string -> bool)
    ensures FirstFailure(v, [OmitEmpty, Max(hi)], isEmail).None? <==> |v| <= hi
  {
    assert [OmitEmpty, Max(hi)][1..] == [Max(hi)];
  }

  /** The register tags accept exactly the valid register requests. */
  lemma RegisterTagsMeanValid(req: RegisterRequest, isEmail: string -> bool)
    ensures AllPass(RegisterFields(req), isEmail) <==> RegisterValid(req, isEmail)
  {
    var fs := RegisterFields(req);
    assert AllPass(fs, isEmail) <==> FieldPasses(fs[0], isEmail) && FieldPasses(fs[1], isEmail) && FieldPasses(fs[2], isEmail);
    assert FieldPasses(fs[0], isEmail) <==> req.email != "" && isEmail(req.email);
    RequiredBetween(req.username, 2, 100, isEmail);
    assert FieldPasses(fs[1], isEmail) <==> 2 <= |req.username| <= 100;
    assert FieldPasses(fs[2], isEmail) <==> |req.password| >= 8;
  }

  lemma LoginTagsMeanValid(req: LoginRequest, isEmail: string -> bool)
    ensures AllPass(LoginFields(req), isEmail) <==> LoginValid(req, isEmail)
  {
    var fs := LoginFields(req);
    assert FieldPasses(fs[0], isEmail) <==> req.email != "" && isEmail(req.email);
    assert FieldPasses(fs[1], isEmail) <==> |req.password| >= 8;
  }

  /** The `oneof=USER ADMIN` tag admits the same roles as `ValidRoles`, and an
      update request with every field empty always passes. */
  lemma UpdateUserTagsMeanValid(req: UpdateUserRequest, isEmail: string -> bool)
    ensures AllPass(UpdateUserFields(req), isEmail) <==> UpdateUserValid(req, isEmail)
    ensures req == UpdateUserRequest("", "", "", "") ==> AllPass(UpdateUserFields(req), isEmail)
  {
    var fs := UpdateUserFields(req);
    OptionalOne(req.email, Email, isEmail);
    OptionalOne(req.username, Min(2), isEmail);
    OptionalOne(req.password, Min(8), isEmail);
    OptionalOne(req.role, OneOf(["USER", "ADMIN"]), isEmail);
    assert FieldPasses(fs[0], isEmail) <==> req.email == "" || isEmail(req.email);
    assert FieldPasses(fs[1], isEmail) <==> req.username == "" || |req.username| >= 2;
    assert FieldPasses(fs[2], isEmail) <==> req.password == "" || |req.password| >= 8;
    assert FieldPasses(fs[3], isEmail) <==> req.role == "" || req.role in Roles.ValidRoles;
  }

  lemma CreateBookTagsMeanValid(req: CreateBookRequest, isEmail: string -> bool)
    ensures AllPass(CreateBookFields(req), isEmail) <==> CreateBookValid(req)
  {
    var fs := CreateBookFields(req);
    assert AllPass(fs, isEmail) <==> FieldPasses(fs[0], isEmail) && FieldPasses(fs[1], isEmail) && FieldPasses(fs[2], isEmail);
    RequiredBetween(req.title, 1, 200, isEmail);
    RequiredBetween(req.author, 1, 200, isEmail);
    OptionalAtMost(req.description, 1000, isEmail);
  }

  /** Same bounds as creation, but an empty field is always accepted. */
  lemma UpdateBookTagsMeanValid(req: UpdateBookRequest, isEmail: string -> bool)
    ensures AllPass(UpdateBookFields(req), isEmail) <==> UpdateBookValid(req)
    ensures CreateBookValid(CreateBookRequest(req.title, req.author, req.description)) ==> UpdateBookValid(req)
  {
    var fs := UpdateBookFields(req);
    assert AllPass(fs, isEmail) <==> FieldPasses(fs[0], isEmail) && FieldPasses(fs[1], isEmail) && FieldPasses(fs[2], isEmail);
    OptionalBetween(req.title, 1, 200, isEmail);
    OptionalBetween(req.author, 1, 200, isEmail);
    OptionalAtMost(req.description, 1000, isEmail);
  }

  // -------------------------------------------------------------- projections

  /** Copies the six public fields of a user; the digest and deletion marker are dropped. */
  function UserToResponse(u: User): (r: UserResponse)
    ensures r.id == u.id && r.email == u.email && r.name == u.name && r.role == u.role
    ensures r.createdAt == u.createdAt && r.updatedAt == u.updatedAt
  {
    UserResponse(u.id, u.email, u.name, u.role, u.createdAt, u.updatedAt)
  }

  /** The zero value Go leaves in `BookResponse.User` when no owner is loaded. */
  const ZeroUserResponse: UserResponse := UserResponse(0, "", "", "", 0, 0)

  /** Rebuilds a stored user from its public view plus the two hidden columns. */
  function ResponseToUser(r: UserResponse, password: string, deleted: bool): User {
    User(r.id, r.email, r.name, password, r.role, r.createdAt, r.updatedAt, deleted)
  }

  /** The projection loses exactly the password digest and deletion marker: the response
      does not depend on the digest, and the two hidden columns restore the row. */
  lemma {:induction false} UserProjectionHidesOnlyPassword(u: User, otherPassword: string)
    ensures UserToResponse(u.(password := otherPassword)) == UserToResponse(u)
    ensures ResponseToUser(UserToResponse(u), u.password, u.deleted) == u
  {
  }

  /** Copies the book's own fields; the owner summary is the owner's projection, or the
      zero summary when no owner was loaded. */
  function BookToResponse(b: Book): (r: BookResponse)
    ensures r.id == b.id && r.title == b.title && r.author == b.author && r.desc == b.desc
    ensures r.userId == b.userId && r.createdAt == b.createdAt && r.updatedAt == b.updatedAt
    ensures b.user.None? ==> r.user == ZeroUserResponse
    ensures b.user.Some? ==> r.user == UserToResponse(b.user.value)
  {
    var owner := match b.user
      case None => ZeroUserResponse
      case Some(u) => UserToResponse(u);
    BookResponse(b.id, b.title, b.author, b.desc, b.userId, owner, b.createdAt, b.updatedAt)
  }

  /** No book response reveals its owner's digest either. */
  lemma BookProjectionHidesOwnerPassword(b: Book, otherPassword: string)
    requires b.user.Some?
    ensures BookToResponse(b.(user := Some(b.user.value.(password := otherPassword)))) == BookToResponse(b)
  {
    UserProjectionHidesOnlyPassword(b.user.value, otherPassword);
  }
}
