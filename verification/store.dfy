/** The persistence layer the services see (`UserRepositoryInterface`,
    `BookRepositoryInterface`), as an immutable value. Each table is a sequence in
    which the row at position i has id i + 1 (auto-increment from 1). Soft-deleted
    rows stay in the table and are skipped by every lookup; the unique index on
    `users.email` still covers them. A store with `fault = Some(msg)` fails every
    call with `msg`, standing for a database that cannot be reached; one with
    `writeFault = Some(msg)` answers reads but fails every write with `msg`. */
module Store {
  import opened Wrappers
  import opened Models

  /** GORM's `ErrRecordNotFound` text. */
  const RecordNotFound: string := "record not found"
  /** The database's own unique-violation error, which GORM passes on unchanged
      because the connection does not translate errors. Only its being an error
      matters: every service replaces it with a text of its own. */
  const UniqueViolation: string := "duplicate key value violates unique constraint"
  /** The database's error for a book whose `user_id` names no user row (the
      constraint the schema migration creates for `Book.User`); opaque like the one above. */
  const ForeignKeyViolation: string := "violates foreign key constraint"

  datatype Db = Db(users: seq<User>, books: seq<Book>, fault: Option<string>, writeFault: Option<string>)

  /** The error every write meets, if any: an unreachable store first, then one that
      refuses writes. */
  function WriteError(db: Db): (e: Option<string>)
    ensures e.None? <==> db.fault.None? && db.writeFault.None?
    ensures db.fault.Some? ==> e == db.fault
  {
    if db.fault.Some? then db.fault else db.writeFault
  }

  /** A service's answer together with the store as the call left it. */
  datatype Step<+T> = Step(result: Result<T>, db: Db)

  predicate EmailsUnique(users: seq<User>) {
    forall i, j :: 0 <= i < j < |users| ==> users[i].email != users[j].email
  }

  /** A user id that names a row of the user table, deleted or not: what the
      foreign key from `books.user_id` accepts. */
  predicate OwnerRow(db: Db, userId: nat) {
    1 <= userId <= |db.users|
  }

  /** The table invariant: ids follow positions, stored books carry no preloaded
      owner and name an existing user row, and no two user rows (deleted or not)
      share an email. */
  predicate Wf(db: Db) {
    && (forall i :: 0 <= i < |db.users| ==> db.users[i].id == i + 1)
    && (forall i :: 0 <= i < |db.books| ==> db.books[i].id == i + 1 && db.books[i].user.None?)
    && (forall i :: 0 <= i < |db.books| ==> OwnerRow(db, db.books[i].userId))
    && EmailsUnique(db.users)
  }

  // ------------------------------------------------------------------- users

  /** The user with this id, unless missing or soft-deleted. */
  function LiveUser(db: Db, id: nat): (u: Option<User>)
    ensures u.Some? ==> u.value in db.users && !u.value.deleted
    ensures Wf(db) && u.Some? ==> u.value.id == id
  {
    if 1 <= id <= |db.users| && !db.users[id - 1].deleted then Some(db.users[id - 1]) else None
  }

  function FindUserById(db: Db, id: nat): (r: Result<User>)
    ensures db.fault.Some? ==> r == Err(db.fault.value)
    ensures db.fault.None? ==> r == (if LiveUser(db, id).Some? then Ok(LiveUser(db, id).value) else Err(RecordNotFound))
  {
    match db.fault
    case Some(msg) => Err(msg)
    case None =>
      match LiveUser(db, id)
      case Some(u) => Ok(u)
      case None => Err(RecordNotFound)
  }

  /** Position of the first live row with exactly this email. */
  function FirstLiveWithEmail(users: seq<User>, email: string): (k: Option<nat>)
    ensures k.Some? ==> k.value < |users| && users[k.value].email == email && !users[k.value].deleted
    ensures k.None? <==> forall i :: 0 <= i < |users| ==> users[i].email != email || users[i].deleted
  {
    if |users| == 0 then None
    else if users[0].email == email && !users[0].deleted then Some(0)
    else
      match FirstLiveWithEmail(users[1..], email)
      case None =>
        assert forall i :: 1 <= i < |users| ==> users[i] == users[1..][i - 1];
        None
      case Some(k) => Some(k + 1)
  }

  /** Exact, case-sensitive email lookup over live rows. */
  function FindUserByEmail(db: Db, email: string): (r: Result<User>)
    ensures db.fault.Some? ==> r == Err(db.fault.value)
    ensures db.fault.None? ==> (r.Ok? <==> exists i :: 0 <= i < |db.users| && db.users[i].email == email && !db.users[i].deleted)
    ensures r.Ok? ==> r.value in db.users && r.value.email == email && !r.value.deleted
    ensures r.Err? && db.fault.None? ==> r.error == RecordNotFound
  {
    match db.fault
    case Some(msg) => Err(msg)
    case None =>
      match FirstLiveWithEmail(db.users, email)
      case Some(k) => Ok(db.users[k])
      case None => Err(RecordNotFound)
  }

  /** Some row other than `except` (deleted or not) already holds the email. */
  predicate EmailHeldByOther(users: seq<User>, email: string, except: nat) {
    exists i :: 0 <= i < |users| && users[i].email == email && i + 1 != except
  }

  /** Inserts a live row with the next id, stamped with `now`; the unique index rejects
      an email held by any row. */
  function InsertUser(db: Db, u: User, now: Stamp): (r: Result<(User, Db)>)
    ensures WriteError(db).Some? ==> r == Err(WriteError(db).value)
    ensures WriteError(db).None? ==> (r.Ok? <==> !EmailHeldByOther(db.users, u.email, 0))
    ensures r.Err? && WriteError(db).None? ==> r.error == UniqueViolation
    ensures r.Ok? ==>
      var (saved, db') := r.value;
      && saved == u.(id := |db.users| + 1, createdAt := now, updatedAt := now, deleted := false)
      && db' == db.(users := db.users + [saved])
    ensures r.Ok? && Wf(db) ==> Wf(r.value.1)
  {
    match WriteError(db)
    case Some(msg) => Err(msg)
    case None =>
      if EmailHeldByOther(db.users, u.email, 0) then Err(UniqueViolation)
      else
        var saved := u.(id := |db.users| + 1, createdAt := now, updatedAt := now, deleted := false);
        Ok((saved, db.(users := db.users + [saved])))
  }

  /** `Updates(user)` on the row `id`: writes the record's fields and a fresh
      `updatedAt`. A missing or deleted row matches nothing, which is not an error
      (and, nothing being written, the unique index is not consulted); the record is
      still restamped in memory. */
  function UpdateUser(db: Db, id: nat, u: User, now: Stamp): (r: Result<(User, Db)>)
    ensures WriteError(db).Some? ==> r == Err(WriteError(db).value)
    ensures WriteError(db).None? ==> (r.Ok? <==> LiveUser(db, id).None? || !EmailHeldByOther(db.users, u.email, id))
    ensures r.Err? && WriteError(db).None? ==> r.error == UniqueViolation
    ensures r.Ok? ==> r.value.0 == u.(updatedAt := now)
    ensures r.Ok? && LiveUser(db, id).Some? ==>
      r.value.1 == db.(users := db.users[id - 1 := u.(id := id, updatedAt := now, deleted := false)])
    ensures r.Ok? && LiveUser(db, id).None? ==> r.value.1 == db
    ensures r.Ok? && Wf(db) ==> Wf(r.value.1)
  {
    match WriteError(db)
    case Some(msg) => Err(msg)
    case None =>
      if LiveUser(db, id).None? then Ok((u.(updatedAt := now), db))
      else if EmailHeldByOther(db.users, u.email, id) then Err(UniqueViolation)
      else
        var row := u.(id := id, updatedAt := now, deleted := false);
        var db' := db.(users := db.users[id - 1 := row]);
        assert Wf(db) ==> EmailsUnique(db'.users) by {
          if Wf(db) {
            forall i, j | 0 <= i < j < |db'.users|
              ensures db'.users[i].email != db'.users[j].email
            {
              if i == id - 1 || j == id - 1 {
                var other := if i == id - 1 then j else i;
                assert db.users[other].email == db'.users[other].email;
                assert other + 1 != id;
              }
            }
          }
        }
        Ok((u.(updatedAt := now), db'))
  }

  /** Soft delete: marks a live row deleted; a missing row is left alone. */
  function SoftDeleteUser(db: Db, id: nat): (r: Result<Db>)
    ensures WriteError(db).Some? ==> r == Err(WriteError(db).value)
    ensures WriteError(db).None? ==> r.Ok?
    ensures r.Ok? && LiveUser(db, id).Some? ==> r.value == db.(users := db.users[id - 1 := db.users[id - 1].(deleted := true)])
    ensures r.Ok? && LiveUser(db, id).None? ==> r.value == db
    ensures r.Ok? && Wf(db) ==> Wf(r.value)
  {
    match WriteError(db)
    case Some(msg) => Err(msg)
    case None =>
      if LiveUser(db, id).None? then Ok(db)
      else
        var db' := db.(users := db.users[id - 1 := db.users[id - 1].(deleted := true)]);
        assert forall i :: 0 <= i < |db.users| ==> db'.users[i].email == db.users[i].email;
        Ok(db')
  }

  // ------------------------------------------------------------------- books

  function LiveBook(db: Db, id: nat): (b: Option<Book>)
    ensures b.Some? ==> b.value in db.books && !b.value.deleted
    ensures Wf(db) && b.Some? ==> b.value.id == id
  {
    if 1 <= id <= |db.books| && !db.books[id - 1].deleted then Some(db.books[id - 1]) else None
  }

  /** `Preload("User")` lookup: the live book with its live owner, if any. */
  function FindBookById(db: Db, id: nat): (r: Result<Book>)
    ensures db.fault.Some? ==> r == Err(db.fault.value)
    ensures db.fault.None? ==> (r.Ok? <==> LiveBook(db, id).Some?)
    ensures r.Err? && db.fault.None? ==> r.error == RecordNotFound
    ensures r.Ok? ==> r.value == LiveBook(db, id).value.(user := LiveUser(db, r.value.userId))
  {
    match db.fault
    case Some(msg) => Err(msg)
    case None =>
      match LiveBook(db, id)
      case Some(b) => Ok(b.(user := LiveUser(db, b.userId)))
      case None => Err(RecordNotFound)
  }

  /** Inserts a live row with the next id; the foreign key refuses an owner that
      names no user row. */
  function InsertBook(db: Db, b: Book, now: Stamp): (r: Result<(Book, Db)>)
    ensures WriteError(db).Some? ==> r == Err(WriteError(db).value)
    ensures WriteError(db).None? ==> (r.Ok? <==> OwnerRow(db, b.userId))
    ensures r.Err? && WriteError(db).None? ==> r.error == ForeignKeyViolation
    ensures r.Ok? ==>
      var (saved, db') := r.value;
      && saved == b.(id := |db.books| + 1, user := None, createdAt := now, updatedAt := now, deleted := false)
      && db' == db.(books := db.books + [saved])
    ensures r.Ok? && Wf(db) ==> Wf(r.value.1)
  {
    match WriteError(db)
    case Some(msg) => Err(msg)
    case None =>
      if !OwnerRow(db, b.userId) then Err(ForeignKeyViolation)
      else
        var saved := b.(id := |db.books| + 1, user := None, createdAt := now, updatedAt := now, deleted := false);
        Ok((saved, db.(books := db.books + [saved])))
  }

  /** `Model(&Book{}).Updates(book)` on row `id`: the stored row gets a fresh
      `updatedAt`, but GORM stamps the empty model value rather than the record it
      was given, so the record comes back exactly as passed in (with its preloaded
      owner and its old `updatedAt`). Writing an owner that names no user row into
      a live row breaks the foreign key; a row that matches nothing writes nothing. */
  function UpdateBook(db: Db, id: nat, b: Book, now: Stamp): (r: Result<(Book, Db)>)
    ensures WriteError(db).Some? ==> r == Err(WriteError(db).value)
    ensures WriteError(db).None? ==> (r.Ok? <==> LiveBook(db, id).None? || OwnerRow(db, b.userId))
    ensures r.Err? && WriteError(db).None? ==> r.error == ForeignKeyViolation
    ensures r.Ok? ==> r.value.0 == b
    ensures r.Ok? && LiveBook(db, id).Some? ==>
      r.value.1 == db.(books := db.books[id - 1 := b.(id := id, user := None, updatedAt := now, deleted := false)])
    ensures r.Ok? && LiveBook(db, id).None? ==> r.value.1 == db
    ensures r.Ok? && Wf(db) ==> Wf(r.value.1)
  {
    match WriteError(db)
    case Some(msg) => Err(msg)
    case None =>
      if LiveBook(db, id).None? then Ok((b, db))
      else if !OwnerRow(db, b.userId) then Err(ForeignKeyViolation)
      else Ok((b, db.(books := db.books[id - 1 := b.(id := id, user := None, updatedAt := now, deleted := false)])))
  }

  function SoftDeleteBook(db: Db, id: nat): (r: Result<Db>)
    ensures WriteError(db).Some? ==> r == Err(WriteError(db).value)
    ensures WriteError(db).None? ==> r.Ok?
    ensures r.Ok? && LiveBook(db, id).Some? ==> r.value == db.(books := db.books[id - 1 := db.books[id - 1].(deleted := true)])
    ensures r.Ok? && LiveBook(db, id).None? ==> r.value == db
    ensures r.Ok? && Wf(db) ==> Wf(r.value)
  {
    match WriteError(db)
    case Some(msg) => Err(msg)
    case None =>
      if LiveBook(db, id).None? then Ok(db)
      else Ok(db.(books := db.books[id - 1 := db.books[id - 1].(deleted := true)]))
  }

  /** Deleted rows are gone for lookups but still hold their email in the unique
      index, so that email can never be inserted again. */
  lemma DeletedEmailStaysReserved(db: Db, id: nat, u: User, now: Stamp)
    requires Wf(db) && WriteError(db).None? && LiveUser(db, id).Some?
    ensures var db' := SoftDeleteUser(db, id).value;
      && FindUserById(db', id) == Err(RecordNotFound)
      && FindUserByEmail(db', db.users[id - 1].email) == Err(RecordNotFound)
      && InsertUser(db', u.(email := db.users[id - 1].email), now) == Err(UniqueViolation)
  {
    var db' := SoftDeleteUser(db, id).value;
    var e := db.users[id - 1].email;
    assert db'.users[id - 1].email == e;
    forall i | 0 <= i < |db'.users| && db'.users[i].email == e
      ensures db'.users[i].deleted
    {
      assert i == id - 1;
    }
  }
}
