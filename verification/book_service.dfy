/** internal/services/book_service.go: creation, listing, lookup, partial update
    and soft delete of books. */
module BookService {
  import opened Wrappers
  import opened Models
  import opened Schemas
  import opened Store
  import opened Response
  import opened Paging

  const CouldNotCreateBook: string := "could not create book"
  const CouldNotGetBook: string := "could not get book"

  datatype BookPage = BookPage(books: seq<BookResponse>, pagination: Pagination)

  type BookQuery = PaginationParams -> Result<(seq<Book>, nat)>

  /** The record `Create` asks the store to insert: the request's title, author and
      description, owned by the caller. */
  function NewBook(req: CreateBookRequest, userId: nat): Book {
    Book(0, req.title, req.author, req.description, userId, None, 0, 0, false)
  }

  /** `Create` exactly as written: after the insert it reloads `GetById(book.UserID)`,
      the creator's USER id, instead of the new book's id. */
  function CreateAsWritten(now: Stamp, db: Db, req: CreateBookRequest, userId: nat): (s: Step<BookResponse>)
    ensures InsertBook(db, NewBook(req, userId), now).Err? ==> s == Step(Err(CouldNotCreateBook), db)
    ensures InsertBook(db, NewBook(req, userId), now).Ok? ==>
      && s.db == InsertBook(db, NewBook(req, userId), now).value.1
      && (FindBookById(s.db, userId).Err? ==> s.result == Err(CouldNotGetBook))
      && (FindBookById(s.db, userId).Ok? ==> s.result == Ok(BookToResponse(FindBookById(s.db, userId).value)))
  {
    match InsertBook(db, NewBook(req, userId), now)
    case Err(_) => Step(Err(CouldNotCreateBook), db)
    case Ok((book, db')) =>
      match FindBookById(db', book.userId)
      case Err(_) => Step(Err(CouldNotGetBook), db')
      case Ok(loaded) => Step(Ok(BookToResponse(loaded)), db')
  }

  /** When the creator's id lies beyond every book id the insert leaves behind, the
      book is stored and the call still fails, although the corrected `Create`
      succeeds on the same well-formed store. */
  lemma CreateAsWrittenFailsAfterInsert(now: Stamp, db: Db, req: CreateBookRequest, userId: nat)
    requires Wf(db) && WriteError(db).None? && OwnerRow(db, userId)
    requires |db.books| + 1 < userId
    ensures var s := CreateAsWritten(now, db, req, userId);
      && s.result == Err(CouldNotGetBook)
      && s.db == Create(now, db, req, userId).db
      && |s.db.books| == |db.books| + 1 && s.db.books[|db.books|].title == req.title
      && Create(now, db, req, userId).result.Ok?
  {
  }

  /** When a live book already has the creator's id, the call answers with that
      older book instead of the one just stored. */
  lemma CreateAsWrittenReturnsWrongBook(now: Stamp, db: Db, req: CreateBookRequest, userId: nat)
    requires Wf(db) && WriteError(db).None? && OwnerRow(db, userId) && LiveBook(db, userId).Some?
    ensures var s := CreateAsWritten(now, db, req, userId);
      && s.result == GetById(db, userId)
      && s.result.Ok? && s.result.value.id == userId
      && Create(now, db, req, userId).result.Ok?
      && Create(now, db, req, userId).result.value.id == |db.books| + 1 != userId
  {
    var s := CreateAsWritten(now, db, req, userId);
    assert s.db.books[userId - 1] == db.books[userId - 1];
  }

  /** A reader with this id and email. */
  function Reader(id: nat, email: string): User {
    User(id, email, "Reader", "digest", "USER", 0, 0, false)
  }

  /** Seven readers and no books. */
  function SevenReaders(): Db {
    Db([Reader(1, "a"), Reader(2, "b"), Reader(3, "c"), Reader(4, "d"),
        Reader(5, "e"), Reader(6, "f"), Reader(7, "g")], [], None, None)
  }

  /** Seven users and no books: user 7 creating the first book stores it as book 1
      and is told the book could not be found. */
  lemma CreateAsWrittenFailsExample()
    ensures var db := SevenReaders();
      var s := CreateAsWritten(0, db, CreateBookRequest("T", "A", ""), 7);
      && Wf(db)
      && s.result == Err(CouldNotGetBook)
      && |s.db.books| == 1 && s.db.books[0].title == "T"
  {
    var db := SevenReaders();
    assert Wf(db);
    CreateAsWrittenFailsAfterInsert(0, db, CreateBookRequest("T", "A", ""), 7);
  }

  /** Users 1 and 2, books 1 and 2 both owned by user 2: user 1 creating a third
      book is answered with book 1. */
  lemma CreateAsWrittenReturnsWrongBookExample()
    ensures var b1 := Book(1, "First", "X", "", 2, None, 0, 0, false);
      var b2 := Book(2, "Second", "Y", "", 2, None, 0, 0, false);
      var db := Db([Reader(1, "a"), Reader(2, "b")], [b1, b2], None, None);
      var s := CreateAsWritten(5, db, CreateBookRequest("Mine", "Me", ""), 1);
      && Wf(db)
      && s.result.Ok? && s.result.value.id == 1 && s.result.value.title == "First"
  {
    var b1 := Book(1, "First", "X", "", 2, None, 0, 0, false);
    var b2 := Book(2, "Second", "Y", "", 2, None, 0, 0, false);
    var db := Db([Reader(1, "a"), Reader(2, "b")], [b1, b2], None, None);
    assert Wf(db);
    CreateAsWrittenReturnsWrongBook(5, db, CreateBookRequest("Mine", "Me", ""), 1);
  }

  /** `Create` as intended: the reload uses the id the insert assigned. It fails,
      storing nothing, exactly when the insert does (a store that is unreachable or
      refuses writes, or an owner that names no user row); on success the response is the stored book with its
      owner preloaded. */
  function Create(now: Stamp, db: Db, req: CreateBookRequest, userId: nat): (s: Step<BookResponse>)
    ensures InsertBook(db, NewBook(req, userId), now).Err? ==> s == Step(Err(CouldNotCreateBook), db)
    ensures Wf(db) ==> (s.result.Ok? <==> WriteError(db).None? && OwnerRow(db, userId))
    ensures Wf(db) && WriteError(db).None? && OwnerRow(db, userId) ==>
      var saved := NewBook(req, userId).(id := |db.books| + 1, createdAt := now, updatedAt := now);
      && s.db == db.(books := db.books + [saved])
      && s.result == Ok(BookToResponse(saved.(user := LiveUser(db, userId))))
    ensures Wf(db) ==> Wf(s.db)
  {
    match InsertBook(db, NewBook(req, userId), now)
    case Err(_) => Step(Err(CouldNotCreateBook), db)
    case Ok((book, db')) =>
      match FindBookById(db', book.id)
      case Err(_) => Step(Err(CouldNotGetBook), db')
      case Ok(loaded) => Step(Ok(BookToResponse(loaded)), db')
  }

  /** The new book is immediately retrievable, and the lookup agrees with what
      `Create` returned. */
  lemma CreateThenGet(now: Stamp, db: Db, req: CreateBookRequest, userId: nat)
    requires Wf(db) && WriteError(db).None? && OwnerRow(db, userId)
    ensures var s := Create(now, db, req, userId);
      s.result.Ok? && GetById(s.db, s.result.value.id) == s.result
  {
  }

  /** The Go loop building the response list; it starts from an empty, non-nil slice. */
  method ToResponses(rows: seq<Book>) returns (out: seq<BookResponse>)
    ensures |out| == |rows| && forall i :: 0 <= i < |rows| ==> out[i] == BookToResponse(rows[i])
  {
    out := [];
    var i := 0;
    while i < |rows|
      invariant 0 <= i <= |rows|
      invariant |out| == i && forall k :: 0 <= k < i ==> out[k] == BookToResponse(rows[k])
    {
      out := out + [BookToResponse(rows[i])];
      i := i + 1;
    }
  }

  /** Same shape as the user listing, except that an empty result is an empty list. */
  method GetAll(query: BookQuery, params: PaginationParams) returns (r: Result<BookPage>)
    ensures query(WithDefaults(params)).Err? ==> r == Err(query(WithDefaults(params)).error)
    ensures query(WithDefaults(params)).Ok? ==>
      var (rows, total) := query(WithDefaults(params)).value;
      var q := WithDefaults(params);
      && r.Ok?
      && r.value.pagination == CalculatePagination(q.page, q.size, total)
      && |r.value.books| == |rows|
      && forall i :: 0 <= i < |rows| ==> r.value.books[i] == BookToResponse(rows[i])
  {
    var q := WithDefaults(params);
    match query(q)
    case Err(e) => r := Err(e);
    case Ok((rows, total)) =>
      var books := ToResponses(rows);
      r := Ok(BookPage(books, CalculatePagination(q.page, q.size, total)));
  }

  /** The live book with its owner; the repository's error text is passed on. */
  function GetById(db: Db, id: nat): (r: Result<BookResponse>)
    ensures r.Ok? <==> FindBookById(db, id).Ok?
    ensures r.Ok? ==> r.value == BookToResponse(FindBookById(db, id).value)
    ensures r.Err? ==> r.error == FindBookById(db, id).error
  {
    match FindBookById(db, id)
    case Err(e) => Err(e)
    case Ok(b) => Ok(BookToResponse(b))
  }

  /** Each non-empty title, author or description overwrites its column; the owner,
      id and timestamps never change. */
  function MergeBook(b: Book, req: UpdateBookRequest): (m: Book)
    ensures m.id == b.id && m.userId == b.userId && m.user == b.user && m.deleted == b.deleted
    ensures m.createdAt == b.createdAt && m.updatedAt == b.updatedAt
    ensures m.title == (if req.title == "" then b.title else req.title)
    ensures m.author == (if req.author == "" then b.author else req.author)
    ensures m.desc == (if req.description == "" then b.desc else req.description)
  {
    var title := if req.title != "" then req.title else b.title;
    var author := if req.author != "" then req.author else b.author;
    var desc := if req.description != "" then req.description else b.desc;
    b.(title := title, author := author, desc := desc)
  }

  lemma MergeBookLaws(b: Book, req: UpdateBookRequest)
    ensures MergeBook(b, UpdateBookRequest("", "", "")) == b
    ensures MergeBook(MergeBook(b, req), req) == MergeBook(b, req)
  {
  }

  /** A missing book is refused with the lookup's error and nothing written. A found
      book is merged and written; in a well-formed store that write fails only when
      the store refuses writes, and that error is passed on. The
      answer is the merged record as loaded, so its `updatedAt` is the one read
      before the write, while the stored row carries the new stamp. */
  function Update(now: Stamp, db: Db, id: nat, req: UpdateBookRequest): (s: Step<BookResponse>)
    ensures FindBookById(db, id).Err? ==> s == Step(Err(FindBookById(db, id).error), db)
    ensures Wf(db) ==> (s.result.Ok? <==> FindBookById(db, id).Ok? && db.writeFault.None?)
    ensures s.result.Err? ==> s.db == db
    ensures s.result.Err? && FindBookById(db, id).Ok? ==>
      s.result.error == (if db.writeFault.Some? then db.writeFault.value else ForeignKeyViolation)
    ensures s.result.Ok? ==>
      && FindBookById(db, id).Ok?
      && var merged := MergeBook(FindBookById(db, id).value, req);
      && s.result.value == BookToResponse(merged)
      && s.result.value.updatedAt == FindBookById(db, id).value.updatedAt
      && (Wf(db) ==> s.db == db.(books := db.books[id - 1 := merged.(user := None, updatedAt := now)]))
    ensures Wf(db) ==> Wf(s.db)
  {
    match FindBookById(db, id)
    case Err(e) => Step(Err(e), db)
    case Ok(b) =>
      match UpdateBook(db, id, MergeBook(b, req), now)
      case Err(e) => Step(Err(e), db)
      case Ok((saved, db')) => Step(Ok(BookToResponse(saved)), db')
  }

  /** Read-your-write for books: a later lookup shows the answer with the new stamp. */
  lemma UpdateThenGet(now: Stamp, db: Db, id: nat, req: UpdateBookRequest)
    requires Wf(db) && Update(now, db, id, req).result.Ok?
    ensures var s := Update(now, db, id, req);
      GetById(s.db, id) == Ok(s.result.value.(updatedAt := now))
  {
  }

  /** Existence is checked first; a missing book is refused with the lookup's error
      and without a delete call; a found one is soft-deleted unless the store refuses
      the write, whose error is passed on. */
  function Delete(db: Db, id: nat): (s: Step<()>)
    ensures FindBookById(db, id).Err? ==> s == Step(Err(FindBookById(db, id).error), db)
    ensures FindBookById(db, id).Ok? && db.writeFault.Some? ==> s == Step(Err(db.writeFault.value), db)
    ensures s.result.Ok? <==> FindBookById(db, id).Ok? && db.writeFault.None?
    ensures s.result.Err? ==> s.db == db
    ensures s.result.Ok? ==> s.db == db.(books := db.books[id - 1 := db.books[id - 1].(deleted := true)])
    ensures Wf(db) ==> Wf(s.db)
  {
    match FindBookById(db, id)
    case Err(e) => Step(Err(e), db)
    case Ok(_) =>
      match SoftDeleteBook(db, id)
      case Err(e) => Step(Err(e), db)
      case Ok(db') => Step(Ok(()), db')
  }

  lemma DeleteThenGone(db: Db, id: nat)
    requires Delete(db, id).result.Ok?
    ensures var s := Delete(db, id);
      && GetById(s.db, id) == Err(RecordNotFound)
      && Delete(s.db, id) == Step(Err(RecordNotFound), s.db)
  {
  }
}
