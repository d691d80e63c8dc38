# fiber-rest-boilerplate in Dafny

This project models the request-handling core of a Go REST boilerplate. The boilerplate
is built on fiber and GORM, and serves user accounts and books behind a JWT bearer
middleware. The model covers these parts:

- **Paging** (`pkg/utils/pagination.go`): the offset, the defaulting of page, size, sort
  and order, and the page count of a listing. Go's `int` is 64 bits wide, and the model
  writes that width out.
- **Roles** (`internal/models/enums.go`): the `USER`/`ADMIN` role check, which is exact
  and case-sensitive.
- **Validation** (`pkg/validator/validator.go` and the `validate:` tags of the request
  schemas):
  - each tag (`required`, `email`, `min`, `max`, `oneof`, `omitempty`) is a `Rule`;
  - a field reports only its first failing rule;
  - the error message is derived from the rule's tag and parameter.
- **Responses** (`pkg/response/response.go`): the JSON envelopes and the status code each
  helper sends.
- **Middleware** (`internal/middleware/auth.go`):
  - the `Authorization` header is required;
  - the first `"Bearer "` is removed, wherever it occurs;
  - the token is validated and its claims are handed to the next handler.
- **Store** (the `internal/repositories/*.go` calls and the `internal/models` records):
  - an abstract database in which row `i` has id `i + 1`;
  - a soft delete is a `deleted` flag, and lookups skip deleted rows;
  - the unique index on `email` also covers deleted rows;
  - a book's owner must name a user row, deleted or not (the foreign key);
  - an optional `fault` makes every database call fail with its message (an unreachable
    database);
  - an optional `writeFault` lets reads through but fails every write with its message
    (for example a database that refuses writes), so a write can fail after the lookup
    that preceded it succeeded.
- **Services** (`internal/services/*.go`): register, login and profile; user listing,
  lookup, update and delete; book create, listing, lookup, update and delete.
- **Handlers** (`internal/handlers/*.go`): the parse, validate and call pipeline of every
  endpoint. This includes the different id and query handling of the user and book
  handlers.

The collaborators the core calls but does not define are fields of `Collaborators.Deps`:
- the bcrypt hash and check;
- JWT issue and verify;
- the e-mail syntax check;
- the clock reading used for timestamps.

Lemmas that need one of them to behave (for example "check accepts what hash produced")
state that assumption as a `requires`, through `Collaborators.HashChecks` and
`AuthHandler.TokensValidate`. The repositories' listing queries (search, sort, offset
and limit in SQL) are a function parameter `PaginationParams -> Result<(rows, total)>`.

Go's `strconv.Atoi` (64-bit platform) is modelled in `Strconv.Atoi` with both of its paths:
- inputs of 1 to 18 characters take a fast path: an optional sign, then decimal digits only;
- longer (and empty) inputs go through `strconv.ParseInt`, whose `ParseUint` loop reports
  a range error as soon as the digits read so far exceed 2^64 - 1, before it looks at a
  later non-digit. `Strconv.ScanUint` is that loop, character by character;
- after that, the signed 64-bit range check;
- the two error texts.

The two paths agree on every short input (`Strconv.FastPathAgrees`). Go measures the
length in bytes and the model in characters. The two counts differ only on input with a
non-ASCII character, and such input is a syntax error on both paths, whichever path
takes it.

The `uint(i)` conversion is `Strconv.ToUint`.

The two `UserToResponse`/`UserResponse` definitions in `internal/schemas/auth_schema.go`
and `internal/schemas/user_schema.go` are identical and are modelled once, in `Schemas`.

## Model

| member | source | states |
|---|---|---|
| Strconv.Atoi | internal/handlers/book_handler.go:80-88 | Succeeds iff, after one optional sign, a non-empty all-digit string remains whose signed value lies in the int64 range, and then yields that value. The range error is returned iff the digits before the first non-digit exceed 2^64 - 1, or the string is all digits and out of the int64 range. Every other failure is the syntax error. |
| Strconv.ParseUint | internal/handlers/book_handler.go:80-88 | The digit loop's outcome in closed form: a range error iff the leading digit run exceeds 2^64 - 1, otherwise a syntax error iff a non-digit follows (or the input is empty), otherwise the decimal value. |
| Strconv.FastPathAgrees | internal/handlers/book_handler.go:80-88 | On every input of 1 to 18 characters the fast path and the `ParseInt` path give the same answer. |
| Strconv.OverflowBeforeJunkIsRange | internal/handlers/book_handler.go:80-88 | Digits worth more than 2^64 - 1 followed by a non-digit give the range error, not the syntax error. |
| Strconv.AtoiRangeBeforeSyntax | internal/handlers/book_handler.go:80-88 | "99999999999999999999x" gives the range error. |
| Strconv.AtoiSyntaxExample | internal/handlers/book_handler.go:80-88 | "12x" gives the syntax error. |
| Strconv.ItoaRoundTrip | pkg/validator/validator.go:35-37 | Atoi inverts the decimal spelling of every int64, which is how a `min=`/`max=` parameter is rendered. |
| Strconv.NatDigitsRoundTrip | pkg/validator/validator.go:35-37 | The digits of a natural read back as that natural. |
| Strconv.ToUint | internal/handlers/book_handler.go:68 | `uint(i)` is below 2^64, keeps a non-negative value and wraps a negative one by 2^64. |
| Paging.Wrap64 | pkg/utils/pagination.go:18-20 | Reduction into the int64 range is the identity inside the range and changes a value by a multiple of 2^64. |
| Paging.Offset | pkg/utils/pagination.go:18-20 | The offset is an int64. It is 0 on page 1 and equals `(page-1)*size` whenever that product does not overflow. |
| Paging.OffsetLocatesPage | pkg/utils/pagination.go:18-20 | For valid page and size, the offset is a non-negative multiple of size whose quotient is `page-1`, and the next page starts exactly `size` rows later. |
| Paging.WithDefaults | pkg/utils/pagination.go:23-36 | Only zero page or size and empty sort or order are replaced (by 1, 10, "id" and "asc"). Search is kept. |
| Paging.WithDefaultsIdempotent | pkg/utils/pagination.go:23-36 | Defaulting twice equals defaulting once, and the defaulted fields are never zero or empty. |
| Paging.DefaultsDoNotEnforceBounds | pkg/utils/pagination.go:9-36 | The all-zero parameters default into the declared `min`/`max`/`oneof` bounds. Out-of-bound values such as page -3, size 500 and order "sideways" pass through defaulting unchanged. |
| Paging.CeilDiv | pkg/utils/pagination.go:40 | The ceiling of `a/b` for either sign of `b`, stated by the bracketing inequalities. |
| Paging.CalculatePagination | pkg/utils/pagination.go:39-50 | Page, size and total are copied. totalPages is the ceiling of total/size. hasNext holds iff page < totalPages, and hasPrev iff page > 1. |
| Paging.TotalPagesIsLeastCover | pkg/utils/pagination.go:40 | For a positive size, totalPages pages hold all rows and any k pages that hold them number at least totalPages. |
| Paging.NeighboursMatchRows | pkg/utils/pagination.go:43-48 | For a valid page, hasNext holds iff rows remain after this page, and hasPrev iff the page's offset is positive. |
| Paging.EmptyListing | pkg/utils/pagination.go:39-50 | An empty listing has no pages and no next page for any page >= 0. Page -1 of an empty listing still reports a next page. |
| Roles.Scan | internal/models/enums.go:12-19 | The linear scan finds a role iff it is an element of the list. |
| Roles.IsValidRole | internal/models/enums.go:9-19 | A role is valid iff it is exactly "USER" or "ADMIN". |
| Roles.RoleMatchingIsCaseSensitive | internal/models/enums.go:12-19 | "user", "Admin", "admin" and "" are all rejected. |
| Roles.Parse | internal/models/enums.go:4-19 | Parsing to the closed enumeration succeeds exactly on the valid role strings. |
| Roles.ParseNameRoundTrip | internal/models/enums.go:4-7 | Each role's name parses back to it, and a parsed string is that role's name. |
| Tags.FirstFailure | pkg/validator/validator.go:14-16 | A reported rule is one of the field's rules and does fail. Without `omitempty`, nothing is reported iff every rule passes. A leading `omitempty` on an empty value reports nothing. |
| Tags.FirstFailureIsFirst | pkg/validator/validator.go:14-16 | The reported rule is the first failing one: every rule before it passes and is not an `omitempty` that stops the check. When nothing is reported, each failing rule comes after an `omitempty` met by an empty value. |
| Tags.OmitEmptyPrefix | internal/schemas/user_schema.go:8-13 | A field tagged `omitempty,...` never fails when empty. |
| Schemas.RegisterTagsMeanValid | internal/schemas/auth_schema.go:8-12 | The register tags pass iff the e-mail is non-empty and well formed, the username has 2..100 characters and the password at least 8. |
| Schemas.LoginTagsMeanValid | internal/schemas/auth_schema.go:14-17 | The login tags pass iff the e-mail is non-empty and well formed and the password has at least 8 characters. |
| Schemas.UpdateUserTagsMeanValid | internal/schemas/user_schema.go:8-13 | The update-user tags pass iff each non-empty field meets its constraint (the role must be USER or ADMIN). The empty request passes. |
| Schemas.CreateBookTagsMeanValid | internal/schemas/book_schema.go:8-12 | The create-book tags pass iff title and author have 1..200 characters and the description at most 1000. |
| Schemas.UpdateBookTagsMeanValid | internal/schemas/book_schema.go:14-18 | The update-book tags pass iff each non-empty field is within its maximum. Every valid create body is also a valid update body. |
| Schemas.UserToResponse | internal/schemas/auth_schema.go:35-44 | Id, e-mail, name, role and both timestamps are copied. |
| Schemas.UserProjectionHidesOnlyPassword | internal/schemas/auth_schema.go:19-44 | The response does not depend on the password digest. Adding back the digest and the deleted flag restores the user. |
| Schemas.BookToResponse | internal/schemas/book_schema.go:32-50 | The book's fields are copied. The owner is projected when it was loaded, and otherwise is the zero user response. |
| Schemas.BookProjectionHidesOwnerPassword | internal/schemas/book_schema.go:45-47 | A book response does not depend on its owner's password digest. |
| Response.Success | pkg/response/response.go:43-49 | A 200 success envelope with the message and data. |
| Response.Created | pkg/response/response.go:52-58 | A 201 success envelope with the message and data. |
| Response.BadRequest | pkg/response/response.go:61-70 | A 400 failure envelope whose error code is 400 and whose message is repeated, with no details. |
| Response.ValidationFailed | pkg/response/response.go:72-82 | A 400 failure envelope carrying the validation details. |
| Response.Paginated | pkg/response/response.go:85-94 | A 200 paged envelope with data and pagination. |
| Response.Unauthorized | pkg/response/response.go:97-106 | A 401 failure envelope. |
| Response.InternalError | pkg/response/response.go:109-118 | A 500 failure envelope. |
| Validator.ErrorMessage | pkg/validator/validator.go:28-43 | The message for each of the five known tags, and "Invalid value" for every other tag. |
| Validator.MessageShape | pkg/validator/validator.go:28-43 | Every rule's message is a fixed lead followed by the rule's parameter. |
| Validator.LeadsDiffer | pkg/validator/validator.go:30-39 | The five leads are told apart by their first two characters. |
| Validator.MessageDeterminesRule | pkg/validator/validator.go:28-43 | Equal messages come from the same tag with the same parameter. For `min`/`max` they come from the same rule. |
| Validator.ValidateStruct | pkg/validator/validator.go:11-25 | At most one error per field, and no error iff every field passes. |
| Validator.ValidateStructCount | pkg/validator/validator.go:11-25 | There are exactly as many errors as failing fields. |
| Validator.ReportedField | pkg/validator/validator.go:16-20 | Each error is the report of a failing field: the field's name with its first failure. |
| Validator.ReportedFieldsInOrder | pkg/validator/validator.go:11-25 | A later error reports a later field. With the count above, every failing field is reported exactly once, in declaration order. |
| Validator.ReportedFieldsFail | pkg/validator/validator.go:16-20 | Every reported error comes from a failing field and carries that field's name and first failure. |
| Validator.FailingFieldsReported | pkg/validator/validator.go:16-20 | Every failing field is reported. |
| Validator.ValidateStructLoop | pkg/validator/validator.go:11-25 | The append loop computes the recursive definition. |
| Text.IndexOf | internal/middleware/auth.go:20 | The result is the first occurrence of the pattern, or none when it occurs nowhere. |
| Text.ReplaceFirst | internal/middleware/auth.go:20 | Without an occurrence the string is unchanged. Otherwise the length changes by the difference of pattern and replacement. |
| Text.ReplaceFirstReinsert | internal/middleware/auth.go:20 | Putting the pattern back where it was removed restores the string. |
| Middleware.ExtractToken | internal/middleware/auth.go:20 | A header without "Bearer " is the token itself. Otherwise exactly one "Bearer " is removed. |
| Middleware.ExtractFromBearerHeader | internal/middleware/auth.go:19-20 | "Bearer " + t yields t for every t. |
| Middleware.ExtractionIsUnanchoredAndSingle | internal/middleware/auth.go:20 | Only the first "Bearer " is removed, even when it is not at the start of the header. |
| Middleware.Authenticate | internal/middleware/auth.go:14-31 | An empty header is refused with "Authorization header not found". A failed validation is refused with the validator's text. Otherwise the claims become the locals. Every refusal is a coherent 401. |
| Middleware.Guard | internal/middleware/auth.go:12-34 | The next handler runs iff authentication admits, and receives exactly the claims. A refusal is answered with authentication's own 401. |
| Middleware.EmptyHeaderIgnoresCollaborators | internal/middleware/auth.go:14-17 | An empty header yields the same 401 whatever the secret, validator or next handler. |
| Store.LiveUser | internal/repositories/user_repository.go:25-29 | A live lookup returns a stored, undeleted user with the requested id. |
| Store.FindUserById | internal/repositories/user_repository.go:25-29 | Returns the live user, "record not found", or the store's fault. |
| Store.FirstLiveWithEmail | internal/repositories/user_repository.go:19-23 | Returns the first undeleted row with the e-mail, and none iff no undeleted row has it. |
| Store.FindUserByEmail | internal/repositories/user_repository.go:19-23 | Finds a user iff some undeleted row has the e-mail. The result has that e-mail. |
| Store.InsertUser | internal/repositories/user_repository.go:15-17 | A store fault or a refused write is passed on. Otherwise fails with the database's unique-violation error iff any row, deleted or not, holds the e-mail, and else appends the user with the next id. Uniqueness is preserved. |
| Store.UpdateUser | internal/repositories/user_repository.go:31-33 | A store fault or a refused write is passed on. A missing or deleted row matches nothing: no error, and the store is unchanged. A live row gets the unique-violation error iff another row holds the e-mail, and otherwise exactly that row is rewritten. Uniqueness is preserved. |
| Store.SoftDeleteUser | internal/repositories/user_repository.go:35-37 | A store fault or a refused write is passed on. Otherwise marks exactly the live row deleted, and changes nothing when there is none. |
| Store.LiveBook | internal/repositories/book_repository.go:41-45 | A live lookup returns a stored, undeleted book with the requested id. |
| Store.FindBookById | internal/repositories/book_repository.go:41-45 | Returns the live book with its live owner preloaded, or "record not found". |
| Store.InsertBook | internal/repositories/book_repository.go:15-17 | Appends the book with the next id iff the store is reachable, accepts writes and the owner names a user row (the foreign key). Otherwise the fault, the write error or the foreign-key error. |
| Store.UpdateBook | internal/repositories/book_repository.go:47-49 | A store fault or a refused write is passed on. Otherwise rewrites exactly the live row with a fresh `updatedAt` and leaves everything else alone. The record handed in comes back unchanged, because the stamp goes to the separate model value. A live row cannot be given an owner that names no user row. |
| Store.SoftDeleteBook | internal/repositories/book_repository.go:51-53 | A store fault or a refused write is passed on. Otherwise marks exactly the live row deleted. |
| Store.DeletedEmailStaysReserved | internal/models/user.go:10-16 | After a soft delete, the user's e-mail is no longer found, yet inserting it again is refused. |
| AuthService.Register | internal/services/auth_service.go:26-63 | A live holder of the e-mail gives "email already in use". Then a hashing failure gives "could not hash password", a refused insert "could not create user" and an issuer failure "could not generate token", each with the store unchanged except that the last keeps the new row. The new row is the request's e-mail and name, the digest and role USER, with the next id, and the token is the issuer's answer for it. Success holds iff the store is reachable and accepts writes, no row at all holds the e-mail, the password hashes and a token is issued. Uniqueness is preserved. |
| AuthService.Login | internal/services/auth_service.go:66-88 | An unknown e-mail gives "could not find user", a rejected password "invalid password" and an issuer failure "could not generate token". Otherwise the answer is the issued token with the user's response. |
| AuthService.GetProfile | internal/services/auth_service.go:91-99 | Succeeds iff the id is live, with that user's response. Otherwise "could not find user". |
| AuthService.RegisterThenLogin | internal/services/auth_service.go:26-88 | When the hash is checkable, logging in with the registered credentials succeeds as the user registration returned, with the token the issuer gives for the new row. |
| AuthService.RegisterTwiceRefused | internal/services/auth_service.go:28-31 | A second registration with the same e-mail is refused with "email already in use". |
| AuthService.RegisterThenProfile | internal/services/auth_service.go:26-99 | The registered user's profile is found, with role USER. |
| UserService.ToResponses | internal/services/user_service.go:48-52 | Each row is projected in order. No rows give Go's nil slice. |
| UserService.GetAll | internal/services/user_service.go:38-58 | Queries with the defaulted parameters, passes on a query error, and paginates with the defaulted page and size. |
| UserService.GetByID | internal/services/user_service.go:60-68 | Succeeds iff the id is live, and otherwise passes on the store's error. |
| UserService.Merge | internal/services/user_service.go:77-93 | Each non-empty request field replaces the stored one, a role only when valid, and a password as its digest. Nothing else changes. |
| UserService.MergeLaws | internal/services/user_service.go:77-93 | The empty request is the identity, an invalid role is ignored, and merging is idempotent. |
| UserService.Update | internal/services/user_service.go:70-102 | An unknown id gives "User not found". A hashing error is passed on. For a found user with a digest, the update succeeds iff the store accepts writes and no other row holds the merged e-mail, and otherwise gives "user update failed". Every failure leaves the store unchanged. A success stores the merged user and returns its response. Uniqueness is preserved. |
| UserService.Delete | internal/services/user_service.go:104-115 | An unknown id gives "User not found". A found user is deleted iff the store accepts writes, and then exactly that row is soft-deleted. A refused write gives "user delete failed" with the store unchanged. |
| UserService.UpdateThenGet | internal/services/user_service.go:70-102 | After a successful update, a lookup returns what the update returned. |
| UserService.DeleteThenGone | internal/services/user_service.go:104-115 | After a successful delete, the user is not found and a second delete is refused. |
| BookService.CreateAsWritten | internal/services/book_service.go:30-54 | The book is inserted, then the book whose id equals the owner's id is reloaded. |
| BookService.CreateAsWrittenFailsAfterInsert | internal/services/book_service.go:47-50 | In every well-formed store where the creator exists and its id exceeds the new book's id, the book is stored yet the answer is "could not get book", while the corrected create succeeds. |
| BookService.CreateAsWrittenReturnsWrongBook | internal/services/book_service.go:47 | In every well-formed store where a live book has the creator's id, the answer is that older book, not the new one. |
| BookService.CreateAsWrittenFailsExample | internal/services/book_service.go:47-50 | Users 1 to 7 and no books: user 7 creating a book stores it as book 1 and is told "could not get book". |
| BookService.CreateAsWrittenReturnsWrongBookExample | internal/services/book_service.go:47 | Users 1 and 2 and two books owned by user 2: user 1 creating a book is answered with book 1. |
| BookService.Create | internal/services/book_service.go:30-54 | Corrected reload. In a well-formed store it succeeds iff the store is reachable, accepts writes and the owner exists. The new book is then appended with the next id and returned with its owner. A refused insert gives "could not create book". |
| BookService.CreateThenGet | internal/services/book_service.go:30-54 | The corrected create answers exactly what a later lookup of the new id returns. |
| BookService.ToResponses | internal/services/book_service.go:66-70 | Each row is projected in order, into a non-nil list. |
| BookService.GetAll | internal/services/book_service.go:56-75 | Queries with the defaulted parameters, passes on a query error, and paginates with the defaulted page and size. |
| BookService.GetById | internal/services/book_service.go:77-86 | Succeeds iff the id is live, and otherwise passes on the store's error. |
| BookService.MergeBook | internal/services/book_service.go:95-104 | Each non-empty field replaces the stored one, and nothing else changes. |
| BookService.MergeBookLaws | internal/services/book_service.go:95-104 | The empty request is the identity, and merging is idempotent. |
| BookService.Update | internal/services/book_service.go:88-114 | An unknown id passes on the lookup error, and failures leave the store unchanged. In a well-formed store a found book is updated iff the store accepts writes, and the write error is passed on otherwise. The answer is the merged book with the `updatedAt` it was loaded with, and the stored row is the merged book with the new stamp. |
| BookService.UpdateThenGet | internal/services/book_service.go:88-114 | After a successful update, a lookup returns the update's answer with the new `updatedAt`. |
| BookService.Delete | internal/services/book_service.go:116-129 | An unknown id passes on the lookup error. A found book is deleted iff the store accepts writes, and then exactly that row is soft-deleted. A refused write is passed on with the store unchanged. |
| BookService.DeleteThenGone | internal/services/book_service.go:116-129 | After a successful delete, the book is not found and a second delete answers "record not found". |
| AuthHandler.Register | internal/handlers/auth_handler.go:30-50 | A bad body gives "Invalid request body", and invalid fields give "Validation failed" with the details. Otherwise the service answer is a 201 or a 400 with its text. The answer is 201 iff the body is valid and the service succeeds. |
| AuthHandler.Login | internal/handlers/auth_handler.go:52-68 | The same stages. A success is a 200 "User logged in successfully". |
| AuthHandler.GetProfile | internal/handlers/auth_handler.go:70-81 | A missing user id local gives "User ID not found in context". Otherwise the service answer is a 200 or a 400. |
| AuthHandler.RegisterThenProfileWithToken | internal/handlers/auth_handler.go:30-81 | When issued tokens validate, the token from a successful registration opens the profile endpoint on the new user. |
| UserHandler.PageNumber | internal/handlers/user_handler.go:33-36 | A positive integer page is kept. Anything else becomes 1. |
| UserHandler.PageSize | internal/handlers/user_handler.go:38-41 | A positive integer size is kept, without an upper bound. Anything else becomes 10. |
| UserHandler.ListParams | internal/handlers/user_handler.go:43-49 | The listing always gets a positive page and size. |
| UserHandler.ListParamsAlwaysPositive | internal/handlers/user_handler.go:33-49 | Defaulting never changes the page and size the handler chose. |
| UserHandler.ListParamsFallBack | internal/handlers/user_handler.go:33-41 | Page "-4" and "x" become 1, and size "0" becomes 10. |
| UserHandler.ListParamsRoundTrip | internal/handlers/user_handler.go:33-49 | A query spelling out a positive int64 page and size is read back exactly. |
| UserHandler.ParseId | internal/handlers/user_handler.go:61-67 | An id is accepted iff it parses to a positive integer. |
| UserHandler.ParseIdRoundTrip | internal/handlers/user_handler.go:61-67 | Every positive int64 id is read back from its decimal spelling. |
| UserHandler.GetAll | internal/handlers/user_handler.go:32-57 | A query error is a 400. Otherwise a 200 "Users rerieved successfully" page whose pagination is computed from the handler's page and size and the total. Its data is null iff there are no rows, and otherwise the rows' responses in order. |
| UserHandler.GetByID | internal/handlers/user_handler.go:59-75 | A bad id gives "Invalid ID". Otherwise the service answer is a 200 or a 400. |
| UserHandler.Update | internal/handlers/user_handler.go:77-102 | Id, then body, then validation, then the service. Only the service can change the store, and a changed store means a 200. |
| UserHandler.Delete | internal/handlers/user_handler.go:104-118 | A bad id gives "Invalid ID". A success is a 200 with null data. |
| BookHandler.ParseId | internal/handlers/book_handler.go:62-68 | The Atoi error is kept. A non-negative integer is kept, and a negative one wraps by 2^64. |
| BookHandler.ParseIdRoundTrip | internal/handlers/book_handler.go:62-68 | The decimal spelling of every int64 is read back as its `uint`. |
| BookHandler.NegativeIdWraps | internal/handlers/book_handler.go:62-68 | Id "-1" is accepted as 2^64 - 1. |
| BookHandler.CreateWith | internal/handlers/book_handler.go:31-58 | The handler's stages over a given service: a missing user id local gives "User ID is not in context.", then the body and validation stages, then the service, whose error is a 400 and whose success is a 200 "Success create book". |
| BookHandler.Create | internal/handlers/book_handler.go:31-58 | The endpoint as written: the same stages over the service's create as written (`BookService.CreateAsWritten`), so the answer comes from the reload by the owner's id. |
| BookHandler.CreateIntended | internal/handlers/book_handler.go:31-58 | The same stages over the corrected service create. |
| BookHandler.CreateAnswersCouldNotGetBook | internal/handlers/book_handler.go:51-57 | Users 1 to 7 and no books: user 7 posting a valid book gets a 400 "could not get book" while the book is stored as book 1. The corrected endpoint stores the same book and answers 200. |
| BookHandler.GetById | internal/handlers/book_handler.go:60-77 | A parse error gives "Invalid ID". Otherwise the service answer is a 200 or a 400. |
| BookHandler.ListParams | internal/handlers/book_handler.go:80-96 | A non-numeric page or size is refused with Atoi's text. Parsing succeeds iff both parse. Any number is kept as is, and sort, order and search pass through. |
| BookHandler.ListParamsRoundTrip | internal/handlers/book_handler.go:80-96 | A query spelling out int64 page and size and any sort, order and search is read back exactly. |
| BookHandler.ListParamsDefaults | internal/handlers/book_handler.go:80-96 | An empty query asks for page 1 of size 10. |
| BookHandler.ListParamsNegativePage | internal/handlers/book_handler.go:80-96 | Page "-2" is passed on unclamped. |
| BookHandler.GetAll | internal/handlers/book_handler.go:79-104 | A parse or query error is a 400. Otherwise a 200 "Books retrieved successfully" page with the rows' responses in order, whose pagination is computed from the defaulted page and size and the total. |
| BookHandler.Update | internal/handlers/book_handler.go:106-131 | A parse error is reported with Atoi's own text, then body, validation and service follow. A success is a 200 "Success update book". |
| BookHandler.Delete | internal/handlers/book_handler.go:133-148 | A parse error is reported with Atoi's text. A success is a 200 whose data is the deleted id. |

## Left out

- Bootstrap, configuration, database connection and route wiring (`cmd/server/main.go`,
  `internal/config`, `internal/database`, `internal/routes`). They contain no logic beyond
  construction.
- The repositories' listing SQL (`ILIKE` search, `ORDER BY`, `OFFSET`/`LIMIT`). Listings
  are a query function handed to `GetAll`, so search, order and the offset's use are not
  modelled.
- `pkg/jwt` and `pkg/utils` password hashing are not part of this model. The issuer,
  validator, hasher and checker are parameters, and expiry and signatures are
  unmodelled.
- Time: `CreatedAt`/`UpdatedAt` are integer stamps. Insertion stamps both with the given
  `now`, and updates stamp `UpdatedAt`. Database defaults and time zones are not modelled.
- GORM `Updates` skips zero-valued fields. The model writes the merged record whole,
  which agrees because the merged record never has an empty field the stored one lacks.
- Foreign keys: the books-to-users constraint is modelled as "the owner names a user row",
  and its violation is an opaque error. The database's own error texts for it and for
  the e-mail unique index are not modelled.
- Ids above 2^63 - 1: `BookHandler.ParseId` wraps a negative id into a `uint` of 2^63 or
  more (`internal/models/book.go` declares the id `uint`). Postgres's `bigint` cannot hold such an
  id, so the driver refuses the query. The model looks such an id up like any other and
  finds nothing; the driver's error text is not modelled.
- Ids are dense: row `i` has id `i + 1`. A real sequence also consumes ids in inserts
  that fail, so real ids can have gaps. Lookups by a gap id fail as they would here.
- `AuthService.RegisterThenLogin`: the token issuer sees no clock, so the model cannot
  tell a login token from the registration token. The lemma claims only that both are
  the issuer's answer for the same row.
- The middleware stores the claims' user id as a `uint`. The handlers' `.(uint)` type
  assertion is modelled as `Option<nat>`, so a claim of another type is not modelled.
- `strconv.Atoi`'s error text quotes the input with `strconv.Quote`. The model uses
  plain quotes, without escaping.
- JSON body decoding is a `Result` given to the handler, and its error texts are opaque.
- The source as given does not compile. `UserResponse`/`UserToResponse` are declared
  twice in package `schemas`, the route table uses handler fields that are commented
  out, and `UserRepository.GetAll` returns `[]models.User` where the service interface
  expects pointers. The model follows the service interfaces.
- Preloading: a book lookup attaches its owner when that user is live. GORM's own
  preload behaviour for a soft-deleted owner is not modelled beyond this.
- `Paging.CalculatePagination`: Go divides in `float64`. The model divides exactly, so
  totals above 2^53 may round differently in the source. A size of 0 never reaches the
  function, because `GetDefaults` replaces it first.
- `Tags.FirstFailure`: `email` uses the collaborator `isEmail`. go-playground's regular
  expression is not modelled, and `min`/`max` count characters (runes) as Dafny
  characters.
- `Middleware.Authenticate`: the claims are passed on as the validator returns them.
  Whether the account still exists is not re-checked, which matches the source.
- Observation, not a defect claim: `AuthService.Register` and `AuthService.Login` pass the
  password digest as the third argument of the token issuer. Because `pkg/jwt` is not
  part of this model, whether that slot is the role claim is not established here.

## Findings

| source | as written | input that shows it | evidently intended | confidence | as-written member | corrected member |
|---|---|---|---|---|---|---|
| internal/services/book_service.go:47 | After inserting the book, the service reloads it with `GetById(book.UserID)`, looking up a book by its owner's id. | Users 1 to 7 and no books: user 7 creating a book stores it with id 1, the reload of book 7 fails, and the call answers "could not get book". Users 1 and 2 with books 1 and 2 owned by user 2: user 1 creating a book is answered with book 1. | Reload with `GetById(book.ID)`, so the new book is returned with its owner. | not executed | BookService.CreateAsWritten (with BookService.CreateAsWrittenFailsAfterInsert, BookService.CreateAsWrittenReturnsWrongBook and their two examples), reached from the endpoint through BookHandler.Create (BookHandler.CreateAnswersCouldNotGetBook) | BookService.Create (with BookService.CreateThenGet), served by BookHandler.CreateIntended |
