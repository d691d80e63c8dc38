/** The persisted entities of internal/models. Timestamps are opaque clock readings:
    the model copies and overwrites them but never interprets them. */
module Models {
  import opened Wrappers

  /** A `time.Time` value, left uninterpreted. */
  type Stamp = int

  /** A row of the `users` table. `deleted` stands for a non-null `DeletedAt`
      (GORM soft delete); `password` holds the hasher's digest. */
  datatype User = User(
    id: nat,
    email: string,
    name: string,
    password: string,
    role: string,
    createdAt: Stamp,
    updatedAt: Stamp,
    deleted: bool)

  /** A row of the `books` table. `user` is the preloaded owner, filled in only by a
      lookup that preloads it; stored rows keep it `None`. */
  datatype Book = Book(
    id: nat,
    title: string,
    author: string,
    desc: string,
    userId: nat,
    user: Option<User>,
    createdAt: Stamp,
    updatedAt: Stamp,
    deleted: bool)
}
