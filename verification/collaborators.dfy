/** The code the core calls but that is not part of this model: password hashing
    (`utils.HashPassword` / `CheckPasswordHash`), JWT issue and validation
    (`pkg/jwt`), go-playground's email syntax check, and the clock. Each is an
    uninterpreted function value; nothing is assumed about them except where a
    lemma states an assumption as a precondition. */
module Collaborators {
  import opened Wrappers
  import opened Models

  /** The claims a valid token yields. */
  datatype Claims = Claims(userId: nat, email: string, role: string)

  datatype Deps = Deps(
    /** The JWT signing secret the services and middleware are constructed with. */
    secret: string,
    /** The clock reading GORM stamps onto rows written during this request. */
    now: Stamp,
    hashPassword: string -> Result<string>,
    checkPassword: (string, string) -> bool,
    /** `jwt.GenerateToken(id, email, passwordHash, secret)`. */
    generateToken: (nat, string, string, string) -> Result<string>,
    /** `jwt.ValidateToken(token, secret)`. */
    validateToken: (string, string) -> Result<Claims>,
    isEmail: string -> bool)

  /** Assumption: a password checks against its own digest. */
  ghost predicate HashChecks(d: Deps) {
    forall p, h :: d.hashPassword(p) == Ok(h) ==> d.checkPassword(p, h)
  }
}
