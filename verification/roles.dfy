/** The closed role set of internal/models/enums.go. */
module Roles {
  import opened Wrappers

  const RoleUser: string := "USER"
  const RoleAdmin: string := "ADMIN"

  /** The roles accepted anywhere a role is written, in declaration order. */
  const ValidRoles: seq<string> := [RoleUser, RoleAdmin]

  /** The linear scan of `IsValidRole`: true as soon as an entry equals `role`. */
  function Scan(roles: seq<string>, role: string): (found: bool)
    ensures found <==> role in roles
  {
    if |roles| == 0 then false
    else if roles[0] == role then true
    else
      assert roles == [roles[0]] + roles[1..];
      Scan(roles[1..], role)
  }

  /** Exact, case-sensitive membership in `ValidRoles`. */
  function IsValidRole(role: string): (ok: bool)
    ensures ok <==> role == RoleUser || role == RoleAdmin
  {
    Scan(ValidRoles, role)
  }

  /** Case-folded spellings and the empty string are rejected. */
  lemma RoleMatchingIsCaseSensitive()
    ensures !IsValidRole("user") && !IsValidRole("Admin") && !IsValidRole("admin")
    ensures !IsValidRole("")
  {
  }

  /** The same set as a closed enumeration, as role values are read at the boundary. */
  datatype Role = User | Admin

  function Name(r: Role): string {
    match r
    case User => RoleUser
    case Admin => RoleAdmin
  }

  function Parse(s: string): (r: Option<Role>)
    ensures r.Some? <==> IsValidRole(s)
  {
    if s == RoleUser then Some(User)
    else if s == RoleAdmin then Some(Admin)
    else None
  }

  /** Parse and Name are inverse bijections between the enumeration and `ValidRoles`. */
  lemma ParseNameRoundTrip(r: Role, s: string)
    ensures Parse(Name(r)) == Some(r)
    ensures Parse(s) == Some(r) <==> Name(r) == s
    ensures Name(r) in ValidRoles
  {
  }
}
