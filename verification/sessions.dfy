/**
 * The server-side session attributes the handlers read and write, and the
 * role vocabulary the controllers compare them against.
 */
module Sessions {
  import opened Js

  /**
   * `req.session`: the account fields set at login (`userId`, `userRole`,
   * `username`) and the CSRF token. Attributes never set read as undefined.
   */
  datatype Session = Session(userId: Value, userRole: Value, username: Value, csrfToken: Option<string>)

  /** The guards' test `req.session.userId` (a truthy id). */
  predicate Authenticated(s: Session)
  {
    Truthy(s.userId)
  }

  /** The CSRF guard's test `req.session.csrfToken` (a non-empty token). */
  predicate HasCsrfToken(s: Session)
  {
    s.csrfToken.Some? && |s.csrfToken.value| > 0
  }

  /** The four account roles the controllers and validators accept. */
  const UserRoles: seq<string> := ["Student", "Community", "Staff-Admin", "Staff-Supervisor"]

  /** The roles that pass the staff checks. */
  const StaffRoles: seq<string> := ["Staff-Admin", "Staff-Supervisor"]

  /** `list.includes(v)`: strict equality with one of the strings in the list. */
  predicate Includes(list: seq<string>, v: Value)
  {
    v.Str? && v.s in list
  }

  predicate IsUserRole(v: Value)
  {
    Includes(UserRoles, v)
  }

  predicate IsStaff(v: Value)
  {
    Includes(StaffRoles, v)
  }
}
