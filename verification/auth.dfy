/**
 * The authentication and role guards placed in front of the handlers. A
 * guard only reads the session: its result is a verdict, never a new session.
 */
module Auth {
  import opened Js
  import opened Sessions

  datatype Gate = Allow | Unauthenticated | Unpermitted
  {
    /** The HTTP status of a refusal; an allowed request goes on to the handler. */
    function Status(): int
      requires !Allow?
    {
      if Unauthenticated? then 401 else 403
    }
  }

  /** `requireAuth`: 401 unless the session carries a user id. */
  function RequireAuth(s: Session): (g: Gate)
    ensures g == Allow <==> Authenticated(s)
    ensures g != Allow ==> g == Unauthenticated && g.Status() == 401
  {
    if !Authenticated(s) then Unauthenticated else Allow
  }

  /**
   * `requireRole(...allowedRoles)`: 401 without a user id, then 403 unless
   * the session role is one of the allowed ones.
   */
  function RequireRole(allowedRoles: seq<string>, s: Session): (g: Gate)
    ensures g == Unauthenticated <==> !Authenticated(s)
    ensures g == Allow <==> Authenticated(s) && s.userRole.Str? && s.userRole.s in allowedRoles
    ensures g == Unpermitted ==> g.Status() == 403
  {
    if !Authenticated(s) then Unauthenticated
    else if !Includes(allowedRoles, s.userRole) then Unpermitted
    else Allow
  }

  /** `requireStaff`: the same two checks with the staff roles spelled out. */
  function RequireStaff(s: Session): (g: Gate)
    ensures g == Unauthenticated <==> !Authenticated(s)
    ensures g == Allow <==> Authenticated(s) && IsStaff(s.userRole)
  {
    if !Authenticated(s) then Unauthenticated
    else if !(s.userRole.Str? && (s.userRole.s == "Staff-Admin" || s.userRole.s == "Staff-Supervisor")) then Unpermitted
    else Allow
  }

  /** `requireStaff` decides every session exactly as `requireRole('Staff-Admin', 'Staff-Supervisor')`. */
  lemma StaffIsRoleGuard(s: Session)
    ensures RequireStaff(s) == RequireRole(StaffRoles, s)
  {
  }

  /** Any session a role guard admits is also admitted by `requireAuth`. */
  lemma RoleGuardImpliesAuth(allowedRoles: seq<string>, s: Session)
    requires RequireRole(allowedRoles, s) == Allow
    ensures RequireAuth(s) == Allow
  {
  }

  /** Widening the allowed roles never turns an admitted session away. */
  lemma RoleGuardMonotone(allowed: seq<string>, wider: seq<string>, s: Session)
    requires forall r :: r in allowed ==> r in wider
    requires RequireRole(allowed, s) == Allow
    ensures RequireRole(wider, s) == Allow
  {
  }

  /** The user id alone decides between 401 and a role verdict: the role is never consulted first. */
  lemma AuthenticationFirst(allowedRoles: seq<string>, s: Session, role: Value)
    requires !Authenticated(s)
    ensures RequireRole(allowedRoles, s.(userRole := role)) == Unauthenticated
    ensures RequireStaff(s.(userRole := role)) == Unauthenticated
  {
  }
}
