/** The `isAdminOrPolice` role gate (backend/middleware/adminMiddleware.js). */
module AdminMiddleware {
  import opened Wrappers
  import opened Http
  import opened UserModel

  /** What a middleware does with a request: pass it on, or answer it with an error. */
  datatype Decision = Next | Reject(error: Error)

  const AdminRole: string := "admin"

  /**
   * 401 when `protect` left no user; 403 when its role is neither 'admin' nor 'police';
   * otherwise the request proceeds. Nothing is changed.
   */
  function IsAdminOrPolice(user: Option<PublicUser>): (d: Decision)
    ensures user.None? <==> d == Reject(Unauthorized("Not authorized, no user found"))
    ensures user.Some? ==> (d == Next <==> user.value.role == AdminRole || user.value.role == PoliceRole)
    ensures user.Some? && d != Next ==> d == Reject(Forbidden("Access denied: Admin or Police role required"))
  {
    if user.None? then Reject(Unauthorized("Not authorized, no user found"))
    else if user.value.role != AdminRole && user.value.role != PoliceRole then
      Reject(Forbidden("Access denied: Admin or Police role required"))
    else Next
  }

  /** The gate reads nothing of the user but its role. */
  lemma GateReadsOnlyRole(u: PublicUser, v: PublicUser)
    requires u.role == v.role
    ensures IsAdminOrPolice(Some(u)) == IsAdminOrPolice(Some(v))
  {
  }
}
