/**
 * `useCheckRole` (frontend/src/hooks/useCheckRole.tsx): the role the pages
 * act on, derived from the signed-in record, with a loading flag that is
 * set while the check runs and cleared when it completes.
 */
module CheckRole {
  import opened Wrappers
  import opened AuthContext

  datatype RoleCheck = RoleCheck(isLoading: bool, userRole: Option<Role>)

  /** Before the effect runs: loading, no role. */
  const Initial := RoleCheck(true, None)

  /** `checkUserRole()` once it has completed. */
  function CheckUserRole(u: AuthUser): RoleCheck {
    if u.token != "" && u.role == Some(Administrator) then RoleCheck(false, Some(Administrator))
    else if u.token != "" && u.role == Some(User) then RoleCheck(false, Some(User))
    else RoleCheck(false, None)
  }

  /**
   * A role is granted exactly when the record is signed in and carries a
   * role, and it is that role: a role left with an empty token grants
   * nothing. The check always completes.
   */
  lemma RoleClassification(u: AuthUser)
    ensures !CheckUserRole(u).isLoading
    ensures CheckUserRole(u).userRole.Some? <==> Authenticated(u) && u.role.Some?
    ensures CheckUserRole(u).userRole.Some? ==> CheckUserRole(u).userRole == u.role
    ensures CheckUserRole(u).userRole == Some(Administrator) <==> u.token != "" && u.role == Some(Administrator)
  {
    if u.role.Some? {
      match u.role.value
      case Administrator =>
      case User =>
    }
  }

  /** After `login(t, r)` the role is `r` when `t` is non-empty; after `logout`, and on the server, there is none. */
  lemma RoleAfterLogin(token: string, role: Role)
    ensures CheckUserRole(AuthUser(token, Some(role))).userRole == (if token != "" then Some(role) else None)
    ensures CheckUserRole(SignedOut).userRole.None?
    ensures CheckUserRole(UserOf(UseAuth(false, None)).value).userRole.None?
  {
  }
}
