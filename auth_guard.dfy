/** Session-based guards: who is signed in and who is an administrator. */
module AuthGuard {
  import opened Common
  import opened AppErrors

  /** The user stored in the session. */
  datatype SessionUser = SessionUser(id: int, loginId: string, displayName: Option<string>, email: Option<string>,
                                     profileImageUrl: Option<string>, oauthProvider: string, role: string)

  /** `is_admin`: the role is exactly "ADMIN", case included. */
  predicate IsAdmin(u: SessionUser) {
    u.role == "ADMIN"
  }

  const NotAuthenticated: string := "Not authenticated"
  const AdminRequired: string := "Admin access required"

  /** `require_auth!`. */
  function RequireAuth(session: Option<SessionUser>): (r: Outcome<SessionUser>)
    ensures r.Ok? <==> session.Some?
    ensures r.Ok? ==> r.value == session.value
    ensures r.Err? ==> r.error == Unauthorized(NotAuthenticated)
  {
    match session
    case Some(u) => Ok(u)
    case None => Err(Unauthorized(NotAuthenticated))
  }

  /** `require_admin!`. */
  function RequireAdmin(session: Option<SessionUser>): (r: Outcome<SessionUser>)
    ensures r.Ok? ==> session == Some(r.value) && IsAdmin(r.value)
    ensures session.None? ==> r == Err(Unauthorized(NotAuthenticated))
    ensures session.Some? && !IsAdmin(session.value) ==> r == Err(Forbidden(AdminRequired))
    ensures session.Some? && IsAdmin(session.value) ==> r == Ok(session.value)
  {
    match session
    case Some(u) => if IsAdmin(u) then Ok(u) else Err(Forbidden(AdminRequired))
    case None => Err(Unauthorized(NotAuthenticated))
  }

  /** The admin guard is the auth guard plus the role check: it fails with
      401 exactly when the auth guard does, otherwise with 403 for
      non-admins, and never answers 403 to a signed-out request. */
  lemma AdminRefinesAuth(session: Option<SessionUser>)
    ensures RequireAuth(session).Err? ==> RequireAdmin(session) == RequireAuth(session)
    ensures RequireAuth(session).Ok? ==>
      (RequireAdmin(session).Ok? <==> IsAdmin(RequireAuth(session).value))
    ensures RequireAdmin(session).Err? ==>
      StatusCode(RequireAdmin(session).error) == (if session.None? then 401 else 403)
  {}

  /** Lower-case "admin" is not an administrator. */
  lemma RoleIsCaseSensitive(u: SessionUser)
    requires u.role == "admin"
    ensures !IsAdmin(u) && RequireAdmin(Some(u)) == Err(Forbidden(AdminRequired))
  {
    assert u.role[0] != "ADMIN"[0];
  }
}
