/**
 * The frontend's route guard: while the session is being restored it shows
 * a spinner, without a session it sends the user to the login page, and a
 * route restricted to some profiles sends any other profile to the home
 * page.
 */
module RouteGuard {
  import opened Common
  import opened Schema
  import opened Middleware

  /** The signed-in user as the client keeps it; its profile may be missing. */
  datatype SessionUser = SessionUser(id: int, perfil: Option<string>)

  /** The authentication context: still restoring, the stored user and the stored token. */
  datatype Session = Session(loading: bool, user: Option<SessionUser>, token: Option<string>)

  /** `!!user && !!token`: a user and a non-empty token. */
  predicate IsAuthenticated(s: Session) {
    s.user.Some? && TruthyStr(s.token)
  }

  /** `hasRole(...roles)`: a user whose profile is set and is one of the roles. */
  predicate HasRole(s: Session, roles: seq<string>) {
    s.user.Some? && TruthyStr(s.user.value.perfil) && s.user.value.perfil.value in roles
  }

  /** What the guard renders. */
  datatype Screen = Spinner | RedirectLogin | RedirectHome | Content

  /**
   * `ProtectedRoute`: the spinner while loading, then the login redirect
   * without a session, then the home redirect when the route names roles
   * and the user has none of them; otherwise the page itself.
   */
  function Guard(s: Session, roles: Option<seq<string>>): (v: Screen)
    ensures v == Spinner <==> s.loading
    ensures v == RedirectLogin <==> !s.loading && !IsAuthenticated(s)
    ensures v == Content <==>
      !s.loading && IsAuthenticated(s) && (roles.None? || roles.value == [] || HasRole(s, roles.value))
  {
    if s.loading then Spinner
    else if !IsAuthenticated(s) then RedirectLogin
    else if roles.Some? && |roles.value| > 0 && !HasRole(s, roles.value) then RedirectHome
    else Content
  }

  /**
   * For a restored session whose user is the server's actor (same id and
   * profile), a route with roles shows its page exactly when the servers'
   * role check admits that actor for the same roles; without roles, every
   * signed-in user sees the page.
   */
  lemma GuardMatchesRoleCheck(s: Session, actor: Actor, roles: seq<string>)
    requires !s.loading && TruthyStr(s.token)
    requires s.user == Some(SessionUser(actor.id, Some(actor.perfil))) && actor.perfil != ""
    ensures roles != [] ==> (Guard(s, Some(roles)) == Content <==> RoleAllowed(Some(actor), roles))
    ensures Guard(s, None) == Content && Guard(s, Some([])) == Content
  {
  }

  /** Signing out (no user, no token) leads every guarded route to the login page. */
  lemma SignedOutGoesToLogin(s: Session, roles: Option<seq<string>>)
    requires !s.loading && (s.user.None? || !TruthyStr(s.token))
    ensures Guard(s, roles) == RedirectLogin
  {
  }
}
