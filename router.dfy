/**
 * The route table and the navigation guard (src/router/index.js). The auth state the
 * guard reads (`loading`, `isAuthenticated`, `isAdmin`) is an input.
 */
module Router {

  /** A route record: its path, its name and its `meta` flags (absent flags are false). */
  datatype Route = Route(path: string, name: string, requiresAuth: bool, requiresAdmin: bool)

  const Routes: seq<Route> := [
    Route("/", "Home", false, false),
    Route("/champions", "Champions", false, false),
    Route("/drafts", "Drafts", false, false),
    Route("/drafts/:year", "DraftDetail", false, false),
    Route("/teams", "Teams", false, false),
    Route("/about", "About", false, false),
    Route("/admin", "Admin", true, true),
    Route("/admin/teams/:id", "EditTeam", true, true)
  ]

  datatype AuthState = AuthState(loading: bool, isAuthenticated: bool, isAdmin: bool)

  /** The argument of the one `next` call: go on, or go to the named route. */
  datatype Decision = Proceed | Redirect(name: string)

  /** `router.beforeEach`: the decision for navigating to `to`. */
  function BeforeEach(to: Route, auth: AuthState): Decision {
    if to.requiresAuth then
      if auth.loading then Proceed
      else if !auth.isAuthenticated then Redirect("Home")
      else if to.requiresAdmin && !auth.isAdmin then Redirect("Home")
      else Proceed
    else Proceed
  }

  /** Every redirect goes to a route of the table, `Home`, which is open to everyone. */
  lemma RedirectsHome(to: Route, auth: AuthState)
    ensures BeforeEach(to, auth).Redirect? ==> BeforeEach(to, auth) == Redirect("Home")
    ensures BeforeEach(Routes[0], auth) == Proceed && Routes[0].name == "Home"
  {
  }

  /**
   * The guard's decision table: an open route always proceeds; on a protected route the
   * navigation proceeds while auth is loading, goes Home when signed out, goes Home for a
   * non-admin on an admin route, and proceeds otherwise.
   */
  lemma GuardSpec(to: Route, auth: AuthState)
    ensures !to.requiresAuth ==> BeforeEach(to, auth) == Proceed
    ensures to.requiresAuth && auth.loading ==> BeforeEach(to, auth) == Proceed
    ensures to.requiresAuth && !auth.loading && !auth.isAuthenticated ==> BeforeEach(to, auth) == Redirect("Home")
    ensures to.requiresAuth && to.requiresAdmin && !auth.loading && auth.isAuthenticated ==>
      (BeforeEach(to, auth) == Proceed <==> auth.isAdmin)
  {
  }

  /** Every route flagged `requiresAdmin` in the table is also flagged `requiresAuth`; names and paths are unique. */
  lemma TableFlags()
    ensures forall i :: 0 <= i < |Routes| && Routes[i].requiresAdmin ==> Routes[i].requiresAuth
    ensures forall i, j :: 0 <= i < j < |Routes| ==> Routes[i].name != Routes[j].name && Routes[i].path != Routes[j].path
  {
  }

  /**
   * So on a route of the table, reaching an admin page needs a signed-in admin, unless
   * auth is still loading.
   */
  lemma AdminGuarded(i: int, auth: AuthState)
    requires 0 <= i < |Routes| && Routes[i].requiresAdmin
    ensures BeforeEach(Routes[i], auth) == Proceed <==> auth.loading || (auth.isAuthenticated && auth.isAdmin)
  {
    TableFlags();
  }

  /** The admin check sits inside the auth check: a route flagged admin-only but not auth-only lets anyone through. */
  lemma AdminFlagAloneIsOpen(to: Route, auth: AuthState)
    requires to.requiresAdmin && !to.requiresAuth
    ensures BeforeEach(to, auth) == Proceed
  {
  }
}
