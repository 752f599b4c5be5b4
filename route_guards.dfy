/**
 * The two route guards (src/components/ProtectedRoute.jsx, src/components/RoleGuard.jsx) and the
 * way the router stacks them over the user and the admin subtrees (src/app/router.jsx). The stored
 * token and user record are inputs here.
 */
module RouteGuards {
  import opened Wrappers
  import opened Js

  /** What a guard renders: its children, or a redirect that replaces the history entry. A redirect
      to the login page may carry the location the visitor came from. */
  datatype Outcome = Render | Redirect(to: string, from: Option<string>)

  /** `getToken()`: null when nothing is stored. */
  type Token = Option<string>

  predicate HasToken(token: Token) {
    token.Some? && token.value != ""
  }

  /** `ProtectedRoute`: without a token the visitor is sent to /login, remembering where they were. */
  function ProtectedRoute(token: Token, location: string): (r: Outcome)
    ensures !HasToken(token) <==> r.Redirect?
    ensures r.Redirect? ==> r.to == "/login" && r.from == Some(location)
  {
    if !HasToken(token) then Redirect("/login", Some(location)) else Render
  }

  /** The decision reads the token only: two tokens that are both present, or both absent, lead to
      the same kind of outcome whatever else is stored. */
  lemma ProtectedRouteOnlyToken(t1: Token, t2: Token, location: string)
    requires HasToken(t1) == HasToken(t2)
    ensures ProtectedRoute(t1, location) == ProtectedRoute(t2, location)
  {
  }

  /** The stored user record; `role` is whatever the record holds. */
  datatype StoredUser = StoredUser(role: Value)

  /** `allowedRoles.includes(user.role)`: the allowed roles are strings, so only a string role can match. */
  predicate RoleAllowed(allowedRoles: seq<string>, role: Value) {
    role.Str? && role.s in allowedRoles
  }

  /** `RoleGuard`: no user goes to /login; an allowed role renders; an admin elsewhere goes to /admin;
      anyone else goes to /dashboard. */
  function RoleGuard(user: Option<StoredUser>, allowedRoles: seq<string>): (r: Outcome)
    ensures user.None? ==> r == Redirect("/login", None)
    ensures user.Some? ==> (r == Render <==> RoleAllowed(allowedRoles, user.value.role))
    ensures user.Some? && !RoleAllowed(allowedRoles, user.value.role) ==>
              r == Redirect(if user.value.role == Str("admin") then "/admin" else "/dashboard", None)
  {
    if user.None? then Redirect("/login", None)
    else if !RoleAllowed(allowedRoles, user.value.role) then
      if user.value.role == Str("admin") then Redirect("/admin", None) else Redirect("/dashboard", None)
    else Render
  }

  /** The roles each subtree of the router admits. */
  const UserTreeRoles: seq<string> := ["user"]
  const AdminTreeRoles: seq<string> := ["admin"]

  /** The subtree a redirect target lies in: /admin in the admin one, /dashboard in the user one. */
  function TreeRoles(path: string): seq<string> {
    if path == "/admin" then AdminTreeRoles else UserTreeRoles
  }

  /** A page of either subtree: the token check first, then the role check of that subtree. */
  function GuardedPage(token: Token, user: Option<StoredUser>, location: string, allowedRoles: seq<string>): (r: Outcome)
    ensures !HasToken(token) ==> r == ProtectedRoute(token, location)
    ensures HasToken(token) ==> r == RoleGuard(user, allowedRoles)
  {
    var outer := ProtectedRoute(token, location);
    if outer.Render? then RoleGuard(user, allowedRoles) else outer
  }

  /** For the two known roles one redirect is enough: a signed-in user or admin turned away from one
      subtree lands on the home of the subtree that admits them, which renders. */
  lemma {:induction false} OneRedirectReachesHome(token: Token, role: string, location: string, allowedRoles: seq<string>)
    requires HasToken(token)
    requires role == "user" || role == "admin"
    requires allowedRoles == UserTreeRoles || allowedRoles == AdminTreeRoles
    ensures var r := GuardedPage(token, Some(StoredUser(Str(role))), location, allowedRoles);
            r.Redirect? ==> GuardedPage(token, Some(StoredUser(Str(role))), r.to, TreeRoles(r.to)) == Render
  {
    var user := Some(StoredUser(Str(role)));
    if role == "admin" {
      assert !RoleAllowed(UserTreeRoles, Str(role));
      assert RoleAllowed(AdminTreeRoles, Str(role));
    } else {
      assert RoleAllowed(UserTreeRoles, Str(role));
      assert !RoleAllowed(AdminTreeRoles, Str(role));
    }
  }

  /** Any other role is admitted by neither subtree: it is sent to /dashboard, and /dashboard sends it
      there again. */
  lemma UnknownRoleNeverRenders(token: Token, role: Value, location: string, allowedRoles: seq<string>)
    requires HasToken(token)
    requires role != Str("user") && role != Str("admin")
    requires allowedRoles == UserTreeRoles || allowedRoles == AdminTreeRoles
    ensures GuardedPage(token, Some(StoredUser(role)), location, allowedRoles) == Redirect("/dashboard", None)
  {
  }
}
