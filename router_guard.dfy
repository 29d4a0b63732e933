/** The navigation guard of the front-end router (frontend/src/router/index.ts)
    and the route table it consults. */
module RouterGuard {

  import opened Base

  datatype Role = Student | Instructor | Admin

  /** A route's `meta`: absent flags are false, an absent roles list is None. */
  datatype RouteMeta = RouteMeta(requiresGuest: bool, requiresAuth: bool, roles: Option<seq<Role>>)

  datatype Route = Route(path: string, name: string, meta: RouteMeta)

  datatype Decision = Proceed | Redirect(path: string)

  const NoMeta := RouteMeta(false, false, None)
  const GuestOnly := RouteMeta(true, false, None)
  const SignedIn := RouteMeta(false, true, None)
  const InstructorsOnly := RouteMeta(false, true, Some([Instructor]))
  const StudentsOnly := RouteMeta(false, true, Some([Student]))

  /** The `routes` table, in its declared order. */
  const Routes: seq<Route> := [
    Route("/", "Home", NoMeta),
    Route("/login", "Login", GuestOnly),
    Route("/register", "Register", GuestOnly),
    Route("/dashboard", "Dashboard", SignedIn),
    Route("/courses", "CourseList", SignedIn),
    Route("/courses/create", "CourseCreate", InstructorsOnly),
    Route("/courses/:id", "CourseDetail", SignedIn),
    Route("/courses/:id/edit", "CourseEdit", InstructorsOnly),
    Route("/courses/:courseId/learn", "CoursePlayer", StudentsOnly),
    Route("/quizzes/:id/start", "QuizSession", StudentsOnly),
    Route("/analytics", "Analytics", InstructorsOnly),
    Route("/profile", "Profile", SignedIn),
    Route("/settings", "Settings", SignedIn),
    Route("/:pathMatch(.*)*", "NotFound", NoMeta)
  ]

  /** The auth store's `isAuthenticated` getter: an access token is present (non-empty). */
  predicate IsAuthenticated(accessToken: Option<string>)
  {
    accessToken.Some? && accessToken.value != ""
  }

  /** The `router.beforeEach` guard. The role is None when no user profile is loaded. */
  function Guard(meta: RouteMeta, isAuthenticated: bool, role: Option<Role>): (d: Decision)
    ensures meta.requiresGuest && isAuthenticated ==> d == Redirect("/dashboard")
    ensures !(meta.requiresGuest && isAuthenticated) && meta.requiresAuth && !isAuthenticated
            ==> d == Redirect("/login")
    ensures !(meta.requiresGuest && isAuthenticated) && meta.requiresAuth && isAuthenticated
            && meta.roles.Some? && (role.None? || role.value !in meta.roles.value)
            ==> d == Redirect("/dashboard")
    ensures d == Proceed <==>
              && !(meta.requiresGuest && isAuthenticated)
              && (meta.requiresAuth ==> isAuthenticated && (meta.roles.Some? ==> role.Some? && role.value in meta.roles.value))
    ensures d == Proceed || d == Redirect("/dashboard") || d == Redirect("/login")
  {
    if meta.requiresGuest && isAuthenticated then Redirect("/dashboard")
    else if meta.requiresAuth then
      if !isAuthenticated then Redirect("/login")
      else if meta.roles.Some? && !(role.Some? && role.value in meta.roles.value) then Redirect("/dashboard")
      else Proceed
    else Proceed
  }

  /** The meta of the first route whose path pattern is `path`, if any; matching a URL to a pattern is not modelled. */
  function MetaOf(path: string): (m: Option<RouteMeta>)
    ensures m.Some? <==> exists i | 0 <= i < |Routes| :: Routes[i].path == path
  {
    FirstMeta(Routes, path)
  }

  function FirstMeta(routes: seq<Route>, path: string): (m: Option<RouteMeta>)
    ensures m.Some? <==> exists i | 0 <= i < |routes| :: routes[i].path == path
    ensures m.Some? ==> exists i | 0 <= i < |routes| :: routes[i].path == path && routes[i].meta == m.value
  {
    if routes == [] then None
    else if routes[0].path == path then Some(routes[0].meta)
    else
      var m := FirstMeta(routes[1..], path);
      assert forall i | 1 <= i < |routes| :: routes[i] == routes[1..][i - 1];
      m
  }

  /** Without an access token, or with an empty one, the user counts as signed out: every
      route that requires authentication sends them to /login, and every other route,
      guest-only ones included, lets them through, whatever the role. */
  lemma SignedOutGuard(meta: RouteMeta, accessToken: Option<string>, role: Option<Role>)
    requires accessToken.None? || accessToken.value == ""
    ensures !IsAuthenticated(accessToken)
    ensures meta.requiresAuth ==> Guard(meta, IsAuthenticated(accessToken), role) == Redirect("/login")
    ensures !meta.requiresAuth ==> Guard(meta, IsAuthenticated(accessToken), role) == Proceed
  {
  }

  /** A roles list only matters on routes that require authentication. */
  lemma {:induction false} RolesIgnoredWithoutAuth(meta: RouteMeta, isAuthenticated: bool, role: Option<Role>)
    requires !meta.requiresAuth
    ensures Guard(meta, isAuthenticated, role) == Guard(meta.(roles := None), isAuthenticated, role)
  {
  }

  /** No redirect loop: whatever route is requested, for any authentication state and
      role, the route the guard redirects to is in the table and the guard admits it. */
  lemma NoRedirectLoop(meta: RouteMeta, isAuthenticated: bool, role: Option<Role>)
    ensures Guard(meta, isAuthenticated, role).Redirect? ==>
              var target := Guard(meta, isAuthenticated, role).path;
              MetaOf(target).Some? && Guard(MetaOf(target).value, isAuthenticated, role) == Proceed
  {
    LoginIsGuestOnly();
    DashboardIsSignedIn();
  }

  lemma LoginIsGuestOnly()
    ensures MetaOf("/login") == Some(GuestOnly)
  {
    assert Routes[0].path != "/login";
    assert FirstMeta(Routes[1..], "/login") == Some(GuestOnly);
  }

  lemma DashboardIsSignedIn()
    ensures MetaOf("/dashboard") == Some(SignedIn)
  {
    assert Routes[0].path != "/dashboard" && Routes[1].path != "/dashboard" && Routes[2].path != "/dashboard";
    assert Routes[1..][1..][1..] == Routes[3..];
    assert FirstMeta(Routes[3..], "/dashboard") == Some(SignedIn);
    assert FirstMeta(Routes[2..], "/dashboard") == Some(SignedIn);
    assert FirstMeta(Routes[1..], "/dashboard") == Some(SignedIn);
  }

  /** Only the student-only and instructor-only routes look at the role; on every other
      route of the table a signed-in user proceeds whatever their role. */
  lemma SignedInUsersReachUnrestrictedRoutes(i: nat, role: Option<Role>)
    requires i < |Routes| && !Routes[i].meta.requiresGuest && Routes[i].meta.roles.None?
    ensures Guard(Routes[i].meta, true, role) == Proceed
  {
  }
}
