/** The client's route table and its role-based guard `ProtectedRoute`. */
module App {
  import opened Wrappers
  import opened Strings

  const HR := "HR"
  const Manager := "Manager"

  /** What `ProtectedRoute` renders: a redirect or its children. */
  datatype Decision = RedirectToLogin | RedirectToHome | RenderChildren

  /** `ProtectedRoute`: an unauthenticated visitor is sent to `/login`; with a non-empty
      role list, a user whose role is absent, empty or not listed is sent to `/`;
      otherwise the children are rendered. */
  function ProtectedRoute(isAuthenticated: bool, role: Option<string>, roles: seq<string>): (d: Decision)
    ensures !isAuthenticated ==> d == RedirectToLogin
    ensures isAuthenticated && roles == [] ==> d == RenderChildren
    ensures isAuthenticated && roles != [] ==>
      (d == RenderChildren <==> role.Some? && role.value != "" && role.value in roles)
    ensures d != RedirectToLogin ==> isAuthenticated
  {
    if !isAuthenticated then RedirectToLogin
    else if |roles| > 0 && (role.None? || role.value == "" || role.value !in roles) then RedirectToHome
    else RenderChildren
  }

  datatype Page = LoginPage | Dashboard | EmployeeList | AddEmployee | EditEmployee(id: string) | Reports | Settings

  /** A declared route: the page it shows, whether `ProtectedRoute` wraps it, and its role list. */
  datatype Route = Route(page: Page, guarded: bool, roles: seq<string>)

  /** A single non-empty path segment, as a `:id` parameter matches it. */
  predicate IsSegment(s: string) {
    s != [] && '/' !in s
  }

  /** The path without its trailing slashes: a route matches with any number of them. */
  function TrimTrailingSlashes(path: string): (r: string)
    ensures |r| <= |path| && r == path[..|r|]
    ensures forall i :: |r| <= i < |path| ==> path[i] == '/'
    ensures r == [] || r[|r| - 1] != '/'
  {
    if path != [] && path[|path| - 1] == '/' then TrimTrailingSlashes(path[..|path| - 1]) else path
  }

  /** What the router compares against the static paths: the path without trailing
      slashes, lowered. */
  function RouteKey(path: string): (k: string)
    ensures |k| == |TrimTrailingSlashes(path)|
  {
    ToLower(TrimTrailingSlashes(path))
  }

  /** The `<Route path=…>` declarations; `None` is the catch-all `*`.  The router
      compares the static segments without regard to case and ignores trailing
      slashes; a `:id` parameter keeps the case it was written in. */
  function MatchRoute(path: string): (r: Option<Route>)
    ensures r.Some? ==> (r.value.guarded <==> r.value.page != LoginPage)
    ensures r.Some? && r.value.page.EditEmployee? ==> IsSegment(r.value.page.id)
    ensures r.Some? && r.value.page == Dashboard ==> r.value.roles == []
    ensures r.Some? && r.value.page == LoginPage ==> RouteKey(path) == "/login"
  {
    RouteTable(RouteKey(path), TrimTrailingSlashes(path))
  }

  /** The table itself, over the key and the path it was lowered from. */
  function RouteTable(key: string, p: string): (r: Option<Route>)
    requires |key| == |p|
    ensures r.Some? ==> (r.value.guarded <==> r.value.page != LoginPage)
    ensures r.Some? && r.value.page.EditEmployee? ==> IsSegment(r.value.page.id)
    ensures r.Some? && r.value.page == Dashboard ==> r.value.roles == []
    ensures r.Some? && r.value.page == LoginPage ==> key == "/login"
  {
    if key == "/login" then Some(Route(LoginPage, false, []))
    else if key == "" || key == "/dashboard" || key == "/old-dashboard" then Some(Route(Dashboard, true, []))
    else if key == "/employees" then Some(Route(EmployeeList, true, [HR, Manager]))
    else if key == "/employees/add" || key == "/add-employee" then Some(Route(AddEmployee, true, [HR]))
    else if StartsWith(key, "/employees/edit/") && IsSegment(p[16..]) then
      Some(Route(EditEmployee(p[16..]), true, [HR]))
    else if StartsWith(key, "/edit/") && IsSegment(p[6..]) then Some(Route(EditEmployee(p[6..]), true, [HR]))
    else if key == "/reports" then Some(Route(Reports, true, [HR, Manager]))
    else if key == "/settings" then Some(Route(Settings, true, [HR]))
    else None
  }

  /** A path written as declared (lower case, no trailing slash) is its own key. */
  lemma PlainPath(path: string)
    requires path != [] && path[|path| - 1] != '/'
    requires forall i :: 0 <= i < |path| ==> !('A' <= path[i] <= 'Z')
    ensures TrimTrailingSlashes(path) == path && RouteKey(path) == path
  {
    ToLowerOfLower(path);
  }

  /** One more trailing slash never changes the route. */
  lemma MatchRouteTrailingSlash(path: string)
    ensures MatchRoute(path + "/") == MatchRoute(path)
  {
    assert (path + "/")[..|path|] == path;
  }

  /** The route with its `:id` lowered too. */
  function LowerRoute(r: Option<Route>): Option<Route> {
    if r.Some? && r.value.page.EditEmployee? then Some(r.value.(page := EditEmployee(ToLower(r.value.page.id))))
    else r
  }

  /** Lowering keeps slashes where they are, so it commutes with dropping them. */
  lemma {:induction false} TrimLowered(path: string)
    ensures TrimTrailingSlashes(ToLower(path)) == ToLower(TrimTrailingSlashes(path))
    decreases |path|
  {
    if path != [] {
      var init := path[..|path| - 1];
      ToLowerSlices(path, |path| - 1);
      assert ToLower(path)[..|path| - 1] == ToLower(init);
      assert (LowerChar(path[|path| - 1]) == '/') == (path[|path| - 1] == '/');
      if path[|path| - 1] == '/' {
        TrimLowered(init);
      }
    }
  }

  /** Dropping the first `k` characters and lowering commute, and a slash survives
      lowering. */
  lemma SegmentLowered(p: string, k: nat)
    requires k <= |p|
    ensures ToLower(p)[k..] == ToLower(p[k..])
    ensures IsSegment(ToLower(p)[k..]) == IsSegment(p[k..])
  {
    ToLowerSlices(p, k);
    var a, b := ToLower(p)[k..], p[k..];
    assert forall i :: 0 <= i < |b| ==> (a[i] == '/' <==> b[i] == '/');
    assert ('/' in a) == ('/' in b);
  }

  /** The table reads the key for every static path; the path it came from only
      supplies the `:id`. */
  lemma RouteTableLowered(key: string, p: string)
    requires key == ToLower(p)
    ensures RouteTable(key, ToLower(p)) == LowerRoute(RouteTable(key, p))
  {
    if |p| >= 16 { SegmentLowered(p, 16); }
    if |p| >= 6 { SegmentLowered(p, 6); }
  }

  /** The capitals of a path change no page, only the case of an `:id`. */
  lemma MatchRouteIgnoresCase(path: string)
    ensures MatchRoute(ToLower(path)) == LowerRoute(MatchRoute(path))
  {
    var p := TrimTrailingSlashes(path);
    TrimLowered(path);
    ToLowerSlices(p, 0);
    assert RouteKey(ToLower(path)) == ToLower(p);
    RouteTableLowered(ToLower(p), p);
  }

  /** One step of navigation: the page shown at `path`, or where it redirects. */
  datatype Outcome = Show(page: Page) | Redirect(to: string)

  function Visit(path: string, isAuthenticated: bool, role: Option<string>): Outcome {
    match MatchRoute(path)
    case None => Redirect("/")
    case Some(route) =>
      if !route.guarded then Show(route.page)
      else
        match ProtectedRoute(isAuthenticated, role, route.roles)
        case RedirectToLogin => Redirect("/login")
        case RedirectToHome => Redirect("/")
        case RenderChildren => Show(route.page)
  }

  /** The page a visitor finally sees, following redirects (at most two are ever needed). */
  function Land(path: string, isAuthenticated: bool, role: Option<string>): Outcome {
    match Visit(path, isAuthenticated, role)
    case Show(p) => Show(p)
    case Redirect(t) =>
      match Visit(t, isAuthenticated, role)
      case Show(p) => Show(p)
      case Redirect(t2) => Visit(t2, isAuthenticated, role)
  }

  /** Following redirects always ends on a page: the login page for visitors who are
      not authenticated, the dashboard or the requested page otherwise. */
  lemma LandingAlwaysShowsAPage(path: string, isAuthenticated: bool, role: Option<string>)
    ensures Land(path, isAuthenticated, role).Show?
    ensures !isAuthenticated ==> Land(path, isAuthenticated, role) == Show(LoginPage)
    ensures isAuthenticated ==> Land(path, isAuthenticated, role).page != LoginPage || RouteKey(path) == "/login"
  {
    RedirectTargets();
  }

  /** The two paths the guard redirects to: the login page and the dashboard. */
  lemma RedirectTargets()
    ensures MatchRoute("/login") == Some(Route(LoginPage, false, []))
    ensures MatchRoute("/") == Some(Route(Dashboard, true, []))
  {
    PlainPath("/login");
    assert TrimTrailingSlashes("/") == "";
  }

  /** A visitor who is not authenticated never sees a guarded page. */
  lemma UnauthenticatedSeesOnlyLogin(path: string, role: Option<string>)
    ensures Visit(path, false, role) == Show(LoginPage) || Visit(path, false, role).Redirect?
    ensures Visit(path, false, role).Redirect? ==>
      Visit(path, false, role).to == (if MatchRoute(path).None? then "/" else "/login")
  {
  }

  /** HR may open every declared route. */
  lemma HROpensEveryRoute(path: string)
    requires MatchRoute(path).Some?
    ensures Visit(path, true, Some(HR)) == Show(MatchRoute(path).value.page)
  {
  }

  /** A Manager sees the employee list and the reports but is sent home from the
      add, edit and settings pages. */
  lemma ManagerAccess(id: string)
    requires IsSegment(id)
    ensures Visit("/employees", true, Some(Manager)) == Show(EmployeeList)
    ensures Visit("/reports", true, Some(Manager)) == Show(Reports)
    ensures Visit("/employees/add", true, Some(Manager)) == Redirect("/")
    ensures Visit("/add-employee", true, Some(Manager)) == Redirect("/")
    ensures Visit("/employees/edit/" + id, true, Some(Manager)) == Redirect("/")
    ensures Visit("/edit/" + id, true, Some(Manager)) == Redirect("/")
    ensures Visit("/settings", true, Some(Manager)) == Redirect("/")
  {
    ManagerListAccess();
    ManagerAddAccess();
    ManagerEditAccess(id);
  }

  lemma ManagerListAccess()
    ensures Visit("/employees", true, Some(Manager)) == Show(EmployeeList)
    ensures Visit("/reports", true, Some(Manager)) == Show(Reports)
    ensures Visit("/settings", true, Some(Manager)) == Redirect("/")
  {
    PlainPath("/employees");
    PlainPath("/reports");
    PlainPath("/settings");
    assert !StartsWith("/reports", "/edit/") by { assert "/reports"[..6][1] == 'r'; }
    assert !StartsWith("/settings", "/edit/") by { assert "/settings"[..6][1] == 's'; }
  }

  lemma ManagerAddAccess()
    ensures Visit("/employees/add", true, Some(Manager)) == Redirect("/")
    ensures Visit("/add-employee", true, Some(Manager)) == Redirect("/")
  {
    PlainPath("/employees/add");
    PlainPath("/add-employee");
  }

  /** A path made of a declared prefix and a segment keeps its segment when trimmed,
      and its key is the prefix followed by the lowered segment. */
  lemma PrefixedKey(prefix: string, id: string)
    requires IsSegment(id)
    requires forall i :: 0 <= i < |prefix| ==> !('A' <= prefix[i] <= 'Z')
    ensures TrimTrailingSlashes(prefix + id) == prefix + id
    ensures RouteKey(prefix + id) == prefix + ToLower(id)
  {
    var p := prefix + id;
    assert p[|p| - 1] == id[|id| - 1] && id[|id| - 1] in id;
    ToLowerAppend(prefix, id);
    ToLowerOfLower(prefix);
  }

  lemma ManagerEditAccess(id: string)
    requires IsSegment(id)
    ensures Visit("/employees/edit/" + id, true, Some(Manager)) == Redirect("/")
    ensures Visit("/edit/" + id, true, Some(Manager)) == Redirect("/")
  {
    LongEditRoute(id);
    ShortEditRoute(id);
  }

  lemma LongEditRoute(id: string)
    requires IsSegment(id)
    ensures MatchRoute("/employees/edit/" + id) == Some(Route(EditEmployee(id), true, [HR]))
  {
    var p := "/employees/edit/" + id;
    PrefixedKey("/employees/edit/", id);
    var k := RouteKey(p);
    assert |k| > 16;
    assert k[..16] == "/employees/edit/";
    assert p[16..] == id;
    assert RouteTable(k, p) == Some(Route(EditEmployee(id), true, [HR]));
  }

  lemma ShortEditRoute(id: string)
    requires IsSegment(id)
    ensures MatchRoute("/edit/" + id) == Some(Route(EditEmployee(id), true, [HR]))
  {
    var q := "/edit/" + id;
    PrefixedKey("/edit/", id);
    var k := RouteKey(q);
    assert |k| > 6 && k[2] == 'd';
    assert k[..6] == "/edit/";
    assert !StartsWith(k, "/employees/edit/") by {
      if |k| >= 16 { assert k[..16][2] == 'd'; }
    }
    assert k != "/login" && k != "/dashboard" && k != "/old-dashboard" && k != "/employees" by {
      assert k[1] == 'e' && k[2] == 'd';
    }
    assert k != "/employees/add" && k != "/add-employee" by {
      assert k[1] == 'e' && k[2] == 'd';
    }
    assert q[6..] == id;
    assert RouteTable(k, q) == Some(Route(EditEmployee(id), true, [HR]));
  }

  /** A role other than HR and Manager (or no role) reaches only the dashboard routes:
      every other guarded route sends it home. */
  lemma OtherRolesSeeOnlyDashboards(path: string, role: Option<string>)
    requires role != Some(HR) && role != Some(Manager)
    requires MatchRoute(path).Some? && MatchRoute(path).value.guarded
    ensures Visit(path, true, role).Show? <==> MatchRoute(path).value.page == Dashboard
  {
  }
}
