/** The navigation guard: the route table's meta fields, the ordered rules
    that decide whether a navigation passes or is redirected, and what
    happens when redirects are followed. The browser's local storage enters
    only as two inputs: whether an access token is present and the stored
    role. */
module Router {
  import opened Common

  /** A navigation target. The guard and the route table compare `to.path`
      only against fixed strings, so each of those strings is a constructor
      and every other path is `Other`. */
  datatype Path =
    | Landing | Login | NewRecords | RecentRecords | Welcome | Home | Admin | Profiles
    | Teachers | DataEntry | Tracking | AdminProfiles | SectionTracking | TeacherAccount
    | Other(url: string)

  /** The path as it appears in the address bar. */
  function Text(p: Path): string {
    match p
    case Landing => "/"
    case Login => "/login"
    case NewRecords => "/newrecords"
    case RecentRecords => "/recentrecords"
    case Welcome => "/welcome"
    case Home => "/home"
    case Admin => "/admin"
    case Profiles => "/profiles"
    case Teachers => "/teachers"
    case DataEntry => "/data_entry"
    case Tracking => "/tracking"
    case AdminProfiles => "/admin_profiles"
    case SectionTracking => "/section_tracking"
    case TeacherAccount => "/teacher_account"
    case Other(u) => u
  }

  /** Reads an address-bar path. */
  function Parse(s: string): (p: Path)
    ensures Text(p) == s
  {
    if s == "/" then Landing
    else if s == "/login" then Login
    else if s == "/newrecords" then NewRecords
    else if s == "/recentrecords" then RecentRecords
    else if s == "/welcome" then Welcome
    else if s == "/home" then Home
    else if s == "/admin" then Admin
    else if s == "/profiles" then Profiles
    else if s == "/teachers" then Teachers
    else if s == "/data_entry" then DataEntry
    else if s == "/tracking" then Tracking
    else if s == "/admin_profiles" then AdminProfiles
    else if s == "/section_tracking" then SectionTracking
    else if s == "/teacher_account" then TeacherAccount
    else Other(s)
  }

  /** `Other` never spells one of the named paths. */
  predicate WellFormed(p: Path) {
    p.Other? ==> Parse(p.url) == p
  }

  /** Reading back a printed path gives the same path. */
  lemma ParseText(p: Path)
    requires WellFormed(p)
    ensures Parse(Text(p)) == p
  {
    match p
    case Other(u) =>
    case _ =>
  }

  /** The meta fields a route may declare. */
  datatype Meta = Meta(requiresAuth: bool, role: Option<string>)

  /** A route of the table: its path and meta. */
  datatype Route = Route(path: Path, meta: Meta)

  /** The guard's verdict: let the navigation through, or send it elsewhere. */
  datatype Decision = Pass | Redirect(target: Path)

  /** The meta of a route that declares none (the landing page and the
      not-found catch-all). */
  const NoMeta: Meta := Meta(false, None)
  const Authenticated: Meta := Meta(true, None)
  const TeacherOnly: Meta := Meta(true, Some("teacher"))
  const AdminOnly: Meta := Meta(true, Some("admin"))

  /** The route table, in declaration order. */
  const Routes: seq<Route> := [
    Route(Landing, NoMeta),
    Route(NewRecords, Authenticated),
    Route(RecentRecords, Authenticated),
    Route(Welcome, Authenticated),
    Route(Home, TeacherOnly),
    Route(Admin, AdminOnly),
    Route(Profiles, TeacherOnly),
    Route(Teachers, AdminOnly),
    Route(DataEntry, TeacherOnly),
    Route(Tracking, TeacherOnly),
    Route(AdminProfiles, AdminOnly),
    Route(SectionTracking, TeacherOnly)
  ]

  /** Pages a logged-in user is moved away from. */
  const PublicPages: seq<Path> := [Landing, Login]

  /** Pages reserved to the admin role. */
  const AdminPages: seq<Path> := [Admin, Teachers, TeacherAccount, AdminProfiles]

  /** The meta of the first route in `routes` whose path is `path`; a path
      no route declares falls through to the catch-all, which has no meta. */
  function LookupMeta(routes: seq<Route>, path: Path): Meta {
    if |routes| == 0 then NoMeta
    else if routes[0].path == path then routes[0].meta
    else LookupMeta(routes[1..], path)
  }

  /** The meta the router attaches to a navigation to `path`. */
  function MetaFor(path: Path): (m: Meta)
    ensures m == NoMeta || m.requiresAuth
    ensures m.role.Some? ==> m.role == Some("teacher") || m.role == Some("admin")
  {
    LookupListed(Routes, path);
    LookupMeta(Routes, path)
  }

  /** A lookup yields the catch-all's meta or the meta of some route. */
  lemma {:induction false} LookupListed(routes: seq<Route>, path: Path)
    ensures LookupMeta(routes, path) == NoMeta
            || exists i :: 0 <= i < |routes| && routes[i].meta == LookupMeta(routes, path)
  {
    if |routes| > 0 && routes[0].path != path {
      LookupListed(routes[1..], path);
      if LookupMeta(routes, path) != NoMeta {
        var i :| 0 <= i < |routes[1..]| && routes[1..][i].meta == LookupMeta(routes, path);
        assert routes[i + 1].meta == LookupMeta(routes, path);
      }
    }
  }

  /** A route lookup that meets no route yields the catch-all's empty meta. */
  lemma {:induction false} LookupMiss(routes: seq<Route>, path: Path)
    requires forall i :: 0 <= i < |routes| ==> routes[i].path != path
    ensures LookupMeta(routes, path) == NoMeta
  {
    if |routes| > 0 {
      LookupMiss(routes[1..], path);
    }
  }

  /** A route lookup returns the meta of the first route with that path. */
  lemma {:induction false} LookupHit(routes: seq<Route>, i: int, path: Path)
    requires 0 <= i < |routes| && routes[i].path == path
    requires forall j :: 0 <= j < i ==> routes[j].path != path
    ensures LookupMeta(routes, path) == routes[i].meta
  {
    if i > 0 {
      LookupHit(routes[1..], i - 1, path);
    }
  }

  /** The table grouped by meta: three pages need only a login, five belong
      to the teacher role, three to the admin role, and every other path
      ("/", "/login", "/teacher_account", unknown paths) has no meta. */
  function GroupedMeta(path: Path): Meta {
    match path
    case NewRecords | RecentRecords | Welcome => Authenticated
    case Home | Profiles | DataEntry | Tracking | SectionTracking => TeacherOnly
    case Admin | Teachers | AdminProfiles => AdminOnly
    case _ => NoMeta
  }

  /** The first-match lookup in the route table agrees with the grouping. */
  lemma MetaForGrouped(path: Path)
    ensures MetaFor(path) == GroupedMeta(path)
  {
    match path
    case Landing | Login | TeacherAccount => UnguardedMeta();
    case NewRecords | RecentRecords | Welcome => AuthenticatedMeta();
    case Home | Profiles | DataEntry | Tracking | SectionTracking => TeacherMeta();
    case Admin | Teachers | AdminProfiles => AdminMeta();
    case Other(u) => LookupMiss(Routes, path);
  }

  /** The table's lookups for the paths without meta. */
  lemma UnguardedMeta()
    ensures MetaFor(Landing) == NoMeta && MetaFor(Login) == NoMeta && MetaFor(TeacherAccount) == NoMeta
  {
    LookupHit(Routes, 0, Landing);
    LookupMiss(Routes, Login);
    LookupMiss(Routes, TeacherAccount);
  }

  /** The table's lookups for the pages that need only a login. */
  lemma AuthenticatedMeta()
    ensures MetaFor(NewRecords) == Authenticated && MetaFor(RecentRecords) == Authenticated
    ensures MetaFor(Welcome) == Authenticated
  {
    LookupHit(Routes, 1, NewRecords);
    LookupHit(Routes, 2, RecentRecords);
    LookupHit(Routes, 3, Welcome);
  }

  /** The table's lookups for the teacher pages. */
  lemma TeacherMeta()
    ensures MetaFor(Home) == TeacherOnly && MetaFor(Profiles) == TeacherOnly
    ensures MetaFor(DataEntry) == TeacherOnly && MetaFor(Tracking) == TeacherOnly
    ensures MetaFor(SectionTracking) == TeacherOnly
  {
    TeacherMetaFront();
    LookupHit(Routes, 9, Tracking);
    LookupHit(Routes, 11, SectionTracking);
  }

  /** The first three teacher pages of the table. */
  lemma TeacherMetaFront()
    ensures MetaFor(Home) == TeacherOnly && MetaFor(Profiles) == TeacherOnly
    ensures MetaFor(DataEntry) == TeacherOnly
  {
    LookupHit(Routes, 4, Home);
    LookupHit(Routes, 6, Profiles);
    LookupHit(Routes, 8, DataEntry);
  }

  /** The table's lookups for the admin pages. */
  lemma AdminMeta()
    ensures MetaFor(Admin) == AdminOnly && MetaFor(Teachers) == AdminOnly && MetaFor(AdminProfiles) == AdminOnly
  {
    LookupHit(Routes, 5, Admin);
    LookupHit(Routes, 7, Teachers);
    LookupHit(Routes, 10, AdminProfiles);
  }

  /** Where a role is sent when it is on the wrong page. */
  function RoleHome(role: Option<string>): Path {
    if role == Some("admin") then Admin else Home
  }

  /** JavaScript truthiness of `to.meta.role`. */
  predicate DeclaresRole(meta: Meta) {
    meta.role.Some? && meta.role.value != ""
  }

  /** The `beforeEach` guard: five rules checked in order, the first that
      applies decides, and a navigation no rule stops passes. */
  function Guard(path: Path, meta: Meta, loggedIn: bool, role: Option<string>): (d: Decision)
    ensures d.Redirect? ==> d.target in [Landing, Admin, Home]
    ensures meta.requiresAuth && !loggedIn ==> d == Redirect(Landing)
    ensures loggedIn && path in PublicPages ==> d == Redirect(RoleHome(role))
    ensures loggedIn && DeclaresRole(meta) && meta.role != role ==> d == Redirect(RoleHome(role))
    ensures d == Pass <==>
              && !(meta.requiresAuth && !loggedIn)
              && !(path in PublicPages && loggedIn)
              && !(DeclaresRole(meta) && meta.role != role)
              && (role == Some("admin") <==> path in AdminPages)
  {
    if meta.requiresAuth && !loggedIn then Redirect(Landing)
    else if path in PublicPages && loggedIn then Redirect(RoleHome(role))
    else if DeclaresRole(meta) && meta.role != role then Redirect(RoleHome(role))
    else if role == Some("admin") && path !in AdminPages then Redirect(Admin)
    else if role != Some("admin") && path in AdminPages then Redirect(Home)
    else Pass
  }

  /** One navigation attempt through the real route table. */
  function Step(path: Path, loggedIn: bool, role: Option<string>): (d: Decision)
    ensures d.Redirect? ==> d.target in [Landing, Admin, Home]
    ensures !loggedIn ==> (d == Redirect(Landing) <==> MetaFor(path).requiresAuth)
  {
    Guard(path, MetaFor(path), loggedIn, role)
  }

  /** Follows redirects, at most `fuel` of them: the path finally rendered,
      or `None` when the guard is still redirecting after `fuel` hops. */
  function Settle(path: Path, loggedIn: bool, role: Option<string>, fuel: nat): (r: Option<Path>)
    ensures r.Some? ==> Step(r.value, loggedIn, role) == Pass
    decreases fuel
  {
    match Step(path, loggedIn, role)
    case Pass => Some(path)
    case Redirect(target) => if fuel == 0 then None else Settle(target, loggedIn, role, fuel - 1)
  }

  /** Without an access token, every page of the table but "/" sends the
      user to "/", whatever the stored role. */
  lemma AuthRequired(path: Path, role: Option<string>)
    requires path in [NewRecords, RecentRecords, Welcome, Home, Admin, Profiles, Teachers,
                      DataEntry, Tracking, AdminProfiles, SectionTracking]
    ensures Step(path, false, role) == Redirect(Landing)
  {
    MetaForGrouped(path);
  }

  /** A logged-in user on "/" or "/login" goes to "/admin" with the admin
      role and to "/home" otherwise. */
  lemma LoggedInLeavesPublic(path: Path, role: Option<string>)
    requires path in PublicPages
    ensures Step(path, true, role) == Redirect(if role == Some("admin") then Admin else Home)
  {
  }

  /** A logged-in user on a page declaring another role than the stored one
      goes to the stored role's home. */
  lemma RoleMismatch(path: Path, role: Option<string>)
    requires MetaFor(path).role.Some? && MetaFor(path).role != role
    ensures Step(path, true, role) == Redirect(RoleHome(role))
  {
    MetaForGrouped(path);
  }

  /** The admin role is confined to the admin pages: anywhere else it is
      sent to "/admin", unless it lacks the token the page requires. */
  lemma AdminConfined(path: Path, loggedIn: bool)
    requires path !in AdminPages
    requires loggedIn || !MetaFor(path).requiresAuth
    ensures Step(path, loggedIn, Some("admin")) == Redirect(Admin)
  {
    MetaForGrouped(path);
  }

  /** Any other role (or none) is kept out of the admin pages: it is sent to
      "/home", or to "/" when it lacks the token the page requires. */
  lemma AdminPagesGuarded(path: Path, loggedIn: bool, role: Option<string>)
    requires path in AdminPages && role != Some("admin")
    ensures Step(path, loggedIn, role) ==
              if MetaFor(path).requiresAuth && !loggedIn then Redirect(Landing) else Redirect(Home)
  {
    MetaForGrouped(path);
  }

  /** The role homes are fixed points for their own role. */
  lemma HomesPass()
    ensures Step(Admin, true, Some("admin")) == Pass
    ensures Step(Home, true, Some("teacher")) == Pass
  {
    MetaForGrouped(Admin);
    MetaForGrouped(Home);
  }

  /** A logged-in admin or teacher, starting anywhere, is rendered a page
      after at most two redirects. */
  lemma LoggedInSettles(path: Path, role: Option<string>)
    requires role == Some("admin") || role == Some("teacher")
    ensures Settle(path, true, role, 2).Some?
  {
    MetaForGrouped(Landing);
    HomesPass();
  }

  /** Without a token, any role but admin is rendered, after at most two
      redirects, a page that needs no authentication. */
  lemma LoggedOutSettles(path: Path, role: Option<string>)
    requires role != Some("admin")
    ensures Settle(path, false, role, 2).Some?
    ensures !MetaFor(Settle(path, false, role, 2).value).requiresAuth
  {
    MetaForGrouped(path);
    MetaForGrouped(Landing);
    MetaForGrouped(Home);
  }

  /** The redirect loop: with the stored role "admin" and no access token,
      "/" redirects to "/admin" and "/admin" back to "/", so no number of
      hops ever renders a page. */
  lemma {:induction false} LoggedOutAdminLoops(fuel: nat)
    ensures Step(Landing, false, Some("admin")) == Redirect(Admin)
    ensures Step(Admin, false, Some("admin")) == Redirect(Landing)
    ensures Settle(Landing, false, Some("admin"), fuel) == None
    ensures Settle(Admin, false, Some("admin"), fuel) == None
    decreases fuel
  {
    MetaForGrouped(Landing);
    MetaForGrouped(Admin);
    if fuel > 0 {
      LoggedOutAdminLoops(fuel - 1);
    }
  }

  /** A second loop: a logged-in user whose stored role is neither "admin"
      nor "teacher" (or absent) is redirected from "/home" to "/home"
      itself, forever. */
  lemma {:induction false} UnknownRoleLoops(role: Option<string>, fuel: nat)
    requires role != Some("admin") && role != Some("teacher")
    ensures Step(Home, true, role) == Redirect(Home)
    ensures Settle(Home, true, role, fuel) == None
    decreases fuel
  {
    MetaForGrouped(Home);
    if fuel > 0 {
      UnknownRoleLoops(role, fuel - 1);
    }
  }
}
