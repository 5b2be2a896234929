/** The page routing (src/App.tsx) together with the dashboards' own
    guards (DoctorDashboard.tsx:19-23, AdminDashboard.tsx:26-30), which send
    a user of the wrong type back to `/`. */
module Routes {
  import opened Wrappers
  import opened Types
  import opened Text

  datatype Screen =
    | LoginScreen | IndexScreen | DocumentationScreen | MethodologyScreen | AIAssistantScreen
    | DoctorDashboardScreen | AdminDashboardScreen | DoctorQRCodeScreen | QRScannerScreen | NotFoundScreen

  datatype Outcome = Show(screen: Screen) | Redirect(to: string)

  /** The protected paths and the screen each shows to a logged-in user. */
  function ProtectedScreen(path: string): Option<Screen> {
    if path == "/documentation" then Some(DocumentationScreen)
    else if path == "/methodology" then Some(MethodologyScreen)
    else if path == "/ai-assistant" then Some(AIAssistantScreen)
    else if path == "/doctor-dashboard" then Some(DoctorDashboardScreen)
    else if path == "/admin-dashboard" then Some(AdminDashboardScreen)
    else if path == "/doctor-qrcode" then Some(DoctorQRCodeScreen)
    else None
  }

  /** A path without its trailing slashes. */
  function TrimSlashes(p: string): (r: string)
    ensures |r| <= |p| && r == p[..|r|]
    ensures |r| == 0 || r[|r| - 1] != '/'
    ensures forall i :: |r| <= i < |p| ==> p[i] == '/'
    decreases |p|
  {
    if |p| > 0 && p[|p| - 1] == '/' then TrimSlashes(p[..|p| - 1]) else p
  }

  /** The form in which a location is compared with the route paths: the
      router matches without regard to letter case and ignores trailing
      slashes, so `/Login/` reaches the login page. The root, however many
      slashes, stays `/`. */
  function Normalize(path: string): (r: string)
    ensures |r| > 0 && (|r| == 1 || r[|r| - 1] != '/')
    ensures forall i :: 0 <= i < |r| ==> !('A' <= r[i] <= 'Z')
  {
    var t := TrimSlashes(Lower(path));
    if t == [] then "/" else t
  }

  /** A path already in normal form is compared as it is. */
  lemma NormalPathIsKept(path: string)
    requires |path| > 0 && path[|path| - 1] != '/'
    requires forall i :: 0 <= i < |path| ==> !('A' <= path[i] <= 'Z')
    ensures Normalize(path) == path
  {
    assert Lower(path) == path;
  }

  /** The paths the pages redirect to are in normal form. */
  lemma RedirectTargetsAreNormal()
    ensures Normalize("/") == "/"
    ensures Normalize("/login") == "/login"
    ensures Normalize("/doctor-dashboard") == "/doctor-dashboard"
    ensures Normalize("/admin-dashboard") == "/admin-dashboard"
  {
    assert TrimSlashes("/") == [] by {
      assert "/"[..0] == [];
    }
    NormalPathIsKept("/login");
    NormalPathIsKept("/doctor-dashboard");
    NormalPathIsKept("/admin-dashboard");
  }

  /** One routing step on the normalised path: `/login` and `/qr-scanner`
      are public; `/` and the protected paths send a visitor without a
      session to `/login`; `/` sends doctors and administrators on to their
      dashboards; any other path is not found. */
  function Route(path: string, session: Option<User>): (r: Outcome)
    ensures Normalize(path) == "/login" ==> r == Show(LoginScreen)
    ensures Normalize(path) == "/qr-scanner" ==> r == Show(QRScannerScreen)
    ensures session.None? && (Normalize(path) == "/" || ProtectedScreen(Normalize(path)).Some?) ==>
      r == Redirect("/login")
    ensures session.Some? && ProtectedScreen(Normalize(path)).Some? ==> r == Show(ProtectedScreen(Normalize(path)).value)
    ensures var p := Normalize(path);
      p != "/" && p != "/login" && p != "/qr-scanner" && ProtectedScreen(p).None? ==> r == Show(NotFoundScreen)
    ensures Normalize(path) == "/" && session.Some? ==>
      r == (match session.value.userType
            case Doctor => Redirect("/doctor-dashboard")
            case Admin => Redirect("/admin-dashboard")
            case Patient => Show(IndexScreen))
  {
    var p := Normalize(path);
    if p == "/login" then Show(LoginScreen)
    else if p == "/qr-scanner" then Show(QRScannerScreen)
    else if p == "/" then
      if session.None? then Redirect("/login")
      else if session.value.userType == Doctor then Redirect("/doctor-dashboard")
      else if session.value.userType == Admin then Redirect("/admin-dashboard")
      else Show(IndexScreen)
    else match ProtectedScreen(p)
      case Some(s) => if session.None? then Redirect("/login") else Show(s)
      case None => Show(NotFoundScreen)
  }

  /** A trailing slash does not change where a path leads. */
  lemma TrailingSlashIgnored(path: string, session: Option<User>)
    ensures Route(path + "/", session) == Route(path, session)
  {
    NormalizeDropsSlash(path);
  }

  lemma NormalizeDropsSlash(path: string)
    ensures Normalize(path + "/") == Normalize(path)
  {
    var l := Lower(path);
    assert Lower(path + "/") == l + "/";
    assert (l + "/")[..|l|] == l;
    assert TrimSlashes(l + "/") == TrimSlashes(l);
  }

  /** Letter case does not change where a path leads. */
  lemma CaseIgnored(path: string, session: Option<User>)
    ensures Route(Lower(path), session) == Route(path, session)
  {
    assert Lower(Lower(path)) == Lower(path);
  }

  /** A page's own check: the doctor dashboard admits doctors and
      administrators, the admin dashboard administrators only, and the QR
      code page (DoctorQRCode.tsx:21-27) doctors only. */
  function Guard(s: Screen, session: Option<User>): (r: Option<string>)
    ensures r.Some? ==> r.value == "/"
    ensures s == AdminDashboardScreen ==> (r.None? <==> session.Some? && session.value.userType == Admin)
    ensures s == DoctorDashboardScreen ==> (r.None? <==> session.Some? && session.value.userType != Patient)
    ensures s == DoctorQRCodeScreen ==> (r.None? <==> session.Some? && session.value.userType == Doctor)
    ensures s != AdminDashboardScreen && s != DoctorDashboardScreen && s != DoctorQRCodeScreen ==> r.None?
  {
    var t := if session.Some? then Some(session.value.userType) else None;
    if s == AdminDashboardScreen && t != Some(Admin) then Some("/")
    else if s == DoctorDashboardScreen && t != Some(Doctor) && t != Some(Admin) then
      assert t.Some? ==> t.value.Patient?;
      Some("/")
    else if s == DoctorQRCodeScreen && t != Some(Doctor) then Some("/")
    else None
  }

  /** Follows routes and guards for at most `fuel` redirects. */
  function Settle(path: string, session: Option<User>, fuel: nat): Option<Screen>
    decreases fuel
  {
    match Route(path, session)
    case Redirect(to) => if fuel == 0 then None else Settle(to, session, fuel - 1)
    case Show(s) =>
      match Guard(s, session)
      case Some(to) => if fuel == 0 then None else Settle(to, session, fuel - 1)
      case None => Some(s)
  }

  /** The screen a user ends up on. */
  function Land(path: string, session: Option<User>): Option<Screen> {
    Settle(path, session, 2)
  }

  /** The home screen of each kind of user. */
  function Home(t: UserType): Screen {
    match t
    case Doctor => DoctorDashboardScreen
    case Admin => AdminDashboardScreen
    case Patient => IndexScreen
  }

  /** Two redirects always suffice, and nobody lands on a dashboard their
      type may not see: patients never reach a dashboard, doctors never the
      admin dashboard, and a visitor without a session reaches only the
      login page, the scanner or the not-found page. */
  lemma LandingIsSafe(path: string, session: Option<User>)
    ensures Land(path, session).Some?
    ensures session.Some? && session.value.userType == Patient ==>
      Land(path, session) != Some(DoctorDashboardScreen) && Land(path, session) != Some(AdminDashboardScreen)
    ensures session.Some? && session.value.userType == Doctor ==> Land(path, session) != Some(AdminDashboardScreen)
    ensures session.None? ==> Land(path, session).value in {LoginScreen, QRScannerScreen, NotFoundScreen}
  {
    RedirectTargetsAreNormal();
    match Route(path, session)
    case Redirect(to) =>
      assert to == "/login" || to == "/doctor-dashboard" || to == "/admin-dashboard";
      assert to == "/doctor-dashboard" || to == "/admin-dashboard" ==> session.Some?;
    case Show(s) =>
      match Guard(s, session)
      case None =>
      case Some(to) =>
        RootSettles(session);
  }

  /** A page's guard sends the user to `/`, where one more step settles. */
  lemma RootSettles(session: Option<User>)
    ensures session.None? ==> Settle("/", session, 1) == Some(LoginScreen)
    ensures session.Some? ==> Settle("/", session, 1) == Some(Home(session.value.userType))
  {
    RedirectTargetsAreNormal();
    if session.None? {
      assert Route("/", session) == Redirect("/login");
      assert Route("/login", session) == Show(LoginScreen);
    } else {
      match session.value.userType
      case Patient =>
        assert Route("/", session) == Show(IndexScreen);
      case Doctor =>
        assert Route("/", session) == Redirect("/doctor-dashboard");
        assert Route("/doctor-dashboard", session) == Show(DoctorDashboardScreen);
      case Admin =>
        assert Route("/", session) == Redirect("/admin-dashboard");
        assert Route("/admin-dashboard", session) == Show(AdminDashboardScreen);
    }
  }

  /** `/` leads every user to their home screen, and a user sent to a
      dashboard they may not see ends up there too. */
  lemma RootLeadsHome(u: User)
    ensures Land("/", Some(u)) == Some(Home(u.userType))
    ensures u.userType != Admin ==> Land("/admin-dashboard", Some(u)) == Some(Home(u.userType))
    ensures u.userType == Patient ==> Land("/doctor-dashboard", Some(u)) == Some(IndexScreen)
  {
    RedirectTargetsAreNormal();
  }

  /** Only doctors see the QR code page; everyone else is sent home. */
  lemma QRCodePageLeadsHome(u: User)
    ensures u.userType == Doctor ==> Land("/doctor-qrcode", Some(u)) == Some(DoctorQRCodeScreen)
    ensures u.userType != Doctor ==> Land("/doctor-qrcode", Some(u)) == Some(Home(u.userType))
  {
    NormalPathIsKept("/doctor-qrcode");
    assert Route("/doctor-qrcode", Some(u)) == Show(DoctorQRCodeScreen);
    RootSettles(Some(u));
  }
}
