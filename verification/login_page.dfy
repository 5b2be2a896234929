/** The sign-in / register page (src/pages/Login.tsx). Both tabs share one
    chosen user type: the sign-in tab offers patient, doctor and admin, the
    register tab patient and doctor. */
module LoginPage {
  import opened Wrappers
  import opened Types
  import Auth

  datatype Tab = SignInTab | RegisterTab

  datatype Page = Page(tab: Tab, userType: UserType, error: string)

  const Initial := Page(SignInTab, Patient, "")

  datatype Event = SelectTab(tab: Tab) | SelectType(userType: UserType)

  /** The type buttons each tab shows. */
  predicate Offered(tab: Tab, t: UserType) {
    tab == SignInTab || t != Admin
  }

  /** A click: a tab switch keeps the chosen type; a type can be chosen
      only where its button is shown. */
  function Handle(p: Page, e: Event): (r: Page)
    ensures r.error == p.error
    ensures e.SelectTab? ==> r == p.(tab := e.tab)
    ensures e.SelectType? ==> r.tab == p.tab && (r.userType == e.userType <==> Offered(p.tab, e.userType) || p.userType == e.userType)
  {
    match e
    case SelectTab(t) => p.(tab := t)
    case SelectType(t) => if Offered(p.tab, t) then p.(userType := t) else p
  }

  /** The page after a sequence of clicks from the initial page. */
  function Run(events: seq<Event>): Page
    decreases |events|
  {
    if |events| == 0 then Initial else Handle(Run(events[..|events| - 1]), events[|events| - 1])
  }

  datatype Submitted = Submitted(page: Page, step: Auth.Step, navigateHome: bool)

  /** `handleLogin`: success goes home, failure shows the one message. */
  function SubmitLogin(p: Page, store: Auth.Store, email: string, password: string, now: int): (r: Submitted)
    ensures r.step == Auth.Login(store, email, password, p.userType, now)
    ensures r.navigateHome <==> r.step.ok
    ensures r.page == p.(error := if r.step.ok then "" else "Invalid email or password")
  {
    var step := Auth.Login(store, email, password, p.userType, now);
    Submitted(p.(error := if step.ok then "" else "Invalid email or password"), step, step.ok)
  }

  /** `handleRegister`: the confirmation must match, then the password must
      have at least 6 characters, and only then is the account registered,
      with the type chosen on either tab. Any refusal by the registration
      shows "Email already exists". */
  function SubmitRegister(p: Page, store: Auth.Store, email: string, password: string, confirmPassword: string,
                          name: string, now: nat, sessionRandom: string, qrRandom: string): (r: Submitted)
    ensures password != confirmPassword ==>
      r == Submitted(p.(error := "Passwords do not match"), Auth.Step(store, false, []), false)
    ensures password == confirmPassword && |password| < 6 ==>
      r == Submitted(p.(error := "Password must be at least 6 characters"), Auth.Step(store, false, []), false)
    ensures password == confirmPassword && |password| >= 6 ==>
      r.step == Auth.Register(store, email, password, name, p.userType, now, sessionRandom, qrRandom)
    ensures r.navigateHome <==> r.step.ok
    ensures r.page.error == "" <==> r.step.ok
    ensures r.page.error == "Email already exists" <==>
      password == confirmPassword && |password| >= 6 && (Auth.EmailTaken(store.users, email) || p.userType == Admin)
  {
    if password != confirmPassword then
      Submitted(p.(error := "Passwords do not match"), Auth.Step(store, false, []), false)
    else if |password| < 6 then
      Submitted(p.(error := "Password must be at least 6 characters"), Auth.Step(store, false, []), false)
    else
      var step := Auth.Register(store, email, password, name, p.userType, now, sessionRandom, qrRandom);
      Submitted(p.(error := if step.ok then "" else "Email already exists"), step, step.ok)
  }

  /** As written: choosing admin on the sign-in tab and then switching to
      the register tab leaves admin chosen, and registering a fresh e-mail
      is then refused as "Email already exists". */
  lemma AdminChoiceBlocksRegistration(store: Auth.Store, email: string, password: string, name: string,
                                      now: nat, sessionRandom: string, qrRandom: string)
    requires !Auth.EmailTaken(store.users, email) && |password| >= 6
    ensures var p := Run([SelectType(Admin), SelectTab(RegisterTab)]);
      p.tab == RegisterTab && p.userType == Admin &&
      SubmitRegister(p, store, email, password, password, name, now, sessionRandom, qrRandom).page.error
        == "Email already exists"
  {
    var events := [SelectType(Admin), SelectTab(RegisterTab)];
    assert events[..1] == [SelectType(Admin)] && events[..1][..0] == [];
  }

  /** Corrected: switching to the register tab drops an admin choice back
      to patient, the default. */
  function HandleCorrected(p: Page, e: Event): (r: Page)
    ensures r.error == p.error
    ensures e.SelectTab? ==> r.tab == e.tab
    ensures e.SelectTab? && (e.tab == SignInTab || p.userType != Admin) ==> r == p.(tab := e.tab)
    ensures e.SelectType? ==> r == Handle(p, e)
  {
    match e
    case SelectTab(t) => if t == RegisterTab && p.userType == Admin then p.(tab := t, userType := Patient) else p.(tab := t)
    case SelectType(_) => Handle(p, e)
  }

  function RunCorrected(events: seq<Event>): (p: Page)
    ensures p.tab == RegisterTab ==> p.userType != Admin
    decreases |events|
  {
    if |events| == 0 then Initial else HandleCorrected(RunCorrected(events[..|events| - 1]), events[|events| - 1])
  }

  /** With the correction, "Email already exists" on the register tab
      means exactly that: the e-mail is taken. */
  lemma CorrectedRegisterErrorIsTruthful(events: seq<Event>, store: Auth.Store, email: string, password: string,
                                         confirmPassword: string, name: string, now: nat,
                                         sessionRandom: string, qrRandom: string)
    requires RunCorrected(events).tab == RegisterTab
    ensures (SubmitRegister(RunCorrected(events), store, email, password, confirmPassword, name, now,
                            sessionRandom, qrRandom).page.error == "Email already exists")
      <==> (password == confirmPassword && |password| >= 6 && Auth.EmailTaken(store.users, email))
  {
  }
}
