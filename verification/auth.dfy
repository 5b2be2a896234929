/** Accounts and the session (src/contexts/AuthContext.tsx). The browser's
    local storage is the `Store` value; `pd_user` is `session`. Clock values
    and the random fragments of generated ids are parameters. */
module Auth {
  import opened Wrappers
  import opened Types
  import opened Lists
  import opened Text
  import opened Records
  import opened Protocol
  import opened SyncClient
  import QRCodes

  datatype Store = Store(users: seq<StoredUser>, records: seq<Record>, qrCodes: seq<QRCode>, session: Option<User>)

  /** The new store, the boolean the page receives, and the events handed
      to the sync client (whose failures are only logged). */
  datatype Step = Step(store: Store, ok: bool, outbox: seq<Outgoing>)

  const AdminEmail := "admin@pddiagnosys.com"
  const AdminPassword := "admin123"

  /** The built-in administrator, created afresh at every admin login. */
  function AdminUser(now: int): User {
    User("admin-001", AdminEmail, "System Administrator", Admin, now)
  }

  predicate Credentials(u: StoredUser, email: string, password: string, userType: UserType) {
    u.email == email && u.password == password && u.userType == userType
  }

  /** The login side effect for patients: the first record whose
      `patientId` is the user's id is marked seen now and `available`. */
  function TouchPatientRecord(records: seq<Record>, userId: string, now: int): (r: (seq<Record>, Option<Record>))
    ensures |r.0| == |records|
    ensures r.1.None? <==> forall j :: 0 <= j < |records| ==> records[j].patientId != Some(userId)
    ensures r.1.None? ==> r.0 == records
    ensures r.1.Some? ==> exists j :: (0 <= j < |records| && records[j].patientId == Some(userId) &&
      (forall k :: 0 <= k < j ==> records[k].patientId != Some(userId)) &&
      r.0 == records[j := r.1.value] &&
      r.1.value.lastLogin == Some(now) && r.1.value.status == Some(Available.Name()) &&
      ChangesOnly(records[j], r.1.value, {LastLoginField, StatusField}))
  {
    match FindIndex(records, (p: Record) => p.patientId == Some(userId))
    case None => (records, None)
    case Some(j) =>
      var touched := records[j].(lastLogin := Some(now), status := Some(Available.Name()));
      assert ChangesOnly(records[j], touched, {LastLoginField, StatusField}) by {
        forall f | f !in {LastLoginField, StatusField} ensures records[j].Get(f) == touched.Get(f) { }
      }
      assert records[j].patientId == Some(userId);
      (records[j := touched], Some(touched))
  }

  /** `login`. The administrator's e-mail and password log in as the
      built-in administrator whatever type was chosen; otherwise the first
      account whose e-mail, password and type all match is logged in, and
      a patient's record is touched. A failed login changes nothing. */
  function Login(store: Store, email: string, password: string, userType: UserType, now: int): (r: Step)
    ensures r.ok <==> ((email == AdminEmail && password == AdminPassword) ||
      exists i :: 0 <= i < |store.users| && Credentials(store.users[i], email, password, userType))
    ensures !r.ok ==> r.store == store && r.outbox == []
    ensures r.store.users == store.users && r.store.qrCodes == store.qrCodes
    ensures |r.store.records| == |store.records|
    ensures email == AdminEmail && password == AdminPassword ==>
      r.store == store.(session := Some(AdminUser(now))) && r.outbox == [SyncLogin(AdminUser(now), now)]
    ensures r.ok && !(email == AdminEmail && password == AdminPassword) ==>
      exists i :: (0 <= i < |store.users| && Credentials(store.users[i], email, password, userType) &&
        (forall k :: 0 <= k < i ==> !Credentials(store.users[k], email, password, userType)) &&
        r.store.session == Some(SessionOf(store.users[i])) &&
        |r.outbox| >= 1 && r.outbox[0] == SyncLogin(SessionOf(store.users[i]), now) &&
        r.store.records ==
          (if userType == Patient then TouchPatientRecord(store.records, store.users[i].id, now).0 else store.records) &&
        r.outbox == [SyncLogin(SessionOf(store.users[i]), now)] +
          (if userType == Patient && TouchPatientRecord(store.records, store.users[i].id, now).1.Some?
           then [SyncPatientRecord(TouchPatientRecord(store.records, store.users[i].id, now).1.value)] else []))
    ensures r.ok ==> r.store.session.Some? && r.store.session.value.email == email
    ensures userType != Patient ==> r.store.records == store.records
  {
    if (userType == Admin || email == AdminEmail) && email == AdminEmail && password == AdminPassword then
      Step(store.(session := Some(AdminUser(now))), true, [SyncLogin(AdminUser(now), now)])
    else
      match FindIndex(store.users, (u: StoredUser) => Credentials(u, email, password, userType))
      case None => Step(store, false, [])
      case Some(i) =>
        var user := SessionOf(store.users[i]);
        var logged := store.(session := Some(user));
        if userType == Patient then
          var (records, touched) := TouchPatientRecord(store.records, user.id, now);
          var synced := if touched.Some? then [SyncPatientRecord(touched.value)] else [];
          Step(logged.(records := records), true, [SyncLogin(user, now)] + synced)
        else
          Step(logged, true, [SyncLogin(user, now)])
  }

  /** A patient who logs in and has a record finds it marked seen now and
      `available`, and that record is the second event sent. */
  lemma PatientLoginMarksRecord(store: Store, email: string, password: string, now: int)
    requires !(email == AdminEmail && password == AdminPassword)
    requires Login(store, email, password, Patient, now).ok
    requires exists k :: (0 <= k < |store.records| &&
      store.records[k].patientId == Some(Login(store, email, password, Patient, now).store.session.value.id))
    ensures exists k :: (0 <= k < |Login(store, email, password, Patient, now).store.records| &&
      TouchedAt(Login(store, email, password, Patient, now), k, now))
  {
    var r := Login(store, email, password, Patient, now);
    var found := FindIndex(store.users, (u: StoredUser) => Credentials(u, email, password, Patient));
    assert found.Some?;
    var user := SessionOf(store.users[found.value]);
    assert r.store.session == Some(user);
    var j := TouchMarks(store.records, user.id, now);
    assert TouchedAt(r, j, now);
  }

  /** Record `k` of the store after a login is the session's, was seen now,
      is `available`, and went out as the second event. */
  predicate TouchedAt(r: Step, k: int, now: int) {
    && 0 <= k < |r.store.records|
    && r.store.session.Some?
    && r.store.records[k].patientId == Some(r.store.session.value.id)
    && r.store.records[k].lastLogin == Some(now)
    && r.store.records[k].status == Some(Available.Name())
    && |r.outbox| == 2 && r.outbox[1] == SyncPatientRecord(r.store.records[k])
  }

  /** Where `TouchPatientRecord` writes when the user has a record. */
  lemma TouchMarks(records: seq<Record>, userId: string, now: int) returns (j: nat)
    requires exists k :: 0 <= k < |records| && records[k].patientId == Some(userId)
    ensures TouchPatientRecord(records, userId, now).1.Some?
    ensures j < |records| && TouchPatientRecord(records, userId, now).0[j] == TouchPatientRecord(records, userId, now).1.value
    ensures TouchPatientRecord(records, userId, now).1.value.patientId == Some(userId)
  {
    var t := TouchPatientRecord(records, userId, now);
    j :| (0 <= j < |records| && records[j].patientId == Some(userId) &&
      t.0 == records[j := t.1.value] &&
      ChangesOnly(records[j], t.1.value, {LastLoginField, StatusField}));
    assert t.1.value.Get(PatientIdField) == records[j].Get(PatientIdField);
    assert Str(t.1.value.patientId) == Str(records[j].patientId);
  }

  /** The record a new patient starts with. */
  function NewPatientRecord(id: string, name: string, email: string, now: int): (rec: Record)
    ensures WellFormed(rec) && KeysAgree(rec) && rec.id == Some(id)
    ensures rec.status == Some(Available.Name()) && rec.totalAnalyses == Some(0) && rec.lastLogin == Some(now)
    ensures rec.lastAnalysis.None? && rec.appointmentRequestedAt.None?
  {
    Record(Some(id), Some(id), Some(name), Some(email), Some(now), Some(Available.Name()), Some(0), None, None)
  }

  predicate EmailTaken(users: seq<StoredUser>, email: string) {
    exists i :: 0 <= i < |users| && users[i].email == email
  }

  predicate UniqueEmails(users: seq<StoredUser>) {
    forall i, j :: 0 <= i < j < |users| ==> users[i].email != users[j].email
  }

  /** `register`. Fails on a taken e-mail or the admin type. Otherwise the
      account (id: the clock as decimal digits) is appended and logged in;
      a patient also gets a fresh record, which is synced, and a doctor a
      QR code, which stays local. */
  function Register(store: Store, email: string, password: string, name: string, userType: UserType,
                    now: nat, sessionRandom: string, qrRandom: string): (r: Step)
    ensures r.ok <==> !EmailTaken(store.users, email) && userType != Admin
    ensures !r.ok ==> r.store == store && r.outbox == []
    ensures r.ok ==> r.store.users == store.users + [StoredUser(NatToString(now), email, password, name, userType, now)]
    ensures r.ok ==> r.store.session == Some(User(NatToString(now), email, name, userType, now))
    ensures r.ok && userType == Patient ==>
      var rec := NewPatientRecord(NatToString(now), name, email, now);
      r.store.records == store.records + [rec] && r.outbox == [SyncPatientRecord(rec)] && r.store.qrCodes == store.qrCodes
    ensures r.ok && userType == Doctor ==>
      r.store.records == store.records && r.outbox == [] &&
      |r.store.qrCodes| == |store.qrCodes| + 1 && r.store.qrCodes[..|store.qrCodes|] == store.qrCodes &&
      r.store.qrCodes[|store.qrCodes|].doctorId == NatToString(now) && r.store.qrCodes[|store.qrCodes|].isActive
    ensures r.ok && userType == Doctor ==>
      var code := r.store.qrCodes[|store.qrCodes|];
      code.doctorName == name && code.doctorEmail == email && code.id == "QR_" + NatToString(now) + "_" + qrRandom &&
      code.qrCode == QRCodes.GenerateQRCodeString(NatToString(now), QRCodes.GenerateSessionId(now, sessionRandom))
    ensures r.ok && userType == Doctor && (forall j :: 0 <= j < |sessionRandom| ==> !IsLineTerminator(sessionRandom[j])) ==>
      QRCodes.ParseQRCodeString(r.store.qrCodes[|store.qrCodes|].qrCode) ==
        Some(QRCodes.Parsed(NatToString(now), QRCodes.GenerateSessionId(now, sessionRandom)))
  {
    if exists i :: 0 <= i < |store.users| && store.users[i].email == email then Step(store, false, [])
    else if userType == Admin then Step(store, false, [])
    else
      var id := NatToString(now);
      var account := StoredUser(id, email, password, name, userType, now);
      var registered := store.(users := store.users + [account], session := Some(SessionOf(account)));
      if userType == Patient then
        var rec := NewPatientRecord(id, name, email, now);
        Step(registered.(records := store.records + [rec]), true, [SyncPatientRecord(rec)])
      else
        var sessionId := QRCodes.GenerateSessionId(now, sessionRandom);
        var (codes, _) := QRCodes.CreateDoctorQRCode(store.qrCodes, id, name, email, sessionId,
                                                     "QR_" + id + "_" + qrRandom, now);
        assert codes[..|store.qrCodes|] == store.qrCodes;
        Step(registered.(qrCodes := codes), true, [])
  }

  /** Registration keeps e-mails unique. */
  lemma RegisterKeepsEmailsUnique(store: Store, email: string, password: string, name: string, userType: UserType,
                                  now: nat, sessionRandom: string, qrRandom: string)
    requires UniqueEmails(store.users)
    ensures UniqueEmails(Register(store, email, password, name, userType, now, sessionRandom, qrRandom).store.users)
  {
  }

  /** A registered account can log in with the same e-mail, password and
      type, and the login finds that very account (unless its credentials
      are the administrator's, which always mean the administrator). */
  lemma RegisterThenLogin(store: Store, email: string, password: string, name: string, userType: UserType,
                          now: nat, sessionRandom: string, qrRandom: string, later: int)
    requires !EmailTaken(store.users, email) && userType != Admin
    requires !(email == AdminEmail && password == AdminPassword)
    ensures var reg := Register(store, email, password, name, userType, now, sessionRandom, qrRandom);
      var login := Login(reg.store, email, password, userType, later);
      login.ok && login.store.session == Some(User(NatToString(now), email, name, userType, now))
  {
    var reg := Register(store, email, password, name, userType, now, sessionRandom, qrRandom);
    var users := reg.store.users;
    var n := |store.users|;
    assert Credentials(users[n], email, password, userType);
    var login := Login(reg.store, email, password, userType, later);
    var i :| 0 <= i < |users| && Credentials(users[i], email, password, userType) &&
      login.store.session == Some(SessionOf(users[i]));
    assert i == n;
  }

  /** The administrator's credentials never fail, whichever type is chosen. */
  lemma AdminAlwaysLogsIn(store: Store, userType: UserType, now: int)
    ensures Login(store, AdminEmail, AdminPassword, userType, now).ok
    ensures Login(store, AdminEmail, AdminPassword, userType, now).store.session == Some(AdminUser(now))
  {
  }

  /** Registering as administrator always fails, and so does a taken e-mail. */
  lemma RegisterRefuses(store: Store, email: string, password: string, name: string, userType: UserType,
                        now: nat, sessionRandom: string, qrRandom: string)
    requires userType == Admin || EmailTaken(store.users, email)
    ensures !Register(store, email, password, name, userType, now, sessionRandom, qrRandom).ok
  {
  }

  /** `logout`: the session ends; the server hears of it only if there was one. */
  function Logout(store: Store, now: int): (r: Step)
    ensures r.store == store.(session := None) && r.ok
    ensures store.session.None? ==> r.outbox == []
    ensures store.session.Some? ==> r.outbox == [SyncLogout(store.session.value, now)]
  {
    match store.session
    case None => Step(store.(session := None), true, [])
    case Some(u) => Step(store.(session := None), true, [SyncLogout(u, now)])
  }

  /** Logging in and out leaves no session and reports the same user both ways. */
  lemma LoginThenLogout(store: Store, email: string, password: string, userType: UserType, now: int, later: int)
    requires Login(store, email, password, userType, now).ok
    ensures var login := Login(store, email, password, userType, now);
      var logout := Logout(login.store, later);
      logout.store.session.None? &&
      logout.outbox[0].data.userId == login.outbox[0].data.userId
  {
  }
}
