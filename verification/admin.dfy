/** The admin dashboard (src/pages/AdminDashboard.tsx): the refresh, the
    deletions it performs on the browser's stores, the relative times it
    shows and the four counters on top. Local storage is the `Store` value;
    the server is reached only through the returned outbox. */
module AdminDashboard {
  import opened Wrappers
  import opened Types
  import opened Lists
  import opened Text
  import opened Records
  import opened Protocol
  import opened SyncClient
  import opened Reconcile
  import QRCodes

  /** `pd_patient_records`, `pd_users` and `pd_doctor_qrcodes`. */
  datatype Store = Store(records: seq<Record>, users: seq<StoredUser>, qrCodes: seq<QRCode>)

  /** What the dashboard shows. */
  datatype View = View(patients: seq<Record>, doctors: seq<User>, qrCodes: seq<QRCode>)

  /** The doctor list: the doctor accounts in stored order, without passwords. */
  function Doctors(users: seq<StoredUser>): (r: seq<User>)
    ensures forall i :: 0 <= i < |r| ==> r[i].userType == Doctor
    ensures forall i :: 0 <= i < |r| ==> exists j :: 0 <= j < |users| && r[i] == SessionOf(users[j])
    ensures forall j :: 0 <= j < |users| && users[j].userType == Doctor ==> SessionOf(users[j]) in r
  {
    var ds := Filter(users, (u: StoredUser) => u.userType == Doctor);
    var r := Map(ds, SessionOf);
    assert forall j :: 0 <= j < |users| && users[j].userType == Doctor ==> SessionOf(users[j]) in r by {
      forall j | 0 <= j < |users| && users[j].userType == Doctor
        ensures SessionOf(users[j]) in r
      {
        var k :| 0 <= k < |ds| && ds[k] == users[j];
        assert r[k] == SessionOf(users[j]);
      }
    }
    assert forall i :: 0 <= i < |r| ==> exists j :: 0 <= j < |users| && r[i] == SessionOf(users[j]) by {
      forall i | 0 <= i < |r|
        ensures exists j :: 0 <= j < |users| && r[i] == SessionOf(users[j])
      {
        assert ds[i] in users;
        var j :| 0 <= j < |users| && users[j] == ds[i];
        assert r[i] == SessionOf(users[j]);
      }
    }
    r
  }

  /** The doctor list keeps the stored order: an account appended to the
      store adds its session view at the end exactly when it is a doctor's. */
  lemma DoctorsSnoc(users: seq<StoredUser>, u: StoredUser)
    ensures Doctors(users + [u]) == Doctors(users) + (if u.userType == Doctor then [SessionOf(u)] else [])
  {
    var p := (u: StoredUser) => u.userType == Doctor;
    FilterSnoc(users, u, p);
    var ds := Filter(users, p);
    var tail := if u.userType == Doctor then [u] else [];
    assert Map(ds + tail, SessionOf) == Map(ds, SessionOf) + Map(tail, SessionOf);
  }

  /** `loadData`: the patients are refreshed exactly as on the doctor's
      dashboard, the doctors are projected from the accounts, and the QR codes
      are shown as stored. Every record sync the refresh issues is in the
      outbox, in order. */
  function LoadData(store: Store, fetched: Fetched, now: int): (r: (View, Store, seq<Outgoing>))
    ensures r.0.patients == r.1.records == LoadPatients(store.records, fetched, now).shown
    ensures r.1.users == store.users && r.1.qrCodes == store.qrCodes
    ensures r.0.doctors == Doctors(store.users) && r.0.qrCodes == store.qrCodes
    ensures |r.2| == |LoadPatients(store.records, fetched, now).pushed|
    ensures forall i :: 0 <= i < |r.2| ==>
      r.2[i] == SyncPatientRecord(LoadPatients(store.records, fetched, now).pushed[i])
    ensures |r.2| >= |r.0.patients|
  {
    var load := LoadPatients(store.records, fetched, now);
    (View(load.shown, Doctors(store.users), store.qrCodes),
     store.(records := load.shown),
     Map(load.pushed, SyncPatientRecord))
  }

  const HourMs := 60 * MinuteMs
  const DayMs := 24 * HourMs

  function Plural(n: int): string {
    if n > 1 then "s" else ""
  }

  /** Flooring by minutes and then by sixty is flooring by hours. */
  lemma FloorMinutesThenHours(e: int)
    requires e >= 0
    ensures (e / MinuteMs) / 60 == e / HourMs
  {
    var m := e / MinuteMs;
    var h := m / 60;
    assert e == MinuteMs * m + e % MinuteMs;
    assert m == 60 * h + m % 60;
    assert e == HourMs * h + (MinuteMs * (m % 60) + e % MinuteMs);
  }

  /** Flooring by hours and then by twenty-four is flooring by days. */
  lemma FloorHoursThenDays(e: int)
    requires e >= 0
    ensures (e / HourMs) / 24 == e / DayMs
  {
    var h := e / HourMs;
    var d := h / 24;
    assert e == HourMs * h + e % HourMs;
    assert h == 24 * d + h % 24;
    assert e == DayMs * d + (HourMs * (h % 24) + e % HourMs);
  }

  /** `getTimeAgo`: the time since `since` in whole minutes, hours or days,
      each rounded down, with a plural `s` from two upwards. A date that
      does not parse (`None`) makes every number NaN and falls through to
      the last case. */
  function TimeAgo(since: Option<int>, now: int): (r: string)
    ensures since.None? ==> r == "NaN day ago"
    ensures since.Some? && now - since.value < MinuteMs ==> r == "Just now"
    ensures since.Some? && MinuteMs <= now - since.value < HourMs ==>
      r == NatToString((now - since.value) / MinuteMs) + " min ago"
    ensures since.Some? && HourMs <= now - since.value < DayMs ==>
      r == NatToString((now - since.value) / HourMs) + " hour" + Plural((now - since.value) / HourMs) + " ago"
    ensures since.Some? && DayMs <= now - since.value ==>
      r == NatToString((now - since.value) / DayMs) + " day" + Plural((now - since.value) / DayMs) + " ago"
  {
    if since.None? then "NaN day ago"
    else
      var minutes := (now - since.value) / MinuteMs;
      if minutes < 1 then "Just now"
      else if minutes < 60 then NatToString(minutes) + " min ago"
      else
        var hours := minutes / 60;
        FloorMinutesThenHours(now - since.value);
        if hours < 24 then NatToString(hours) + " hour" + Plural(hours) + " ago"
        else
          var days := hours / 24;
          FloorHoursThenDays(now - since.value);
          NatToString(days) + " day" + Plural(days) + " ago"
  }

  /** The unit changes at exactly one minute and one hour. */
  lemma TimeAgoMinuteBoundaries(t: int)
    ensures TimeAgo(Some(t), t + MinuteMs - 1) == "Just now"
    ensures TimeAgo(Some(t), t + MinuteMs) == "1 min ago"
    ensures TimeAgo(Some(t), t + HourMs - 1) == "59 min ago"
  {
    assert (t + MinuteMs) - t == MinuteMs;
    assert (t + HourMs - 1) - t == HourMs - 1;
    assert (HourMs - 1) / MinuteMs == 59;
    assert NatToString(1) == "1";
    assert NatToString(59) == NatToString(5) + "9";
  }

  /** Hours from one hour on, plural from two. */
  lemma TimeAgoHourBoundaries(t: int)
    ensures TimeAgo(Some(t), t + HourMs) == "1 hour ago"
    ensures TimeAgo(Some(t), t + 2 * HourMs) == "2 hours ago"
  {
    assert (t + HourMs) - t == HourMs;
    assert (t + 2 * HourMs) - t == 2 * HourMs;
    assert NatToString(1) == "1";
    assert NatToString(2) == "2";
  }

  /** Days from one day on, plural from two. */
  lemma TimeAgoDayBoundaries(t: int)
    ensures TimeAgo(Some(t), t + DayMs) == "1 day ago"
    ensures TimeAgo(Some(t), t + 3 * DayMs) == "3 days ago"
  {
    assert (t + DayMs) - t == DayMs;
    assert (t + 3 * DayMs) - t == 3 * DayMs;
    assert NatToString(1) == "1";
    assert NatToString(3) == "3";
  }

  /** A patient counted under "Active Patients": status `available` or `busy`. */
  predicate CountedActive(p: Record) {
    p.status == Some(Available.Name()) || p.status == Some(Busy.Name())
  }

  /** The "Active Patients" counter. */
  function ActivePatients(ps: seq<Record>): (n: nat)
    ensures n <= |ps|
    ensures n == 0 <== forall i :: 0 <= i < |ps| ==> !CountedActive(ps[i])
    ensures n == |ps| <== forall i :: 0 <= i < |ps| ==> CountedActive(ps[i])
  {
    var kept := Filter(ps, CountedActive);
    assert (forall i :: 0 <= i < |ps| ==> CountedActive(ps[i])) ==> kept == ps by {
      if forall i :: 0 <= i < |ps| ==> CountedActive(ps[i]) {
        FilterKeepsAll(ps, CountedActive);
      }
    }
    assert |kept| > 0 ==> exists i :: 0 <= i < |ps| && CountedActive(ps[i]) by {
      if |kept| > 0 {
        assert kept[0] in ps;
      }
    }
    |kept|
  }

  /** One more patient adds one to the counter exactly when it is counted. */
  lemma ActivePatientsAppend(ps: seq<Record>, p: Record)
    ensures ActivePatients(ps + [p]) == ActivePatients(ps) + (if CountedActive(p) then 1 else 0)
  {
    FilterAppend(ps, [p], CountedActive);
    assert Filter([p], CountedActive) == Filter([], CountedActive) + (if CountedActive(p) then [p] else []);
  }

  /** The counter as written leaves out the patients the refresh has just
      marked `active`: one who logged in a minute ago is not counted,
      although the table shows them with the green "Active" badge. */
  lemma JustLoggedInIsNotCounted(r: Record, now: int)
    requires r.status != Booked && r.lastLogin == Some(now - MinuteMs)
    ensures Derive(r, now).status == Some("active")
    ensures ActivePatients([Derive(r, now)]) == 0
  {
    ActivePatientsAppend([], Derive(r, now));
  }

  /** A patient seen within the last half hour: status `active`,
      `available` or `busy`, every status the "Active" and "Busy" badges
      stand for. */
  predicate Online(p: Record) {
    CountedActive(p) || p.status == Some(Active.Name())
  }

  /** The counter with `active` included. */
  function ActivePatientsCorrected(ps: seq<Record>): (n: nat)
    ensures n <= |ps|
    ensures n >= ActivePatients(ps)
    ensures n == 0 <== forall i :: 0 <= i < |ps| ==> !Online(ps[i])
    ensures n == |ps| <== forall i :: 0 <= i < |ps| ==> Online(ps[i])
  {
    var kept := Filter(ps, Online);
    FilterSplits(ps, Online);
    FilterMonotone(ps, CountedActive, Online);
    assert (forall i :: 0 <= i < |ps| ==> Online(ps[i])) ==> kept == ps by {
      if forall i :: 0 <= i < |ps| ==> Online(ps[i]) {
        FilterKeepsAll(ps, Online);
      }
    }
    assert |kept| > 0 ==> exists i :: 0 <= i < |ps| && Online(ps[i]) by {
      if |kept| > 0 {
        assert kept[0] in ps;
      }
    }
    |kept|
  }

  /** Filtering by a weaker condition keeps at least as many elements. */
  lemma {:induction false} FilterMonotone<T>(s: seq<T>, p: T -> bool, q: T -> bool)
    requires forall x :: p(x) ==> q(x)
    ensures |Filter(s, p)| <= |Filter(s, q)|
    decreases |s|
  {
    if |s| > 0 {
      var init, last := s[..|s| - 1], s[|s| - 1];
      assert s == init + [last];
      FilterAppend(init, [last], p);
      FilterAppend(init, [last], q);
      FilterMonotone(init, p, q);
      assert Filter([last], p) == Filter([], p) + (if p(last) then [last] else []);
      assert Filter([last], q) == Filter([], q) + (if q(last) then [last] else []);
    }
  }

  /** With `active` counted, a refreshed, not-booked patient is counted
      exactly when their last login is at most 30 minutes old. */
  lemma CorrectedCountsRecentLogins(r: Record, now: int)
    requires r.status != Booked
    ensures ActivePatientsCorrected([Derive(r, now)]) == 1 <==>
      r.lastLogin.None? || now - r.lastLogin.value <= 30 * MinuteMs
  {
    var d := Derive(r, now);
    FilterAppend([], [d], Online);
    assert Filter([d], Online) == Filter([], Online) + (if Online(d) then [d] else []);
  }

  /** The "Total Analyses" counter: `reduce((sum, p) => sum + p.totalAnalyses, 0)`.
      A record without `totalAnalyses` adds `undefined` and turns the sum
      into NaN (`None`) for good. */
  function TotalAnalyses(ps: seq<Record>): (r: Option<int>)
    ensures r.Some? <==> forall i :: 0 <= i < |ps| ==> ps[i].totalAnalyses.Some?
    ensures r.Some? && (forall i :: 0 <= i < |ps| ==> ps[i].totalAnalyses.value >= 0) ==> r.value >= 0
    ensures |ps| == 0 ==> r == Some(0)
    ensures |ps| == 1 ==> r == ps[0].totalAnalyses
    decreases |ps|
  {
    if |ps| == 0 then Some(0)
    else
      var init := TotalAnalyses(ps[..|ps| - 1]);
      var last := ps[|ps| - 1].totalAnalyses;
      if init.Some? && last.Some? then Some(init.value + last.value) else None
  }

  /** The sum of a concatenation is the sum of the sums, NaN absorbing. */
  lemma {:induction false} TotalAnalysesAppend(a: seq<Record>, b: seq<Record>)
    ensures TotalAnalyses(a + b) ==
      if TotalAnalyses(a).Some? && TotalAnalyses(b).Some?
      then Some(TotalAnalyses(a).value + TotalAnalyses(b).value) else None
    decreases |b|
  {
    if |b| == 0 {
      assert a + b == a;
    } else {
      var init := b[..|b| - 1];
      assert (a + b)[..|a + b| - 1] == a + init;
      assert (a + b)[|a + b| - 1] == b[|b| - 1];
      TotalAnalysesAppend(a, init);
    }
  }

  /** The four counters on top of the dashboard, as the page computes
      them: the "Active Patients" count leaves out `active` patients. */
  datatype Stats = Stats(totalPatients: nat, totalDoctors: nat, activePatients: nat, totalAnalyses: Option<int>)

  function StatsOf(v: View): (s: Stats)
    ensures s.totalPatients == |v.patients| && s.totalDoctors == |v.doctors|
    ensures s.activePatients == ActivePatients(v.patients)
    ensures s.totalAnalyses == TotalAnalyses(v.patients)
  {
    Stats(|v.patients|, |v.doctors|, ActivePatients(v.patients), TotalAnalyses(v.patients))
  }

  /** One more patient on screen: the patient total grows by one, the
      active count by one exactly when the patient is counted, and the
      analyses total by the patient's count, NaN absorbing. */
  lemma StatsAppend(v: View, p: Record)
    ensures var before := StatsOf(v);
      var after := StatsOf(v.(patients := v.patients + [p]));
      && after.totalPatients == before.totalPatients + 1
      && after.totalDoctors == before.totalDoctors
      && after.activePatients == before.activePatients + (if CountedActive(p) then 1 else 0)
      && after.totalAnalyses == (if before.totalAnalyses.Some? && p.totalAnalyses.Some?
                                 then Some(before.totalAnalyses.value + p.totalAnalyses.value) else None)
  {
    ActivePatientsAppend(v.patients, p);
    TotalAnalysesAppend(v.patients, [p]);
  }

  /** A patient shown with status `active`. */
  predicate MarkedActive(p: Record) {
    p.status == Some(Active.Name())
  }

  /** The counters with the corrected "Active Patients" count. */
  function StatsCorrected(v: View): (s: Stats)
    ensures s.totalPatients == |v.patients| && s.totalDoctors == |v.doctors|
    ensures s.activePatients == StatsOf(v).activePatients + |Filter(v.patients, MarkedActive)|
    ensures s.activePatients <= s.totalPatients
    ensures s.totalAnalyses == StatsOf(v).totalAnalyses
  {
    CorrectionAddsActive(v.patients);
    Stats(|v.patients|, |v.doctors|, ActivePatientsCorrected(v.patients), TotalAnalyses(v.patients))
  }

  /** The corrected count is the written count plus the `active` patients
      it leaves out. */
  lemma {:induction false} CorrectionAddsActive(ps: seq<Record>)
    ensures ActivePatientsCorrected(ps) == ActivePatients(ps) + |Filter(ps, MarkedActive)|
    decreases |ps|
  {
    if |ps| > 0 {
      var init, last := ps[..|ps| - 1], ps[|ps| - 1];
      assert ps == init + [last];
      CorrectionAddsActive(init);
      ActivePatientsAppend(init, last);
      FilterSnoc(init, last, Online);
      FilterSnoc(init, last, MarkedActive);
    }
  }

  /** The account list without `id`, in stored order. */
  function WithoutAccount(users: seq<StoredUser>, id: string): (r: seq<StoredUser>)
    ensures forall i :: 0 <= i < |r| ==> r[i].id != id && r[i] in users
    ensures forall i :: 0 <= i < |users| && users[i].id != id ==> users[i] in r
  {
    Filter(users, (u: StoredUser) => u.id != id)
  }

  /** Survivors keep their order: an account appended to the store is
      appended to the result exactly when its id differs. */
  lemma WithoutAccountSnoc(users: seq<StoredUser>, u: StoredUser, id: string)
    ensures WithoutAccount(users + [u], id) == WithoutAccount(users, id) + (if u.id != id then [u] else [])
  {
    FilterSnoc(users, u, (u: StoredUser) => u.id != id);
  }

  /** The stored QR codes without a doctor's, in stored order. */
  function CodesWithoutDoctor(codes: seq<QRCode>, doctorId: string): (r: seq<QRCode>)
    ensures forall i :: 0 <= i < |r| ==> r[i].doctorId != doctorId && r[i] in codes
    ensures forall i :: 0 <= i < |codes| && codes[i].doctorId != doctorId ==> codes[i] in r
  {
    Filter(codes, (q: QRCode) => q.doctorId != doctorId)
  }

  /** Survivors keep their order: a code appended to the store is appended
      to the result exactly when it belongs to another doctor. */
  lemma CodesWithoutDoctorSnoc(codes: seq<QRCode>, q: QRCode, doctorId: string)
    ensures CodesWithoutDoctor(codes + [q], doctorId) ==
      CodesWithoutDoctor(codes, doctorId) + (if q.doctorId != doctorId then [q] else [])
  {
    FilterSnoc(codes, q, (q: QRCode) => q.doctorId != doctorId);
  }

  /** After removing a doctor's codes, `getDoctorQRCodes` finds none for
      them and exactly the former list for every other doctor. */
  lemma {:induction false} CodesWithoutDoctorListing(codes: seq<QRCode>, doctorId: string, other: string)
    ensures QRCodes.GetDoctorQRCodes(CodesWithoutDoctor(codes, doctorId), doctorId) == []
    ensures other != doctorId ==>
      QRCodes.GetDoctorQRCodes(CodesWithoutDoctor(codes, doctorId), other) == QRCodes.GetDoctorQRCodes(codes, other)
    decreases |codes|
  {
    if |codes| > 0 {
      var init, last := codes[..|codes| - 1], codes[|codes| - 1];
      assert codes == init + [last];
      CodesWithoutDoctorListing(init, doctorId, other);
      CodesWithoutDoctorSnoc(init, last, doctorId);
      var kept := CodesWithoutDoctor(init, doctorId);
      QRCodes.GetDoctorQRCodesSnoc(init, last, other);
      if last.doctorId != doctorId {
        assert CodesWithoutDoctor(codes, doctorId) == kept + [last];
        QRCodes.GetDoctorQRCodesSnoc(kept, last, doctorId);
        QRCodes.GetDoctorQRCodesSnoc(kept, last, other);
      } else {
        assert CodesWithoutDoctor(codes, doctorId) == kept;
      }
    }
  }

  /** The local half of `handleDeletePatient`: the patient's records
      (matched by `id` or `patientId`) and their account (matched by `id`)
      leave the stores; the QR codes stay. */
  function ClearPatient(store: Store, patientId: string): (r: Store)
    ensures r.records == WithoutPatient(store.records, Some(patientId))
    ensures r.users == WithoutAccount(store.users, patientId)
    ensures r.qrCodes == store.qrCodes
  {
    Store(WithoutPatient(store.records, Some(patientId)), WithoutAccount(store.users, patientId), store.qrCodes)
  }

  /** `handleDeletePatient`: the stores are cleared, one `delete_patient`
      event goes out, and then `loadData` refreshes the dashboard from the
      cleared stores and the server's reply. */
  function DeletePatient(store: Store, patientId: string, patientName: string, fetched: Fetched, now: int)
    : (r: (View, Store, seq<Outgoing>))
    ensures r.1.users == WithoutAccount(store.users, patientId) && r.1.qrCodes == store.qrCodes
    ensures r.0.patients == r.1.records ==
      LoadPatients(WithoutPatient(store.records, Some(patientId)), fetched, now).shown
    ensures r.0.doctors == Doctors(r.1.users) && r.0.qrCodes == store.qrCodes
    ensures |r.2| >= 1 && r.2[0] == SyncDeletePatient(patientId, patientName, now)
    ensures r.2[1..] == LoadData(ClearPatient(store, patientId), fetched, now).2
  {
    var (view, reloaded, synced) := LoadData(ClearPatient(store, patientId), fetched, now);
    (view, reloaded, [SyncDeletePatient(patientId, patientName, now)] + synced)
  }

  /** Once the server no longer holds the patient, the refreshed dashboard
      shows none of their records and the account is gone. */
  lemma DeletedPatientStaysGone(store: Store, patientId: string, patientName: string, fetched: Fetched, now: int)
    requires fetched.Items? ==> forall i :: 0 <= i < |fetched.items| ==>
      fetched.items[i].id != Some(patientId) && fetched.items[i].patientId != Some(patientId)
    ensures forall i :: 0 <= i < |DeletePatient(store, patientId, patientName, fetched, now).0.patients| ==>
      DeletePatient(store, patientId, patientName, fetched, now).0.patients[i].id != Some(patientId) &&
      DeletePatient(store, patientId, patientName, fetched, now).0.patients[i].patientId != Some(patientId)
    ensures forall i :: 0 <= i < |DeletePatient(store, patientId, patientName, fetched, now).1.users| ==>
      DeletePatient(store, patientId, patientName, fetched, now).1.users[i].id != patientId
  {
    LoadPatientsAvoids(WithoutPatient(store.records, Some(patientId)), fetched, now, Some(patientId));
  }

  /** The local half of `handleDeleteDoctor`: the account and the doctor's
      QR codes leave the stores; the local patient records are untouched. */
  function ClearDoctor(store: Store, doctorId: string): (r: Store)
    ensures r.records == store.records
    ensures r.users == WithoutAccount(store.users, doctorId)
    ensures r.qrCodes == CodesWithoutDoctor(store.qrCodes, doctorId)
  {
    store.(users := WithoutAccount(store.users, doctorId), qrCodes := CodesWithoutDoctor(store.qrCodes, doctorId))
  }

  /** `handleDeleteDoctor`: the stores are cleared, one `delete_doctor`
      event goes out, and then `loadData` refreshes the dashboard. */
  function DeleteDoctor(store: Store, doctorId: string, doctorName: string, fetched: Fetched, now: int)
    : (r: (View, Store, seq<Outgoing>))
    ensures r.1.users == WithoutAccount(store.users, doctorId)
    ensures r.1.qrCodes == r.0.qrCodes == CodesWithoutDoctor(store.qrCodes, doctorId)
    ensures r.0.patients == r.1.records == LoadPatients(store.records, fetched, now).shown
    ensures r.0.doctors == Doctors(r.1.users)
    ensures |r.2| >= 1 && r.2[0] == SyncDeleteDoctor(doctorId, doctorName, now)
    ensures r.2[1..] == LoadData(ClearDoctor(store, doctorId), fetched, now).2
  {
    var (view, reloaded, synced) := LoadData(ClearDoctor(store, doctorId), fetched, now);
    (view, reloaded, [SyncDeleteDoctor(doctorId, doctorName, now)] + synced)
  }

  /** After the deletion the doctor is off the doctor list and has no QR
      codes left, while every other doctor keeps exactly their codes. */
  lemma DeletedDoctorIsGone(store: Store, doctorId: string, doctorName: string, fetched: Fetched, now: int, other: string)
    ensures forall i :: 0 <= i < |DeleteDoctor(store, doctorId, doctorName, fetched, now).0.doctors| ==>
      DeleteDoctor(store, doctorId, doctorName, fetched, now).0.doctors[i].id != doctorId
    ensures QRCodes.GetDoctorQRCodes(DeleteDoctor(store, doctorId, doctorName, fetched, now).1.qrCodes, doctorId) == []
    ensures other != doctorId ==>
      QRCodes.GetDoctorQRCodes(DeleteDoctor(store, doctorId, doctorName, fetched, now).1.qrCodes, other)
        == QRCodes.GetDoctorQRCodes(store.qrCodes, other)
  {
    var r := DeleteDoctor(store, doctorId, doctorName, fetched, now);
    var users := WithoutAccount(store.users, doctorId);
    forall i | 0 <= i < |r.0.doctors| ensures r.0.doctors[i].id != doctorId {
      var j :| 0 <= j < |users| && r.0.doctors[i] == SessionOf(users[j]);
    }
    CodesWithoutDoctorListing(store.qrCodes, doctorId, other);
  }

  /** `handleDeleteQRCode`: the code leaves the shown list and the store
      (the store's delete always reports success); the server hears of it
      only when the code was on screen, under the doctor name shown with
      the first such code. */
  function DeleteQRCode(shown: seq<QRCode>, store: Store, qrId: string, now: int): (r: (seq<QRCode>, Store, seq<Outgoing>))
    ensures r.0 == QRCodes.DeleteQRCode(shown, qrId).0
    ensures forall i :: 0 <= i < |r.0| ==> r.0[i].id != qrId && r.0[i] in shown
    ensures forall i :: 0 <= i < |shown| && shown[i].id != qrId ==> shown[i] in r.0
    ensures r.1 == store.(qrCodes := QRCodes.DeleteQRCode(store.qrCodes, qrId).0)
    ensures |r.2| <= 1
    ensures |r.2| == 1 <==> exists i :: 0 <= i < |shown| && shown[i].id == qrId
    ensures |r.2| == 1 ==> exists i :: (0 <= i < |shown| && shown[i].id == qrId &&
      (forall j :: 0 <= j < i ==> shown[j].id != qrId) &&
      r.2[0] == SyncDeleteQRCode(qrId, shown[i].doctorName, now))
  {
    var found := FindIndex(shown, (q: QRCode) => q.id == qrId);
    var (stored, deleted) := QRCodes.DeleteQRCode(store.qrCodes, qrId);
    if deleted then
      var outbox := if found.Some? then [SyncDeleteQRCode(qrId, shown[found.value].doctorName, now)] else [];
      (QRCodes.DeleteQRCode(shown, qrId).0, store.(qrCodes := stored), outbox)
    else
      (shown, store.(qrCodes := stored), [])
  }
}
