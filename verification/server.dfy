/** The sync server (server.js). The JSON file is a value: reading it may
    fail (and then yields the fallback document), writing it may fail (and
    the failure is ignored). The clock is the `now` parameter. */
module Server {
  import opened Wrappers
  import opened Types
  import opened Lists
  import opened Records
  import opened Protocol

  /** The server document. `deleteLogs` may be missing: the read-failure
      fallback does not have it. */
  datatype Document = Document(
    patientRecords: seq<Record>,
    appointments: seq<Entry>,
    loginLogs: seq<Entry>,
    logoutLogs: seq<Entry>,
    deleteLogs: Option<seq<DeleteEntry>>)

  /** The document written when the data file does not exist (server.js:19-28). */
  const Initial := Document([], [], [], [], Some([]))

  /** What `readData` returns when the file cannot be read or parsed (server.js:37-42). */
  const Fallback := Document([], [], [], [], None)

  /** The answer to `POST /api/sync`. */
  datatype Response = Synced(message: string) | Rejected(error: string) {
    function StatusCode(): int {
      if Synced? then 200 else 400
    }
  }

  datatype Outcome = Outcome(doc: Document, response: Response)

  /** The event types the `switch` handles. */
  predicate Handled(tag: string) {
    tag == "patient_record" || tag == "appointment" || tag == "login" || tag == "logout"
    || tag == "delete_patient" || tag == "delete_doctor" || tag == "delete_qrcode"
  }

  /** `p.patientId === pid || p.id === pid`. */
  predicate Owns(p: Record, pid: Option<string>) {
    p.patientId == pid || p.id == pid
  }

  predicate FirstOwner(records: seq<Record>, pid: Option<string>, i: int) {
    0 <= i < |records| && Owns(records[i], pid) && forall j :: 0 <= j < i ==> !Owns(records[j], pid)
  }

  /** The appointment side effect: the first record owned by `pid` gets
      status `book_appointment` and the request time `at`. */
  function Book(records: seq<Record>, pid: Option<string>, at: int): (r: seq<Record>)
    ensures |r| == |records|
    ensures forall j :: 0 <= j < |records| && !FirstOwner(records, pid, j) ==> r[j] == records[j]
    ensures forall j :: FirstOwner(records, pid, j) ==>
      && r[j].status == Booked && r[j].appointmentRequestedAt == Some(at)
      && ChangesOnly(records[j], r[j], {StatusField, AppointmentRequestedAtField})
    ensures (forall j :: 0 <= j < |records| ==> !Owns(records[j], pid)) ==> r == records
  {
    match FindIndex(records, p => Owns(p, pid))
    case Some(i) =>
      assert FirstOwner(records, pid, i);
      assert forall j :: FirstOwner(records, pid, j) ==> j == i;
      records[i := records[i].(status := Booked, appointmentRequestedAt := Some(at))]
    case None => records
  }

  /** `delete_doctor`: keeps the records whose `patientId` differs from `did`. */
  function WithoutDoctor(records: seq<Record>, did: Option<string>): (r: seq<Record>)
    ensures forall i :: 0 <= i < |r| ==> r[i].patientId != did
    ensures forall i :: 0 <= i < |records| && records[i].patientId != did ==> records[i] in r
    ensures forall i :: 0 <= i < |r| ==> r[i] in records
  {
    Filter(records, (p: Record) => p.patientId != did)
  }

  /** The survivors keep their stored order: a record appended to the list
      is appended to the result exactly when it is not the doctor's. */
  lemma WithoutDoctorSnoc(records: seq<Record>, x: Record, did: Option<string>)
    ensures WithoutDoctor(records + [x], did) == WithoutDoctor(records, did) + (if x.patientId != did then [x] else [])
  {
    FilterSnoc(records, x, (p: Record) => p.patientId != did);
  }

  /** `serverData.deleteLogs = serverData.deleteLogs || []` followed by a push. */
  function LogDelete(doc: Document, e: DeleteEntry): (r: Document)
    ensures r.deleteLogs == Some(doc.deleteLogs.GetOr([]) + [e])
    ensures r.(deleteLogs := doc.deleteLogs) == doc
  {
    doc.(deleteLogs := Some(doc.deleteLogs.GetOr([]) + [e]))
  }

  /** The `switch (type)` of `POST /api/sync` (server.js:58-160) as a pure step. */
  function Apply(doc: Document, env: Envelope, now: int): (r: Outcome)
    ensures r.response.Rejected? <==> !Handled(env.tag)
    ensures r.response.Rejected? ==> r.doc == doc && r.response.error == "Unknown sync type"
    ensures r.response.Synced? ==> r.response.message == "Synced " + env.tag
    ensures |r.doc.appointments| == |doc.appointments| + (if env.tag == "appointment" then 1 else 0)
    ensures |r.doc.loginLogs| == |doc.loginLogs| + (if env.tag == "login" then 1 else 0)
    ensures |r.doc.logoutLogs| == |doc.logoutLogs| + (if env.tag == "logout" then 1 else 0)
    ensures doc.appointments <= r.doc.appointments && doc.loginLogs <= r.doc.loginLogs
    ensures doc.logoutLogs <= r.doc.logoutLogs
    ensures doc.deleteLogs.GetOr([]) <= r.doc.deleteLogs.GetOr([])
    ensures |r.doc.deleteLogs.GetOr([])| == |doc.deleteLogs.GetOr([])|
      + (if env.tag in {"delete_patient", "delete_doctor", "delete_qrcode"} then 1 else 0)
    ensures env.tag !in {"patient_record", "appointment", "delete_patient", "delete_doctor"} ==>
      r.doc.patientRecords == doc.patientRecords
  {
    var ts := env.timestamp.GetOr(now);
    var d := env.data;
    if env.tag == "patient_record" then
      Outcome(doc.(patientRecords := Upsert(doc.patientRecords, AsRecord(d))), Synced("Synced " + env.tag))
    else if env.tag == "appointment" then
      var booked := Book(doc.patientRecords, PatientIdOf(d), TimestampOf(d).GetOr(now));
      Outcome(doc.(appointments := doc.appointments + [Entry(d, ts)], patientRecords := booked),
              Synced("Synced " + env.tag))
    else if env.tag == "login" then
      Outcome(doc.(loginLogs := doc.loginLogs + [Entry(d, ts)]), Synced("Synced " + env.tag))
    else if env.tag == "logout" then
      Outcome(doc.(logoutLogs := doc.logoutLogs + [Entry(d, ts)]), Synced("Synced " + env.tag))
    else if env.tag == "delete_patient" then
      var kept := doc.(patientRecords := WithoutPatient(doc.patientRecords, PatientIdOf(d)));
      Outcome(LogDelete(kept, DeleteEntry("patient", d, ts)), Synced("Synced " + env.tag))
    else if env.tag == "delete_doctor" then
      var kept := doc.(patientRecords := WithoutDoctor(doc.patientRecords, DoctorIdOf(d)));
      Outcome(LogDelete(kept, DeleteEntry("doctor", d, ts)), Synced("Synced " + env.tag))
    else if env.tag == "delete_qrcode" then
      Outcome(LogDelete(doc, DeleteEntry("qrcode", d, ts)), Synced("Synced " + env.tag))
    else
      Outcome(doc, Rejected("Unknown sync type"))
  }

  /** The data file and whether reading and writing it succeed. */
  datatype Disk = Disk(stored: Document, readable: bool, writable: bool)

  /** `readData()`. */
  function Read(disk: Disk): Document {
    if disk.readable then disk.stored else Fallback
  }

  /** The whole request: read, apply, write unless rejected. A failed write
      is ignored: the response still reports success. Returns the document
      on disk afterwards and the response. */
  function HandleSync(disk: Disk, env: Envelope, now: int): (r: (Document, Response))
    ensures r.1 == Apply(Read(disk), env, now).response
    ensures !Handled(env.tag) || !disk.writable ==> r.0 == disk.stored
    ensures Handled(env.tag) && disk.writable ==> r.0 == Apply(Read(disk), env, now).doc
  {
    var o := Apply(Read(disk), env, now);
    if o.response.Rejected? || !disk.writable then (disk.stored, o.response)
    else (o.doc, o.response)
  }

  /** `GET /api/patient-records`: `{records: serverData.patientRecords}`. */
  function GetPatientRecords(disk: Disk): RecordsBody {
    RecordsField(Read(disk).patientRecords)
  }

  /** `GET /api/appointments`: `{appointments: serverData.appointments}`. */
  function GetAppointments(disk: Disk): AppointmentsBody {
    AppointmentsField(Read(disk).appointments)
  }

  /** `patient_record` with a matching record overlays the first match only;
      without one it appends the payload. Nothing but the records changes. */
  lemma PatientRecordCase(doc: Document, env: Envelope, now: int)
    requires env.tag == "patient_record"
    ensures var r := Apply(doc, env, now).doc; var d := AsRecord(env.data);
      && r.(patientRecords := doc.patientRecords) == doc
      && (HasMatch(doc.patientRecords, d) ==>
            exists i :: FirstMatch(doc.patientRecords, d, i)
              && r.patientRecords == doc.patientRecords[i := Merge(doc.patientRecords[i], d)])
      && (!HasMatch(doc.patientRecords, d) ==> r.patientRecords == doc.patientRecords + [d])
  {
  }

  /** Delivering the same `patient_record` event twice leaves the document
      as delivering it once. */
  lemma PatientRecordIdempotent(doc: Document, env: Envelope, now: int, later: int)
    requires env.tag == "patient_record"
    ensures Apply(Apply(doc, env, now).doc, env, later).doc == Apply(doc, env, now).doc
  {
    UpsertIdempotent(doc.patientRecords, AsRecord(env.data));
  }

  /** `appointment` appends exactly one entry, stamped with the envelope's
      timestamp (or the server clock), and books the first record owned by
      `data.patientId`, stamping it with `data.timestamp` (or the clock):
      the two timestamps come from different places (server.js:88, 97). */
  lemma AppointmentCase(doc: Document, env: Envelope, now: int)
    requires env.tag == "appointment"
    ensures var r := Apply(doc, env, now).doc; var pid := PatientIdOf(env.data);
      && r.appointments == doc.appointments + [Entry(env.data, env.timestamp.GetOr(now))]
      && r.loginLogs == doc.loginLogs && r.logoutLogs == doc.logoutLogs && r.deleteLogs == doc.deleteLogs
      && |r.patientRecords| == |doc.patientRecords|
      && (forall j :: FirstOwner(doc.patientRecords, pid, j) ==>
            && r.patientRecords[j].status == Booked
            && r.patientRecords[j].appointmentRequestedAt == Some(TimestampOf(env.data).GetOr(now)))
      && (forall j :: 0 <= j < |doc.patientRecords| && !FirstOwner(doc.patientRecords, pid, j) ==>
            r.patientRecords[j] == doc.patientRecords[j])
  {
  }

  /** `login` and `logout` append one entry to their own log and change nothing else. */
  lemma SessionLogCase(doc: Document, env: Envelope, now: int)
    requires env.tag == "login" || env.tag == "logout"
    ensures var r := Apply(doc, env, now).doc; var e := Entry(env.data, env.timestamp.GetOr(now));
      && (env.tag == "login" ==> r == doc.(loginLogs := doc.loginLogs + [e]))
      && (env.tag == "logout" ==> r == doc.(logoutLogs := doc.logoutLogs + [e]))
  {
  }

  /** The three deletes: the two record filters and one tagged log entry;
      `delete_qrcode` touches no record. */
  lemma DeleteCase(doc: Document, env: Envelope, now: int)
    requires env.tag in {"delete_patient", "delete_doctor", "delete_qrcode"}
    ensures var r := Apply(doc, env, now).doc; var ts := env.timestamp.GetOr(now);
      var tag := if env.tag == "delete_patient" then "patient"
                 else if env.tag == "delete_doctor" then "doctor" else "qrcode";
      && r.deleteLogs == Some(doc.deleteLogs.GetOr([]) + [DeleteEntry(tag, env.data, ts)])
      && r.appointments == doc.appointments && r.loginLogs == doc.loginLogs && r.logoutLogs == doc.logoutLogs
      && (env.tag == "delete_patient" ==> r.patientRecords == WithoutPatient(doc.patientRecords, PatientIdOf(env.data)))
      && (env.tag == "delete_doctor" ==> r.patientRecords == WithoutDoctor(doc.patientRecords, DoctorIdOf(env.data)))
      && (env.tag == "delete_qrcode" ==> r.patientRecords == doc.patientRecords)
  {
  }

  /** A failed read turns into the fallback document, and a successful write
      of the result replaces the whole file: every earlier record and log
      entry is lost and at most the new event's own effect remains. */
  lemma UnreadableFileIsOverwritten(disk: Disk, env: Envelope, now: int)
    requires !disk.readable && disk.writable && Handled(env.tag)
    ensures var after := HandleSync(disk, env, now).0;
      && |after.patientRecords| <= 1 && |after.appointments| <= 1
      && |after.loginLogs| <= 1 && |after.logoutLogs| <= 1 && |after.deleteLogs.GetOr([])| <= 1
  {
    var o := Apply(Fallback, env, now);
    if env.tag == "patient_record" {
      assert !HasMatch([], AsRecord(env.data));
    }
  }
}
