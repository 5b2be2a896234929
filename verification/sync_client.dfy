/** The sync client (src/utils/serverSync.ts): best-effort delivery of
    events and the two read queries. The transport is not modelled; each
    request's outcome (an HTTP status or a thrown error) is a parameter. */
module SyncClient {
  import opened Wrappers
  import opened Types
  import opened Protocol

  /** How a `fetch` ended: it threw (network error, unreadable body), or the
      server answered with a status and a body. */
  datatype Reply<B> = Threw | Responded(status: int, body: B)

  /** `response.ok`. */
  predicate IsOk<B>(reply: Reply<B>) {
    reply.Responded? && 200 <= reply.status <= 299
  }

  /** What `syncToServer` put on the wire and the boolean it resolved to. */
  datatype Sent = Sent(envelope: Envelope, ok: bool)

  /** `syncToServer(type, data)`: builds the envelope stamped with the
      current time and resolves to whether the server answered 2xx; an error
      never escapes, it becomes `false`. The reply body is not read. */
  function SyncToServer(kind: SyncType, data: Data, now: int, reply: Reply<()>): (r: Sent)
    ensures r.ok <==> IsOk(reply)
    ensures r.envelope.tag == kind.Tag() && r.envelope.data == data
    ensures r.envelope.timestamp == Some(now)
  {
    Sent(Envelope(kind.Tag(), data, Some(now)), IsOk(reply))
  }

  /** Sends one event handed over by a page. */
  function Send(o: Outgoing, now: int, reply: Reply<()>): Sent {
    SyncToServer(o.kind, o.data, now, reply)
  }

  /** `syncPatientRecord`: the record, untouched, as a `patient_record` event. */
  function SyncPatientRecord(record: Record): (o: Outgoing)
    ensures o.kind.Tag() == "patient_record" && AsRecord(o.data) == record
  {
    Outgoing(PatientRecordSync, RecordData(record))
  }

  /** `syncAppointment`. */
  function SyncAppointment(patientId: string, patientName: string, patientEmail: string, status: string, timestamp: int): (o: Outgoing)
    ensures o.kind.Tag() == "appointment"
    ensures PatientIdOf(o.data) == Some(patientId) && TimestampOf(o.data) == Some(timestamp)
  {
    Outgoing(AppointmentSync, AppointmentData(patientId, patientName, patientEmail, status, timestamp))
  }

  /** The `{userId, email, name, userType, timestamp}` payload of a session event. */
  function SessionPayload(u: User, now: int): Data {
    SessionData(u.id, u.email, u.name, u.userType.Name(), now)
  }

  /** `syncLogin`. */
  function SyncLogin(u: User, now: int): (o: Outgoing)
    ensures o.kind.Tag() == "login" && o.data.SessionData? && o.data.userId == u.id
  {
    Outgoing(LoginSync, SessionPayload(u, now))
  }

  /** `syncLogout`. */
  function SyncLogout(u: User, now: int): (o: Outgoing)
    ensures o.kind.Tag() == "logout" && o.data.SessionData? && o.data.userId == u.id
  {
    Outgoing(LogoutSync, SessionPayload(u, now))
  }

  /** `syncDeletePatient(patientId, patientName)`: `{patientId, patientName, timestamp}`. */
  function SyncDeletePatient(patientId: string, patientName: string, now: int): (o: Outgoing)
    ensures o.kind.Tag() == "delete_patient" && PatientIdOf(o.data) == Some(patientId)
  {
    Outgoing(DeletePatientSync, DeletePatientData(patientId, patientName, now))
  }

  /** `syncDeleteDoctor(doctorId, doctorName)`: `{doctorId, doctorName, timestamp}`. */
  function SyncDeleteDoctor(doctorId: string, doctorName: string, now: int): (o: Outgoing)
    ensures o.kind.Tag() == "delete_doctor" && DoctorIdOf(o.data) == Some(doctorId)
  {
    Outgoing(DeleteDoctorSync, DeleteDoctorData(doctorId, doctorName, now))
  }

  /** `syncDeleteQRCode(qrCodeId, doctorName)`: `{qrCodeId, doctorName, timestamp}`. */
  function SyncDeleteQRCode(qrCodeId: string, doctorName: string, now: int): (o: Outgoing)
    ensures o.kind.Tag() == "delete_qrcode" && o.data == DeleteQRCodeData(qrCodeId, doctorName, now)
  {
    Outgoing(DeleteQRCodeSync, DeleteQRCodeData(qrCodeId, doctorName, now))
  }

  /** What `fetchPatientRecords` resolves to: a list, or (when the body is an
      object without `records`) that object, which is no list. */
  datatype Fetched = Items(items: seq<Record>) | NotAList

  /** `fetchPatientRecords`: `data.records || data || []`, and `[]` on a
      non-ok status or any thrown error. */
  function FetchPatientRecords(reply: Reply<RecordsBody>): (r: Fetched)
    ensures !IsOk(reply) ==> r == Items([])
    ensures IsOk(reply) && reply.body.RecordsField? ==> r == Items(reply.body.records)
    ensures IsOk(reply) && reply.body.BareArray? ==> r == Items(reply.body.items)
    ensures IsOk(reply) && (reply.body.NullBody? || reply.body.FalsyScalar?) ==> r == Items([])
    ensures r.NotAList? <==> IsOk(reply) && reply.body.OtherObject?
  {
    if !IsOk(reply) then Items([])
    else match reply.body
      case RecordsField(rs) => Items(rs)
      case BareArray(rs) => Items(rs)
      case OtherObject => NotAList
      case NullBody => Items([])
      case FalsyScalar => Items([])
  }

  /** `fetchAppointments`: `data.appointments || []`, and `[]` on failure. */
  function FetchAppointments(reply: Reply<AppointmentsBody>): (r: seq<Entry>)
    ensures IsOk(reply) && reply.body.AppointmentsField? ==> r == reply.body.appointments
    ensures !(IsOk(reply) && reply.body.AppointmentsField?) ==> r == []
  {
    if IsOk(reply) && reply.body.AppointmentsField? then reply.body.appointments else []
  }
}
