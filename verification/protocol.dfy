/** The sync protocol's messages (src/utils/serverSync.ts): the seven event
    types, the payload each typed wrapper sends, the `{type, data, timestamp}`
    envelope, and the log entries the server keeps. */
module Protocol {
  import opened Wrappers
  import opened Types

  /** The client's union of event types (serverSync.ts:5). */
  datatype SyncType =
    | PatientRecordSync | AppointmentSync | LoginSync | LogoutSync
    | DeletePatientSync | DeleteDoctorSync | DeleteQRCodeSync
  {
    function Tag(): string {
      match this
      case PatientRecordSync => "patient_record"
      case AppointmentSync => "appointment"
      case LoginSync => "login"
      case LogoutSync => "logout"
      case DeletePatientSync => "delete_patient"
      case DeleteDoctorSync => "delete_doctor"
      case DeleteQRCodeSync => "delete_qrcode"
    }
  }

  /** The payload shapes the client sends as `data`. */
  datatype Data =
    | RecordData(record: Record)
    | AppointmentData(patientId: string, patientName: string, patientEmail: string, status: string, timestamp: int)
    | SessionData(userId: string, email: string, name: string, userType: string, timestamp: int)
    | DeletePatientData(patientId: string, patientName: string, timestamp: int)
    | DeleteDoctorData(doctorId: string, doctorName: string, timestamp: int)
    | DeleteQRCodeData(qrCodeId: string, doctorName: string, timestamp: int)

  /** `data.id`. */
  function IdOf(d: Data): Option<string> {
    if d.RecordData? then d.record.id else None
  }

  /** `data.patientId`. */
  function PatientIdOf(d: Data): Option<string> {
    match d
    case RecordData(r) => r.patientId
    case AppointmentData(p, _, _, _, _) => Some(p)
    case DeletePatientData(p, _, _) => Some(p)
    case _ => None
  }

  /** `data.doctorId`. */
  function DoctorIdOf(d: Data): Option<string> {
    if d.DeleteDoctorData? then Some(d.doctorId) else None
  }

  /** `data.timestamp`. */
  function TimestampOf(d: Data): Option<int> {
    if d.RecordData? then None else Some(d.timestamp)
  }

  /** The patient-record properties a payload carries, as a spread of it into
      a record would see them. */
  function AsRecord(d: Data): Record {
    match d
    case RecordData(r) => r
    case AppointmentData(p, n, e, s, _) => Record(None, Some(p), Some(n), Some(e), None, Some(s), None, None, None)
    case DeletePatientData(p, n, _) => Record(None, Some(p), Some(n), None, None, None, None, None, None)
    case _ => Record(None, None, None, None, None, None, None, None, None)
  }

  /** The body of a `POST /api/sync` request; the timestamp is optional on the wire. */
  datatype Envelope = Envelope(tag: string, data: Data, timestamp: Option<int>)

  /** An event a page hands to the sync client: its type and its payload. */
  datatype Outgoing = Outgoing(kind: SyncType, data: Data)

  /** An appointment, login or logout log entry: `{...data, timestamp}`, whose
      own `timestamp` property shadows any the payload had. */
  datatype Entry = Entry(data: Data, timestamp: int)

  /** A delete-log entry: `{type: tag, ...data, timestamp}`. */
  datatype DeleteEntry = DeleteEntry(tag: string, data: Data, timestamp: int)

  /** Body shapes `response.json()` may yield for the patient-records query. */
  datatype RecordsBody =
    | RecordsField(records: seq<Record>)   // an object with a `records` array
    | BareArray(items: seq<Record>)        // an array, which has no `records`
    | OtherObject                          // an object without `records`
    | NullBody                             // `null`: reading `.records` throws
    | FalsyScalar                          // `false`, `0` or `""`

  /** Body shapes for the appointments query. */
  datatype AppointmentsBody =
    | AppointmentsField(appointments: seq<Entry>)
    | NoAppointmentsField
    | NullAppointments   // `null`: reading `.appointments` throws
}
