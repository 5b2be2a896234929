/** The entities of the portal (src/types/auth.ts). Records travel as parsed
    JSON between the browser's local storage and the sync server, so a
    patient record is kept loose: every property may be absent, and
    `WellFormed` states what the TypeScript interface promises. Timestamps
    are milliseconds since the epoch (the ISO strings of the source are never
    empty, so JavaScript's `||` keeps any present timestamp). */
module Types {
  import opened Wrappers

  /** Who an account belongs to. */
  datatype UserType = Doctor | Patient | Admin {
    function Name(): string {
      match this
      case Doctor => "doctor"
      case Patient => "patient"
      case Admin => "admin"
    }
  }

  /** Reads a user type back from its wire name. */
  function ParseUserType(s: string): (r: Option<UserType>)
    ensures r.Some? ==> r.value.Name() == s
    ensures r.None? <==> forall t: UserType :: t.Name() != s
  {
    if s == "doctor" then Some(Doctor)
    else if s == "patient" then Some(Patient)
    else if s == "admin" then Some(Admin)
    else None
  }

  /** Presence of a patient as shown to doctors. */
  datatype Status = Available | Busy | Offline | BookAppointment | Active {
    function Name(): string {
      match this
      case Available => "available"
      case Busy => "busy"
      case Offline => "offline"
      case BookAppointment => "book_appointment"
      case Active => "active"
    }
  }

  /** Reads a status back from its wire name. */
  function ParseStatus(s: string): (r: Option<Status>)
    ensures r.Some? ==> r.value.Name() == s
    ensures r.None? <==> forall t: Status :: t.Name() != s
  {
    if s == "available" then Some(Available)
    else if s == "busy" then Some(Busy)
    else if s == "offline" then Some(Offline)
    else if s == "book_appointment" then Some(BookAppointment)
    else if s == "active" then Some(Active)
    else None
  }

  /** Every status reads back from its wire name. */
  lemma {:induction false} StatusNameRoundTrip(t: Status)
    ensures ParseStatus(t.Name()) == Some(t)
  {
    match t
    case Available =>
    case Busy =>
    case Offline =>
    case BookAppointment =>
    case Active =>
  }

  /** The status value a record carries when an appointment was requested. */
  const Booked: Option<string> := Some("book_appointment")

  /** The session user: the `User` interface has no password. */
  datatype User = User(id: string, email: string, name: string, userType: UserType, createdAt: int)

  /** An account as stored in the users list, password included. */
  datatype StoredUser = StoredUser(
    id: string, email: string, password: string, name: string, userType: UserType, createdAt: int)

  /** The session view of a stored account: every field but the password. */
  function SessionOf(u: StoredUser): (r: User)
    ensures r.id == u.id && r.email == u.email && r.name == u.name
    ensures r.userType == u.userType && r.createdAt == u.createdAt
  {
    User(u.id, u.email, u.name, u.userType, u.createdAt)
  }

  /** The properties of a patient record, for stating what an update touches. */
  datatype Field =
    | IdField | PatientIdField | PatientNameField | PatientEmailField | LastLoginField
    | StatusField | TotalAnalysesField | LastAnalysisField | AppointmentRequestedAtField

  /** A property value: a string or a number. */
  datatype Value = Text(text: string) | Number(number: int)

  /** A patient record as parsed from JSON; `None` is an absent property. */
  datatype Record = Record(
    id: Option<string>,
    patientId: Option<string>,
    patientName: Option<string>,
    patientEmail: Option<string>,
    lastLogin: Option<int>,
    status: Option<string>,
    totalAnalyses: Option<int>,
    lastAnalysis: Option<int>,
    appointmentRequestedAt: Option<int>)
  {
    /** The value of property `f`, `None` when absent. */
    function Get(f: Field): Option<Value> {
      match f
      case IdField => Str(id)
      case PatientIdField => Str(patientId)
      case PatientNameField => Str(patientName)
      case PatientEmailField => Str(patientEmail)
      case LastLoginField => Num(lastLogin)
      case StatusField => Str(status)
      case TotalAnalysesField => Num(totalAnalyses)
      case LastAnalysisField => Num(lastAnalysis)
      case AppointmentRequestedAtField => Num(appointmentRequestedAt)
    }
  }

  function Str(o: Option<string>): Option<Value> {
    match o
    case Some(s) => Some(Text(s))
    case None => None
  }

  function Num(o: Option<int>): Option<Value> {
    match o
    case Some(n) => Some(Number(n))
    case None => None
  }

  /** `b` differs from `a` at most in the properties `fs`. */
  ghost predicate ChangesOnly(a: Record, b: Record, fs: set<Field>) {
    forall f :: f !in fs ==> a.Get(f) == b.Get(f)
  }

  /** Agreement on every property is equality of records. */
  lemma SameFieldsSameRecord(a: Record, b: Record)
    requires ChangesOnly(a, b, {})
    ensures a == b
  {
    assert a.Get(IdField) == b.Get(IdField);
    assert a.Get(PatientIdField) == b.Get(PatientIdField);
    assert a.Get(PatientNameField) == b.Get(PatientNameField);
    assert a.Get(PatientEmailField) == b.Get(PatientEmailField);
    assert a.Get(LastLoginField) == b.Get(LastLoginField);
    assert a.Get(StatusField) == b.Get(StatusField);
    assert a.Get(TotalAnalysesField) == b.Get(TotalAnalysesField);
    assert a.Get(LastAnalysisField) == b.Get(LastAnalysisField);
    assert a.Get(AppointmentRequestedAtField) == b.Get(AppointmentRequestedAtField);
  }

  /** What the `PatientRecord` interface promises: every property except
      `lastAnalysis` and `appointmentRequestedAt` is present, and `status`
      is one of the five names. */
  predicate WellFormed(r: Record) {
    && r.id.Some? && r.patientId.Some? && r.patientName.Some? && r.patientEmail.Some?
    && r.lastLogin.Some? && r.totalAnalyses.Some?
    && KnownStatus(r)
  }

  /** The record shows one of the five statuses. */
  predicate KnownStatus(r: Record) {
    r.status.Some? && ParseStatus(r.status.value).Some?
  }

  /** A status, when present, is one of the five names. */
  predicate StatusTyped(r: Record) {
    r.status.None? || ParseStatus(r.status.value).Some?
  }

  /** A QR code a doctor signs in with. */
  datatype QRCode = QRCode(
    id: string,
    doctorId: string,
    doctorName: string,
    doctorEmail: string,
    qrCode: string,
    sessionId: string,
    createdAt: int,
    lastSignIn: int,
    isActive: bool)
}
