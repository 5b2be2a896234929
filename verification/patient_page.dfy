/** The patient's home page (src/pages/Index.tsx) and the result card it
    shows (src/components/diagnosis/ResultsDisplay.tsx): analysing the six
    uploads, recording the analysis in the patient's record, and requesting
    an appointment. The card repeats the page's appointment handler line
    for line, so both buttons are modelled by `BookAppointment`. */
module PatientPage {
  import opened Wrappers
  import opened Types
  import opened Lists
  import opened Records
  import opened Protocol
  import opened SyncClient
  import opened ImageAnalysis
  import opened Upload

  datatype Page = Page(images: seq<Image>, showResults: bool, isAnalyzing: bool, result: Option<Summary>)

  /** The page as first shown. */
  const Initial := Page([], false, false, None)

  /** The analyse button is enabled with six uploads and no analysis running. */
  predicate CanAnalyze(page: Page) {
    IsReadyToAnalyze(page.images) && !page.isAnalyzing
  }

  /** The patient details handed to the analysis, when someone is logged in. */
  function PatientInfoOf(session: Option<User>): (r: Option<PatientInfo>)
    ensures r.Some? <==> session.Some?
    ensures r.Some? ==> r.value == PatientInfo(session.value.name, session.value.email, session.value.userType.Name())
  {
    match session
    case None => None
    case Some(u) => Some(PatientInfo(u.name, u.email, u.userType.Name()))
  }

  predicate IsPatient(session: Option<User>) {
    session.Some? && session.value.userType == Patient
  }

  /** The analysis side effect: the first record whose `patientId` is the
      user's id is seen now, counts one more analysis (a missing count
      counting as 0), records the analysis time and turns `busy`. */
  function RecordAnalysis(records: seq<Record>, userId: string, now: int): (r: (seq<Record>, Option<Record>))
    ensures |r.0| == |records|
    ensures r.1.None? <==> forall j :: 0 <= j < |records| ==> records[j].patientId != Some(userId)
    ensures r.1.None? ==> r.0 == records
    ensures r.1.Some? ==> exists j :: (0 <= j < |records| && records[j].patientId == Some(userId) &&
      (forall k :: 0 <= k < j ==> records[k].patientId != Some(userId)) &&
      r.0 == records[j := r.1.value] &&
      r.1.value.totalAnalyses == Some(records[j].totalAnalyses.GetOr(0) + 1) &&
      r.1.value.lastLogin == Some(now) && r.1.value.lastAnalysis == Some(now) &&
      r.1.value.status == Some(Busy.Name()) &&
      ChangesOnly(records[j], r.1.value, {LastLoginField, TotalAnalysesField, LastAnalysisField, StatusField}))
  {
    match FindIndex(records, (p: Record) => p.patientId == Some(userId))
    case None => (records, None)
    case Some(j) =>
      var p := records[j];
      var analysed := p.(lastLogin := Some(now), totalAnalyses := Some(p.totalAnalyses.GetOr(0) + 1),
                         lastAnalysis := Some(now), status := Some(Busy.Name()));
      assert records[j].patientId == Some(userId);
      assert forall k :: 0 <= k < j ==> records[k].patientId != Some(userId);
      assert ChangesOnly(p, analysed, {LastLoginField, TotalAnalysesField, LastAnalysisField, StatusField}) by {
        forall f | f !in {LastLoginField, TotalAnalysesField, LastAnalysisField, StatusField}
          ensures p.Get(f) == analysed.Get(f)
        {
        }
      }
      (records[j := analysed], Some(analysed))
  }

  /** `handleAnalyze`: the summary of the uploaded files is shown, and a
      patient's record is updated and synced. */
  function HandleAnalyze(page: Page, session: Option<User>, records: seq<Record>, now: int): (r: (Page, seq<Record>, seq<Outgoing>))
    ensures r.0 == page.(result := Some(AnalyzeImages(FileNames(page.images), PatientInfoOf(session))),
                         showResults := true, isAnalyzing := false)
    ensures !IsPatient(session) ==> r.1 == records && r.2 == []
    ensures IsPatient(session) ==> r.1 == RecordAnalysis(records, session.value.id, now).0
    ensures IsPatient(session) && RecordAnalysis(records, session.value.id, now).1.Some? ==>
      r.2 == [SyncPatientRecord(RecordAnalysis(records, session.value.id, now).1.value)]
    ensures |r.2| <= 1
  {
    var summary := AnalyzeImages(FileNames(page.images), PatientInfoOf(session));
    var shown := page.(result := Some(summary), showResults := true, isAnalyzing := false);
    if IsPatient(session) then
      var (updated, analysed) := RecordAnalysis(records, session.value.id, now);
      (shown, updated, if analysed.Some? then [SyncPatientRecord(analysed.value)] else [])
    else
      (shown, records, [])
  }

  /** Analysing six uploads shows one score per box, in upload order. */
  lemma AnalysisCoversEveryUpload(page: Page, session: Option<User>, records: seq<Record>, now: int)
    requires CanAnalyze(page)
    ensures var shown := HandleAnalyze(page, session, records, now).0;
      shown.result.Some? && |shown.result.value.emotionScores| == 6 &&
      shown.result.value.confidence.Num? &&
      forall i :: 0 <= i < 6 ==>
        shown.result.value.emotionScores[i].emotion == AnalyzeImageFilename(page.images[i].fileName).emotion
  {
  }

  /** An analysis overwrites a pending appointment request: the record
      turns `busy` although `book_appointment` was set. */
  lemma AnalysisClearsBooking(records: seq<Record>, userId: string, now: int, j: nat)
    requires j < |records| && records[j].patientId == Some(userId) && records[j].status == Booked
    requires forall k :: 0 <= k < j ==> records[k].patientId != Some(userId)
    ensures RecordAnalysis(records, userId, now).0[j].status == Some("busy")
    ensures RecordAnalysis(records, userId, now).0[j].appointmentRequestedAt == records[j].appointmentRequestedAt
  {
    var r := RecordAnalysis(records, userId, now);
    var i :| 0 <= i < |records| && records[i].patientId == Some(userId) &&
      (forall k :: 0 <= k < i ==> records[k].patientId != Some(userId)) &&
      r.0 == records[i := r.1.value] && r.1.value.status == Some(Busy.Name()) &&
      ChangesOnly(records[i], r.1.value, {LastLoginField, TotalAnalysesField, LastAnalysisField, StatusField});
    assert i == j;
    assert r.0[j].Get(AppointmentRequestedAtField) == records[j].Get(AppointmentRequestedAtField);
  }

  /** What the appointment button leads to. */
  datatype Booking =
    | NotPatient
    | RecordNotFound
    | Requested(records: seq<Record>, outbox: seq<Outgoing>, synced: bool)

  /** `handleBookAppointment` (page and result card alike): only a patient
      may book; the first record whose `patientId` is theirs is marked
      `book_appointment` with the request time; then the appointment event
      and the whole record are sent, in that order, and the request counts
      as synced only if both sends succeed. */
  function BookAppointment(session: Option<User>, records: seq<Record>, now: int,
                           appointmentReply: Reply<()>, recordReply: Reply<()>): (r: Booking)
    ensures r.NotPatient? <==> !IsPatient(session)
    ensures r.RecordNotFound? <==> (IsPatient(session) &&
      forall j :: 0 <= j < |records| ==> records[j].patientId != Some(session.value.id))
    ensures r.Requested? ==> exists j :: (0 <= j < |records| && records[j].patientId == Some(session.value.id) &&
      (forall k :: 0 <= k < j ==> records[k].patientId != Some(session.value.id)) &&
      r.records == records[j := records[j].(status := Booked, appointmentRequestedAt := Some(now))] &&
      r.outbox == [SyncAppointment(session.value.id, session.value.name, session.value.email, "book_appointment", now),
                   SyncPatientRecord(r.records[j])])
    ensures r.Requested? ==> (r.synced <==> IsOk(appointmentReply) && IsOk(recordReply))
    ensures r.Requested? ==> |r.records| == |records|
  {
    if !IsPatient(session) then NotPatient
    else
      var user := session.value;
      match FindIndex(records, (p: Record) => p.patientId == Some(user.id))
      case None => RecordNotFound
      case Some(j) =>
        var booked := records[j].(status := Booked, appointmentRequestedAt := Some(now));
        var appointment := SyncAppointment(user.id, user.name, user.email, "book_appointment", now);
        var record := SyncPatientRecord(booked);
        var sentAppointment := Send(appointment, now, appointmentReply);
        var sentRecord := Send(record, now, recordReply);
        Requested(records[j := booked], [appointment, record], sentAppointment.ok && sentRecord.ok)
  }
}
