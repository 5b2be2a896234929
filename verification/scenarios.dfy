/** What happens when the pages' outgoing events reach the sync server:
    the client and server halves of one exchange, put together. */
module Scenarios {
  import opened Wrappers
  import opened Types
  import opened Records
  import opened Protocol
  import opened SyncClient
  import Server
  import Reconcile
  import Auth
  import AdminDashboard
  import PatientPage

  /** Every event the client can send is one the server handles, and the
      log entries it adds carry the client's clock, not the server's. */
  lemma ClientEventsAreAccepted(doc: Server.Document, o: Outgoing, now: int, reply: Reply<()>, serverNow: int)
    ensures var r := Server.Apply(doc, Send(o, now, reply).envelope, serverNow);
      && r.response == Server.Synced("Synced " + o.kind.Tag())
      && (o.kind == AppointmentSync ==> r.doc.appointments == doc.appointments + [Entry(o.data, now)])
      && (o.kind == LoginSync ==> r.doc.loginLogs == doc.loginLogs + [Entry(o.data, now)])
      && (o.kind == LogoutSync ==> r.doc.logoutLogs == doc.logoutLogs + [Entry(o.data, now)])
  {
    assert Server.Handled(o.kind.Tag()) by {
      match o.kind
      case PatientRecordSync =>
      case AppointmentSync =>
      case LoginSync =>
      case LogoutSync =>
      case DeletePatientSync =>
      case DeleteDoctorSync =>
      case DeleteQRCodeSync =>
    }
  }

  /** A booking hands over two events: the appointment, then the patient's
      record, booked and stamped with the request time. */
  lemma BookingOutbox(session: Option<User>, records: seq<Record>, now: int, a: Reply<()>, b: Reply<()>)
    requires PatientPage.BookAppointment(session, records, now, a, b).Requested?
    ensures var outbox := PatientPage.BookAppointment(session, records, now, a, b).outbox;
      && |outbox| == 2 && outbox[0].kind == AppointmentSync && outbox[1].kind == PatientRecordSync
      && AsRecord(outbox[1].data).patientId == Some(session.value.id)
      && AsRecord(outbox[1].data).status == Booked
      && AsRecord(outbox[1].data).appointmentRequestedAt == Some(now)
  {
    var r := PatientPage.BookAppointment(session, records, now, a, b);
    var j :| 0 <= j < |records| && records[j].patientId == Some(session.value.id) &&
      r.records == records[j := records[j].(status := Booked, appointmentRequestedAt := Some(now))] &&
      r.outbox == [SyncAppointment(session.value.id, session.value.name, session.value.email, "book_appointment", now),
                   SyncPatientRecord(r.records[j])];
  }

  /** The two events a booking sends, applied in order, leave the server
      with a record of the patient marked `book_appointment` and stamped
      with the request time, whatever the server held before. */
  lemma BookingReachesServer(session: Option<User>, records: seq<Record>, now: int, a: Reply<()>, b: Reply<()>,
                             doc: Server.Document, serverNow: int)
    requires PatientPage.BookAppointment(session, records, now, a, b).Requested?
    ensures var outbox := PatientPage.BookAppointment(session, records, now, a, b).outbox;
      var first := Server.Apply(doc, Send(outbox[0], now, a).envelope, serverNow).doc;
      var second := Server.Apply(first, Send(outbox[1], now, b).envelope, serverNow).doc;
      && |second.appointments| == |doc.appointments| + 1
      && exists i :: (0 <= i < |second.patientRecords|
           && second.patientRecords[i].patientId == Some(session.value.id)
           && second.patientRecords[i].status == Booked
           && second.patientRecords[i].appointmentRequestedAt == Some(now))
  {
    BookingOutbox(session, records, now, a, b);
    var outbox := PatientPage.BookAppointment(session, records, now, a, b).outbox;
    var first := Server.Apply(doc, Send(outbox[0], now, a).envelope, serverNow).doc;
    var d := AsRecord(outbox[1].data);
    DeliverRecord(first, outbox[1], now, b, serverNow);
    UpsertCarriesIncoming(first.patientRecords, d);
  }

  /** A `patient_record` event from the client upserts its record. */
  lemma DeliverRecord(doc: Server.Document, o: Outgoing, now: int, reply: Reply<()>, serverNow: int)
    requires o.kind == PatientRecordSync
    ensures var r := Server.Apply(doc, Send(o, now, reply).envelope, serverNow).doc;
      r == doc.(patientRecords := Upsert(doc.patientRecords, AsRecord(o.data)))
  {
  }

  /** After booking, the dashboards' refresh shows the record as booked at
      any later time, since a booked status is never derived over. */
  lemma BookingSurvivesRefresh(session: Option<User>, records: seq<Record>, now: int, a: Reply<()>, b: Reply<()>,
                               fetched: Fetched, later: int)
    requires PatientPage.BookAppointment(session, records, now, a, b).Requested?
    requires !Reconcile.ServerHasRecords(fetched)
    ensures var booked := PatientPage.BookAppointment(session, records, now, a, b).records;
      exists i :: (0 <= i < |booked| && booked[i].status == Booked
        && Reconcile.LoadPatients(booked, fetched, later).shown[i] == booked[i])
  {
    var booked := PatientPage.BookAppointment(session, records, now, a, b).records;
    var i :| 0 <= i < |records| && booked[i].status == Booked && booked[i].appointmentRequestedAt == Some(now);
    Reconcile.StickyThroughRefresh(booked, fetched, later, i);
  }

  /** The dashboards read back exactly the records the server holds. */
  lemma DashboardsReadServerRecords(disk: Server.Disk, local: seq<Record>, now: int)
    ensures FetchPatientRecords(Responded(200, Server.GetPatientRecords(disk))) == Items(Server.Read(disk).patientRecords)
    ensures |Server.Read(disk).patientRecords| > 0 ==>
      Reconcile.LoadPatients(local, FetchPatientRecords(Responded(200, Server.GetPatientRecords(disk))), now).shown
        == Reconcile.DeriveAll(Reconcile.MergeServer(local, Server.Read(disk).patientRecords), now)
  {
  }

  /** The appointments query fetched back is exactly the server's list. */
  lemma DashboardsReadServerAppointments(disk: Server.Disk)
    ensures FetchAppointments(Responded(200, Server.GetAppointments(disk))) == Server.Read(disk).appointments
  {
  }

  /** Deleting a patient in the admin dashboard and on the server removes
      the same records: starting from the same list, the server ends with
      the list the dashboard cleared locally, and the refresh that reads
      the server's list back shows none of the patient's records. */
  lemma DeletePatientAgrees(store: AdminDashboard.Store, doc: Server.Document, patientId: string, patientName: string,
                            now: int, reply: Reply<()>, serverNow: int)
    requires doc.patientRecords == store.records
    ensures var event := AdminDashboard.DeletePatient(store, patientId, patientName, NotAList, now).2[0];
      Server.Apply(doc, Send(event, now, reply).envelope, serverNow).doc.patientRecords
        == AdminDashboard.ClearPatient(store, patientId).records
    ensures var served := AdminDashboard.ClearPatient(store, patientId).records;
      var shown := AdminDashboard.DeletePatient(store, patientId, patientName, Items(served), now).0.patients;
      forall i :: 0 <= i < |shown| ==> shown[i].id != Some(patientId) && shown[i].patientId != Some(patientId)
  {
    var served := AdminDashboard.ClearPatient(store, patientId).records;
    AdminDashboard.DeletedPatientStaysGone(store, patientId, patientName, Items(served), now);
  }

  /** A registered patient's new record reaches the server, which then
      holds a record with that patient's id. */
  lemma RegisteredPatientReachesServer(store: Auth.Store, email: string, password: string, name: string, now: nat,
                                       sessionRandom: string, qrRandom: string, doc: Server.Document,
                                       reply: Reply<()>, serverNow: int)
    requires Auth.Register(store, email, password, name, Patient, now, sessionRandom, qrRandom).ok
    ensures var step := Auth.Register(store, email, password, name, Patient, now, sessionRandom, qrRandom);
      && |step.outbox| == 1
      && var after := Server.Apply(doc, Send(step.outbox[0], now, reply).envelope, serverNow).doc;
         exists i :: 0 <= i < |after.patientRecords| && Matches(after.patientRecords[i], step.store.records[|store.records|])
  {
    var step := Auth.Register(store, email, password, name, Patient, now, sessionRandom, qrRandom);
    var rec := step.store.records[|store.records|];
    assert step.outbox == [SyncPatientRecord(rec)];
    var after := Upsert(doc.patientRecords, rec);
    assert HasMatch(after, rec);
  }
}
