/** Patient-record merging, shared verbatim by the sync server's
    `patient_record` case (server.js:66-82) and the dashboards' merge step
    (DoctorDashboard.tsx:43-56, AdminDashboard.tsx:50-63): find the first
    record with the same `id` or the same `patientId`, overlay the incoming
    record on it, or append the incoming record when there is none. */
module Records {
  import opened Wrappers
  import opened Types
  import opened Lists

  /** JavaScript truthiness of an optional string: present and non-empty. */
  predicate Truthy(s: Option<string>) {
    s.Some? && s.value != ""
  }

  /** The property a spread `{...existing, ...incoming}` leaves: the incoming
      one when present, else the existing one. */
  function Pick<T>(incoming: Option<T>, existing: Option<T>): Option<T> {
    if incoming.Some? then incoming else existing
  }

  /** `{...existing, ...incoming, status: incoming.status || existing.status,
      appointmentRequestedAt: incoming.appointmentRequestedAt || existing.appointmentRequestedAt}`.
      For the timestamp, `||` and the spread agree because a present ISO
      timestamp is never empty. */
  function Merge(existing: Record, incoming: Record): (r: Record)
    ensures forall f :: f != StatusField ==>
      r.Get(f) == (if incoming.Get(f).Some? then incoming.Get(f) else existing.Get(f))
    ensures Truthy(incoming.status) ==> r.status == incoming.status
    ensures !Truthy(incoming.status) ==> r.status == existing.status
    ensures Matches(existing, incoming) ==> Matches(r, incoming)
    ensures WellFormed(existing) && StatusTyped(incoming) ==> WellFormed(r)
    ensures KeysAgree(existing) && KeysAgree(incoming) && Matches(existing, incoming) ==>
      KeysAgree(r) && r.id == existing.id
  {
    Record(
      id := Pick(incoming.id, existing.id),
      patientId := Pick(incoming.patientId, existing.patientId),
      patientName := Pick(incoming.patientName, existing.patientName),
      patientEmail := Pick(incoming.patientEmail, existing.patientEmail),
      lastLogin := Pick(incoming.lastLogin, existing.lastLogin),
      status := if Truthy(incoming.status) then incoming.status else existing.status,
      totalAnalyses := Pick(incoming.totalAnalyses, existing.totalAnalyses),
      lastAnalysis := Pick(incoming.lastAnalysis, existing.lastAnalysis),
      appointmentRequestedAt := Pick(incoming.appointmentRequestedAt, existing.appointmentRequestedAt))
  }

  /** Overlaying the same record twice is overlaying it once, and a record
      overlaid on itself is unchanged. */
  lemma MergeIdempotent(existing: Record, incoming: Record)
    ensures Merge(Merge(existing, incoming), incoming) == Merge(existing, incoming)
    ensures Merge(incoming, incoming) == incoming
  {
  }

  /** `p.id === d.id || p.patientId === d.patientId`; two absent
      properties compare equal, as `undefined === undefined` does. */
  predicate Matches(p: Record, d: Record) {
    p.id == d.id || p.patientId == d.patientId
  }

  /** The shape registration creates: `id` present and equal to `patientId`. */
  predicate KeysAgree(r: Record) {
    r.id.Some? && r.id == r.patientId
  }

  predicate HasMatch(rs: seq<Record>, d: Record) {
    exists j :: 0 <= j < |rs| && Matches(rs[j], d)
  }

  /** `i` is the index `findIndex` returns for `d`. */
  predicate FirstMatch(rs: seq<Record>, d: Record, i: int) {
    0 <= i < |rs| && Matches(rs[i], d) && forall j :: 0 <= j < i ==> !Matches(rs[j], d)
  }

  lemma FirstMatchUnique(rs: seq<Record>, d: Record, i: int, k: int)
    requires FirstMatch(rs, d, i) && FirstMatch(rs, d, k)
    ensures i == k
  {
  }

  /** Update-or-insert of one incoming record. */
  function Upsert(records: seq<Record>, d: Record): (r: seq<Record>)
    ensures HasMatch(records, d) ==> |r| == |records|
    ensures HasMatch(records, d) ==>
      exists i :: FirstMatch(records, d, i) && r == records[i := Merge(records[i], d)]
    ensures !HasMatch(records, d) ==> r == records + [d]
    ensures HasMatch(r, d)
  {
    match FindIndex(records, p => Matches(p, d))
    case Some(i) =>
      assert FirstMatch(records, d, i);
      var r := records[i := Merge(records[i], d)];
      assert Matches(r[i], d);
      r
    case None =>
      var r := records + [d];
      assert Matches(r[|records|], d);
      r
  }

  /** Upserting the same record twice leaves the list as upserting it once. */
  lemma {:induction false} UpsertIdempotent(records: seq<Record>, d: Record)
    ensures Upsert(Upsert(records, d), d) == Upsert(records, d)
  {
    var once := Upsert(records, d);
    if HasMatch(records, d) {
      var i :| FirstMatch(records, d, i) && once == records[i := Merge(records[i], d)];
      assert FirstMatch(once, d, i);
      var k :| FirstMatch(once, d, k) && Upsert(once, d) == once[k := Merge(once[k], d)];
      FirstMatchUnique(once, d, i, k);
      MergeIdempotent(records[i], d);
    } else {
      assert FirstMatch(once, d, |records|);
      var k :| FirstMatch(once, d, k) && Upsert(once, d) == once[k := Merge(once[k], d)];
      FirstMatchUnique(once, d, |records|, k);
      MergeIdempotent(d, d);
    }
  }

  /** After an upsert some record carries the incoming `patientId`, status
      and request time, provided the incoming record has all three (and a
      non-empty status, which is what `||` keeps). */
  lemma UpsertCarriesIncoming(records: seq<Record>, d: Record)
    requires d.patientId.Some? && Truthy(d.status) && d.appointmentRequestedAt.Some?
    ensures exists i :: (0 <= i < |Upsert(records, d)|
      && Upsert(records, d)[i].patientId == d.patientId
      && Upsert(records, d)[i].status == d.status
      && Upsert(records, d)[i].appointmentRequestedAt == d.appointmentRequestedAt)
  {
    var r := Upsert(records, d);
    if HasMatch(records, d) {
      var i :| FirstMatch(records, d, i) && r == records[i := Merge(records[i], d)];
      assert r[i].Get(PatientIdField) == d.Get(PatientIdField);
      assert r[i].Get(AppointmentRequestedAtField) == d.Get(AppointmentRequestedAtField);
    } else {
      assert r[|records|] == d;
    }
  }

  /** The set of `id`s in a list. */
  function Ids(rs: seq<Record>): set<Option<string>> {
    set i | 0 <= i < |rs| :: rs[i].id
  }

  predicate AllAgree(rs: seq<Record>) {
    forall i :: 0 <= i < |rs| ==> KeysAgree(rs[i])
  }

  predicate AllWellFormed(rs: seq<Record>) {
    forall i :: 0 <= i < |rs| ==> WellFormed(rs[i])
  }

  /** With registration-shaped keys an upsert never changes the key at any
      position: it adds the incoming key and nothing else. */
  lemma UpsertKeepsKeys(records: seq<Record>, d: Record)
    requires AllAgree(records) && KeysAgree(d)
    ensures AllAgree(Upsert(records, d))
    ensures |Upsert(records, d)| >= |records|
    ensures forall i :: 0 <= i < |records| ==> Upsert(records, d)[i].id == records[i].id
    ensures Ids(Upsert(records, d)) == Ids(records) + {d.id}
  {
    var r := Upsert(records, d);
    if HasMatch(records, d) {
      var i :| FirstMatch(records, d, i) && r == records[i := Merge(records[i], d)];
      assert r[i].id == records[i].id == d.id;
      assert forall j :: 0 <= j < |r| ==> r[j].id == records[j].id;
    } else {
      assert r == records + [d];
      assert r[|records|].id == d.id;
      assert forall j :: 0 <= j < |records| ==> r[j].id == records[j].id;
    }
  }

  /** Upserting a well-formed record into well-formed records keeps them so. */
  lemma UpsertWellFormed(records: seq<Record>, d: Record)
    requires AllWellFormed(records) && WellFormed(d)
    ensures AllWellFormed(Upsert(records, d))
  {
    var r := Upsert(records, d);
    if HasMatch(records, d) {
      var i :| FirstMatch(records, d, i) && r == records[i := Merge(records[i], d)];
      assert WellFormed(r[i]);
    }
  }

  /** Deleting a patient, on the server (`delete_patient`) and in the admin
      dashboard alike: keeps the records whose `id` and `patientId` both
      differ from `pid`. */
  function WithoutPatient(records: seq<Record>, pid: Option<string>): (r: seq<Record>)
    ensures forall i :: 0 <= i < |r| ==> r[i].id != pid && r[i].patientId != pid
    ensures forall i :: 0 <= i < |records| && records[i].id != pid && records[i].patientId != pid ==> records[i] in r
    ensures forall i :: 0 <= i < |r| ==> r[i] in records
  {
    Filter(records, (p: Record) => p.id != pid && p.patientId != pid)
  }

  /** An upsert brings back no patient: when neither the list nor the
      incoming record is the patient's, no record of the result is. */
  lemma UpsertAvoids(records: seq<Record>, d: Record, pid: Option<string>)
    requires forall i :: 0 <= i < |records| ==> records[i].id != pid && records[i].patientId != pid
    requires d.id != pid && d.patientId != pid
    ensures var r := Upsert(records, d);
      forall i :: 0 <= i < |r| ==> r[i].id != pid && r[i].patientId != pid
  {
    if HasMatch(records, d) {
      var r := Upsert(records, d);
      var i :| FirstMatch(records, d, i) && r == records[i := Merge(records[i], d)];
      var m := Merge(records[i], d);
      assert m.Get(IdField) == Str(m.id) && m.Get(PatientIdField) == Str(m.patientId);
    }
  }

  /** The survivors keep their stored order: a record appended to the list
      is appended to the result exactly when it is not the patient's. */
  lemma WithoutPatientSnoc(records: seq<Record>, x: Record, pid: Option<string>)
    ensures WithoutPatient(records + [x], pid) ==
      WithoutPatient(records, pid) + (if x.id != pid && x.patientId != pid then [x] else [])
  {
    FilterSnoc(records, x, (p: Record) => p.id != pid && p.patientId != pid);
  }
}
