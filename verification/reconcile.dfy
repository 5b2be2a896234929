/** The dashboards' periodic refresh (`loadPatients` in DoctorDashboard.tsx:31-111;
    AdminDashboard.tsx:38-112 repeats it line for line): merge the server's
    records into the local ones, derive presence from the time since the last
    login, store the result and push every record back. */
module Reconcile {
  import opened Wrappers
  import opened Types
  import opened Lists
  import opened Records
  import opened Protocol
  import SyncClient

  const MinuteMs := 60_000

  /** The presence a record shows, from the minutes since `lastLogin`:
      over 30 offline, at most 5 active (a login in the future included),
      at most 15 available, otherwise busy. A missing or unreadable
      `lastLogin` makes the minutes NaN, every comparison false, and the
      result busy. */
  function Presence(lastLogin: Option<int>, now: int): (s: Status)
    ensures s == Offline <==> lastLogin.Some? && now - lastLogin.value > 30 * MinuteMs
    ensures s == Active <==> lastLogin.Some? && now - lastLogin.value <= 5 * MinuteMs
    ensures s == Available <==>
      lastLogin.Some? && 5 * MinuteMs < now - lastLogin.value <= 15 * MinuteMs
    ensures s == Busy <==>
      lastLogin.None? || 15 * MinuteMs < now - lastLogin.value <= 30 * MinuteMs
    ensures s != BookAppointment
  {
    if lastLogin.None? then Busy
    else
      var elapsed := now - lastLogin.value;
      if elapsed > 30 * MinuteMs then Offline
      else if elapsed <= 5 * MinuteMs then Active
      else if elapsed <= 15 * MinuteMs then Available
      else Busy
  }

  /** The boundary cases: 5 and 15 minutes are inclusive, 30 is exclusive. */
  lemma PresenceBoundaries(t: int)
    ensures Presence(Some(t), t + 4 * MinuteMs) == Active
    ensures Presence(Some(t), t + 5 * MinuteMs) == Active
    ensures Presence(Some(t), t + 10 * MinuteMs) == Available
    ensures Presence(Some(t), t + 15 * MinuteMs) == Available
    ensures Presence(Some(t), t + 20 * MinuteMs) == Busy
    ensures Presence(Some(t), t + 30 * MinuteMs) == Busy
    ensures Presence(Some(t), t + 31 * MinuteMs) == Offline
    ensures Presence(Some(t), t - MinuteMs) == Active
  {
  }

  /** One record's derived status; `book_appointment` is left alone. */
  function Derive(r: Record, now: int): (d: Record)
    ensures r.status == Booked ==> d == r
    ensures ChangesOnly(r, d, {StatusField})
    ensures r.status != Booked ==> d.status == Some(Presence(r.lastLogin, now).Name())
    ensures WellFormed(r) ==> WellFormed(d)
    ensures KeysAgree(r) ==> KeysAgree(d)
    ensures KnownStatus(d)
  {
    if r.status == Booked then
      StatusNameRoundTrip(BookAppointment);
      r
    else
      StatusNameRoundTrip(Presence(r.lastLogin, now));
      r.(status := Some(Presence(r.lastLogin, now).Name()))
  }

  /** Deriving twice at the same instant is deriving once: a derived status
      is never the sticky one, so the second pass recomputes the same value. */
  lemma DeriveIdempotent(r: Record, now: int)
    ensures Derive(Derive(r, now), now) == Derive(r, now)
  {
    if r.status != Booked {
      var s := Presence(r.lastLogin, now);
      assert s.Name() != "book_appointment";
    }
  }

  /** `patientRecords.map(...)`: same count, same order. */
  function DeriveAll(rs: seq<Record>, now: int): (ds: seq<Record>)
    ensures |ds| == |rs|
    ensures forall i :: 0 <= i < |rs| ==> ds[i] == Derive(rs[i], now)
    ensures forall i :: 0 <= i < |ds| ==> KnownStatus(ds[i])
  {
    Map(rs, (r: Record) => Derive(r, now))
  }

  /** `serverRecords.forEach(...)` over a copy of the local list: each
      server record is upserted in turn. */
  function MergeServer(local: seq<Record>, server: seq<Record>): (r: seq<Record>)
    ensures |local| <= |r| <= |local| + |server|
    ensures |server| > 0 ==> HasMatch(r, server[|server| - 1])
    ensures AllAgree(local) && AllAgree(server) ==>
      && AllAgree(r)
      && (forall i :: 0 <= i < |local| ==> r[i].id == local[i].id)
      && Ids(r) == Ids(local) + Ids(server)
    ensures AllWellFormed(local) && AllWellFormed(server) ==> AllWellFormed(r)
    decreases |server|
  {
    if |server| == 0 then local
    else
      var next := Upsert(local, server[0]);
      assert |next| >= |local| by {
        if HasMatch(local, server[0]) {} else {}
      }
      assert |next| <= |local| + 1 by {
        if HasMatch(local, server[0]) {} else {}
      }
      assert AllAgree(local) && AllAgree(server) ==>
        AllAgree(next) && (forall i :: 0 <= i < |local| ==> next[i].id == local[i].id)
        && Ids(next) == Ids(local) + {server[0].id}
      by {
        if AllAgree(local) && AllAgree(server) {
          UpsertKeepsKeys(local, server[0]);
        }
      }
      assert Ids(server) == {server[0].id} + Ids(server[1..]) by {
        assert forall i :: 0 < i < |server| ==> server[i] == server[1..][i - 1];
      }
      assert AllWellFormed(local) && AllWellFormed(server) ==> AllWellFormed(next) by {
        if AllWellFormed(local) && AllWellFormed(server) {
          UpsertWellFormed(local, server[0]);
        }
      }
      var r := MergeServer(next, server[1..]);
      assert |server| == 1 ==> r == next;
      assert |server| > 1 ==> server[|server| - 1] == server[1..][|server[1..]| - 1];
      r
  }

  /** Merging brings back no patient that neither list holds. */
  lemma {:induction false} MergeServerAvoids(local: seq<Record>, server: seq<Record>, pid: Option<string>)
    requires forall i :: 0 <= i < |local| ==> local[i].id != pid && local[i].patientId != pid
    requires forall i :: 0 <= i < |server| ==> server[i].id != pid && server[i].patientId != pid
    ensures forall i :: 0 <= i < |MergeServer(local, server)| ==>
      MergeServer(local, server)[i].id != pid && MergeServer(local, server)[i].patientId != pid
    decreases |server|
  {
    if |server| > 0 {
      UpsertAvoids(local, server[0], pid);
      MergeServerAvoids(Upsert(local, server[0]), server[1..], pid);
      MergeServerStep(local, server);
    }
  }

  /** An unfolding helper, not a property: one step of `MergeServer`'s own
      fold (the first server record is upserted before the rest), stated
      apart so that `MergeServerAvoids` stays within the solver's budget. */
  lemma MergeServerStep(local: seq<Record>, server: seq<Record>)
    requires |server| > 0
    ensures MergeServer(local, server) == MergeServer(Upsert(local, server[0]), server[1..])
  {
  }

  /** Deriving statuses leaves `id` and `patientId` alone. */
  lemma DeriveAllKeepsKeys(rs: seq<Record>, now: int, i: int)
    requires 0 <= i < |rs|
    ensures DeriveAll(rs, now)[i].id == rs[i].id && DeriveAll(rs, now)[i].patientId == rs[i].patientId
  {
    var d := DeriveAll(rs, now)[i];
    assert d == Derive(rs[i], now);
    assert d.Get(IdField) == rs[i].Get(IdField);
    assert d.Get(PatientIdField) == rs[i].Get(PatientIdField);
  }

  /** What one refresh leaves: the list shown (also stored locally) and the
      records pushed to the server, in push order. */
  datatype Load = Load(shown: seq<Record>, pushed: seq<Record>)

  /** The server "has records" when the fetch returned a non-empty list
      (`serverRecords && serverRecords.length > 0`). */
  predicate ServerHasRecords(fetched: SyncClient.Fetched) {
    fetched.Items? && |fetched.items| > 0
  }

  /** One run of `loadPatients` given what `fetchPatientRecords` resolved to. */
  function LoadPatients(local: seq<Record>, fetched: SyncClient.Fetched, now: int): (r: Load)
    ensures ServerHasRecords(fetched) ==>
      r.shown == DeriveAll(MergeServer(local, fetched.items), now) && r.pushed == r.shown
    ensures !ServerHasRecords(fetched) ==>
      r.shown == DeriveAll(local, now) && r.pushed == local + r.shown
    ensures |r.shown| >= |local|
    ensures forall i :: 0 <= i < |r.shown| ==> KnownStatus(r.shown[i])
  {
    if ServerHasRecords(fetched) then
      var shown := DeriveAll(MergeServer(local, fetched.items), now);
      Load(shown, shown)
    else
      var shown := DeriveAll(local, now);
      Load(shown, local + shown)
  }

  /** A refresh shows no record of a patient that neither the local list
      nor the fetched list holds. */
  lemma LoadPatientsAvoids(local: seq<Record>, fetched: SyncClient.Fetched, now: int, pid: Option<string>)
    requires forall i :: 0 <= i < |local| ==> local[i].id != pid && local[i].patientId != pid
    requires fetched.Items? ==>
      forall i :: 0 <= i < |fetched.items| ==> fetched.items[i].id != pid && fetched.items[i].patientId != pid
    ensures var shown := LoadPatients(local, fetched, now).shown;
      forall i :: 0 <= i < |shown| ==> shown[i].id != pid && shown[i].patientId != pid
  {
    if ServerHasRecords(fetched) {
      var items := fetched.items;
      MergeServerAvoids(local, items, pid);
      DeriveAllAvoids(MergeServer(local, items), now, pid);
    } else {
      DeriveAllAvoids(local, now, pid);
    }
  }

  /** Deriving statuses keeps a list free of a patient's records. */
  lemma DeriveAllAvoids(rs: seq<Record>, now: int, pid: Option<string>)
    requires forall i :: 0 <= i < |rs| ==> rs[i].id != pid && rs[i].patientId != pid
    ensures var ds := DeriveAll(rs, now);
      forall i :: 0 <= i < |ds| ==> ds[i].id != pid && ds[i].patientId != pid
  {
    forall i | 0 <= i < |rs|
      ensures DeriveAll(rs, now)[i].id != pid && DeriveAll(rs, now)[i].patientId != pid
    {
      DeriveAllKeepsKeys(rs, now, i);
    }
  }

  /** A local record waiting for an appointment keeps its status and every
      other property through a refresh, as long as no server record
      overlays it (with an empty server list, always). */
  lemma StickyThroughRefresh(local: seq<Record>, fetched: SyncClient.Fetched, now: int, i: int)
    requires 0 <= i < |local| && local[i].status == Booked
    requires !ServerHasRecords(fetched)
    ensures LoadPatients(local, fetched, now).shown[i] == local[i]
  {
  }

  /** Without the agreement of `id` and `patientId`, the merge can lose
      track of a server record: three server records chained by shared keys
      collapse into one that shares no key with the first. */
  lemma MergeCanForgetAServerRecord()
    ensures var a := Record(Some("a"), Some("b"), None, None, None, None, None, None, None);
      var b := Record(Some("a"), Some("x"), None, None, None, None, None, None, None);
      var c := Record(Some("c"), Some("x"), None, None, None, None, None, None, None);
      var r := MergeServer([], [a, b, c]);
      |r| == 1 && !HasMatch(r, a)
  {
    var a := Record(Some("a"), Some("b"), None, None, None, None, None, None, None);
    var b := Record(Some("a"), Some("x"), None, None, None, None, None, None, None);
    var c := Record(Some("c"), Some("x"), None, None, None, None, None, None, None);
    var s1 := Upsert([], a);
    assert s1 == [a];
    assert FirstMatch(s1, b, 0);
    var s2 := Upsert(s1, b);
    assert s2 == [Merge(a, b)];
    assert FirstMatch(s2, c, 0);
    var s3 := Upsert(s2, c);
    assert s3 == [Merge(Merge(a, b), c)];
    assert [a, b, c][1..] == [b, c];
    assert [b, c][1..] == [c];
    assert MergeServer([], [a, b, c]) == MergeServer(s1, [b, c]);
    assert MergeServer(s1, [b, c]) == MergeServer(s2, [c]);
    assert MergeServer(s2, [c]) == MergeServer(s3, []) == s3;
  }
}
