/** Doctor QR codes (src/utils/qrCode.ts): the code string, its parser, and
    the list kept in local storage. Generated ids and the clock are inputs. */
module QRCodes {
  import opened Wrappers
  import opened Types
  import opened Lists
  import opened Text

  const Prefix := "PDDIAGNOSYS_DOCTOR_"

  /** `SESSION_${Date.now()}_${random}`; `random` is the base-36 fragment. */
  function GenerateSessionId(now: nat, random: string): (s: string)
    ensures (forall j :: 0 <= j < |random| ==> !IsLineTerminator(random[j])) ==> ValidSessionId(s)
  {
    var digits := NatToString(now);
    var s := "SESSION_" + digits + "_" + random;
    assert (forall j :: 0 <= j < |random| ==> !IsLineTerminator(random[j])) ==> ValidSessionId(s) by {
      if forall j :: 0 <= j < |random| ==> !IsLineTerminator(random[j]) {
        forall j | 0 <= j < |s|
          ensures !IsLineTerminator(s[j])
        {
          if j < 8 {
          } else if j < 8 + |digits| {
            assert s[j] == digits[j - 8];
          } else if j == 8 + |digits| {
          } else {
            assert s[j] == random[j - 9 - |digits|];
          }
        }
      }
    }
    s
  }

  /** `PDDIAGNOSYS_DOCTOR_${doctorId}_${sessionId}`. */
  function GenerateQRCodeString(doctorId: string, sessionId: string): (r: string)
    ensures |r| == |Prefix| + |doctorId| + 1 + |sessionId|
    ensures r[..|Prefix|] == Prefix && r[|Prefix| + |doctorId|] == '_'
    ensures r[|Prefix|..|Prefix| + |doctorId|] == doctorId
    ensures r[|Prefix| + |doctorId| + 1..] == sessionId
  {
    Prefix + doctorId + "_" + sessionId
  }

  /** The two capture groups of a successful match. */
  datatype Parsed = Parsed(doctorId: string, sessionId: string)

  predicate IsUnderscore(c: char) {
    c == '_'
  }

  /** The length of the longest run from `i` of characters `stop` rejects:
      what a greedy `[^_]+` or `.+` consumes. */
  function Run(s: string, i: nat, stop: char -> bool): (n: nat)
    requires i <= |s|
    ensures i + n <= |s|
    ensures forall j :: i <= j < i + n ==> !stop(s[j])
    ensures i + n < |s| ==> stop(s[i + n])
    decreases |s| - i
  {
    if i == |s| || stop(s[i]) then 0 else 1 + Run(s, i + 1, stop)
  }

  /** A run is determined by where it stops. */
  lemma RunUnique(s: string, i: nat, stop: char -> bool, k: nat)
    requires i + k <= |s|
    requires forall j :: i <= j < i + k ==> !stop(s[j])
    requires i + k == |s| || stop(s[i + k])
    ensures Run(s, i, stop) == k
  {
  }

  /** The regular expression tried at position `i`, where the literal prefix
      occurs: group 1 must be followed by `_` (greedy `[^_]+` cannot give
      back a character and still meet `_`), and group 2 takes every
      character up to the first line terminator, at least one. */
  function MatchAt(s: string, i: nat): (r: Option<Parsed>)
    requires OccursAt(s, Prefix, i)
    ensures r.Some? ==> |r.value.doctorId| > 0 && |r.value.sessionId| > 0
    ensures r.Some? ==> OccursAt(s, GenerateQRCodeString(r.value.doctorId, r.value.sessionId), i)
    ensures r.Some? ==> forall j :: 0 <= j < |r.value.doctorId| ==> r.value.doctorId[j] != '_'
    ensures r.Some? ==> forall j :: 0 <= j < |r.value.sessionId| ==> !IsLineTerminator(r.value.sessionId[j])
  {
    var a := i + |Prefix|;
    var n := Run(s, a, IsUnderscore);
    if n == 0 || a + n == |s| then None
    else
      var b := a + n + 1;
      var m := Run(s, b, IsLineTerminator);
      if m == 0 then None
      else
        var doctorId, sessionId := s[a..a + n], s[b..b + m];
        MatchSlices(s, i, n, m);
        RunSlice(s, a, n, IsUnderscore, doctorId);
        RunSlice(s, b, m, IsLineTerminator, sessionId);
        Some(Parsed(doctorId, sessionId))
  }

  /** The slice a run covers holds no stopping character. */
  lemma RunSlice(s: string, i: nat, n: nat, stop: char -> bool, t: string)
    requires i + n <= |s| && t == s[i..i + n]
    requires forall j :: i <= j < i + n ==> !stop(s[j])
    ensures forall j :: 0 <= j < |t| ==> !stop(t[j])
  {
    forall j | 0 <= j < |t| ensures !stop(t[j]) {
      assert t[j] == s[i + j];
    }
  }

  /** The text a match covers is the generated string of its two groups. */
  lemma MatchSlices(s: string, i: nat, n: nat, m: nat)
    requires OccursAt(s, Prefix, i) && i + |Prefix| + n + 1 + m <= |s| && s[i + |Prefix| + n] == '_'
    ensures var a := i + |Prefix|; var b := a + n + 1;
      OccursAt(s, GenerateQRCodeString(s[a..a + n], s[b..b + m]), i)
  {
    var a := i + |Prefix|;
    var b := a + n + 1;
    assert s[i..b + m] == s[i..a] + s[a..a + n] + [s[a + n]] + s[b..b + m];
  }

  /** The leftmost match at or after position `i`: nothing when no
      position matches, otherwise the match at the first position that
      does. */
  function ParseFrom(s: string, i: nat): (r: Option<Parsed>)
    ensures r.Some? ==> |r.value.doctorId| > 0 && |r.value.sessionId| > 0
    ensures r.Some? ==> exists k :: i <= k && OccursAt(s, GenerateQRCodeString(r.value.doctorId, r.value.sessionId), k)
    ensures r.Some? ==> forall j :: 0 <= j < |r.value.doctorId| ==> r.value.doctorId[j] != '_'
    ensures (forall k :: i <= k <= |s| ==> !OccursAt(s, Prefix, k)) ==> r.None?
    decreases |s| - i
  {
    if i + |Prefix| > |s| then None
    else if OccursAt(s, Prefix, i) && MatchAt(s, i).Some? then MatchAt(s, i)
    else ParseFrom(s, i + 1)
  }

  /** `ParseFrom` finds nothing exactly when no position from `i` on
      matches, and otherwise returns the match at the first one that does. */
  lemma {:induction false} ParseFromLeftmost(s: string, i: nat)
    ensures ParseFrom(s, i).None? <==> forall k :: i <= k && OccursAt(s, Prefix, k) ==> MatchAt(s, k).None?
    ensures ParseFrom(s, i).Some? ==> exists k :: (i <= k && OccursAt(s, Prefix, k) && MatchAt(s, k) == ParseFrom(s, i) &&
      forall j :: i <= j < k && OccursAt(s, Prefix, j) ==> MatchAt(s, j).None?)
    decreases |s| - i
  {
    if i + |Prefix| > |s| {
    } else if OccursAt(s, Prefix, i) && MatchAt(s, i).Some? {
      assert i <= i && OccursAt(s, Prefix, i) && MatchAt(s, i) == ParseFrom(s, i);
    } else {
      ParseFromLeftmost(s, i + 1);
      assert ParseFrom(s, i) == ParseFrom(s, i + 1);
    }
  }

  /** `parseQRCodeString`: the two groups of the first match of
      `/PDDIAGNOSYS_DOCTOR_([^_]+)_(.+)/`, or null. The result is null
      exactly when no position matches; otherwise it comes from the
      leftmost position that does. */
  function ParseQRCodeString(s: string): (r: Option<Parsed>)
    ensures r.None? <==> forall k :: OccursAt(s, Prefix, k) ==> MatchAt(s, k).None?
    ensures r.Some? ==> exists k :: (0 <= k && OccursAt(s, Prefix, k) && MatchAt(s, k) == r &&
      forall j :: 0 <= j < k && OccursAt(s, Prefix, j) ==> MatchAt(s, j).None?)
    ensures r.Some? ==> exists k :: 0 <= k && OccursAt(s, GenerateQRCodeString(r.value.doctorId, r.value.sessionId), k)
    ensures !Includes(s, Prefix) ==> r.None?
  {
    ParseFromLeftmost(s, 0);
    ParseFrom(s, 0)
  }

  /** A doctor id the code string can carry back: non-empty, without `_`. */
  predicate ValidDoctorId(d: string) {
    |d| > 0 && forall j :: 0 <= j < |d| ==> d[j] != '_'
  }

  /** A session id the code string can carry back: non-empty, on one line. */
  predicate ValidSessionId(s: string) {
    |s| > 0 && forall j :: 0 <= j < |s| ==> !IsLineTerminator(s[j])
  }

  /** Parsing a generated code gives back both ids. */
  lemma {:induction false} RoundTrip(doctorId: string, sessionId: string)
    requires ValidDoctorId(doctorId) && ValidSessionId(sessionId)
    ensures ParseQRCodeString(GenerateQRCodeString(doctorId, sessionId)) == Some(Parsed(doctorId, sessionId))
  {
    var g := GenerateQRCodeString(doctorId, sessionId);
    var a := |Prefix|;
    var b := a + |doctorId| + 1;
    assert OccursAt(g, Prefix, 0);
    assert forall j :: a <= j < a + |doctorId| ==> g[j] == doctorId[j - a];
    RunUnique(g, a, IsUnderscore, |doctorId|);
    assert forall j :: b <= j < |g| ==> g[j] == sessionId[j - b];
    RunUnique(g, b, IsLineTerminator, |sessionId|);
    assert g[a..a + |doctorId|] == doctorId;
    assert g[b..b + |sessionId|] == sessionId;
    assert MatchAt(g, 0) == Some(Parsed(doctorId, sessionId));
  }

  /** A doctor id with an underscore does not survive: the parsed id stops
      at its first `_` and the rest joins the session id. */
  lemma {:induction false} UnderscoreSplitsDoctorId(head: string, tail: string, sessionId: string)
    requires ValidDoctorId(head) && ValidSessionId(sessionId)
    requires forall j :: 0 <= j < |tail| ==> !IsLineTerminator(tail[j])
    ensures ParseQRCodeString(GenerateQRCodeString(head + "_" + tail, sessionId))
         == Some(Parsed(head, tail + "_" + sessionId))
  {
    var rest := tail + "_" + sessionId;
    var g := GenerateQRCodeString(head + "_" + tail, sessionId);
    assert g == GenerateQRCodeString(head, rest);
    assert ValidSessionId(rest) by {
      forall j | 0 <= j < |rest|
        ensures !IsLineTerminator(rest[j])
      {
        if j < |tail| {
          assert rest[j] == tail[j];
        } else if j > |tail| {
          assert rest[j] == sessionId[j - |tail| - 1];
        }
      }
    }
    RoundTrip(head, rest);
  }

  /** Registration ids are `Date.now().toString()`: all digits, so they
      round-trip through a code string. */
  lemma RegisteredDoctorRoundTrip(now: nat, random: string)
    requires forall j :: 0 <= j < |random| ==> !IsLineTerminator(random[j])
    ensures var id := NatToString(now); var session := GenerateSessionId(now, random);
      ParseQRCodeString(GenerateQRCodeString(id, session)) == Some(Parsed(id, session))
  {
    RoundTrip(NatToString(now), GenerateSessionId(now, random));
  }

  /** `createDoctorQRCode`: appends one active code holding the doctor's
      name and e-mail and the generated string, which encodes the doctor and
      the session and parses back to them; it was created and last used now. */
  function CreateDoctorQRCode(codes: seq<QRCode>, doctorId: string, doctorName: string, doctorEmail: string,
                              sessionId: string, qrId: string, now: int): (r: (seq<QRCode>, QRCode))
    ensures r.0 == codes + [r.1]
    ensures r.1.doctorId == doctorId && r.1.sessionId == sessionId && r.1.id == qrId
    ensures r.1.isActive && r.1.createdAt == now && r.1.lastSignIn == now
    ensures r.1.doctorName == doctorName && r.1.doctorEmail == doctorEmail
    ensures r.1.qrCode == GenerateQRCodeString(doctorId, sessionId)
    ensures ValidDoctorId(doctorId) && ValidSessionId(sessionId) ==>
      ParseQRCodeString(r.1.qrCode) == Some(Parsed(doctorId, sessionId))
  {
    var code := QRCode(qrId, doctorId, doctorName, doctorEmail, GenerateQRCodeString(doctorId, sessionId),
                       sessionId, now, now, true);
    if ValidDoctorId(doctorId) && ValidSessionId(sessionId) then
      RoundTrip(doctorId, sessionId);
      (codes + [code], code)
    else
      (codes + [code], code)
  }

  /** `getDoctorQRCodes`: the doctor's codes in stored order. */
  function GetDoctorQRCodes(codes: seq<QRCode>, doctorId: string): (r: seq<QRCode>)
    ensures forall i :: 0 <= i < |r| ==> r[i].doctorId == doctorId && r[i] in codes
    ensures forall i :: 0 <= i < |codes| && codes[i].doctorId == doctorId ==> codes[i] in r
  {
    Filter(codes, (q: QRCode) => q.doctorId == doctorId)
  }

  /** The doctor's codes come in stored order: a code appended to the store
      is appended to the list exactly when it is the doctor's. */
  lemma GetDoctorQRCodesSnoc(codes: seq<QRCode>, q: QRCode, doctorId: string)
    ensures GetDoctorQRCodes(codes + [q], doctorId) ==
      GetDoctorQRCodes(codes, doctorId) + (if q.doctorId == doctorId then [q] else [])
  {
    FilterSnoc(codes, q, (q: QRCode) => q.doctorId == doctorId);
  }

  /** A code just created is the last of its doctor's codes, after the
      ones they had; no other doctor's list changes. */
  lemma CreatedCodeIsListedLast(codes: seq<QRCode>, doctorId: string, doctorName: string, doctorEmail: string,
                                sessionId: string, qrId: string, now: int, other: string)
    ensures var (codes', code) := CreateDoctorQRCode(codes, doctorId, doctorName, doctorEmail, sessionId, qrId, now);
      && GetDoctorQRCodes(codes', doctorId) == GetDoctorQRCodes(codes, doctorId) + [code]
      && (other != doctorId ==> GetDoctorQRCodes(codes', other) == GetDoctorQRCodes(codes, other))
  {
    var (codes', code) := CreateDoctorQRCode(codes, doctorId, doctorName, doctorEmail, sessionId, qrId, now);
    GetDoctorQRCodesSnoc(codes, code, doctorId);
    GetDoctorQRCodesSnoc(codes, code, other);
  }

  /** `deleteQRCode`: drops the codes with that id and reports success. */
  function DeleteQRCode(codes: seq<QRCode>, qrCodeId: string): (r: (seq<QRCode>, bool))
    ensures r.1
    ensures forall i :: 0 <= i < |r.0| ==> r.0[i].id != qrCodeId && r.0[i] in codes
    ensures forall i :: 0 <= i < |codes| && codes[i].id != qrCodeId ==> codes[i] in r.0
  {
    (Filter(codes, (q: QRCode) => q.id != qrCodeId), true)
  }

  /** The remaining codes keep their stored order: a code appended to the
      store survives at the end exactly when its id differs. */
  lemma DeleteQRCodeSnoc(codes: seq<QRCode>, q: QRCode, qrCodeId: string)
    ensures DeleteQRCode(codes + [q], qrCodeId).0 ==
      DeleteQRCode(codes, qrCodeId).0 + (if q.id != qrCodeId then [q] else [])
  {
    FilterSnoc(codes, q, (q: QRCode) => q.id != qrCodeId);
  }

  /** After a deletion no doctor's list holds a code with that id, and the
      other codes of every doctor are still listed. */
  lemma DeletedCodeIsUnlisted(codes: seq<QRCode>, qrCodeId: string, doctorId: string)
    ensures var listed := GetDoctorQRCodes(DeleteQRCode(codes, qrCodeId).0, doctorId);
      && (forall i :: 0 <= i < |listed| ==> listed[i].id != qrCodeId)
      && (forall i :: 0 <= i < |codes| && codes[i].doctorId == doctorId && codes[i].id != qrCodeId ==> codes[i] in listed)
  {
    var kept := DeleteQRCode(codes, qrCodeId).0;
    var listed := GetDoctorQRCodes(kept, doctorId);
    forall i | 0 <= i < |listed| ensures listed[i].id != qrCodeId {
      assert listed[i] in kept;
    }
    forall i | 0 <= i < |codes| && codes[i].doctorId == doctorId && codes[i].id != qrCodeId
      ensures codes[i] in listed
    {
      var j :| 0 <= j < |kept| && kept[j] == codes[i];
    }
  }

  /** `updateQRCodeSignIn`: the matching codes become active and signed in
      now; nothing else about any code changes. */
  function UpdateQRCodeSignIn(codes: seq<QRCode>, qrCodeId: string, now: int): (r: seq<QRCode>)
    ensures |r| == |codes|
    ensures forall i :: 0 <= i < |codes| && codes[i].id != qrCodeId ==> r[i] == codes[i]
    ensures forall i :: 0 <= i < |codes| && codes[i].id == qrCodeId ==>
      r[i].isActive && r[i].lastSignIn == now && r[i].(isActive := codes[i].isActive, lastSignIn := codes[i].lastSignIn) == codes[i]
  {
    Map(codes, (q: QRCode) => if q.id == qrCodeId then q.(lastSignIn := now, isActive := true) else q)
  }
}
