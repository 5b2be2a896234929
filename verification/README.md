# PD DiagnoSys portal, modelled in Dafny

PD DiagnoSys is a small web portal with three kinds of users: patients, doctors and an admin.
- A patient uploads six facial-expression photos. The browser "analyses" them from their file names alone and shows a PD / NPD verdict. The patient can then ask for an appointment.
- Doctors and the admin watch a dashboard of patient records. The dashboard refreshes every few seconds. Each patient's presence is worked out from the time of their last login.
- Every browser keeps its own copy of the data in local storage. A tiny Express server (`server.js`) relays events between browsers. It stores them in one JSON file.

This project models the behaviour of those parts as pure Dafny functions over immutable values, and proves properties about them. Local storage, the server's file, the clock and random strings all become explicit parameters. Every page handler returns its new state and an *outbox*: the events it hands to the sync client. A request's outcome (an HTTP status, or a thrown error) is a parameter too.

Where the program filters a list, the function's contract says which elements survive, and a companion `…Snoc` lemma says they keep their order: appending one element to the input appends it to the output exactly when it is kept. Together with the empty input giving the empty output, that determines the result.

Modules, one per part of the program:

| file | module | models |
|---|---|---|
| `wrappers.dfy`, `lists.dfy`, `text.dfy` | `Wrappers`, `Lists`, `Text` | `Option`; `findIndex`/`filter`/`map`; number printing, ASCII case, `indexOf`/`includes`, character classes of JavaScript regular expressions |
| `types.dfy` | `Types` | `src/types/auth.ts`: users, patient records (every property optional, as the data on the wire is untyped), QR codes |
| `records.dfy` | `Records` | the record merge shared by the server and both dashboards |
| `protocol.dfy`, `sync_client.dfy` | `Protocol`, `SyncClient` | `src/utils/serverSync.ts`: event types, payloads, envelopes, the fetch helpers |
| `server.dfy` | `Server` | `server.js`: `POST /api/sync` and the two `GET` queries |
| `reconcile.dfy` | `Reconcile` | the dashboards' `loadPatients` / `loadData` refresh |
| `admin.dfy` | `AdminDashboard` | the admin page: load, doctor list, counters, `getTimeAgo`, deletes |
| `auth.dfy` | `Auth` | `src/contexts/AuthContext.tsx`: login, register, logout |
| `login_page.dfy` | `LoginPage` | `src/pages/Login.tsx` |
| `qr_code.dfy` | `QRCodes` | `src/utils/qrCode.ts` |
| `image_analysis.dfy` | `ImageAnalysis` | `src/utils/imageAnalysis.ts` |
| `upload.dfy`, `patient_page.dfy`, `results_display.dfy` | `Upload`, `PatientPage`, `ResultsDisplay` | the patient page, its upload boxes and its result card |
| `routes.dfy` | `Routes` | `src/App.tsx` together with the dashboards' own redirects |
| `scenarios.dfy` | `Scenarios` | client and server halves of one exchange, put together |

## Model

| member | source | states |
|---|---|---|
| Types.SameFieldsSameRecord | src/types/auth.ts:11-21 | two patient records that agree on every one of the nine properties are the same record |
| Types.StatusNameRoundTrip | src/types/auth.ts:17 | each of the five statuses reads back from its wire name |
| Lists.FindIndex | src/pages/DoctorDashboard.tsx:44 | `findIndex` returns the first index whose element satisfies the test, or none when no element does |
| Text.NatToStringRoundTrip | src/utils/qrCode.ts:8 | the decimal rendering of a timestamp reads back as the same number, so distinct instants give distinct ids |
| Text.IndexOf | src/utils/imageAnalysis.ts:63 | `indexOf`/`includes` find the leftmost occurrence, and report none only when the substring occurs nowhere |
| Text.CountIsMultiplicity | src/utils/imageAnalysis.ts:78 | the number of `+` matches is the number of `+` characters in the name |
| Records.Merge | server.js:72-77 | the incoming record's present properties override the existing ones; status is overridden only by a non-empty status; the merged record still matches the incoming one and keeps well-formed, key-agreeing records so |
| Records.MergeIdempotent | server.js:72-77 | overlaying the same record twice equals overlaying it once; a record overlaid on itself is unchanged |
| Records.Upsert | server.js:66-82 | with a match, only the first matching record (same `id` or same `patientId`) is overlaid and the length is kept; without one, the record is appended; afterwards the list always has a match |
| Records.UpsertIdempotent | server.js:66-82 | upserting the same record twice leaves the list as upserting it once |
| Records.UpsertKeepsKeys | src/pages/DoctorDashboard.tsx:42-56 | when every record has `id == patientId`, an upsert keeps every position's `id` and adds exactly the incoming `id` to the set of ids |
| Records.UpsertWellFormed | server.js:66-82 | upserting a well-formed record keeps every record well-formed |
| Records.UpsertCarriesIncoming | server.js:66-82 | after an upsert some record carries the incoming `patientId`, status and request time |
| Records.WithoutPatient | server.js:115-119 | exactly the records whose `id` and `patientId` both differ from the deleted id survive, and nothing new appears |
| Records.WithoutPatientSnoc | server.js:115-119 | the survivors keep their stored order: a record appended to the list is appended to the result exactly when it is not the patient's |
| Records.UpsertAvoids | src/pages/DoctorDashboard.tsx:42-56 | a server record merged into or appended to the list brings back no patient that neither side held |
| SyncClient.SyncToServer | src/utils/serverSync.ts:13-45 | the envelope carries the event type, the payload and the client's clock; the result is true exactly for a 2xx reply, and a thrown error becomes false |
| SyncClient.SyncAppointment | src/utils/serverSync.ts:57-65 | an `appointment` event whose payload carries the patient id and the request time |
| SyncClient.SyncDeletePatient | src/utils/serverSync.ts:151-157 | a `delete_patient` event naming the patient id |
| SyncClient.SyncDeleteDoctor | src/utils/serverSync.ts:162-168 | a `delete_doctor` event naming the doctor id |
| SyncClient.FetchPatientRecords | src/utils/serverSync.ts:96-121 | `data.records || data || []`: a failed or non-2xx fetch yields no records; a `records` field is returned as is; a bare array is returned as is; `null` and falsy bodies yield no records; only an object body without `records` yields something that is not a list |
| SyncClient.FetchAppointments | src/utils/serverSync.ts:126-146 | the `appointments` field of a 2xx reply, otherwise nothing |
| Server.Book | server.js:91-99 | only the first record owned by the patient (by `patientId` or `id`) is marked `book_appointment` with the request time, and only those two properties change; with no owner nothing changes |
| Server.WithoutDoctor | server.js:128-132 | exactly the records whose `patientId` differs from the doctor id survive |
| Server.WithoutDoctorSnoc | server.js:128-132 | the survivors keep their stored order: a record appended to the list is appended to the result exactly when its `patientId` is not the doctor id |
| Server.LogDelete | server.js:120-126 | a missing delete log is started empty, then one entry is appended, and nothing else changes |
| Server.Apply | server.js:58-152 | an unknown type is rejected with "Unknown sync type" and changes nothing; every known type answers "Synced <type>"; each log grows by one entry exactly for its own type, and never loses entries; only record, appointment and delete events touch the records |
| Server.HandleSync | server.js:30-155 | a rejected event leaves the file as it was; an accepted one is written, and a failed write leaves the old file while the reply still reports success |
| Server.PatientRecordCase | server.js:66-82 | `patient_record` overlays the first matching record or appends, and changes nothing but the records |
| Server.PatientRecordIdempotent | server.js:66-82 | delivering the same `patient_record` event twice leaves the document as delivering it once |
| Server.AppointmentCase | server.js:84-100 | `appointment` appends one entry stamped with the envelope's time, and books the first owned record with the payload's time |
| Server.SessionLogCase | server.js:101-114 | `login` and `logout` each append one entry to their own log and change nothing else |
| Server.DeleteCase | server.js:115-149 | the three deletes log one entry tagged `patient`, `doctor` or `qrcode`; the first two filter the records, the third leaves them alone |
| Server.UnreadableFileIsOverwritten | server.js:31-43 | when the file cannot be read, the fallback document is used, and writing back erases every earlier record and log entry |
| Reconcile.Presence | src/pages/DoctorDashboard.tsx:81-96 | offline iff last login is over 30 minutes ago; active iff at most 5 minutes ago (future logins included); available iff 5 to 15 minutes; busy iff 15 to 30 minutes or no readable login time |
| Reconcile.PresenceBoundaries | src/pages/DoctorDashboard.tsx:87-95 | 5 and 15 minutes are inclusive bounds, 30 is exclusive |
| Reconcile.Derive | src/pages/DoctorDashboard.tsx:75-98 | a `book_appointment` record is left untouched; any other record changes only its status, to the presence |
| Reconcile.DeriveIdempotent | src/pages/DoctorDashboard.tsx:75-98 | deriving twice at the same instant equals deriving once |
| Reconcile.MergeServer | src/pages/DoctorDashboard.tsx:42-56 | the merge never shrinks the local list and grows it by at most the server list; the last server record always has a match; with key-agreeing records, local positions keep their ids and the id set is the union |
| Reconcile.LoadPatients | src/pages/DoctorDashboard.tsx:31-111 | with server records, the merged and derived list is shown and pushed; without, the local list is derived, and the raw local list is pushed before the derived one; every shown status is a known one |
| Reconcile.MergeServerAvoids | src/pages/DoctorDashboard.tsx:42-56 | merging brings back no patient that neither the local nor the server list holds |
| Reconcile.DeriveAllKeepsKeys | src/pages/DoctorDashboard.tsx:75-97 | deriving statuses leaves every record's `id` and `patientId` alone |
| Reconcile.LoadPatientsAvoids | src/pages/DoctorDashboard.tsx:31-111 | a refresh shows no record of a patient that neither the local list nor the fetched list holds |
| Reconcile.StickyThroughRefresh | src/pages/DoctorDashboard.tsx:59-79 | a local `book_appointment` record survives a refresh unchanged when the server has no records |
| Reconcile.MergeCanForgetAServerRecord | src/pages/DoctorDashboard.tsx:44-52 | with keys that do not agree, three server records collapse into one that matches none of the first record's keys |
| AdminDashboard.Doctors | src/pages/AdminDashboard.tsx:115-124 | the doctor list holds exactly the doctor accounts, without passwords |
| AdminDashboard.DoctorsSnoc | src/pages/AdminDashboard.tsx:115-124 | the doctor list keeps the stored order: an account appended to the store adds its password-free view at the end exactly when it is a doctor's |
| AdminDashboard.LoadData | src/pages/AdminDashboard.tsx:38-133 | the patient list is the doctor dashboard's refresh; the stored records are what is shown; one `patient_record` event goes out per pushed record |
| AdminDashboard.TimeAgo | src/pages/AdminDashboard.tsx:156-167 | under a minute gives "Just now"; otherwise whole minutes, hours or days rounded down, plural from two; an unreadable date gives "NaN day ago" |
| AdminDashboard.TimeAgoMinuteBoundaries | src/pages/AdminDashboard.tsx:159-161 | worked example at fixed offsets, not a property (TimeAgo's own contract is the general statement): 59.999 s gives "Just now", one minute gives "1 min ago", just under an hour gives "59 min ago" |
| AdminDashboard.TimeAgoHourBoundaries | src/pages/AdminDashboard.tsx:162-163 | worked example at fixed offsets, not a property: one hour gives "1 hour ago", two give "2 hours ago" |
| AdminDashboard.TimeAgoDayBoundaries | src/pages/AdminDashboard.tsx:164-166 | worked example at fixed offsets, not a property: one day gives "1 day ago", three give "3 days ago" |
| AdminDashboard.ActivePatients | src/pages/AdminDashboard.tsx:335 | the counter as written: at most the number of patients, zero when none is `available` or `busy`, all when all are |
| AdminDashboard.ActivePatientsAppend | src/pages/AdminDashboard.tsx:335 | one more patient adds one exactly when they are `available` or `busy` |
| AdminDashboard.JustLoggedInIsNotCounted | src/pages/AdminDashboard.tsx:335 | a patient who logged in a minute ago is shown as `active` but counted as zero |
| AdminDashboard.ActivePatientsCorrected | src/pages/AdminDashboard.tsx:335 | the corrected counter counts at least as many as the counter as written, at most all patients, none when nobody is online and all when everybody is |
| AdminDashboard.CorrectedCountsRecentLogins | src/pages/DoctorDashboard.tsx:87-95 | after a refresh, the corrected counter counts a patient exactly when their last login is at most 30 minutes old or missing |
| AdminDashboard.TotalAnalyses | src/pages/AdminDashboard.tsx:347 | the sum starts at 0, is the one count for a single patient, is a number exactly when every record has `totalAnalyses` (one missing makes it NaN), and is non-negative for non-negative counts |
| AdminDashboard.TotalAnalysesAppend | src/pages/AdminDashboard.tsx:347 | the sum over a concatenation is the sum of the sums, NaN absorbing |
| AdminDashboard.StatsOf | src/pages/AdminDashboard.tsx:311-347 | the counters as the page shows them: patient and doctor totals are the list lengths, the active count is the one as written (`available` or `busy` only), the analyses total is the NaN-absorbing sum |
| AdminDashboard.StatsAppend | src/pages/AdminDashboard.tsx:311-347 | one more patient adds one to the patient total, one to the active count exactly when they are `available` or `busy`, and their count to the analyses total, NaN absorbing |
| AdminDashboard.StatsCorrected | src/pages/AdminDashboard.tsx:335 | with the corrected counter, the active count is the count as written plus the `active` patients, never more than all patients; the other counters are as shown |
| AdminDashboard.CorrectionAddsActive | src/pages/AdminDashboard.tsx:335 | the corrected count exceeds the count as written by exactly the number of `active` patients |
| AdminDashboard.WithoutAccount | src/pages/AdminDashboard.tsx:190-196 | exactly the accounts with another id remain |
| AdminDashboard.WithoutAccountSnoc | src/pages/AdminDashboard.tsx:190-196 | the remaining accounts keep their stored order |
| AdminDashboard.CodesWithoutDoctor | src/pages/AdminDashboard.tsx:229-231 | exactly the QR codes of other doctors remain |
| AdminDashboard.CodesWithoutDoctorSnoc | src/pages/AdminDashboard.tsx:229-231 | the remaining codes keep their stored order |
| AdminDashboard.CodesWithoutDoctorListing | src/pages/AdminDashboard.tsx:229-231 | afterwards the deleted doctor has no codes to list and every other doctor lists exactly the codes they had |
| AdminDashboard.ClearPatient | src/pages/AdminDashboard.tsx:172-197 | the patient's records (by `id` or `patientId`) and account leave the stores, in order; QR codes are untouched |
| AdminDashboard.DeletePatient | src/pages/AdminDashboard.tsx:169-207 | the stores are cleared, a `delete_patient` event goes out first, then the refresh runs on the cleared stores: the view and stored records are the refresh's, and its record events follow |
| AdminDashboard.DeletedPatientStaysGone | src/pages/AdminDashboard.tsx:169-207 | when the server no longer holds the patient, the refreshed dashboard shows none of their records and their account is gone |
| AdminDashboard.ClearDoctor | src/pages/AdminDashboard.tsx:223-231 | the doctor's account and QR codes leave the stores, in order; patient records are untouched |
| AdminDashboard.DeleteDoctor | src/pages/AdminDashboard.tsx:221-237 | the stores are cleared, a `delete_doctor` event goes out first, then the refresh runs on the cleared stores and its record events follow |
| AdminDashboard.DeletedDoctorIsGone | src/pages/AdminDashboard.tsx:221-237 | afterwards the doctor is off the doctor list and has no QR codes, and every other doctor keeps exactly their codes |
| AdminDashboard.DeleteQRCode | src/pages/AdminDashboard.tsx:253-274 | the code leaves the shown list and the store exactly as the store's delete removes it, order kept; an event naming the first shown such code's doctor goes out exactly when the code was on the list |
| Auth.TouchPatientRecord | src/contexts/AuthContext.tsx:80-91 | only the patient's first record changes, getting the login time and status `available` |
| Auth.Login | src/contexts/AuthContext.tsx:26-96 | login succeeds iff the fixed admin credentials are given or an account matches e-mail, password and type; a failure changes nothing; otherwise the first matching account becomes the session, a `login` event goes out, and for a patient the first own record is touched and sent as the second event |
| Auth.PatientLoginMarksRecord | src/contexts/AuthContext.tsx:80-91 | a patient who logs in and has a record finds it seen now and `available`, sent as the second event |
| Auth.TouchMarks | src/contexts/AuthContext.tsx:82-86 | when the user has a record, the touch writes the updated record back at the user's own record |
| Auth.Register | src/contexts/AuthContext.tsx:98-167 | registration succeeds iff the e-mail is free and the type is not admin; the account is appended and becomes the session; a patient also gets a record and a `patient_record` event; a doctor gets an active QR code with their name and e-mail, id `QR_<id>_<random>` and the generated string, which parses back to their id and session |
| Auth.RegisterKeepsEmailsUnique | src/contexts/AuthContext.tsx:108-110 | registration keeps e-mail addresses unique |
| Auth.RegisterThenLogin | src/contexts/AuthContext.tsx:55-57 | after registering, logging in with the same e-mail, password and type succeeds as that account |
| Auth.AdminAlwaysLogsIn | src/contexts/AuthContext.tsx:31-53 | the fixed admin credentials log in as the admin under every selected type, whatever the stored accounts |
| Auth.RegisterRefuses | src/contexts/AuthContext.tsx:108-115 | a taken e-mail or the admin type leaves everything unchanged |
| Auth.Logout | src/contexts/AuthContext.tsx:169-184 | the session ends; a `logout` event for the previous user goes out only when someone was logged in |
| Auth.LoginThenLogout | src/contexts/AuthContext.tsx:169-184 | logging in then out leaves no session and reports the same user in both events |
| LoginPage.Handle | src/pages/Login.tsx:106-213 | switching tabs keeps the chosen type; a type button is taken only where the tab shows it |
| LoginPage.SubmitLogin | src/pages/Login.tsx:33-50 | the page goes home exactly when the login succeeds, and otherwise shows "Invalid email or password" |
| LoginPage.SubmitRegister | src/pages/Login.tsx:52-85 | a mismatched confirmation is reported first, then a password under six characters, and neither registers; otherwise "Email already exists" is shown exactly when the e-mail is taken or the chosen type is admin |
| LoginPage.AdminChoiceBlocksRegistration | src/pages/Login.tsx:17 | choosing admin on the sign-in tab and then switching to register makes a fresh e-mail fail with "Email already exists" |
| LoginPage.HandleCorrected | src/pages/Login.tsx:106 | the corrected tab switch drops an admin choice back to patient on the register tab and otherwise behaves as written |
| LoginPage.RunCorrected | src/pages/Login.tsx:195-213 | with the correction, the register tab never has admin chosen |
| LoginPage.CorrectedRegisterErrorIsTruthful | src/pages/Login.tsx:76-78 | with the correction, "Email already exists" on the register tab means exactly that the e-mail is taken |
| QRCodes.GenerateSessionId | src/utils/qrCode.ts:7-9 | the session id is "SESSION_", the time, "_" and the random part, and is valid for parsing when the random part has no line break |
| QRCodes.GenerateQRCodeString | src/utils/qrCode.ts:14-16 | the QR string is the prefix, the doctor id, "_" and the session id, each recoverable by slicing |
| QRCodes.ParseQRCodeString | src/utils/qrCode.ts:121-135 | null exactly when no position matches the pattern; otherwise the groups of the match at the leftmost position that does, which is an occurrence of a generated string; an input without the prefix parses to nothing |
| QRCodes.ParseFromLeftmost | src/utils/qrCode.ts:123 | the search from a position finds nothing exactly when no later position matches, and otherwise the match at the first position that does |
| QRCodes.RoundTrip | src/utils/qrCode.ts:121-135 | a doctor id without `_` and a session id without line breaks parse back exactly |
| QRCodes.UnderscoreSplitsDoctorId | src/utils/qrCode.ts:126 | a doctor id containing `_` does not round-trip: the id is cut at its first `_` and the rest moves into the session id |
| QRCodes.RegisteredDoctorRoundTrip | src/utils/qrCode.ts:21-48 | a registered doctor's QR code parses back to the doctor's id and session |
| QRCodes.CreateDoctorQRCode | src/utils/qrCode.ts:21-48 | one active code is appended, stamped with the creation time, holding the doctor's id, name and e-mail, the session and the generated `PDDIAGNOSYS_DOCTOR_` string, which parses back to the doctor and session |
| QRCodes.GetDoctorQRCodes | src/utils/qrCode.ts:73-76 | exactly the doctor's codes |
| QRCodes.GetDoctorQRCodesSnoc | src/utils/qrCode.ts:73-76 | the doctor's codes come in stored order |
| QRCodes.CreatedCodeIsListedLast | src/utils/qrCode.ts:21-48 | a new code is listed last among its doctor's codes, after the ones they had, and no other doctor's list changes |
| QRCodes.DeleteQRCode | src/utils/qrCode.ts:88-98 | exactly the codes with another id remain, and success is reported |
| QRCodes.DeleteQRCodeSnoc | src/utils/qrCode.ts:88-98 | the remaining codes keep their stored order |
| QRCodes.DeletedCodeIsUnlisted | src/utils/qrCode.ts:88-98 | after a deletion no doctor lists a code with that id, and each doctor still lists their other codes |
| QRCodes.UpdateQRCodeSignIn | src/utils/qrCode.ts:103-116 | codes with that id get the new sign-in time, and no other property or code changes |
| ImageAnalysis.StripExtension | src/utils/imageAnalysis.ts:43 | the result is a prefix of the name; it is the whole name exactly when there is no extension, and otherwise is cut at the last dot, before a non-empty run of characters without `.` or `/` |
| ImageAnalysis.EmotionOf | src/utils/imageAnalysis.ts:46-75 | a key the name starts with wins in table order, then a key the name contains, then the first three characters |
| ImageAnalysis.FindMarker | src/utils/imageAnalysis.ts:83-84 | a marker is found exactly when it stands between separators, at the start before one, or at the end after one |
| ImageAnalysis.AnalyzeImageFilename | src/utils/imageAnalysis.ts:42-93 | the percentage is 80 plus 5 per `+`, capped at 100; PD and NPD are the marker tests on the lower-cased name without extension; the emotion is capitalised |
| ImageAnalysis.AnalyzeImages | src/utils/imageAnalysis.ts:98-162 | one score per file in order, coloured by its emotion's place in the display order (compared without case), else by its position modulo six; PD iff more PD than NPD markers; confidence NaN iff no files; the confidence lies in 50..100, in 72..90 without markers and in 68..85 on a tie |
| ImageAnalysis.AverageWithin | src/utils/imageAnalysis.ts:147 | the average of scores in 80..100 is in 80..100 |
| ImageAnalysis.RoundTenthWithin | src/utils/imageAnalysis.ts:158 | rounding to a tenth keeps a value within the same whole-number bounds |
| ImageAnalysis.AngerNpdExample | src/utils/imageAnalysis.ts:37 | "ang_NPD" is anger at 80 %, marked NPD and not PD |
| ImageAnalysis.HappinessPdExample | src/utils/imageAnalysis.ts:38 | "hap++_PD.jpg" is happiness at 90 %, marked PD and not NPD |
| ImageAnalysis.BareMarkerIsNoMarker | src/utils/imageAnalysis.ts:83 | a name that is just "pd" carries no marker |
| Upload.HandleFileUpload | src/components/diagnosis/UploadSection.tsx:21-29 | the slot gets the file, or is emptied when there is none; every other slot is unchanged and keys stay unique |
| Upload.Remove | src/components/diagnosis/UploadSection.tsx:24-27 | exactly the images with another key remain |
| Upload.RemoveSnoc | src/components/diagnosis/UploadSection.tsx:24-27 | the remaining images keep their order |
| Upload.RemoveKeepsUnique | src/components/diagnosis/UploadSection.tsx:24-27 | deleting a slot keeps keys unique |
| Upload.ReadyMeansEverySlot | src/pages/Index.tsx:68 | six uploaded images are ready exactly when every one of the six emotion boxes is filled |
| PatientPage.RecordAnalysis | src/pages/Index.tsx:49-61 | only the patient's first record changes: analyses plus one (from zero when missing), login and analysis time now, status `busy` |
| PatientPage.HandleAnalyze | src/pages/Index.tsx:32-66 | the result is the analysis of the uploaded files for the session user; only a patient's records change, and at most one `patient_record` event goes out |
| PatientPage.AnalysisCoversEveryUpload | src/pages/Index.tsx:32-66 | an analysis started with six uploads scores all six |
| PatientPage.AnalysisClearsBooking | src/pages/Index.tsx:49-61 | an analysis turns a `book_appointment` record into `busy`, keeping its request time |
| PatientPage.BookAppointment | src/pages/Index.tsx:70-130 | only a patient may book; the first own record is booked with the request time; the appointment event then the record event go out; synced iff both replies are 2xx |
| ResultsDisplay.Show | src/components/diagnosis/ResultsDisplay.tsx:20-30 | before any analysis the placeholder scores show with NPD and 0; afterwards the summary's values, with a NaN confidence shown as 0 |
| ResultsDisplay.NoFilesShowsZero | src/components/diagnosis/ResultsDisplay.tsx:20-30 | an analysis of no files shows 0, NPD and no scores |
| ResultsDisplay.CardWarnsOnPdMajority | src/components/diagnosis/ResultsDisplay.tsx:20-30 | the card shows PD exactly when PD markers outnumber NPD markers |
| Routes.Normalize | src/App.tsx:29-96 | the location is compared without letter case and without trailing slashes; the root stays `/` |
| Routes.NormalPathIsKept | src/App.tsx:29-96 | a path with no capital letter and no trailing slash is compared as it is |
| Routes.Route | src/App.tsx:20-95 | on the normalised path: `/login` and `/qr-scanner` are public; anything protected sends a visitor to `/login` and shows its page to a user; `/` shows each user type its home page; unknown paths show "not found" |
| Routes.TrailingSlashIgnored | src/App.tsx:29-96 | a trailing slash does not change where a path leads |
| Routes.CaseIgnored | src/App.tsx:29-96 | letter case does not change where a path leads |
| Routes.Guard | src/pages/AdminDashboard.tsx:26-30 | the admin dashboard admits only the admin, the doctor dashboard everyone but patients, and the doctor QR code page (its effect at DoctorQRCode.tsx:21-27) only doctors; the others are sent to `/` |
| Routes.LandingIsSafe | src/App.tsx:20-95 | every path settles within two redirects, no patient lands on a dashboard, no doctor on the admin one, a visitor only on public pages |
| Routes.RootLeadsHome | src/App.tsx:31-44 | `/` leads each user to their home page, and a user turned away from a dashboard or from the doctor QR code page ends there too |
| Routes.QRCodePageLeadsHome | src/pages/DoctorQRCode.tsx:21-27 | only a doctor stays on the doctor QR code page; a patient or the admin is sent to `/` and lands on their home page |
| Scenarios.ClientEventsAreAccepted | server.js:58-152 | every event type the client sends is handled by the server, and the logs record the client's time |
| Scenarios.BookingReachesServer | src/pages/Index.tsx:70-130 | the two booking events, delivered in order, leave the server with the patient's record booked at the request time, whatever it held before |
| Scenarios.BookingSurvivesRefresh | src/pages/DoctorDashboard.tsx:74-79 | a booked record is shown unchanged by every later refresh without server records |
| Scenarios.DashboardsReadServerRecords | server.js:163-172 | the dashboards fetch exactly the server's records and show them merged into the local ones |
| Scenarios.DashboardsReadServerAppointments | server.js:173-182 | the appointments query fetched back is exactly the server's appointment list |
| Scenarios.DeletePatientAgrees | src/pages/AdminDashboard.tsx:169-207 | the server's delete leaves the list the admin cleared locally, and the refresh that reads it back shows none of the patient's records |
| Scenarios.RegisteredPatientReachesServer | src/contexts/AuthContext.tsx:141-157 | a registered patient's record event leaves the server with a matching record |

## Left out

- Local storage, the server's JSON file, the network, the clock and random strings are parameters or values. Concurrency between browsers, the five-second polling and the ordering of asynchronous requests are not modelled: each handler is one atomic step.
- A truthy non-object body (a number or a string) and malformed JSON are not modelled: records are typed values with optional properties. The server's 500 path is left out for the same reason. Properties beyond the nine record fields are also left out.
- `GET /api/health` and the server start-up log are left out, because they hold no logic.
- Timestamps are whole milliseconds; their ISO-8601 rendering is not modelled. An unparsable date is `None` (NaN).
- Floating-point arithmetic in the confidence is modelled with exact reals, and `Math.round` as floor of x + 0.5.
- Text.Lower: covers ASCII letters only. It does not cover full Unicode case mapping, which file names rarely need.
- ImageAnalysis.Capitalize: upper-cases ASCII letters only, through Text.UpperChar, where `toUpperCase` maps every letter. The emotion keys are ASCII, so only a fallback emotion taken from a non-ASCII file name differs.
- ImageAnalysis.EmotionOf: counts string positions in characters, where JavaScript counts UTF-16 code units. The two differ only for names with characters outside the Basic Multilingual Plane.
- Routes.Normalize: folds ASCII letter case only, and does not percent-decode the location. The router's basename and case-sensitive options are unused by the portal.
- Password lengths are counted in characters, not UTF-16 code units.
- The QR image rendering and the asynchronous import that creates a doctor's QR code are left out. The code's creation is treated as part of registration, and its rare failure is not modelled.
- The report download is left out: `reportGenerator.ts` is not part of this model.
- The AI assistant, QR scanner, documentation and methodology pages are left out, and of the doctor QR code page only its doctors-only redirect is modelled. So are toasts, loading flags and the `catch` branches that only show "An error occurred".
- Routes.Land: follows at most two redirects (a fuel bound). That suffices for every path, which LandingIsSafe proves.
- The doctor dashboard's own `getTimeAgo` and status badges are left out: they are display copies of the admin ones modelled here.

## Findings

| source | as written | input that shows it | evidently intended | confidence | as-written member | corrected member |
|---|---|---|---|---|---|---|
| src/pages/Login.tsx:17 | one chosen account type is shared by both tabs, so admin chosen on the sign-in tab stays chosen on the register tab, which has no admin button, and registration refuses the admin type | click "Admin", switch to "Register", submit a fresh e-mail with matching six-character passwords: the page says "Email already exists" | the register tab only ever submits patient or doctor, so the message means the e-mail is taken | not executed; high | LoginPage.AdminChoiceBlocksRegistration | LoginPage.HandleCorrected |
| src/pages/AdminDashboard.tsx:335 | "Active Patients" counts only `available` and `busy`, not the `active` status the refresh gives to patients seen in the last five minutes | a patient whose last login was one minute ago is shown with the green "Active" badge, yet the counter says 0 | count every patient seen within 30 minutes: `active`, `available` and `busy` | not executed; medium | AdminDashboard.JustLoggedInIsNotCounted | AdminDashboard.ActivePatientsCorrected |
