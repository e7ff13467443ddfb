# QR-token attendance engine: a Dafny model

This project models the core of a PHP student attendance system. The core has three parts:

- **Token lifecycle** (`QRGenerator`, `includes/qr_generator.php`). A teacher issues a short-lived QR token for a class. Issuing switches off every earlier token of that class. Tokens are validated, with expired ones switched off lazily. They can be listed, switched off by id, cleaned up, counted, and issued in bulk.
- **Attendance recorder** (`AttendanceManager`, `includes/attendance.php`). A validated token plus an active student yields one attendance record per (student, class, day). Its status is "present" up to 08:00:00 and "late" after it. Time-out, status correction and the report summary work on the same table.
- **Realtime gateway** (`WebSocketConfig`, `config/websocket.php`). It keeps a registry of authenticated connections keyed `userId_userType` and dispatches `auth`, `attendance_scan`, `get_attendance` and `ping` frames. It records scans directly, without going through the recorder, and broadcasts each new record to every registered teacher key.

The database tables become values owned by classes:
- `QRGenerator.rows` is the `qr_codes` table, a sequence in insertion order.
- `QRGenerator.issuedTokens` is every token handed out so far, and the ghost `QRGenerator.retired` is every token validation has reported expired; no retired token has an active row.
- `AttendanceManager.records` is the `attendance` table.
- `WebSocketConfig.userConnections` is the registry, an ordered sequence of (key, connection) pairs.
- `WebSocketConfig.outbox` is the stream of frames sent.
- `WebSocketConfig.notifications` is the `notifications` table.

Each state-changing method is specified by a pure function on those values (`Validate`, `Mark`, `Scan`, `Auth`, …). The properties are proved about these functions. The students, teachers and settings tables are read-only and passed in as a `Db` value.

Modules:
- `base.dfy` (`Base`): the clock, `Option`, statuses, the directory tables, decimal keys and substring search.
- `tokens.dfy` (`Tokens`): the token lifecycle.
- `attendance.dfy` (`Attendance`): the recorder.
- `gateway.dfy` (`Gateway`): the realtime gateway.

Time is a whole number of seconds:
- `Day(now)` stands for `CURDATE()`.
- `TimeOfDay(now)` stands for `date('H:i:s')`.
- The fixed class start 08:00:00 is `ClassStartTime`.

MySQL reports an UPDATE's affected rows as the rows whose value actually changed. The model keeps this: `deactivateQRCode` succeeds only if a targeted row was still active, and `updateAttendanceStatus` succeeds only if the record changed.

Points of the code's behaviour worth knowing:
- `validateQRCode` treats a token as expired only when `expires_at < now`, so it is still accepted at the second of expiry.
- Minutes left (`remaining_minutes`) are `round((expires_at - now) / 60)`, with halves away from zero.
- Cleanup switches off only tokens with `expires_at < now`.
- `updateAttendanceStatus` reports "Attendance record not found" whenever no row changed, not only when the id is unknown.
- The gateway's scan path differs from the recorder in its status rule, its expiry handling, its check order and the missing active-student check. Each difference is stated as a lemma in `Gateway`.

## Model

| member | source | states |
|---|---|---|
| Base.FirstIndex | student-attendance-system/includes/attendance.php:44-48 | the first position satisfying the condition, none iff no position does; every first-match lookup of the model is this search |
| Base.GetSetting | student-attendance-system/config/database.php:92-96 | the stored value when the key is set, otherwise the caller's default |
| Base.TimeOfDay | student-attendance-system/includes/attendance.php:62 | the time of day lies in [0, 86400) and, with the day number, reconstructs the moment |
| Base.RoundMinutes | student-attendance-system/includes/qr_generator.php:147 | the result is the nearest whole minute (within 30 s, halves away from zero) and is never negative for a non-negative span |
| Base.ParseStatus | student-attendance-system/includes/attendance.php:441-447 | accepts exactly "present", "late", "absent" and is the inverse of the status names |
| Base.FindActive | student-attendance-system/includes/attendance.php:31-34 | a person is found iff the id exists and the account is active, and the row found is that person |
| Base.NatToString | student-attendance-system/config/websocket.php:114 | the decimal rendering of an id is a non-empty digit string, one digit long exactly below 10 |
| Base.NatToStringInjective | student-attendance-system/config/websocket.php:114 | distinct ids render to distinct strings |
| Base.ContainsAfterDigits | student-attendance-system/config/websocket.php:261 | a needle starting with a non-digit occurs in digits+tail iff it occurs in tail |
| Tokens.DeactivateClass | student-attendance-system/includes/qr_generator.php:30-33 | only switches rows off; a row stays active iff it was active and belongs to another class |
| Tokens.IssueRows | student-attendance-system/includes/qr_generator.php:27-43 | exactly one row is appended, active, expiring expiryMinutes·60 s after now; earlier rows of the class are inactive, rows of other classes unchanged |
| Tokens.IssueKeepsTableOk | student-attendance-system/includes/qr_generator.php:30-43 | issuing with a fresh id and token keeps the table invariant, hence at most one active token per class |
| Tokens.TableOkOneActive | student-attendance-system/includes/qr_generator.php:30-33 | the table invariant implies at most one active token per class |
| Tokens.DeactivationKeepsTableOk | student-attendance-system/includes/qr_generator.php:126-131 | any change that only switches rows off keeps the table invariant |
| Tokens.DeactivationNeverRevives | student-attendance-system/includes/qr_generator.php:201-208 | after a change that only switches rows off, a token active afterwards was active before |
| Tokens.LongerThanAll | student-attendance-system/includes/qr_generator.php:271-280 | there is always a token different from every token in use |
| Tokens.IndexOfActive | student-attendance-system/includes/qr_generator.php:109-116 | finds the first active row with the token, and finds none iff no active row has it |
| Tokens.Validate | student-attendance-system/includes/qr_generator.php:107-149 | "Invalid QR code" iff no active row has the token, with nothing changed; "QR code has expired" iff that row's expiry is strictly before now, switching off exactly that row; otherwise accepts with its id, class and round-minutes left, with nothing changed |
| Tokens.ExpiredThenInvalid | student-attendance-system/includes/qr_generator.php:126-137 | once a token is reported expired, the next validation of it, at any later time, reports it invalid; across other operations the generator's retired-token invariant carries this on (see ValidateQRCode) |
| Tokens.ExpiredLeavesNoActive | student-attendance-system/includes/qr_generator.php:126-137 | a token reported expired has no active row left |
| Tokens.DeactivationKeepsNoneActive | student-attendance-system/includes/qr_generator.php:201-208 | switching rows off activates none of a set of tokens that had no active row |
| Tokens.IssueKeepsNoneActive | student-attendance-system/includes/qr_generator.php:30-43 | issuing a token outside a set activates none of the set's tokens |
| Tokens.CleanupKeepsNoneActive | student-attendance-system/includes/qr_generator.php:232-256 | cleanup activates none of a set of tokens that had no active row |
| Tokens.IssueThenValidate | student-attendance-system/includes/qr_generator.php:139-149 | validating a freshly issued token at any time up to its expiry accepts it, with the same row and class, and changes nothing |
| Tokens.ListingSound | student-attendance-system/includes/qr_generator.php:162-183 | every listed entry is an active, unexpired row in the teacher's scope, with round-minutes left, never negative |
| Tokens.ListingComplete | student-attendance-system/includes/qr_generator.php:162-177 | every active, unexpired row in the teacher's scope is listed |
| Tokens.ListingNewestFirst | student-attendance-system/includes/qr_generator.php:175 | the listing is ordered by creation time (and id) descending |
| Tokens.DeactivateById | student-attendance-system/includes/qr_generator.php:199-221 | only targeted rows (that id, and that creator when a teacher is given) change, and they become inactive; success iff the table changed |
| Tokens.DeactivateTouchesOneRow | student-attendance-system/includes/qr_generator.php:201-208 | with unique ids at most one row is targeted |
| Tokens.ExpireStale | student-attendance-system/includes/qr_generator.php:234-237 | only switches rows off; a row stays active iff it was active and not expired before now |
| Tokens.PurgeOld | student-attendance-system/includes/qr_generator.php:253-255 | keeps exactly the rows created within the last 7 days |
| Tokens.PurgeOldKeepsTableOk | student-attendance-system/includes/qr_generator.php:253-255 | deleting old rows keeps the table invariant |
| Tokens.Cleanup | student-attendance-system/includes/qr_generator.php:232-256 | the table never grows and keeps only rows created in the last 7 days |
| Tokens.CleanupSound | student-attendance-system/includes/qr_generator.php:232-260 | after cleanup no expired row is active and no row older than 7 days remains; every recent row survives with only its flag updated; the invariant is kept |
| Tokens.PurgeOldNoop | student-attendance-system/includes/qr_generator.php:253-255 | purging a table with only recent rows changes nothing |
| Tokens.CleanupIdempotent | student-attendance-system/includes/qr_generator.php:232-260 | a second cleanup at the same moment changes nothing |
| Tokens.CountRows | student-attendance-system/includes/qr_generator.php:284-288 | a count of rows never exceeds the number of rows |
| Tokens.CountDisjoint | student-attendance-system/includes/qr_generator.php:284-288 | two disjoint row classes within a third together count no more than it |
| Tokens.ListingCounted | student-attendance-system/includes/qr_generator.php:286 | the listing has exactly as many entries as there are listed rows |
| Tokens.Stats | student-attendance-system/includes/qr_generator.php:282-296 | the generated count never exceeds the table's size |
| Tokens.StatsConsistent | student-attendance-system/includes/qr_generator.php:282-297 | the active count equals the size of the listing, and active plus expired never exceeds the total |
| Tokens.BulkStep | student-attendance-system/includes/qr_generator.php:317-323 | issuing one more class keeps the bulk-issue description of the table and results |
| Tokens.QRGenerator.constructor | student-attendance-system/includes/qr_generator.php:22-25 | the expiry is the `qr_expiry_minutes` setting, default 15, over an empty, well-formed table |
| Tokens.QRGenerator.GenerateQRCode | student-attendance-system/includes/qr_generator.php:27-105 | the table becomes IssueRows with the next id and a token never issued before; the result carries that id, the class, the expiry time and the expiry minutes; the counter advances by one; the invariant is kept |
| Tokens.QRGenerator.ValidateQRCode | student-attendance-system/includes/qr_generator.php:107-158 | table and result are those of Validate; a token reported expired joins the retired tokens, and a retired token is reported invalid, whatever was issued, switched off or cleaned up in between |
| Tokens.QRGenerator.GetActiveQRCodes | student-attendance-system/includes/qr_generator.php:160-197 | the loop from the newest row back produces exactly the Listing |
| Tokens.QRGenerator.DeactivateQRCode | student-attendance-system/includes/qr_generator.php:199-230 | table and success flag are those of DeactivateById, the reply message is DeactivateMessage of the flag, and the invariant is kept |
| Tokens.QRGenerator.CleanupExpiredQRCodes | student-attendance-system/includes/qr_generator.php:232-269 | the table becomes Cleanup of the old table, and the invariant is kept |
| Tokens.QRGenerator.GetQRCodeStats | student-attendance-system/includes/qr_generator.php:282-311 | returns the counts of Stats, with active plus expired at most the total |
| Tokens.QRGenerator.GenerateBulkQRCodes | student-attendance-system/includes/qr_generator.php:313-337 | one result and one new row per listed class in order; old rows of listed classes are switched off; a new row stays active iff its class is not listed again later; result k carries id old counter + k, its class, the expiry time and the expiry minutes; the issued-token set grows by exactly the results' tokens, none of which was issued before; the counter advances by the number of classes |
| Tokens.QRGenerator.IssueNextInBulk | student-attendance-system/includes/qr_generator.php:317-322 | one round of the bulk loop issues the next class's code and extends both the table description and the issued-token set by exactly that result, keeping the invariant |
| Attendance.SameKeysKeepRecordsOk | student-attendance-system/includes/attendance.php:131-134 | changes that keep ids and (student, class, day) keys keep one record per key |
| Attendance.IndexOfKey | student-attendance-system/includes/attendance.php:44-48 | finds the first record of (student, class, day), and none iff there is none |
| Attendance.DetermineAttendanceStatus | student-attendance-system/includes/attendance.php:419-437 | "present" iff the time is at most 08:00:00, "late" otherwise, never "absent", whatever the threshold |
| Attendance.Mark | student-attendance-system/includes/attendance.php:19-97 | a rejected token's error is passed through; a missing or inactive student fails; an existing same-day record fails and is handed back; every failure leaves the table unchanged; success appends exactly one record for today with the time, computed status and token; with an accepted token and an active student, an existing same-day record forces that failure and its absence forces success |
| Attendance.MarkKeepsRecordsOk | student-attendance-system/includes/attendance.php:44-70 | marking keeps one record per (student, class, day) and ascending ids |
| Attendance.SecondMarkSameDayRejected | student-attendance-system/includes/attendance.php:44-59 | after a successful mark, a second one the same day for the same class is rejected and returns the first record |
| Attendance.IndexOfOwnToday | student-attendance-system/includes/attendance.php:110-113 | finds the first record with that id, student and today's date, and none iff there is none |
| Attendance.TimeOut | student-attendance-system/includes/attendance.php:108-143 | "Attendance record not found" iff no such record; "Time out already marked" if it has one; otherwise only that record gets the time out and modification time |
| Attendance.TimeOutOnce | student-attendance-system/includes/attendance.php:122-127 | a repeated time-out on the same day is refused and changes nothing |
| Attendance.UpdateStatus | student-attendance-system/includes/attendance.php:439-472 | "Invalid status" iff the name is not a status, with nothing written; only records with the id change, and each becomes exactly the record with the new status, the given notes (old notes kept when none are given) and the modification time; success iff the table changed |
| Attendance.ReportRows | student-attendance-system/includes/attendance.php:330-370 | the report holds exactly the records satisfying every given filter, each as many times as in the table |
| Attendance.CountStatusTotal | student-attendance-system/includes/attendance.php:374-387 | the three status counts add up to the number of records |
| Attendance.SummaryStep | student-attendance-system/includes/attendance.php:386-389 | appending a record bumps its status count and adds its student and class ids |
| Attendance.DateRangeStep | student-attendance-system/includes/attendance.php:391-396 | widening the range by one record gives the minimum and maximum of the longer list |
| Attendance.Summarize | student-attendance-system/includes/attendance.php:373-400 | the summary's counts, distinct student and class sets with their sizes, and earliest and latest dates are those of the report; the counts sum to the total |
| Attendance.AttendanceManager.constructor | student-attendance-system/includes/attendance.php:14-17 | the threshold is the `late_threshold_minutes` setting, default 10 |
| Attendance.AttendanceManager.MarkAttendance | student-attendance-system/includes/attendance.php:19-106 | the token table changes as Validate says, the records and outcome are those of Mark, the reply message is MarkMessage of the outcome, the token id counter and the issued-token set are untouched, the retired set grows by the token exactly when the outcome is an expired code, a retired token is refused as invalid, and the invariants are kept |
| Attendance.AttendanceManager.MarkTimeOut | student-attendance-system/includes/attendance.php:108-152 | records and outcome are those of TimeOut, the reply message is TimeOutMessage of the outcome, and the invariants are kept |
| Attendance.AttendanceManager.UpdateAttendanceStatus | student-attendance-system/includes/attendance.php:439-481 | records and outcome are those of UpdateStatus, the reply message is UpdateMessage of the outcome, and the invariants are kept |
| Attendance.AttendanceManager.GenerateAttendanceReport | student-attendance-system/includes/attendance.php:328-417 | returns the filtered report and a summary of it |
| Gateway.Key | student-attendance-system/config/websocket.php:114 | the key is the decimal id, '_' and the user type, the id part all digits |
| Gateway.KeyInjective | student-attendance-system/config/websocket.php:114 | two registrations share a key only for the same id and user type |
| Gateway.ShorterNeverContains | student-attendance-system/config/websocket.php:261 | a string shorter than the needle never contains it |
| Gateway.TeacherKeyByType | student-attendance-system/config/websocket.php:259-265 | whether a key gets teacher broadcasts depends only on the user type: "teacher" does, "student" does not |
| Gateway.IndexOfUser | student-attendance-system/config/websocket.php:275 | finds the first entry with the key, and none iff there is none |
| Gateway.Lookup | student-attendance-system/config/websocket.php:275-276 | a key is bound iff some entry has it, and with unique keys the binding is that entry's connection |
| Gateway.Put | student-attendance-system/config/websocket.php:114 | the key is bound to the connection afterwards, in place if it was bound and appended otherwise; other entries and key uniqueness are kept |
| Gateway.PutLeavesOtherKeys | student-attendance-system/config/websocket.php:114 | binding one key leaves every other key's binding unchanged |
| Gateway.IndexOfConn | student-attendance-system/config/websocket.php:77-78 | finds the first entry bound to the connection, and none iff there is none |
| Gateway.RemoveFirst | student-attendance-system/config/websocket.php:77-82 | removes one entry when the connection is bound and nothing otherwise, never adds entries, and keeps keys unique |
| Gateway.CloseUnbindsOneKey | student-attendance-system/config/websocket.php:74-82 | closing unbinds exactly the first key bound to the connection; every other key keeps its binding |
| Gateway.CloseKeepsLaterBinding | student-attendance-system/config/websocket.php:77-81 | a connection registered under two keys stays bound under the later one after closing |
| Gateway.TeacherDeliveries | student-attendance-system/config/websocket.php:259-265 | a broadcast sends at most one frame per registry entry |
| Gateway.BroadcastReachesExactlyTeachers | student-attendance-system/config/websocket.php:259-265 | a frame is broadcast to a connection iff some key containing "_teacher" is bound to it |
| Gateway.RouteOf | student-attendance-system/config/websocket.php:41-65 | a frame is malformed iff it did not decode or has no type; each of "auth", "attendance_scan", "get_attendance" and "ping" routes to its own handler, and a frame is unknown iff its type is none of the four |
| Gateway.Auth | student-attendance-system/config/websocket.php:92-121 | missing fields or an unknown/inactive user (students for "student", teachers otherwise) give an error and leave the registry unchanged; with both fields and an active user auth always succeeds, binds the key to the connection and replies with the user |
| Gateway.AuthBindsOnlyItsKey | student-attendance-system/config/websocket.php:114 | after a successful auth only the user's own key changes binding |
| Gateway.ScanStatus | student-attendance-system/config/websocket.php:169-176 | "late" iff the time is after 08:00:00 plus the threshold, otherwise "present" |
| Gateway.LiveIndex | student-attendance-system/config/websocket.php:136-142 | finds a row with the token that is active and expires strictly after now, and none iff there is none |
| Gateway.Scan | student-attendance-system/config/websocket.php:126-183 | "Missing scan data", "Invalid or expired QR code", "Attendance already marked for today", "Student not found" in that order, each leaving the table unchanged; with both fields and a live token the outcome is forced: a same-day record gives the duplicate error, else an unknown student gives "Student not found", else success, which appends one record for today with the scan status, the token's class and token, and the reply data names the student |
| Gateway.ScanKeepsRecordsOk | student-attendance-system/config/websocket.php:149-183 | a scan keeps one record per (student, class, day) and ascending ids |
| Gateway.StatusRulesDisagree | student-attendance-system/config/websocket.php:173-176 | the recorder's and the scan's status differ exactly between 08:00:00 and 08:00:00 plus the threshold |
| Gateway.OnlyRowWithToken | student-attendance-system/includes/qr_generator.php:109-116 | in a well-formed table an active row is the only one with its token, and validation finds it |
| Gateway.ExpiryInstantDisagrees | student-attendance-system/config/websocket.php:140 | at the second of expiry the recorder accepts the token and the scan rejects it |
| Gateway.ExpiredTokenSideEffect | student-attendance-system/config/websocket.php:136-147 | an expired token is switched off by the recorder but only rejected by the scan |
| Gateway.InactiveStudentDisagrees | student-attendance-system/config/websocket.php:161-166 | an inactive student is refused by the recorder but recorded by the scan |
| Gateway.CheckOrderDisagrees | student-attendance-system/config/websocket.php:149-166 | an unknown student with today's record gets "Student not found or inactive" from the recorder and "Attendance already marked for today" from the scan |
| Gateway.StudentHistory | student-attendance-system/config/websocket.php:227-235 | holds exactly the student's records, each as many times as in the table |
| Gateway.WebSocketConfig.constructor | student-attendance-system/config/websocket.php:18-23 | starts with no clients, no registrations and nothing sent |
| Gateway.WebSocketConfig.OnOpen | student-attendance-system/config/websocket.php:25-35 | adds the client and sends it the system greeting; registry unchanged |
| Gateway.WebSocketConfig.OnClose | student-attendance-system/config/websocket.php:73-85 | removes the client and, by a loop that stops at the first match, the first registry entry bound to it |
| Gateway.WebSocketConfig.SendError | student-attendance-system/config/websocket.php:251-257 | sends exactly one frame of type "error" with the given message |
| Gateway.WebSocketConfig.HandlePing | student-attendance-system/config/websocket.php:244-249 | sends one pong frame and changes nothing else |
| Gateway.WebSocketConfig.HandleAuth | student-attendance-system/config/websocket.php:92-124 | registry and reply are those of Auth |
| Gateway.WebSocketConfig.BroadcastToTeachers | student-attendance-system/config/websocket.php:259-265 | the loop sends exactly TeacherDeliveries, in registry order |
| Gateway.WebSocketConfig.SendToUser | student-attendance-system/config/websocket.php:273-280 | returns true iff the key is bound, and sends one frame to that connection only when it is |
| Gateway.WebSocketConfig.HandleGetAttendance | student-attendance-system/config/websocket.php:218-242 | "Missing student ID" without a student id, otherwise one frame with the student's records |
| Gateway.WebSocketConfig.HandleAttendanceScan | student-attendance-system/config/websocket.php:126-216 | records as Scan says, with the token table untouched; a rejection sends one error frame; a success sends attendance_success to the sender, new_attendance with the same data to every teacher key, and logs one notification |
| Gateway.WebSocketConfig.AcceptScan | student-attendance-system/config/websocket.php:178-213 | an accepted scan appends the record and advances the record counter, sends attendance_success to the scanner, new_attendance to every teacher key, and logs one notification |
| Gateway.WebSocketConfig.OnMessage | student-attendance-system/config/websocket.php:37-71 | malformed and unknown frames get one error reply and change no state; ping gets pong; get_attendance replies as HandleGetAttendance; auth and scan frames act as Auth and Scan say, including the next attendance id |

## Left out

- QR image rendering and saving the PNG, and deleting image files older than 24 hours during cleanup: foreign library calls and file I/O.
- Token derivation from SHA-256 over `random_bytes`: the model picks any token outside `issuedTokens`, the set of every token handed out so far, which stands for the uniqueness the digest of fresh random bytes gives.
- Database exceptions and their generic messages ("Failed to generate QR code", "Server error occurred" and the like): storage faults are not modelled.
- Concurrency and transactions: each operation is one sequential step.
- Joined display fields (class name, teacher name, NIS, e-mail) and the notification's message text: joins are assumed to match. A class is identified by its id and a notification carries the student, status and class.
- getStudentAttendance, getClassAttendance and the SQL aggregates with `ROUND` percentages: read-only queries outside this core.
- Gateway.StudentHistory: returns the records in table order; the `ORDER BY date DESC, time_in DESC` and the `LIMIT` (default 10) of get_attendance are not modelled.
- Attendance.ReportRows: keeps table order rather than `ORDER BY date DESC, class_name, name`; the summary does not depend on order.
- Attendance.Summarize: the unique students and classes are id sets rather than id-to-name maps.
- Settings are already-parsed integers; PHP's `(int)` cast of stored strings is not modelled.
- Ids, user types, tokens and message types in inbound frames are typed (`nat`, `string`); PHP's loose `switch` comparison of non-string types and non-numeric ids are not modelled.
- The students and teachers tables are read-only parameters; `broadcastToAll`, `onError` and the server bootstrap are not modelled.
- The teacher-owns-class check of the HTTP API is not part of this model.
- Tokens.QRGenerator.GenerateQRCode: requires the clock not to run backwards (every existing token was created at or before now), so that newest-first by creation time is the reverse of insertion order.
- Calendar days are `now / 86400`: time zones and daylight saving are not modelled.
