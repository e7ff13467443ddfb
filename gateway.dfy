/** The realtime gateway of config/websocket.php: the registry that binds
    `userId_userType` keys to open connections, the frames the server sends,
    the decisions of the auth and attendance_scan handlers as functions, and
    the WebSocketConfig class whose event handlers apply them. The scan
    handler reads and writes the same token and attendance tables as the
    recorder, through the AttendanceManager it is given. */
module Gateway {
  import opened Base
  import opened Tokens
  import opened Attendance

  type ConnId = nat

  /** A decoded inbound frame; every field is None when it is absent or
      null (PHP's `isset`). */
  datatype Inbound = Inbound(
    kind: Option<string>,
    userId: Option<nat>,
    userType: Option<string>,
    qrToken: Option<string>,
    studentId: Option<nat>)

  /** The `data` object of a successful scan; `classId` stands for the class
      name joined from it. */
  datatype ScanData = ScanData(studentName: string, classId: nat, status: Status, time: int, date: int)

  datatype Outbound =
    | System(message: string)
    | AuthSuccess(userId: nat, name: string)
    | AttendanceSuccess(data: ScanData)
    | NewAttendance(data: ScanData)
    | AttendanceData(records: seq<AttendanceRecord>)
    | Pong
    | Error(message: string)

  /** The `type` field of each outbound frame. */
  function TypeOf(o: Outbound): string
  {
    match o
    case System(_) => "system"
    case AuthSuccess(_, _) => "auth_success"
    case AttendanceSuccess(_) => "attendance_success"
    case NewAttendance(_) => "new_attendance"
    case AttendanceData(_) => "attendance_data"
    case Pong => "pong"
    case Error(_) => "error"
  }

  /** One frame sent: recipient, body and its `timestamp`. */
  datatype Delivery = Delivery(to: ConnId, body: Outbound, timestamp: int)

  /** A row of `notifications` written after a scan. */
  datatype Notification = Notification(studentId: nat, status: Status, classId: nat)

  // ---------------------------------------------------------------------
  // The connection registry (`userConnections`), an ordered dictionary
  // ---------------------------------------------------------------------

  type Registry = seq<(string, ConnId)>

  predicate KeysUnique(reg: Registry)
  {
    forall i, j :: 0 <= i < j < |reg| ==> reg[i].0 != reg[j].0
  }

  /** `$userId . '_' . $userType`. */
  function Key(userId: nat, userType: string): (k: string)
    ensures |k| == |NatToString(userId)| + 1 + |userType|
    ensures AllDigits(k[..|NatToString(userId)|]) && k[|NatToString(userId)|] == '_'
  {
    NatToString(userId) + "_" + userType
  }

  /** Distinct users, or one id under two user types, get distinct keys:
      the first '_' ends the decimal id. */
  lemma KeyInjective(a: nat, t: string, b: nat, u: string)
    requires Key(a, t) == Key(b, u)
    ensures a == b && t == u
  {
    var sa, sb := NatToString(a), NatToString(b);
    var k := Key(a, t);
    assert forall i :: 0 <= i < |sa| ==> IsDigit(k[i]) by {
      assert forall i :: 0 <= i < |sa| ==> k[i] == sa[i];
    }
    assert k[|sa|] == '_';
    assert forall i :: 0 <= i < |sb| ==> IsDigit(k[i]) by {
      assert forall i :: 0 <= i < |sb| ==> k[i] == sb[i];
    }
    assert k[|sb|] == '_';
    assert |sa| == |sb|;
    assert sa == k[..|sa|] == sb;
    NatToStringInjective(a, b);
    assert t == k[|sa| + 1..] == u;
  }

  /** The `strpos($key, '_teacher') !== false` test of broadcastToTeachers. */
  predicate TeacherKey(key: string)
  {
    Contains(key, "_teacher")
  }

  lemma {:induction false} ShorterNeverContains(s: string, needle: string)
    requires |s| < |needle|
    ensures !Contains(s, needle)
    decreases |s|
  {
    if |s| > 0 {
      ShorterNeverContains(s[1..], needle);
    }
  }

  /** Whether a registration receives teacher broadcasts depends only on
      the user type: "teacher" does, "student" does not. */
  lemma TeacherKeyByType(userId: nat, userType: string)
    ensures TeacherKey(Key(userId, userType)) <==> Contains("_" + userType, "_teacher")
    ensures userType == "teacher" ==> TeacherKey(Key(userId, userType))
    ensures userType == "student" ==> !TeacherKey(Key(userId, userType))
  {
    assert Key(userId, userType) == NatToString(userId) + ("_" + userType);
    ContainsAfterDigits(NatToString(userId), "_" + userType, "_teacher");
    if userType == "student" {
      StudentTagNotTeacher(userType);
    } else if userType == "teacher" {
      TeacherTagIsTeacher(userType);
    }
  }

  lemma StudentTagNotTeacher(userType: string)
    requires userType == "student"
    ensures !Contains("_" + userType, "_teacher")
  {
    var s := "_" + userType;
    assert s[..8] != "_teacher" by {
      assert s[1] == 's';
    }
    ShorterNeverContains(s[1..], "_teacher");
  }

  lemma TeacherTagIsTeacher(userType: string)
    requires userType == "teacher"
    ensures Contains("_" + userType, "_teacher")
  {
    assert ("_" + userType)[..8] == "_teacher";
  }

  function IndexOfUser(reg: Registry, key: string): (r: Option<nat>)
    ensures r.Some? ==> r.value < |reg| && reg[r.value].0 == key
    ensures r.Some? ==> forall k :: 0 <= k < r.value ==> reg[k].0 != key
    ensures r.None? <==> forall k :: 0 <= k < |reg| ==> reg[k].0 != key
  {
    FirstIndex(reg, (e: (string, ConnId)) => e.0 == key)
  }

  /** `$this->userConnections[$key]`, when set. */
  function Lookup(reg: Registry, key: string): (c: Option<ConnId>)
    ensures c.Some? <==> exists k :: 0 <= k < |reg| && reg[k].0 == key
    ensures KeysUnique(reg) ==> forall k :: 0 <= k < |reg| && reg[k].0 == key ==> c == Some(reg[k].1)
  {
    match IndexOfUser(reg, key)
    case None => None
    case Some(i) => Some(reg[i].1)
  }

  /** `$this->userConnections[$key] = $conn`: an existing key is rebound in
      place, a new one is appended. */
  function Put(reg: Registry, key: string, conn: ConnId): (r: Registry)
    ensures Lookup(r, key) == Some(conn)
    ensures |r| == |reg| + (if Lookup(reg, key).Some? then 0 else 1)
    ensures forall i :: 0 <= i < |reg| && reg[i].0 != key ==> r[i] == reg[i]
    ensures forall i :: 0 <= i < |reg| ==> r[i].0 == reg[i].0
    ensures KeysUnique(reg) ==> KeysUnique(r)
  {
    match IndexOfUser(reg, key)
    case Some(i) =>
      var r := reg[i := (key, conn)];
      assert r[i].0 == key;
      assert forall k :: 0 <= k < i ==> r[k] == reg[k] && r[k].0 != key;
      assert IndexOfUser(r, key) == Some(i);
      r
    case None =>
      var r := reg + [(key, conn)];
      assert r[|reg|].0 == key;
      assert forall k :: 0 <= k < |reg| ==> r[k] == reg[k];
      r
  }

  /** Binding one key leaves every other key's binding as it was. */
  lemma PutLeavesOtherKeys(reg: Registry, key: string, conn: ConnId, other: string)
    requires other != key
    ensures Lookup(Put(reg, key, conn), other) == Lookup(reg, other)
  {
    var r := Put(reg, key, conn);
    assert forall i :: 0 <= i < |r| && r[i].0 == other ==> i < |reg| && r[i] == reg[i];
    assert IndexOfUser(r, other) == IndexOfUser(reg, other);
  }

  /** The first registry position bound to `conn`. */
  function IndexOfConn(reg: Registry, conn: ConnId): (r: Option<nat>)
    ensures r.Some? ==> r.value < |reg| && reg[r.value].1 == conn
    ensures r.Some? ==> forall k :: 0 <= k < r.value ==> reg[k].1 != conn
    ensures r.None? <==> forall k :: 0 <= k < |reg| ==> reg[k].1 != conn
  {
    FirstIndex(reg, (e: (string, ConnId)) => e.1 == conn)
  }

  /** The registry after onClose: the first entry bound to the connection
      is unset and the scan stops there. */
  function RemoveFirst(reg: Registry, conn: ConnId): (r: Registry)
    ensures IndexOfConn(reg, conn).None? ==> r == reg
    ensures IndexOfConn(reg, conn).Some? ==> |r| == |reg| - 1
    ensures forall p :: p in r ==> p in reg
    ensures KeysUnique(reg) ==> KeysUnique(r)
  {
    match IndexOfConn(reg, conn)
    case None => reg
    case Some(i) =>
      var r := reg[..i] + reg[i + 1..];
      assert forall k :: 0 <= k < |r| ==> r[k] == reg[if k < i then k else k + 1];
      r
  }

  /** Closing a connection unbinds exactly one key, the first one bound to
      it, and leaves every other key's binding as it was. */
  lemma CloseUnbindsOneKey(reg: Registry, conn: ConnId, key: string)
    requires KeysUnique(reg)
    ensures Lookup(RemoveFirst(reg, conn), key) ==
      (if IndexOfConn(reg, conn).Some? && reg[IndexOfConn(reg, conn).value].0 == key then None else Lookup(reg, key))
  {
    var r := RemoveFirst(reg, conn);
    match IndexOfConn(reg, conn)
    case None =>
    case Some(i) =>
      assert r == reg[..i] + reg[i + 1..];
      assert forall k :: 0 <= k < |r| ==> r[k] == reg[if k < i then k else k + 1];
      if reg[i].0 != key {
        if j :| 0 <= j < |reg| && reg[j].0 == key {
          var k := if j < i then j else j - 1;
          assert r[k] == reg[j];
        }
      }
  }

  /** One connection authenticated under two keys stays registered under
      the later one after it closes. */
  lemma CloseKeepsLaterBinding(reg: Registry, conn: ConnId, i: nat, j: nat)
    requires KeysUnique(reg)
    requires i < j < |reg| && reg[i].1 == conn && reg[j].1 == conn
    ensures Lookup(RemoveFirst(reg, conn), reg[j].0) == Some(conn)
  {
    CloseUnbindsOneKey(reg, conn, reg[j].0);
  }

  /** The frames broadcastToTeachers sends, in registry order. */
  function TeacherDeliveries(reg: Registry, body: Outbound, now: int): (ds: seq<Delivery>)
    ensures |ds| <= |reg|
    decreases |reg|
  {
    if reg == [] then []
    else
      TeacherDeliveries(reg[..|reg| - 1], body, now)
      + (if TeacherKey(reg[|reg| - 1].0) then [Delivery(reg[|reg| - 1].1, body, now)] else [])
  }

  /** The broadcast reaches exactly the connections registered under a key
      containing "_teacher", with the given body. */
  lemma {:induction false} BroadcastReachesExactlyTeachers(reg: Registry, body: Outbound, now: int)
    ensures forall d :: d in TeacherDeliveries(reg, body, now) <==>
      exists i :: 0 <= i < |reg| && TeacherKey(reg[i].0) && d == Delivery(reg[i].1, body, now)
    decreases |reg|
  {
    if reg != [] {
      var n := |reg|;
      var init := reg[..n - 1];
      BroadcastReachesExactlyTeachers(init, body, now);
      forall d
        ensures d in TeacherDeliveries(reg, body, now) <==>
          exists i :: 0 <= i < n && TeacherKey(reg[i].0) && d == Delivery(reg[i].1, body, now)
      {
        if d in TeacherDeliveries(init, body, now) {
          var i :| 0 <= i < n - 1 && TeacherKey(init[i].0) && d == Delivery(init[i].1, body, now);
          assert init[i] == reg[i];
        }
        if i :| 0 <= i < n && TeacherKey(reg[i].0) && d == Delivery(reg[i].1, body, now) {
          if i < n - 1 {
            assert init[i] == reg[i];
          }
        }
      }
    }
  }

  // ---------------------------------------------------------------------
  // Dispatch and authentication
  // ---------------------------------------------------------------------

  datatype Route = BadFormat | AuthRoute | ScanRoute | GetAttendanceRoute | PingRoute | UnknownType

  /** The `switch ($data['type'])` of onMessage; `None` is a frame that did
      not decode to a non-empty object. */
  function RouteOf(msg: Option<Inbound>): (r: Route)
    ensures r == BadFormat <==> msg.None? || msg.value.kind.None?
    ensures r == UnknownType <==>
      msg.Some? && msg.value.kind.Some? && msg.value.kind.value !in {"auth", "attendance_scan", "get_attendance", "ping"}
    ensures r == AuthRoute <==> msg.Some? && msg.value.kind == Some("auth")
    ensures r == ScanRoute <==> msg.Some? && msg.value.kind == Some("attendance_scan")
    ensures r == GetAttendanceRoute <==> msg.Some? && msg.value.kind == Some("get_attendance")
    ensures r == PingRoute <==> msg.Some? && msg.value.kind == Some("ping")
  {
    match msg
    case None => BadFormat
    case Some(m) =>
      match m.kind
      case None => BadFormat
      case Some(k) =>
        if k == "auth" then AuthRoute
        else if k == "attendance_scan" then ScanRoute
        else if k == "get_attendance" then GetAttendanceRoute
        else if k == "ping" then PingRoute
        else UnknownType
  }

  /** handleAuth looks up students for user type "student" and teachers for
      every other user type. */
  function Directory(db: Db, userType: string): map<nat, Person>
  {
    if userType == "student" then db.students else db.teachers
  }

  /** handleAuth: the new registry and the reply. */
  function Auth(reg: Registry, conn: ConnId, userId: Option<nat>, userType: Option<string>, db: Db)
    : (res: (Registry, Outbound))
    ensures res.1.Error? || res.1.AuthSuccess?
    ensures res.1.Error? ==> res.0 == reg
    ensures userId.None? || userType.None? ==> res.1 == Error("Missing authentication data")
    ensures userId.Some? && userType.Some? ==>
      (res.1 == Error("Invalid user") <==> FindActive(Directory(db, userType.value), userId.value).None?)
    ensures userId.Some? && userType.Some? && FindActive(Directory(db, userType.value), userId.value).Some? ==>
      res.1.AuthSuccess?
    ensures res.1.AuthSuccess? ==>
      && userId.Some? && userType.Some?
      && FindActive(Directory(db, userType.value), userId.value).Some?
      && res.1 == AuthSuccess(userId.value, FindActive(Directory(db, userType.value), userId.value).value.name)
      && res.0 == Put(reg, Key(userId.value, userType.value), conn)
  {
    if userId.None? || userType.None? then (reg, Error("Missing authentication data"))
    else
      match FindActive(Directory(db, userType.value), userId.value)
      case None => (reg, Error("Invalid user"))
      case Some(user) => (Put(reg, Key(userId.value, userType.value), conn), AuthSuccess(userId.value, user.name))
  }

  /** After a successful auth the user's key is bound to this connection,
      and every other key keeps its binding. */
  lemma AuthBindsOnlyItsKey(reg: Registry, conn: ConnId, userId: Option<nat>, userType: Option<string>, db: Db,
                            key: string)
    requires Auth(reg, conn, userId, userType, db).1.AuthSuccess?
    ensures Lookup(Auth(reg, conn, userId, userType, db).0, key) ==
      (if key == Key(userId.value, userType.value) then Some(conn) else Lookup(reg, key))
  {
    if key != Key(userId.value, userType.value) {
      PutLeavesOtherKeys(reg, Key(userId.value, userType.value), conn, key);
    }
  }

  // ---------------------------------------------------------------------
  // handleAttendanceScan
  // ---------------------------------------------------------------------

  /** The scan handler's status rule: late only after the class start plus
      the threshold. */
  function ScanStatus(timeOfDay: int, lateThresholdMinutes: int): (s: Status)
    ensures s == Late <==> timeOfDay > ClassStartTime + lateThresholdMinutes * SecondsPerMinute
    ensures s != Absent
  {
    if timeOfDay > ClassStartTime + lateThresholdMinutes * SecondsPerMinute then Late else Present
  }

  /** The row the scan's SELECT accepts: this token, active, and expiring
      strictly after now. */
  predicate Live(r: QRRow, token: string, now: int)
  {
    r.token == token && r.isActive && r.expiresAt > now
  }

  function LiveIndex(rows: seq<QRRow>, token: string, now: int): (r: Option<nat>)
    ensures r.Some? ==> r.value < |rows| && Live(rows[r.value], token, now)
    ensures r.None? <==> forall k :: 0 <= k < |rows| ==> !Live(rows[k], token, now)
  {
    FirstIndex(rows, (q: QRRow) => Live(q, token, now))
  }

  datatype ScanResult = ScanRejected(message: string) | ScanAccepted(record: AttendanceRecord, data: ScanData)

  /** handleAttendanceScan: the new attendance table and the result. The
      checks run in the handler's order: fields, live token, same-day
      record, then the student's existence; the token table is only read. */
  function Scan(qrRows: seq<QRRow>, records: seq<AttendanceRecord>, db: Db, qrToken: Option<string>,
                studentId: Option<nat>, now: int, nextId: nat): (res: (seq<AttendanceRecord>, ScanResult))
    ensures res.1.ScanRejected? ==> res.0 == records
    ensures qrToken.None? || studentId.None? <==> res.1 == ScanRejected("Missing scan data")
    ensures qrToken.Some? && studentId.Some? ==>
      (LiveIndex(qrRows, qrToken.value, now).None? <==> res.1 == ScanRejected("Invalid or expired QR code"))
    ensures res.1 == ScanRejected("Attendance already marked for today") ==>
      exists q, r :: q in qrRows && Live(q, qrToken.value, now) && r in records && HasKey(r, studentId.value, q.classId, Day(now))
    ensures res.1 == ScanRejected("Student not found") ==> studentId.value !in db.students
    ensures qrToken.Some? && studentId.Some? && LiveIndex(qrRows, qrToken.value, now).Some? ==>
      var q := qrRows[LiveIndex(qrRows, qrToken.value, now).value];
      var marked := IndexOfKey(records, studentId.value, q.classId, Day(now)).Some?;
      && (marked ==> res.1 == ScanRejected("Attendance already marked for today"))
      && (!marked && studentId.value !in db.students ==> res.1 == ScanRejected("Student not found"))
      && (!marked && studentId.value in db.students ==> res.1.ScanAccepted? && res.1.record.classId == q.classId)
    ensures res.1.ScanAccepted? ==>
      && qrToken.Some? && studentId.Some? && studentId.value in db.students
      && (exists q :: q in qrRows && Live(q, qrToken.value, now) && q.classId == res.1.record.classId)
      && (forall r :: r in records ==> !HasKey(r, studentId.value, res.1.record.classId, Day(now)))
      && res.1.record == AttendanceRecord(nextId, studentId.value, res.1.record.classId, Day(now), TimeOfDay(now), None,
                                          ScanStatus(TimeOfDay(now), GetSetting(db.settings, "late_threshold_minutes", 10)),
                                          qrToken.value, None, now)
      && res.1.data == ScanData(db.students[studentId.value].name, res.1.record.classId, res.1.record.status,
                                TimeOfDay(now), Day(now))
      && res.0 == records + [res.1.record]
  {
    if qrToken.None? || studentId.None? then (records, ScanRejected("Missing scan data"))
    else
      match LiveIndex(qrRows, qrToken.value, now)
      case None => (records, ScanRejected("Invalid or expired QR code"))
      case Some(i) =>
        var classId := qrRows[i].classId;
        match IndexOfKey(records, studentId.value, classId, Day(now))
        case Some(j) =>
          assert qrRows[i] in qrRows && records[j] in records;
          (records, ScanRejected("Attendance already marked for today"))
        case None =>
          if studentId.value !in db.students then (records, ScanRejected("Student not found"))
          else
            assert qrRows[i] in qrRows;
            var status := ScanStatus(TimeOfDay(now), GetSetting(db.settings, "late_threshold_minutes", 10));
            var record := AttendanceRecord(nextId, studentId.value, classId, Day(now), TimeOfDay(now), None,
                                           status, qrToken.value, None, now);
            (records + [record], ScanAccepted(record, ScanData(db.students[studentId.value].name, classId, status,
                                                                 TimeOfDay(now), Day(now))))
  }

  /** A scan keeps one record per (student, class, day) and ascending ids. */
  lemma ScanKeepsRecordsOk(qrRows: seq<QRRow>, records: seq<AttendanceRecord>, db: Db, qrToken: Option<string>,
                           studentId: Option<nat>, now: int, nextId: nat)
    requires RecordsOk(records)
    requires forall r :: r in records ==> r.id < nextId
    ensures RecordsOk(Scan(qrRows, records, db, qrToken, studentId, now, nextId).0)
  {
    var res := Scan(qrRows, records, db, qrToken, studentId, now, nextId);
    if res.1.ScanAccepted? {
      var after := res.0;
      forall i, j | 0 <= i < j < |after|
        ensures RecordPairOk(after[i], after[j])
      {
        if j == |records| {
          assert records[i] in records;
        }
      }
    }
  }

  // ---------------------------------------------------------------------
  // Where the scan handler and markAttendance disagree
  // ---------------------------------------------------------------------

  /** The two status rules differ exactly between 08:00:00 and 08:00:00
      plus the threshold: with a positive threshold the recorder says late
      where the scan says present, with a negative one the other way
      round. */
  lemma StatusRulesDisagree(timeOfDay: int, lateThresholdMinutes: int)
    ensures DetermineAttendanceStatus(timeOfDay, lateThresholdMinutes) != ScanStatus(timeOfDay, lateThresholdMinutes)
      <==> (ClassStartTime < timeOfDay <= ClassStartTime + lateThresholdMinutes * SecondsPerMinute
            || ClassStartTime + lateThresholdMinutes * SecondsPerMinute < timeOfDay <= ClassStartTime)
    ensures ClassStartTime < timeOfDay <= ClassStartTime + lateThresholdMinutes * SecondsPerMinute ==>
      DetermineAttendanceStatus(timeOfDay, lateThresholdMinutes) == Late && ScanStatus(timeOfDay, lateThresholdMinutes) == Present
  {
  }

  /** In a well-formed token table an active row is the only row with its
      token, so it is what both lookups find. */
  lemma OnlyRowWithToken(rows: seq<QRRow>, i: nat)
    requires TableOk(rows) && i < |rows| && rows[i].isActive
    ensures IndexOfActive(rows, rows[i].token) == Some(i)
    ensures forall k :: 0 <= k < |rows| && k != i ==> rows[k].token != rows[i].token
  {
    assert forall k :: 0 <= k < |rows| && k != i ==> rows[k].token != rows[i].token by {
      forall k | 0 <= k < |rows| && k != i
        ensures rows[k].token != rows[i].token
      {
        if k < i {
          assert PairOk(rows[k], rows[i]);
        } else {
          assert PairOk(rows[i], rows[k]);
        }
      }
    }
  }

  /** At the very second of expiry the recorder still accepts the token,
      while the scan handler already rejects it. */
  lemma ExpiryInstantDisagrees(rows: seq<QRRow>, i: nat, records: seq<AttendanceRecord>, db: Db,
                               studentId: nat, nextId: nat)
    requires TableOk(rows) && i < |rows| && rows[i].isActive
    ensures Validate(rows, rows[i].token, rows[i].expiresAt).1.Accepted?
    ensures Scan(rows, records, db, Some(rows[i].token), Some(studentId), rows[i].expiresAt, nextId).1
      == ScanRejected("Invalid or expired QR code")
  {
    OnlyRowWithToken(rows, i);
  }

  /** An expired token is switched off by the recorder's validation, while
      the scan handler only rejects it and leaves the token table as it
      was. */
  lemma ExpiredTokenSideEffect(rows: seq<QRRow>, i: nat, records: seq<AttendanceRecord>, db: Db,
                               studentId: nat, now: int, nextId: nat)
    requires TableOk(rows) && i < |rows| && rows[i].isActive && rows[i].expiresAt < now
    ensures Validate(rows, rows[i].token, now) == (rows[i := rows[i].(isActive := false)], Rejected(QRCodeExpired))
    ensures Scan(rows, records, db, Some(rows[i].token), Some(studentId), now, nextId).1
      == ScanRejected("Invalid or expired QR code")
  {
    OnlyRowWithToken(rows, i);
  }

  /** A student whose account is inactive is refused by the recorder but
      recorded by the scan handler, which never checks the active flag. */
  lemma InactiveStudentDisagrees(rows: seq<QRRow>, i: nat, records: seq<AttendanceRecord>, db: Db,
                                 studentId: nat, now: int, threshold: int, nextId: nat)
    requires TableOk(rows) && i < |rows| && rows[i].isActive && now < rows[i].expiresAt
    requires studentId in db.students && !db.students[studentId].isActive
    requires forall r :: r in records ==> !HasKey(r, studentId, rows[i].classId, Day(now))
    ensures Mark(records, Validate(rows, rows[i].token, now).1, db, studentId, rows[i].token, now, threshold, nextId).1
      == MarkFailed(StudentNotFoundOrInactive)
    ensures Scan(rows, records, db, Some(rows[i].token), Some(studentId), now, nextId).1.ScanAccepted?
  {
    OnlyRowWithToken(rows, i);
    assert LiveIndex(rows, rows[i].token, now) == Some(i);
  }

  /** The two paths check in different orders: for an unknown student who
      already has today's record, the recorder reports the student and the
      scan handler reports the duplicate. */
  lemma CheckOrderDisagrees(rows: seq<QRRow>, i: nat, records: seq<AttendanceRecord>, db: Db,
                            studentId: nat, now: int, threshold: int, nextId: nat, j: nat)
    requires TableOk(rows) && i < |rows| && rows[i].isActive && now < rows[i].expiresAt
    requires studentId !in db.students
    requires j < |records| && HasKey(records[j], studentId, rows[i].classId, Day(now))
    ensures Mark(records, Validate(rows, rows[i].token, now).1, db, studentId, rows[i].token, now, threshold, nextId).1
      == MarkFailed(StudentNotFoundOrInactive)
    ensures Scan(rows, records, db, Some(rows[i].token), Some(studentId), now, nextId).1
      == ScanRejected("Attendance already marked for today")
  {
    OnlyRowWithToken(rows, i);
    assert LiveIndex(rows, rows[i].token, now) == Some(i);
  }

  // ---------------------------------------------------------------------
  // get_attendance
  // ---------------------------------------------------------------------

  /** `WHERE a.student_id = ?`, in table order. */
  function StudentHistory(records: seq<AttendanceRecord>, studentId: nat): (rows: seq<AttendanceRecord>)
    ensures forall r :: r in rows <==> r in records && r.studentId == studentId
    ensures forall r :: multiset(rows)[r] == if r.studentId == studentId then multiset(records)[r] else 0
    decreases |records|
  {
    if records == [] then []
    else
      assert records == [records[0]] + records[1..];
      (if records[0].studentId == studentId then [records[0]] else []) + StudentHistory(records[1..], studentId)
  }

  /** What the scan handler sends and logs for a given result. */
  predicate ScanEffects(res: ScanResult, conn: ConnId, reg: Registry, now: int,
                        outboxBefore: seq<Delivery>, outbox: seq<Delivery>,
                        notificationsBefore: seq<Notification>, notifications: seq<Notification>)
  {
    match res
    case ScanRejected(message) =>
      outbox == outboxBefore + [Delivery(conn, Error(message), now)] && notifications == notificationsBefore
    case ScanAccepted(record, data) =>
      && outbox == outboxBefore + [Delivery(conn, AttendanceSuccess(data), now)]
                                + TeacherDeliveries(reg, NewAttendance(data), now)
      && notifications == notificationsBefore + [Notification(record.studentId, record.status, record.classId)]
  }

  // ---------------------------------------------------------------------
  // The server component
  // ---------------------------------------------------------------------

  class WebSocketConfig {
    const manager: AttendanceManager
    var clients: set<ConnId>
    var userConnections: Registry
    var outbox: seq<Delivery>
    var notifications: seq<Notification>

    ghost predicate Valid()
      reads this, manager, manager.qr
    {
      manager.Valid() && KeysUnique(userConnections)
    }

    constructor (manager: AttendanceManager)
      requires manager.Valid()
      ensures Valid() && this.manager == manager
      ensures clients == {} && userConnections == [] && outbox == [] && notifications == []
    {
      this.manager := manager;
      clients := {};
      userConnections := [];
      outbox := [];
      notifications := [];
    }

    method OnOpen(conn: ConnId, now: int)
      requires Valid()
      modifies this
      ensures Valid()
      ensures clients == old(clients) + {conn}
      ensures outbox == old(outbox) + [Delivery(conn, System("Connected to attendance system"), now)]
      ensures userConnections == old(userConnections) && notifications == old(notifications)
    {
      clients := clients + {conn};
      outbox := outbox + [Delivery(conn, System("Connected to attendance system"), now)];
    }

    method OnClose(conn: ConnId)
      requires Valid()
      modifies this
      ensures Valid()
      ensures clients == old(clients) - {conn}
      ensures userConnections == RemoveFirst(old(userConnections), conn)
      ensures outbox == old(outbox) && notifications == old(notifications)
    {
      clients := clients - {conn};
      var i := 0;
      while i < |userConnections|
        invariant 0 <= i <= |userConnections|
        invariant userConnections == old(userConnections)
        invariant forall k :: 0 <= k < i ==> userConnections[k].1 != conn
      {
        if userConnections[i].1 == conn {
          assert IndexOfConn(userConnections, conn) == Some(i);
          userConnections := userConnections[..i] + userConnections[i + 1..];
          break;
        }
        i := i + 1;
      }
    }

    method SendError(conn: ConnId, message: string, now: int)
      requires Valid()
      modifies this
      ensures Valid()
      ensures outbox == old(outbox) + [Delivery(conn, Error(message), now)]
      ensures TypeOf(outbox[|outbox| - 1].body) == "error"
      ensures clients == old(clients) && userConnections == old(userConnections) && notifications == old(notifications)
    {
      outbox := outbox + [Delivery(conn, Error(message), now)];
    }

    method HandlePing(conn: ConnId, now: int)
      requires Valid()
      modifies this
      ensures Valid()
      ensures outbox == old(outbox) + [Delivery(conn, Pong, now)]
      ensures clients == old(clients) && userConnections == old(userConnections) && notifications == old(notifications)
    {
      outbox := outbox + [Delivery(conn, Pong, now)];
    }

    method HandleAuth(conn: ConnId, data: Inbound, now: int, db: Db)
      requires Valid()
      modifies this
      ensures Valid()
      ensures userConnections == Auth(old(userConnections), conn, data.userId, data.userType, db).0
      ensures outbox == old(outbox) + [Delivery(conn, Auth(old(userConnections), conn, data.userId, data.userType, db).1, now)]
      ensures clients == old(clients) && notifications == old(notifications)
    {
      if data.userId.None? || data.userType.None? {
        SendError(conn, "Missing authentication data", now);
        return;
      }
      var userId, userType := data.userId.value, data.userType.value;
      var user := FindActive(Directory(db, userType), userId);
      if user.None? {
        SendError(conn, "Invalid user", now);
        return;
      }
      userConnections := Put(userConnections, Key(userId, userType), conn);
      outbox := outbox + [Delivery(conn, AuthSuccess(userId, user.value.name), now)];
    }

    method BroadcastToTeachers(body: Outbound, now: int)
      requires Valid()
      modifies this
      ensures Valid()
      ensures outbox == old(outbox) + TeacherDeliveries(userConnections, body, now)
      ensures clients == old(clients) && userConnections == old(userConnections) && notifications == old(notifications)
    {
      for i := 0 to |userConnections|
        invariant clients == old(clients) && userConnections == old(userConnections)
        invariant notifications == old(notifications)
        invariant outbox == old(outbox) + TeacherDeliveries(userConnections[..i], body, now)
      {
        assert userConnections[..i + 1][..i] == userConnections[..i];
        if TeacherKey(userConnections[i].0) {
          outbox := outbox + [Delivery(userConnections[i].1, body, now)];
        }
      }
      assert userConnections[..|userConnections|] == userConnections;
    }

    method SendToUser(userId: nat, userType: string, body: Outbound, now: int) returns (sent: bool)
      requires Valid()
      modifies this
      ensures Valid()
      ensures sent <==> Lookup(userConnections, Key(userId, userType)).Some?
      ensures outbox == old(outbox) +
        (if sent then [Delivery(Lookup(userConnections, Key(userId, userType)).value, body, now)] else [])
      ensures clients == old(clients) && userConnections == old(userConnections) && notifications == old(notifications)
    {
      var target := Lookup(userConnections, Key(userId, userType));
      if target.Some? {
        outbox := outbox + [Delivery(target.value, body, now)];
        return true;
      }
      return false;
    }

    method HandleGetAttendance(conn: ConnId, data: Inbound, now: int)
      requires Valid()
      modifies this
      ensures Valid()
      ensures data.studentId.None? ==> outbox == old(outbox) + [Delivery(conn, Error("Missing student ID"), now)]
      ensures data.studentId.Some? ==>
        outbox == old(outbox) + [Delivery(conn, AttendanceData(StudentHistory(manager.records, data.studentId.value)), now)]
      ensures clients == old(clients) && userConnections == old(userConnections) && notifications == old(notifications)
    {
      if data.studentId.None? {
        SendError(conn, "Missing student ID", now);
        return;
      }
      var history := StudentHistory(manager.records, data.studentId.value);
      outbox := outbox + [Delivery(conn, AttendanceData(history), now)];
    }

    method HandleAttendanceScan(conn: ConnId, data: Inbound, now: int, db: Db)
      requires Valid()
      modifies this, manager
      ensures Valid()
      ensures manager.qr.rows == old(manager.qr.rows)
      ensures manager.records ==
        Scan(manager.qr.rows, old(manager.records), db, data.qrToken, data.studentId, now, old(manager.nextId)).0
      ensures ScanEffects(Scan(manager.qr.rows, old(manager.records), db, data.qrToken, data.studentId, now, old(manager.nextId)).1,
                          conn, userConnections, now, old(outbox), outbox, old(notifications), notifications)
      ensures manager.nextId == old(manager.nextId) +
        (if Scan(manager.qr.rows, old(manager.records), db, data.qrToken, data.studentId, now, old(manager.nextId)).1.ScanAccepted?
         then 1 else 0)
      ensures clients == old(clients) && userConnections == old(userConnections)
    {
      if data.qrToken.None? || data.studentId.None? {
        SendError(conn, "Missing scan data", now);
        return;
      }
      var qrToken, studentId := data.qrToken.value, data.studentId.value;
      var live := LiveIndex(manager.qr.rows, qrToken, now);
      if live.None? {
        SendError(conn, "Invalid or expired QR code", now);
        return;
      }
      var classId := manager.qr.rows[live.value].classId;
      var existing := IndexOfKey(manager.records, studentId, classId, Day(now));
      if existing.Some? {
        SendError(conn, "Attendance already marked for today", now);
        return;
      }
      if studentId !in db.students {
        SendError(conn, "Student not found", now);
        return;
      }
      var currentTime := TimeOfDay(now);
      var lateThreshold := GetSetting(db.settings, "late_threshold_minutes", 10);
      var status := ScanStatus(currentTime, lateThreshold);
      ScanKeepsRecordsOk(manager.qr.rows, manager.records, db, data.qrToken, data.studentId, now, manager.nextId);
      var record := AttendanceRecord(manager.nextId, studentId, classId, Day(now), currentTime, None, status, qrToken, None, now);
      var scanData := ScanData(db.students[studentId].name, classId, status, currentTime, Day(now));
      AcceptScan(conn, record, scanData, now);
    }

    /** The accepting end of handleAttendanceScan: store the record, answer
        the scanner and tell every teacher. */
    method AcceptScan(conn: ConnId, record: AttendanceRecord, data: ScanData, now: int)
      requires Valid()
      requires record.id == manager.nextId && RecordsOk(manager.records + [record])
      modifies this, manager
      ensures Valid()
      ensures manager.records == old(manager.records) + [record] && manager.nextId == old(manager.nextId) + 1
      ensures ScanEffects(ScanAccepted(record, data), conn, userConnections, now, old(outbox), outbox,
                          old(notifications), notifications)
      ensures clients == old(clients) && userConnections == old(userConnections)
    {
      manager.records := manager.records + [record];
      manager.nextId := manager.nextId + 1;
      outbox := outbox + [Delivery(conn, AttendanceSuccess(data), now)];
      BroadcastToTeachers(NewAttendance(data), now);
      notifications := notifications + [Notification(record.studentId, record.status, record.classId)];
    }

    method OnMessage(from: ConnId, msg: Option<Inbound>, now: int, db: Db)
      requires Valid()
      modifies this, manager
      ensures Valid()
      ensures clients == old(clients)
      ensures manager.qr.rows == old(manager.qr.rows)
      ensures RouteOf(msg) !in {AuthRoute, ScanRoute} ==>
        userConnections == old(userConnections) && notifications == old(notifications)
        && manager.records == old(manager.records) && manager.nextId == old(manager.nextId)
      ensures RouteOf(msg) == BadFormat ==> outbox == old(outbox) + [Delivery(from, Error("Invalid message format"), now)]
      ensures RouteOf(msg) == UnknownType ==> outbox == old(outbox) + [Delivery(from, Error("Unknown message type"), now)]
      ensures RouteOf(msg) == PingRoute ==> outbox == old(outbox) + [Delivery(from, Pong, now)]
      ensures RouteOf(msg) == AuthRoute ==>
        && userConnections == Auth(old(userConnections), from, msg.value.userId, msg.value.userType, db).0
        && outbox == old(outbox) + [Delivery(from, Auth(old(userConnections), from, msg.value.userId, msg.value.userType, db).1, now)]
        && notifications == old(notifications)
        && manager.records == old(manager.records) && manager.nextId == old(manager.nextId)
      ensures RouteOf(msg) == GetAttendanceRoute ==>
        && (msg.value.studentId.None? ==> outbox == old(outbox) + [Delivery(from, Error("Missing student ID"), now)])
        && (msg.value.studentId.Some? ==>
              outbox == old(outbox) + [Delivery(from, AttendanceData(StudentHistory(manager.records, msg.value.studentId.value)), now)])
      ensures RouteOf(msg) == ScanRoute ==>
        && userConnections == old(userConnections)
        && manager.records ==
          Scan(manager.qr.rows, old(manager.records), db, msg.value.qrToken, msg.value.studentId, now, old(manager.nextId)).0
        && ScanEffects(Scan(manager.qr.rows, old(manager.records), db, msg.value.qrToken, msg.value.studentId, now,
                            old(manager.nextId)).1, from, userConnections, now, old(outbox), outbox,
                       old(notifications), notifications)
        && manager.nextId == old(manager.nextId) +
          (if Scan(manager.qr.rows, old(manager.records), db, msg.value.qrToken, msg.value.studentId, now,
                   old(manager.nextId)).1.ScanAccepted? then 1 else 0)
    {
      match RouteOf(msg)
      case BadFormat =>
        SendError(from, "Invalid message format", now);
      case AuthRoute =>
        HandleAuth(from, msg.value, now, db);
      case ScanRoute =>
        HandleAttendanceScan(from, msg.value, now, db);
      case GetAttendanceRoute =>
        HandleGetAttendance(from, msg.value, now);
      case PingRoute =>
        HandlePing(from, now);
      case UnknownType =>
        SendError(from, "Unknown message type", now);
    }
  }
}
