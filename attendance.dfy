/** The attendance recorder of includes/attendance.php: the `attendance`
    table as a sequence of records, the decisions of markAttendance,
    markTimeOut and updateAttendanceStatus as functions on it, the report
    summary fold, and the AttendanceManager class that applies them. */
module Attendance {
  import opened Base
  import opened Tokens

  /** One row of `attendance`; `date` is a day number, `timeIn` and
      `timeOut` are seconds after midnight. */
  datatype AttendanceRecord = AttendanceRecord(
    id: nat,
    studentId: nat,
    classId: nat,
    date: int,
    timeIn: int,
    timeOut: Option<int>,
    status: Status,
    qrCode: string,
    notes: Option<string>,
    updatedAt: int)

  // ---------------------------------------------------------------------
  // Table invariant: auto-increment ids, one record per (student, class, day)
  // ---------------------------------------------------------------------

  predicate HasKey(r: AttendanceRecord, studentId: nat, classId: nat, date: int)
  {
    r.studentId == studentId && r.classId == classId && r.date == date
  }

  predicate RecordPairOk(a: AttendanceRecord, b: AttendanceRecord)
  {
    a.id < b.id && !HasKey(b, a.studentId, a.classId, a.date)
  }

  predicate RecordsOk(records: seq<AttendanceRecord>)
  {
    forall i, j :: 0 <= i < j < |records| ==> RecordPairOk(records[i], records[j])
  }

  /** `after` differs from `before` at most in fields that are neither the
      id nor the (student, class, day) key. */
  predicate SameKeys(before: seq<AttendanceRecord>, after: seq<AttendanceRecord>)
  {
    |after| == |before| &&
    forall i :: 0 <= i < |before| ==>
      after[i].id == before[i].id && HasKey(after[i], before[i].studentId, before[i].classId, before[i].date)
  }

  lemma SameKeysKeepRecordsOk(before: seq<AttendanceRecord>, after: seq<AttendanceRecord>)
    requires RecordsOk(before) && SameKeys(before, after)
    ensures RecordsOk(after)
  {
  }

  /** `SELECT * FROM attendance WHERE student_id = ? AND class_id = ? AND
      date = ?`: the first matching record, if any. */
  function IndexOfKey(records: seq<AttendanceRecord>, studentId: nat, classId: nat, date: int): (r: Option<nat>)
    ensures r.Some? ==> r.value < |records| && HasKey(records[r.value], studentId, classId, date)
    ensures r.Some? ==> forall k :: 0 <= k < r.value ==> !HasKey(records[k], studentId, classId, date)
    ensures r.None? <==> forall k :: 0 <= k < |records| ==> !HasKey(records[k], studentId, classId, date)
  {
    FirstIndex(records, (r: AttendanceRecord) => HasKey(r, studentId, classId, date))
  }

  // ---------------------------------------------------------------------
  // determineAttendanceStatus
  // ---------------------------------------------------------------------

  /** The classifier of the recorder: on time up to 08:00:00 inclusive, late
      after it. Both later branches of determineAttendanceStatus answer "late", so the
      threshold never changes the outcome and "absent" never arises. */
  function DetermineAttendanceStatus(timeOfDay: int, lateThresholdMinutes: int): (s: Status)
    ensures s == Present <==> timeOfDay <= ClassStartTime
    ensures s == Late <==> timeOfDay > ClassStartTime
    ensures s != Absent
  {
    var lateThreshold := ClassStartTime + lateThresholdMinutes * SecondsPerMinute;
    if timeOfDay <= ClassStartTime then Present
    else if timeOfDay <= lateThreshold then Late
    else Late
  }

  // ---------------------------------------------------------------------
  // markAttendance
  // ---------------------------------------------------------------------

  datatype MarkError =
    | TokenRejected(error: QRError)
    | StudentNotFoundOrInactive
    | AlreadyMarkedToday(existing: AttendanceRecord)

  datatype MarkOutcome = Marked(record: AttendanceRecord, studentName: string) | MarkFailed(failure: MarkError)

  function MarkMessage(outcome: MarkOutcome): string
  {
    match outcome
    case Marked(_, _) => "Attendance marked successfully"
    case MarkFailed(TokenRejected(e)) => QRErrorMessage(e)
    case MarkFailed(StudentNotFoundOrInactive) => "Student not found or inactive"
    case MarkFailed(AlreadyMarkedToday(_)) => "Attendance already marked for today"
  }

  /** markAttendance after the token has been validated: the new attendance
      table and the outcome. The checks run in markAttendance's order: token,
      then active student, then the same-day record. */
  function Mark(records: seq<AttendanceRecord>, validation: Validation, db: Db, studentId: nat, token: string,
                now: int, lateThresholdMinutes: int, nextId: nat): (res: (seq<AttendanceRecord>, MarkOutcome))
    ensures res.1.MarkFailed? ==> res.0 == records
    ensures validation.Rejected? ==> res.1 == MarkFailed(TokenRejected(validation.error))
    ensures validation.Accepted? && FindActive(db.students, studentId).None? ==>
      res.1 == MarkFailed(StudentNotFoundOrInactive)
    ensures res.1.MarkFailed? && res.1.failure.AlreadyMarkedToday? ==>
      validation.Accepted? && FindActive(db.students, studentId).Some? &&
      res.1.failure.existing in records &&
      HasKey(res.1.failure.existing, studentId, validation.valid.classId, Day(now))
    ensures res.1.Marked? ==>
      && validation.Accepted?
      && FindActive(db.students, studentId) == Some(Person(res.1.studentName, true))
      && (forall r :: r in records ==> !HasKey(r, studentId, validation.valid.classId, Day(now)))
      && res.1.record == AttendanceRecord(nextId, studentId, validation.valid.classId, Day(now), TimeOfDay(now), None,
                                          DetermineAttendanceStatus(TimeOfDay(now), lateThresholdMinutes), token, None, now)
      && res.0 == records + [res.1.record]
    ensures validation.Accepted? && FindActive(db.students, studentId).Some? ==>
      var found := IndexOfKey(records, studentId, validation.valid.classId, Day(now));
      && (found.Some? ==> res.1 == MarkFailed(AlreadyMarkedToday(records[found.value])))
      && (found.None? ==> res.1.Marked?)
  {
    match validation
    case Rejected(e) => (records, MarkFailed(TokenRejected(e)))
    case Accepted(valid) =>
      match FindActive(db.students, studentId)
      case None => (records, MarkFailed(StudentNotFoundOrInactive))
      case Some(student) =>
        match IndexOfKey(records, studentId, valid.classId, Day(now))
        case Some(i) => (records, MarkFailed(AlreadyMarkedToday(records[i])))
        case None =>
          var status := DetermineAttendanceStatus(TimeOfDay(now), lateThresholdMinutes);
          var record := AttendanceRecord(nextId, studentId, valid.classId, Day(now), TimeOfDay(now), None,
                                         status, token, None, now);
          (records + [record], Marked(record, student.name))
  }

  /** Recording keeps one record per (student, class, day) and ascending
      ids. */
  lemma MarkKeepsRecordsOk(records: seq<AttendanceRecord>, validation: Validation, db: Db, studentId: nat,
                           token: string, now: int, lateThresholdMinutes: int, nextId: nat)
    requires RecordsOk(records)
    requires forall r :: r in records ==> r.id < nextId
    ensures RecordsOk(Mark(records, validation, db, studentId, token, now, lateThresholdMinutes, nextId).0)
  {
    var res := Mark(records, validation, db, studentId, token, now, lateThresholdMinutes, nextId);
    if res.1.Marked? {
      var after := res.0;
      forall i, j | 0 <= i < j < |after|
        ensures RecordPairOk(after[i], after[j])
      {
        if j == |records| {
          assert records[i] in records;
        }
      }
    }
  }

  /** A second scan by the same student for the same class on the same day
      is rejected and hands back the record the first scan wrote. */
  lemma {:induction false} SecondMarkSameDayRejected(
    records: seq<AttendanceRecord>, v1: Validation, v2: Validation, db: Db, studentId: nat,
    token1: string, token2: string, now1: int, now2: int, threshold: int, nextId1: nat, nextId2: nat)
    requires RecordsOk(records)
    requires Mark(records, v1, db, studentId, token1, now1, threshold, nextId1).1.Marked?
    requires v2.Accepted? && v2.valid.classId == v1.valid.classId && Day(now2) == Day(now1)
    ensures
      var first := Mark(records, v1, db, studentId, token1, now1, threshold, nextId1);
      Mark(first.0, v2, db, studentId, token2, now2, threshold, nextId2)
        == (first.0, MarkFailed(AlreadyMarkedToday(first.1.record)))
  {
    var first := Mark(records, v1, db, studentId, token1, now1, threshold, nextId1);
    var after := first.0;
    var classId := v1.valid.classId;
    forall k | 0 <= k < |records|
      ensures !HasKey(after[k], studentId, classId, Day(now2))
    {
      assert records[k] in records;
    }
    assert HasKey(after[|records|], studentId, classId, Day(now2));
    assert IndexOfKey(after, studentId, classId, Day(now2)) == Some(|records|);
  }

  // ---------------------------------------------------------------------
  // markTimeOut
  // ---------------------------------------------------------------------

  datatype TimeOutError = RecordNotFound | TimeOutAlreadyMarked

  datatype TimeOutOutcome = TimedOut(attendanceId: nat, timeOut: int) | TimeOutFailed(failure: TimeOutError)

  function TimeOutMessage(outcome: TimeOutOutcome): string
  {
    match outcome
    case TimedOut(_, _) => "Time out marked successfully"
    case TimeOutFailed(RecordNotFound) => "Attendance record not found"
    case TimeOutFailed(TimeOutAlreadyMarked) => "Time out already marked"
  }

  /** The record markTimeOut looks for: this id, this student, today. */
  predicate OwnToday(r: AttendanceRecord, attendanceId: nat, studentId: nat, now: int)
  {
    r.id == attendanceId && r.studentId == studentId && r.date == Day(now)
  }

  function IndexOfOwnToday(records: seq<AttendanceRecord>, attendanceId: nat, studentId: nat, now: int): (r: Option<nat>)
    ensures r.Some? ==> r.value < |records| && OwnToday(records[r.value], attendanceId, studentId, now)
    ensures r.Some? ==> forall k :: 0 <= k < r.value ==> !OwnToday(records[k], attendanceId, studentId, now)
    ensures r.None? <==> forall k :: 0 <= k < |records| ==> !OwnToday(records[k], attendanceId, studentId, now)
  {
    FirstIndex(records, (r: AttendanceRecord) => OwnToday(r, attendanceId, studentId, now))
  }

  /** markTimeOut: the new table and the outcome. */
  function TimeOut(records: seq<AttendanceRecord>, attendanceId: nat, studentId: nat, now: int)
    : (res: (seq<AttendanceRecord>, TimeOutOutcome))
    ensures res.1.TimeOutFailed? ==> res.0 == records
    ensures res.1 == TimeOutFailed(RecordNotFound) <==>
      forall k :: 0 <= k < |records| ==> !OwnToday(records[k], attendanceId, studentId, now)
    ensures res.1 == TimeOutFailed(TimeOutAlreadyMarked) ==>
      exists i :: 0 <= i < |records| && OwnToday(records[i], attendanceId, studentId, now) && records[i].timeOut.Some?
    ensures res.1.TimedOut? ==>
      res.1 == TimedOut(attendanceId, TimeOfDay(now)) &&
      exists i :: 0 <= i < |records| && OwnToday(records[i], attendanceId, studentId, now) && records[i].timeOut.None?
               && res.0 == records[i := records[i].(timeOut := Some(TimeOfDay(now)), updatedAt := now)]
    ensures SameKeys(records, res.0)
  {
    match IndexOfOwnToday(records, attendanceId, studentId, now)
    case None => (records, TimeOutFailed(RecordNotFound))
    case Some(i) =>
      if records[i].timeOut.Some? then (records, TimeOutFailed(TimeOutAlreadyMarked))
      else (records[i := records[i].(timeOut := Some(TimeOfDay(now)), updatedAt := now)], TimedOut(attendanceId, TimeOfDay(now)))
  }

  /** Time out can be marked once: a repeated request, at any later moment
      of the same day, is refused and changes nothing. */
  lemma {:induction false} TimeOutOnce(records: seq<AttendanceRecord>, attendanceId: nat, studentId: nat, now: int, later: int)
    requires TimeOut(records, attendanceId, studentId, now).1.TimedOut?
    requires Day(later) == Day(now)
    ensures
      var after := TimeOut(records, attendanceId, studentId, now).0;
      TimeOut(after, attendanceId, studentId, later) == (after, TimeOutFailed(TimeOutAlreadyMarked))
  {
    var after := TimeOut(records, attendanceId, studentId, now).0;
    var i := IndexOfOwnToday(records, attendanceId, studentId, now).value;
    assert after == records[i := records[i].(timeOut := Some(TimeOfDay(now)), updatedAt := now)];
    forall k | 0 <= k < i
      ensures !OwnToday(after[k], attendanceId, studentId, later)
    {
      assert !OwnToday(records[k], attendanceId, studentId, now);
    }
    assert OwnToday(after[i], attendanceId, studentId, later);
    assert IndexOfOwnToday(after, attendanceId, studentId, later) == Some(i);
  }

  // ---------------------------------------------------------------------
  // updateAttendanceStatus
  // ---------------------------------------------------------------------

  datatype UpdateOutcome = StatusUpdated | InvalidStatus | UpdateRecordNotFound

  function UpdateMessage(outcome: UpdateOutcome): string
  {
    match outcome
    case StatusUpdated => "Attendance status updated successfully"
    case InvalidStatus => "Invalid status"
    case UpdateRecordNotFound => "Attendance record not found"
  }

  /** The SET list of the UPDATE: the status, the notes when some are given,
      and the modification time. */
  function Retag(r: AttendanceRecord, status: Status, notes: Option<string>, now: int): AttendanceRecord
  {
    r.(status := status, notes := if notes.Some? then notes else r.notes, updatedAt := now)
  }

  /** updateAttendanceStatus: the new table and the outcome. MySQL counts a
      row as affected only when its value changes, so success means exactly
      that the table changed. */
  function UpdateStatus(records: seq<AttendanceRecord>, attendanceId: nat, newStatus: string,
                        notes: Option<string>, now: int): (res: (seq<AttendanceRecord>, UpdateOutcome))
    ensures ParseStatus(newStatus).None? <==> res.1 == InvalidStatus
    ensures res.1 != StatusUpdated ==> res.0 == records
    ensures res.1 == StatusUpdated ==> res.0 != records
    ensures SameKeys(records, res.0)
    ensures forall i :: 0 <= i < |records| && records[i].id != attendanceId ==> res.0[i] == records[i]
    ensures forall i :: 0 <= i < |records| && res.0[i] != records[i] ==>
      res.0[i].status == ParseStatus(newStatus).value && res.0[i].updatedAt == now
    ensures notes.None? ==> forall i :: 0 <= i < |records| ==> res.0[i].notes == records[i].notes
    ensures ParseStatus(newStatus).Some? ==> forall i :: 0 <= i < |records| && records[i].id == attendanceId ==>
      res.0[i] == Retag(records[i], ParseStatus(newStatus).value, notes, now)
    ensures res.1 == UpdateRecordNotFound ==> forall i :: 0 <= i < |records| && records[i].id == attendanceId ==>
      Retag(records[i], ParseStatus(newStatus).value, notes, now) == records[i]
  {
    match ParseStatus(newStatus)
    case None => (records, InvalidStatus)
    case Some(status) =>
      var after := seq(|records|, i requires 0 <= i < |records| =>
        if records[i].id == attendanceId then Retag(records[i], status, notes, now) else records[i]);
      if after != records then (after, StatusUpdated)
      else
        assert forall i :: 0 <= i < |records| ==> after[i] == records[i];
        (records, UpdateRecordNotFound)
  }

  // ---------------------------------------------------------------------
  // generateAttendanceReport
  // ---------------------------------------------------------------------

  /** The optional WHERE conditions of the report; ids are tested for PHP
      truthiness like every optional argument. */
  datatype ReportFilter = ReportFilter(classId: Option<nat>, studentId: Option<nat>,
                                       startDate: Option<int>, endDate: Option<int>)

  predicate InReport(r: AttendanceRecord, f: ReportFilter)
  {
    && (Given(f.classId) ==> r.classId == f.classId.value)
    && (Given(f.studentId) ==> r.studentId == f.studentId.value)
    && (f.startDate.Some? ==> r.date >= f.startDate.value)
    && (f.endDate.Some? ==> r.date <= f.endDate.value)
  }

  function ReportRows(records: seq<AttendanceRecord>, f: ReportFilter): (rows: seq<AttendanceRecord>)
    ensures forall r :: r in rows <==> r in records && InReport(r, f)
    ensures forall r :: multiset(rows)[r] == if InReport(r, f) then multiset(records)[r] else 0
    decreases |records|
  {
    if records == [] then []
    else
      assert records == [records[0]] + records[1..];
      (if InReport(records[0], f) then [records[0]] else []) + ReportRows(records[1..], f)
  }

  function CountStatus(rows: seq<AttendanceRecord>, status: Status): nat
    decreases |rows|
  {
    if rows == [] then 0
    else CountStatus(rows[..|rows| - 1], status) + (if rows[|rows| - 1].status == status then 1 else 0)
  }

  /** Every record has one of the three statuses, so the three counters add
      up to the number of records. */
  lemma {:induction false} CountStatusTotal(rows: seq<AttendanceRecord>)
    ensures CountStatus(rows, Present) + CountStatus(rows, Late) + CountStatus(rows, Absent) == |rows|
    decreases |rows|
  {
    if rows != [] {
      CountStatusTotal(rows[..|rows| - 1]);
    }
  }

  function StudentIds(rows: seq<AttendanceRecord>): set<nat>
  {
    set r | r in rows :: r.studentId
  }

  function ClassIds(rows: seq<AttendanceRecord>): set<nat>
  {
    set r | r in rows :: r.classId
  }

  datatype Summary = Summary(
    totalRecords: nat,
    presentCount: nat,
    lateCount: nat,
    absentCount: nat,
    uniqueStudents: set<nat>,
    uniqueClasses: set<nat>,
    uniqueStudentsCount: nat,
    uniqueClassesCount: nat,
    start: Option<int>,
    end: Option<int>)

  /** `d` is the earliest (resp. latest) date of a non-empty report. */
  ghost predicate IsMinDate(rows: seq<AttendanceRecord>, d: int)
  {
    (exists r :: r in rows && r.date == d) && forall r :: r in rows ==> d <= r.date
  }

  ghost predicate IsMaxDate(rows: seq<AttendanceRecord>, d: int)
  {
    (exists r :: r in rows && r.date == d) && forall r :: r in rows ==> r.date <= d
  }

  /** What the summary of a report states about it. */
  ghost predicate Summarizes(s: Summary, rows: seq<AttendanceRecord>)
  {
    && s.totalRecords == |rows|
    && s.presentCount == CountStatus(rows, Present)
    && s.lateCount == CountStatus(rows, Late)
    && s.absentCount == CountStatus(rows, Absent)
    && s.presentCount + s.lateCount + s.absentCount == s.totalRecords
    && s.uniqueStudents == StudentIds(rows) && s.uniqueStudentsCount == |StudentIds(rows)|
    && s.uniqueClasses == ClassIds(rows) && s.uniqueClassesCount == |ClassIds(rows)|
    && (s.start.None? <==> rows == []) && (s.start.Some? ==> IsMinDate(rows, s.start.value))
    && (s.end.None? <==> rows == []) && (s.end.Some? ==> IsMaxDate(rows, s.end.value))
  }

  lemma SummaryStep(rows: seq<AttendanceRecord>, r: AttendanceRecord)
    ensures forall st :: CountStatus(rows + [r], st) == CountStatus(rows, st) + (if r.status == st then 1 else 0)
    ensures StudentIds(rows + [r]) == StudentIds(rows) + {r.studentId}
    ensures ClassIds(rows + [r]) == ClassIds(rows) + {r.classId}
  {
    assert (rows + [r])[..|rows|] == rows;
  }

  lemma DateRangeStep(rows: seq<AttendanceRecord>, r: AttendanceRecord, lo: Option<int>, hi: Option<int>)
    requires lo.None? <==> rows == []
    requires hi.None? <==> rows == []
    requires lo.Some? ==> IsMinDate(rows, lo.value)
    requires hi.Some? ==> IsMaxDate(rows, hi.value)
    ensures IsMinDate(rows + [r], if lo.None? || r.date < lo.value then r.date else lo.value)
    ensures IsMaxDate(rows + [r], if hi.None? || r.date > hi.value then r.date else hi.value)
  {
    assert r in rows + [r];
    forall x | x in rows ensures x in rows + [r] { }
    if rows == [] {
      assert rows + [r] == [r];
    }
  }

  /** The summary loop of generateAttendanceReport: one pass over the
      report, bumping the counter of each record's status, collecting
      student and class ids, and widening the date range. */
  method Summarize(report: seq<AttendanceRecord>) returns (s: Summary)
    ensures Summarizes(s, report)
  {
    var present, late, absent := 0, 0, 0;
    var students: set<nat> := {};
    var classes: set<nat> := {};
    var start: Option<int> := None;
    var end: Option<int> := None;
    for i := 0 to |report|
      invariant present == CountStatus(report[..i], Present)
      invariant late == CountStatus(report[..i], Late)
      invariant absent == CountStatus(report[..i], Absent)
      invariant students == StudentIds(report[..i]) && classes == ClassIds(report[..i])
      invariant start.None? <==> i == 0
      invariant end.None? <==> i == 0
      invariant start.Some? ==> IsMinDate(report[..i], start.value)
      invariant end.Some? ==> IsMaxDate(report[..i], end.value)
    {
      var record := report[i];
      assert report[..i + 1] == report[..i] + [record];
      SummaryStep(report[..i], record);
      DateRangeStep(report[..i], record, start, end);
      match record.status {
        case Present => present := present + 1;
        case Late => late := late + 1;
        case Absent => absent := absent + 1;
      }
      students := students + {record.studentId};
      classes := classes + {record.classId};
      if start.None? || record.date < start.value {
        start := Some(record.date);
      }
      if end.None? || record.date > end.value {
        end := Some(record.date);
      }
    }
    assert report[..|report|] == report;
    CountStatusTotal(report);
    s := Summary(|report|, present, late, absent, students, classes, |students|, |classes|, start, end);
  }

  // ---------------------------------------------------------------------
  // The manager
  // ---------------------------------------------------------------------

  class AttendanceManager {
    const qr: QRGenerator
    var records: seq<AttendanceRecord>
    var nextId: nat
    const lateThresholdMinutes: int

    ghost predicate Valid()
      reads this, qr
    {
      qr.Valid() && RecordsOk(records) && forall r :: r in records ==> r.id < nextId
    }

    constructor (qr: QRGenerator, settings: map<string, int>)
      requires qr.Valid()
      ensures Valid() && this.qr == qr && records == []
      ensures lateThresholdMinutes == GetSetting(settings, "late_threshold_minutes", 10)
    {
      this.qr := qr;
      records := [];
      nextId := 1;
      lateThresholdMinutes := GetSetting(settings, "late_threshold_minutes", 10);
    }

    method MarkAttendance(studentId: nat, token: string, now: int, db: Db) returns (outcome: MarkOutcome, message: string)
      requires Valid()
      modifies this, qr
      ensures Valid()
      ensures qr.rows == Validate(old(qr.rows), token, now).0 && qr.nextId == old(qr.nextId)
      ensures message == MarkMessage(outcome)
      ensures token in old(qr.retired) ==> outcome == MarkFailed(TokenRejected(InvalidQRCode))
      ensures qr.issuedTokens == old(qr.issuedTokens)
      ensures qr.retired == old(qr.retired) + (if outcome == MarkFailed(TokenRejected(QRCodeExpired)) then {token} else {})
      ensures (records, outcome) ==
        Mark(old(records), Validate(old(qr.rows), token, now).1, db, studentId, token, now, lateThresholdMinutes, old(nextId))
      ensures nextId == old(nextId) + (if outcome.Marked? then 1 else 0)
    {
      var validation := qr.ValidateQRCode(token, now);
      MarkKeepsRecordsOk(records, validation, db, studentId, token, now, lateThresholdMinutes, nextId);
      if validation.Rejected? {
        outcome := MarkFailed(TokenRejected(validation.error));
        return outcome, MarkMessage(outcome);
      }
      var classId := validation.valid.classId;
      var student := FindActive(db.students, studentId);
      if student.None? {
        outcome := MarkFailed(StudentNotFoundOrInactive);
        return outcome, MarkMessage(outcome);
      }
      var existing := IndexOfKey(records, studentId, classId, Day(now));
      if existing.Some? {
        outcome := MarkFailed(AlreadyMarkedToday(records[existing.value]));
        return outcome, MarkMessage(outcome);
      }
      var status := DetermineAttendanceStatus(TimeOfDay(now), lateThresholdMinutes);
      var record := AttendanceRecord(nextId, studentId, classId, Day(now), TimeOfDay(now), None, status, token, None, now);
      records := records + [record];
      nextId := nextId + 1;
      outcome := Marked(record, student.value.name);
      message := MarkMessage(outcome);
    }

    method MarkTimeOut(attendanceId: nat, studentId: nat, now: int) returns (outcome: TimeOutOutcome, message: string)
      requires Valid()
      modifies this
      ensures Valid() && nextId == old(nextId)
      ensures message == TimeOutMessage(outcome)
      ensures (records, outcome) == TimeOut(old(records), attendanceId, studentId, now)
    {
      var found := IndexOfOwnToday(records, attendanceId, studentId, now);
      if found.None? {
        outcome := TimeOutFailed(RecordNotFound);
        return outcome, TimeOutMessage(outcome);
      }
      var i := found.value;
      if records[i].timeOut.Some? {
        outcome := TimeOutFailed(TimeOutAlreadyMarked);
        return outcome, TimeOutMessage(outcome);
      }
      var currentTime := TimeOfDay(now);
      SameKeysKeepRecordsOk(records, TimeOut(records, attendanceId, studentId, now).0);
      records := records[i := records[i].(timeOut := Some(currentTime), updatedAt := now)];
      outcome := TimedOut(attendanceId, currentTime);
      message := TimeOutMessage(outcome);
    }

    method UpdateAttendanceStatus(attendanceId: nat, newStatus: string, notes: Option<string>, now: int)
      returns (outcome: UpdateOutcome, message: string)
      requires Valid()
      modifies this
      ensures Valid() && nextId == old(nextId)
      ensures (records, outcome) == UpdateStatus(old(records), attendanceId, newStatus, notes, now)
      ensures message == UpdateMessage(outcome)
    {
      var result := UpdateStatus(records, attendanceId, newStatus, notes, now);
      SameKeysKeepRecordsOk(records, result.0);
      records, outcome := result.0, result.1;
      message := UpdateMessage(outcome);
    }

    method GenerateAttendanceReport(filter: ReportFilter) returns (report: seq<AttendanceRecord>, summary: Summary)
      ensures report == ReportRows(records, filter)
      ensures Summarizes(summary, report)
    {
      report := ReportRows(records, filter);
      summary := Summarize(report);
    }
  }
}
