/** The QR token lifecycle of includes/qr_generator.php: the `qr_codes`
    table as a sequence of rows in insertion order, the statements run
    against it as functions on that sequence, and the QRGenerator class
    whose methods apply them to its table. */
module Tokens {
  import opened Base

  /** One row of `qr_codes`. */
  datatype QRRow = QRRow(
    id: nat,
    classId: nat,
    token: string,
    createdBy: nat,
    createdAt: int,
    expiresAt: int,
    isActive: bool)

  /** The seven-day window after which cleanup deletes a row. */
  const RetentionSeconds: int := 7 * SecondsPerDay

  // ---------------------------------------------------------------------
  // Table invariant
  // ---------------------------------------------------------------------

  /** What every earlier row a owes every later row b: auto-increment ids,
      distinct tokens, creation times in order, and never two active
      tokens for one class. */
  predicate PairOk(a: QRRow, b: QRRow)
  {
    && a.id < b.id
    && a.token != b.token
    && a.createdAt <= b.createdAt
    && !(a.isActive && b.isActive && a.classId == b.classId)
  }

  predicate TableOk(rows: seq<QRRow>)
  {
    forall i, j :: 0 <= i < j < |rows| ==> PairOk(rows[i], rows[j])
  }

  predicate AtMostOneActivePerClass(rows: seq<QRRow>)
  {
    forall i, j ::
      0 <= i < |rows| && 0 <= j < |rows| && rows[i].isActive && rows[j].isActive && rows[i].classId == rows[j].classId
      ==> i == j
  }

  lemma TableOkOneActive(rows: seq<QRRow>)
    requires TableOk(rows)
    ensures AtMostOneActivePerClass(rows)
  {
  }

  function TokensOf(rows: seq<QRRow>): set<string>
  {
    set r | r in rows :: r.token
  }

  predicate HasActive(rows: seq<QRRow>, token: string)
  {
    exists i :: 0 <= i < |rows| && rows[i].token == token && rows[i].isActive
  }

  /** `after` is `before` with some rows switched off and nothing else
      changed: the shape of every UPDATE ... SET is_active = 0. */
  predicate DeactivationOnly(before: seq<QRRow>, after: seq<QRRow>)
  {
    |after| == |before| &&
    forall i :: 0 <= i < |before| ==> after[i] == before[i] || after[i] == before[i].(isActive := false)
  }

  lemma DeactivationKeepsTableOk(before: seq<QRRow>, after: seq<QRRow>)
    requires TableOk(before) && DeactivationOnly(before, after)
    ensures TableOk(after)
  {
  }

  /** Switching rows off never brings a token back to life. */
  lemma DeactivationNeverRevives(before: seq<QRRow>, after: seq<QRRow>, token: string)
    requires DeactivationOnly(before, after)
    ensures HasActive(after, token) ==> HasActive(before, token)
  {
  }

  /** A string strictly longer than every member of a finite set, so that a
      fresh token always exists. */
  lemma {:induction false} LongerThanAll(used: set<string>) returns (t: string)
    ensures forall u :: u in used ==> |u| < |t|
  {
    if used == {} {
      t := "0";
    } else {
      var x :| x in used;
      var t0 := LongerThanAll(used - {x});
      t := if |t0| > |x| then t0 else x + "0";
    }
  }

  // ---------------------------------------------------------------------
  // generateQRCode
  // ---------------------------------------------------------------------

  /** `UPDATE qr_codes SET is_active = 0 WHERE class_id = ?`. */
  function DeactivateClass(rows: seq<QRRow>, classId: nat): (r: seq<QRRow>)
    ensures DeactivationOnly(rows, r)
    ensures forall i :: 0 <= i < |r| ==> (r[i].isActive <==> rows[i].isActive && rows[i].classId != classId)
  {
    seq(|rows|, i requires 0 <= i < |rows| =>
      if rows[i].classId == classId then rows[i].(isActive := false) else rows[i])
  }

  /** The table after issuing `token` for `classId`: every earlier row of
      the class switched off, then the new active row appended. */
  function IssueRows(rows: seq<QRRow>, classId: nat, teacherId: nat, now: int, expiryMinutes: int,
                     id: nat, token: string): (r: seq<QRRow>)
    ensures |r| == |rows| + 1
    ensures r[|rows|] == QRRow(id, classId, token, teacherId, now, now + expiryMinutes * SecondsPerMinute, true)
    ensures forall i :: 0 <= i < |rows| && rows[i].classId == classId ==> !r[i].isActive
    ensures forall i :: 0 <= i < |rows| && rows[i].classId != classId ==> r[i] == rows[i]
    ensures DeactivationOnly(rows, r[..|rows|])
  {
    DeactivateClass(rows, classId) + [QRRow(id, classId, token, teacherId, now, now + expiryMinutes * SecondsPerMinute, true)]
  }

  /** Issuing keeps the table invariant, in particular at most one active
      token per class, provided the id and the token are new and the clock
      has not gone backwards. */
  lemma IssueKeepsTableOk(rows: seq<QRRow>, classId: nat, teacherId: nat, now: int, expiryMinutes: int,
                          id: nat, token: string)
    requires TableOk(rows)
    requires forall r :: r in rows ==> r.id < id && r.createdAt <= now
    requires token !in TokensOf(rows)
    ensures TableOk(IssueRows(rows, classId, teacherId, now, expiryMinutes, id, token))
    ensures AtMostOneActivePerClass(IssueRows(rows, classId, teacherId, now, expiryMinutes, id, token))
  {
    var r := IssueRows(rows, classId, teacherId, now, expiryMinutes, id, token);
    DeactivationKeepsTableOk(rows, r[..|rows|]);
    forall i | 0 <= i < |rows|
      ensures PairOk(r[i], r[|rows|])
    {
      assert rows[i] in rows;
      assert rows[i].token in TokensOf(rows);
    }
    assert forall i, j :: 0 <= i < j < |rows| ==> r[i] == r[..|rows|][i] && r[j] == r[..|rows|][j];
    TableOkOneActive(r);
  }

  // ---------------------------------------------------------------------
  // validateQRCode
  // ---------------------------------------------------------------------

  datatype QRError = InvalidQRCode | QRCodeExpired

  function QRErrorMessage(e: QRError): string
  {
    match e
    case InvalidQRCode => "Invalid QR code"
    case QRCodeExpired => "QR code has expired"
  }

  datatype ValidToken = ValidToken(qrId: nat, classId: nat, expiresAt: int, remainingMinutes: int)

  datatype Validation = Accepted(valid: ValidToken) | Rejected(error: QRError)

  /** `SELECT ... WHERE qr_token = ? AND is_active = 1`: the first matching
      row, if any. */
  function IndexOfActive(rows: seq<QRRow>, token: string): (r: Option<nat>)
    ensures r.Some? ==> r.value < |rows| && rows[r.value].token == token && rows[r.value].isActive
    ensures r.Some? ==> forall k :: 0 <= k < r.value ==> !(rows[k].token == token && rows[k].isActive)
    ensures r.None? <==> !HasActive(rows, token)
  {
    FirstIndex(rows, (q: QRRow) => q.token == token && q.isActive)
  }

  /** validateQRCode: the new table and the answer. A token with no active
      row is invalid; an active row that expired strictly before `now` is
      switched off as a side effect and reported expired; otherwise the row's
      class is returned with the minutes left. */
  function Validate(rows: seq<QRRow>, token: string, now: int): (res: (seq<QRRow>, Validation))
    ensures DeactivationOnly(rows, res.0)
    ensures res.1 == Rejected(InvalidQRCode) <==> !HasActive(rows, token)
    ensures res.1 == Rejected(InvalidQRCode) ==> res.0 == rows
    ensures res.1 == Rejected(QRCodeExpired) ==>
      exists i :: 0 <= i < |rows| && rows[i].token == token && rows[i].isActive && rows[i].expiresAt < now
               && res.0 == rows[i := rows[i].(isActive := false)]
    ensures res.1.Accepted? ==> res.0 == rows
    ensures res.1.Accepted? ==>
      exists i :: 0 <= i < |rows| && rows[i].token == token && rows[i].isActive && now <= rows[i].expiresAt
               && res.1.valid == ValidToken(rows[i].id, rows[i].classId, rows[i].expiresAt, RoundMinutes(rows[i].expiresAt - now))
  {
    match IndexOfActive(rows, token)
    case None => (rows, Rejected(InvalidQRCode))
    case Some(i) =>
      if rows[i].expiresAt < now then
        (rows[i := rows[i].(isActive := false)], Rejected(QRCodeExpired))
      else
        (rows, Accepted(ValidToken(rows[i].id, rows[i].classId, rows[i].expiresAt, RoundMinutes(rows[i].expiresAt - now))))
  }

  /** Lazy expiry is final: once a validation reports the token expired,
      every later validation of it, at any time, reports it invalid. */
  lemma {:induction false} ExpiredThenInvalid(rows: seq<QRRow>, token: string, now: int, later: int)
    requires TableOk(rows)
    requires Validate(rows, token, now).1 == Rejected(QRCodeExpired)
    ensures Validate(Validate(rows, token, now).0, token, later) == (Validate(rows, token, now).0, Rejected(InvalidQRCode))
  {
    var after := Validate(rows, token, now).0;
    var i :| 0 <= i < |rows| && rows[i].token == token && rows[i].isActive && rows[i].expiresAt < now
             && after == rows[i := rows[i].(isActive := false)];
    forall j | 0 <= j < |after|
      ensures !(after[j].token == token && after[j].isActive)
    {
      if j != i {
        assert j < i ==> PairOk(rows[j], rows[i]);
        assert i < j ==> PairOk(rows[i], rows[j]);
      }
    }
  }

  /** Issuing and then validating the returned token at or before its expiry
      succeeds with the same class and row, and changes nothing. */
  lemma {:induction false} IssueThenValidate(rows: seq<QRRow>, classId: nat, teacherId: nat, now: int,
                                             expiryMinutes: int, id: nat, token: string, later: int)
    requires token !in TokensOf(rows)
    requires later <= now + expiryMinutes * SecondsPerMinute
    ensures
      var issued := IssueRows(rows, classId, teacherId, now, expiryMinutes, id, token);
      var expiresAt := now + expiryMinutes * SecondsPerMinute;
      Validate(issued, token, later)
        == (issued, Accepted(ValidToken(id, classId, expiresAt, RoundMinutes(expiresAt - later))))
  {
    var issued := IssueRows(rows, classId, teacherId, now, expiryMinutes, id, token);
    forall k | 0 <= k < |rows|
      ensures issued[k].token != token
    {
      assert rows[k] in rows;
    }
    var found := IndexOfActive(issued, token);
    assert HasActive(issued, token) by {
      assert issued[|rows|].token == token && issued[|rows|].isActive;
    }
    assert found == Some(|rows|);
  }

  // ---------------------------------------------------------------------
  // getActiveQRCodes
  // ---------------------------------------------------------------------

  /** Restriction to one creator when a teacher id is given. */
  predicate InScope(r: QRRow, teacher: Option<nat>)
  {
    Given(teacher) ==> r.createdBy == teacher.value
  }

  /** The WHERE clause of getActiveQRCodes. */
  predicate Listed(r: QRRow, teacher: Option<nat>, now: int)
  {
    r.isActive && r.expiresAt > now && InScope(r, teacher)
  }

  datatype ActiveQR = ActiveQR(row: QRRow, remainingMinutes: int)

  /** The listed rows, newest first, each annotated with its minutes left. */
  function Listing(rows: seq<QRRow>, teacher: Option<nat>, now: int): (l: seq<ActiveQR>)
    decreases |rows|
  {
    if rows == [] then []
    else
      var last := rows[|rows| - 1];
      var older := Listing(rows[..|rows| - 1], teacher, now);
      if Listed(last, teacher, now) then [ActiveQR(last, RoundMinutes(last.expiresAt - now))] + older else older
  }

  /** One step back through the table: the listing of a prefix is that of
      the prefix one shorter, after the prefix's last row when it is listed. */
  lemma ListingStep(rows: seq<QRRow>, teacher: Option<nat>, now: int, i: nat)
    requires 0 < i <= |rows|
    ensures Listing(rows[..i], teacher, now) ==
      (if Listed(rows[i - 1], teacher, now) then [ActiveQR(rows[i - 1], RoundMinutes(rows[i - 1].expiresAt - now))] else [])
      + Listing(rows[..i - 1], teacher, now)
  {
    assert rows[..i][..i - 1] == rows[..i - 1];
  }

  /** Every entry of the listing is a listed row of the table, with its
      minutes left (never negative). */
  lemma {:induction false} ListingSound(rows: seq<QRRow>, teacher: Option<nat>, now: int)
    ensures forall k :: 0 <= k < |Listing(rows, teacher, now)| ==>
      var e := Listing(rows, teacher, now)[k];
      e.row in rows && Listed(e.row, teacher, now)
      && e.remainingMinutes == RoundMinutes(e.row.expiresAt - now) && e.remainingMinutes >= 0
    decreases |rows|
  {
    if rows != [] {
      var older := rows[..|rows| - 1];
      var last := rows[|rows| - 1];
      ListingSound(older, teacher, now);
      var prev := Listing(older, teacher, now);
      var out := Listing(rows, teacher, now);
      forall k | 0 <= k < |out|
        ensures out[k].row in rows && Listed(out[k].row, teacher, now)
        ensures out[k].remainingMinutes == RoundMinutes(out[k].row.expiresAt - now)
      {
        var shift := if Listed(last, teacher, now) then 1 else 0;
        if k >= shift {
          assert out[k] == prev[k - shift];
          var i :| 0 <= i < |older| && older[i] == prev[k - shift].row;
          assert rows[i] == older[i];
        }
      }
    }
  }

  /** Every listed row appears in the listing. */
  lemma {:induction false} ListingComplete(rows: seq<QRRow>, teacher: Option<nat>, now: int, r: QRRow)
    requires r in rows && Listed(r, teacher, now)
    ensures exists k :: 0 <= k < |Listing(rows, teacher, now)| && Listing(rows, teacher, now)[k].row == r
    decreases |rows|
  {
    var out := Listing(rows, teacher, now);
    var last := rows[|rows| - 1];
    if r == last {
      assert out[0].row == r;
    } else {
      var older := rows[..|rows| - 1];
      assert r in older by {
        var i :| 0 <= i < |rows| && rows[i] == r;
        assert older[i] == r;
      }
      ListingComplete(older, teacher, now, r);
      var k :| 0 <= k < |Listing(older, teacher, now)| && Listing(older, teacher, now)[k].row == r;
      if Listed(last, teacher, now) {
        assert out[k + 1].row == r;
      }
    }
  }

  /** ORDER BY created_at DESC: on a table whose creation times follow the
      insertion order, the listing runs from newest to oldest. */
  lemma {:induction false} ListingNewestFirst(rows: seq<QRRow>, teacher: Option<nat>, now: int)
    requires TableOk(rows)
    ensures forall k, l :: 0 <= k < l < |Listing(rows, teacher, now)| ==>
      Listing(rows, teacher, now)[k].row.createdAt >= Listing(rows, teacher, now)[l].row.createdAt
      && Listing(rows, teacher, now)[k].row.id > Listing(rows, teacher, now)[l].row.id
    decreases |rows|
  {
    if rows != [] {
      var older := rows[..|rows| - 1];
      var last := rows[|rows| - 1];
      assert TableOk(older);
      ListingNewestFirst(older, teacher, now);
      ListingSound(older, teacher, now);
      var prev := Listing(older, teacher, now);
      var out := Listing(rows, teacher, now);
      if Listed(last, teacher, now) {
        forall k, l | 0 <= k < l < |out|
          ensures out[k].row.createdAt >= out[l].row.createdAt && out[k].row.id > out[l].row.id
        {
          assert out[l] == prev[l - 1];
          if k > 0 {
            assert out[k] == prev[k - 1];
          } else {
            var i :| 0 <= i < |older| && older[i] == prev[l - 1].row;
            assert rows[i] == older[i];
            assert PairOk(rows[i], rows[|rows| - 1]);
          }
        }
      }
    }
  }

  // ---------------------------------------------------------------------
  // deactivateQRCode
  // ---------------------------------------------------------------------

  /** The WHERE clause of deactivateQRCode. */
  predicate Targeted(r: QRRow, qrId: nat, teacher: Option<nat>)
  {
    r.id == qrId && InScope(r, teacher)
  }

  /** deactivateQRCode: the new table, and whether MySQL counted an affected
      row (a row is affected only when its value changes, so only a targeted
      row that was still active counts). */
  function DeactivateById(rows: seq<QRRow>, qrId: nat, teacher: Option<nat>): (res: (seq<QRRow>, bool))
    ensures DeactivationOnly(rows, res.0)
    ensures forall i :: 0 <= i < |rows| && !Targeted(rows[i], qrId, teacher) ==> res.0[i] == rows[i]
    ensures forall i :: 0 <= i < |rows| && Targeted(rows[i], qrId, teacher) ==> !res.0[i].isActive
    ensures res.1 <==> res.0 != rows
  {
    var after := seq(|rows|, i requires 0 <= i < |rows| =>
      if Targeted(rows[i], qrId, teacher) then rows[i].(isActive := false) else rows[i]);
    var affected := exists i | 0 <= i < |rows| :: Targeted(rows[i], qrId, teacher) && rows[i].isActive;
    assert affected ==> after != rows by {
      if affected {
        var i :| 0 <= i < |rows| && Targeted(rows[i], qrId, teacher) && rows[i].isActive;
        assert after[i] != rows[i];
      }
    }
    assert after != rows ==> affected by {
      if after != rows {
        var i :| 0 <= i < |rows| && after[i] != rows[i];
      }
    }
    (after, affected)
  }

  function DeactivateMessage(ok: bool): string
  {
    if ok then "QR code deactivated successfully" else "QR code not found or access denied"
  }

  /** Ids are unique, so deactivation switches off at most one row. */
  lemma DeactivateTouchesOneRow(rows: seq<QRRow>, qrId: nat, teacher: Option<nat>)
    requires TableOk(rows)
    ensures forall i, j ::
      (0 <= i < |rows| && 0 <= j < |rows| && DeactivateById(rows, qrId, teacher).0[i] != rows[i]
       && DeactivateById(rows, qrId, teacher).0[j] != rows[j]) ==> i == j
  {
  }

  // ---------------------------------------------------------------------
  // cleanupExpiredQRCodes
  // ---------------------------------------------------------------------

  /** `UPDATE qr_codes SET is_active = 0 WHERE expires_at < NOW() AND is_active = 1`. */
  function ExpireStale(rows: seq<QRRow>, now: int): (r: seq<QRRow>)
    ensures DeactivationOnly(rows, r)
    ensures forall i :: 0 <= i < |r| ==> (r[i].isActive <==> rows[i].isActive && rows[i].expiresAt >= now)
  {
    seq(|rows|, i requires 0 <= i < |rows| =>
      if rows[i].isActive && rows[i].expiresAt < now then rows[i].(isActive := false) else rows[i])
  }

  predicate Recent(r: QRRow, now: int)
  {
    r.createdAt >= now - RetentionSeconds
  }

  /** `DELETE FROM qr_codes WHERE created_at < DATE_SUB(NOW(), INTERVAL 7 DAY)`. */
  function PurgeOld(rows: seq<QRRow>, now: int): (r: seq<QRRow>)
    ensures |r| <= |rows|
    ensures forall x :: x in r <==> x in rows && Recent(x, now)
    decreases |rows|
  {
    if rows == [] then []
    else
      assert rows == [rows[0]] + rows[1..];
      (if Recent(rows[0], now) then [rows[0]] else []) + PurgeOld(rows[1..], now)
  }

  /** cleanupExpiredQRCodes: the UPDATE, then the DELETE. */
  function Cleanup(rows: seq<QRRow>, now: int): (r: seq<QRRow>)
    ensures |r| <= |rows|
    ensures forall x :: x in r ==> Recent(x, now)
  {
    PurgeOld(ExpireStale(rows, now), now)
  }

  lemma {:induction false} PurgeOldKeepsTableOk(rows: seq<QRRow>, now: int)
    requires TableOk(rows)
    ensures TableOk(PurgeOld(rows, now))
    decreases |rows|
  {
    if rows != [] {
      var rest := PurgeOld(rows[1..], now);
      assert TableOk(rows[1..]);
      PurgeOldKeepsTableOk(rows[1..], now);
      forall x | x in rest
        ensures PairOk(rows[0], x)
      {
        var j :| 0 <= j < |rows[1..]| && rows[1..][j] == x;
        assert rows[j + 1] == x;
      }
    }
  }

  /** After cleanup no stale row is active, no row older than the retention
      window remains, and every recent row survives with its fields intact
      except the activation flag. */
  lemma CleanupSound(rows: seq<QRRow>, now: int)
    ensures forall r :: r in Cleanup(rows, now) ==> !(r.isActive && r.expiresAt < now) && Recent(r, now)
    ensures forall r :: r in rows && Recent(r, now) ==>
      r.(isActive := r.isActive && r.expiresAt >= now) in Cleanup(rows, now)
    ensures TableOk(rows) ==> TableOk(Cleanup(rows, now))
  {
    var stale := ExpireStale(rows, now);
    forall r | r in Cleanup(rows, now)
      ensures !(r.isActive && r.expiresAt < now)
    {
      var i :| 0 <= i < |stale| && stale[i] == r;
    }
    forall r | r in rows && Recent(r, now)
      ensures r.(isActive := r.isActive && r.expiresAt >= now) in Cleanup(rows, now)
    {
      var i :| 0 <= i < |rows| && rows[i] == r;
      assert stale[i] in stale;
    }
    if TableOk(rows) {
      DeactivationKeepsTableOk(rows, stale);
      PurgeOldKeepsTableOk(stale, now);
    }
  }

  /** Cleanup keeps every id below the next one and every token among the
      issued ones. */
  lemma CleanupKeepsIdsAndTokens(rows: seq<QRRow>, now: int, id: nat, issued: set<string>)
    requires forall r :: r in rows ==> r.id < id
    requires TokensOf(rows) <= issued
    ensures forall r :: r in Cleanup(rows, now) ==> r.id < id
    ensures TokensOf(Cleanup(rows, now)) <= issued
  {
    var stale := ExpireStale(rows, now);
    forall r | r in Cleanup(rows, now)
      ensures r.id < id && r.token in issued
    {
      var i :| 0 <= i < |stale| && stale[i] == r;
      assert rows[i] in rows;
    }
  }

  lemma {:induction false} PurgeOldNoop(rows: seq<QRRow>, now: int)
    requires forall r :: r in rows ==> Recent(r, now)
    ensures PurgeOld(rows, now) == rows
    decreases |rows|
  {
    if rows != [] {
      assert rows[0] in rows;
      PurgeOldNoop(rows[1..], now);
    }
  }

  /** Running cleanup twice at the same moment changes nothing the first run
      did not. */
  lemma {:induction false} CleanupIdempotent(rows: seq<QRRow>, now: int)
    ensures Cleanup(Cleanup(rows, now), now) == Cleanup(rows, now)
  {
    var once := Cleanup(rows, now);
    CleanupSound(rows, now);
    var again := ExpireStale(once, now);
    assert again == once;
    PurgeOldNoop(once, now);
  }

  // ---------------------------------------------------------------------
  // getQRCodeStats
  // ---------------------------------------------------------------------

  datatype QRStats = QRStats(totalGenerated: nat, activeCount: nat, expiredCount: nat)

  function CountRows(rows: seq<QRRow>, p: QRRow -> bool): (n: nat)
    ensures n <= |rows|
    decreases |rows|
  {
    if rows == [] then 0
    else CountRows(rows[..|rows| - 1], p) + (if p(rows[|rows| - 1]) then 1 else 0)
  }

  /** The three COUNTs of getQRCodeStats over the teacher's rows (all rows
      when no teacher id is given). */
  function Stats(rows: seq<QRRow>, teacher: Option<nat>, now: int): (s: QRStats)
    ensures s.totalGenerated <= |rows|
  {
    QRStats(
      CountRows(rows, (r: QRRow) => InScope(r, teacher)),
      CountRows(rows, (r: QRRow) => Listed(r, teacher, now)),
      CountRows(rows, (r: QRRow) => InScope(r, teacher) && r.expiresAt < now))
  }

  lemma {:induction false} CountDisjoint(rows: seq<QRRow>, p: QRRow -> bool, q: QRRow -> bool, s: QRRow -> bool)
    requires forall r :: !(p(r) && q(r))
    requires forall r :: p(r) || q(r) ==> s(r)
    ensures CountRows(rows, p) + CountRows(rows, q) <= CountRows(rows, s)
    decreases |rows|
  {
    if rows != [] {
      CountDisjoint(rows[..|rows| - 1], p, q, s);
    }
  }

  lemma {:induction false} ListingCounted(rows: seq<QRRow>, teacher: Option<nat>, now: int)
    ensures |Listing(rows, teacher, now)| == CountRows(rows, (r: QRRow) => Listed(r, teacher, now))
    decreases |rows|
  {
    if rows != [] {
      ListingCounted(rows[..|rows| - 1], teacher, now);
    }
  }

  /** The active count is the length of the active listing, and active and
      expired rows (expiry after, resp. strictly before, now) are disjoint
      parts of the total. */
  lemma StatsConsistent(rows: seq<QRRow>, teacher: Option<nat>, now: int)
    ensures Stats(rows, teacher, now).activeCount == |Listing(rows, teacher, now)|
    ensures Stats(rows, teacher, now).activeCount + Stats(rows, teacher, now).expiredCount
            <= Stats(rows, teacher, now).totalGenerated
  {
    ListingCounted(rows, teacher, now);
    CountDisjoint(rows, (r: QRRow) => Listed(r, teacher, now), (r: QRRow) => InScope(r, teacher) && r.expiresAt < now,
                  (r: QRRow) => InScope(r, teacher));
  }

  // ---------------------------------------------------------------------
  // The generator
  // ---------------------------------------------------------------------

  datatype Issued = Issued(qrId: nat, token: string, classId: nat, expiresAt: int, expiryMinutes: int)

  /** `classes[k]` is not repeated later in the list. */
  predicate LastOccurrence(classes: seq<nat>, k: nat)
    requires k < |classes|
  {
    forall l :: k < l < |classes| ==> classes[l] != classes[k]
  }

  /** The table after issuing, one by one, a token for each of `classes`
      on top of `orig`: old rows of those classes switched off, and one new
      row per class that is active only if its class is not issued again. */
  /** The tokens a bulk run handed out. */
  function TokensIssued(results: seq<Issued>): (tokens: set<string>)
    ensures forall k :: 0 <= k < |results| ==> results[k].token in tokens
    ensures |tokens| <= |results|
    decreases |results|
  {
    if results == [] then {}
    else TokensIssued(results[..|results| - 1]) + {results[|results| - 1].token}
  }

  /** The issued-token set of a bulk run: the tokens issued before it, plus
      one fresh token per result. */
  ghost predicate BulkTokens(orig: set<string>, issued: set<string>, results: seq<Issued>)
  {
    && issued == orig + TokensIssued(results)
    && forall k :: 0 <= k < |results| ==> results[k].token !in orig
  }

  lemma BulkTokensStep(orig: set<string>, issued: set<string>, results: seq<Issued>, next: Issued)
    requires BulkTokens(orig, issued, results) && next.token !in issued
    ensures BulkTokens(orig, issued + {next.token}, results + [next])
  {
    assert (results + [next])[..|results|] == results;
  }

  ghost predicate BulkState(orig: seq<QRRow>, rows: seq<QRRow>, classes: seq<nat>, results: seq<Issued>,
                            firstId: nat, teacherId: nat, now: int, expiryMinutes: int)
  {
    && |results| == |classes|
    && |rows| == |orig| + |classes|
    && (forall i :: 0 <= i < |orig| ==>
          rows[i] == orig[i].(isActive := orig[i].isActive && orig[i].classId !in classes))
    && (forall k :: 0 <= k < |classes| ==>
          results[k] == Issued(firstId + k, results[k].token, classes[k], now + expiryMinutes * SecondsPerMinute, expiryMinutes) &&
          rows[|orig| + k] == QRRow(firstId + k, classes[k], results[k].token, teacherId, now,
                                    now + expiryMinutes * SecondsPerMinute, LastOccurrence(classes, k)))
  }

  lemma BulkStep(orig: seq<QRRow>, rows: seq<QRRow>, rows': seq<QRRow>, classes: seq<nat>, c: nat,
                 results: seq<Issued>, issued: Issued, firstId: nat, teacherId: nat, now: int, expiryMinutes: int)
    requires BulkState(orig, rows, classes, results, firstId, teacherId, now, expiryMinutes)
    requires issued == Issued(firstId + |classes|, issued.token, c, now + expiryMinutes * SecondsPerMinute, expiryMinutes)
    requires rows' == IssueRows(rows, c, teacherId, now, expiryMinutes, firstId + |classes|, issued.token)
    ensures BulkState(orig, rows', classes + [c], results + [issued], firstId, teacherId, now, expiryMinutes)
  {
    var cs := classes + [c];
    forall i | 0 <= i < |orig|
      ensures rows'[i] == orig[i].(isActive := orig[i].isActive && orig[i].classId !in cs)
    {
      assert rows[i].classId == orig[i].classId;
    }
    forall k | 0 <= k < |classes|
      ensures rows'[|orig| + k] == QRRow(firstId + k, cs[k], (results + [issued])[k].token, teacherId, now,
                                         now + expiryMinutes * SecondsPerMinute, LastOccurrence(cs, k))
    {
      assert rows[|orig| + k].classId == classes[k];
      assert cs[k] == classes[k] && cs[|classes|] == c;
      assert forall l :: k < l < |classes| ==> cs[l] == classes[l];
      assert LastOccurrence(cs, k) == (LastOccurrence(classes, k) && c != classes[k]);
    }
    assert rows'[|orig| + |classes|] == rows'[|rows|];
  }

  // ---------------------------------------------------------------------
  // Retired tokens: once reported expired, a token has no active row again
  // ---------------------------------------------------------------------

  ghost predicate NoneActive(rows: seq<QRRow>, tokens: set<string>)
  {
    forall t :: t in tokens ==> !HasActive(rows, t)
  }

  lemma DeactivationKeepsNoneActive(before: seq<QRRow>, after: seq<QRRow>, tokens: set<string>)
    requires DeactivationOnly(before, after) && NoneActive(before, tokens)
    ensures NoneActive(after, tokens)
  {
    forall t | t in tokens
      ensures !HasActive(after, t)
    {
      DeactivationNeverRevives(before, after, t);
    }
  }

  /** Issuing a token outside `tokens` activates none of them. */
  /** Issuing keeps every id below the next one and every token among the
      issued ones. */
  lemma IssueKeepsIdsAndTokens(rows: seq<QRRow>, classId: nat, teacherId: nat, now: int, expiryMinutes: int,
                               id: nat, token: string, issued: set<string>)
    requires forall r :: r in rows ==> r.id < id
    requires TokensOf(rows) <= issued
    ensures forall r :: r in IssueRows(rows, classId, teacherId, now, expiryMinutes, id, token) ==> r.id < id + 1
    ensures TokensOf(IssueRows(rows, classId, teacherId, now, expiryMinutes, id, token)) <= issued + {token}
  {
    var after := IssueRows(rows, classId, teacherId, now, expiryMinutes, id, token);
    forall r | r in after
      ensures r.id < id + 1 && r.token in issued + {token}
    {
      var i :| 0 <= i < |after| && after[i] == r;
      if i < |rows| {
        assert after[..|rows|][i] == after[i];
        assert rows[i] in rows;
      }
    }
  }

  lemma IssueKeepsNoneActive(rows: seq<QRRow>, classId: nat, teacherId: nat, now: int, expiryMinutes: int,
                             id: nat, token: string, tokens: set<string>)
    requires NoneActive(rows, tokens) && token !in tokens
    ensures NoneActive(IssueRows(rows, classId, teacherId, now, expiryMinutes, id, token), tokens)
  {
    var after := IssueRows(rows, classId, teacherId, now, expiryMinutes, id, token);
    DeactivationKeepsNoneActive(rows, after[..|rows|], tokens);
    forall t | t in tokens
      ensures !HasActive(after, t)
    {
      assert !HasActive(after[..|rows|], t);
      forall i | 0 <= i < |rows|
        ensures !(after[i].token == t && after[i].isActive)
      {
        assert after[i] == after[..|rows|][i];
      }
    }
  }

  lemma CleanupKeepsNoneActive(rows: seq<QRRow>, now: int, tokens: set<string>)
    requires NoneActive(rows, tokens)
    ensures NoneActive(Cleanup(rows, now), tokens)
  {
    var stale := ExpireStale(rows, now);
    DeactivationKeepsNoneActive(rows, stale, tokens);
    var after := PurgeOld(stale, now);
    forall t | t in tokens
      ensures !HasActive(after, t)
    {
      forall i | 0 <= i < |after|
        ensures !(after[i].token == t && after[i].isActive)
      {
        assert after[i] in stale;
      }
    }
  }

  /** A token reported expired has no active row left, whatever else the
      table holds. */
  lemma ExpiredLeavesNoActive(rows: seq<QRRow>, token: string, now: int)
    requires TableOk(rows)
    requires Validate(rows, token, now).1 == Rejected(QRCodeExpired)
    ensures !HasActive(Validate(rows, token, now).0, token)
  {
    ExpiredThenInvalid(rows, token, now, now);
  }

  class QRGenerator {
    var rows: seq<QRRow>
    var nextId: nat
    const expiryMinutes: int
    /** Every token ever handed out. A token is a SHA-256 digest over
        random bytes, so a new token repeats none of them; the model makes
        that explicit by drawing outside this set. */
    var issuedTokens: set<string>
    /** The tokens validation has reported expired. */
    ghost var retired: set<string>

    ghost predicate Valid()
      reads this
    {
      && TableOk(rows) && (forall r :: r in rows ==> r.id < nextId)
      && TokensOf(rows) <= issuedTokens && retired <= issuedTokens
      && NoneActive(rows, retired)
    }

    constructor (settings: map<string, int>)
      ensures Valid() && rows == [] && issuedTokens == {} && retired == {}
      ensures expiryMinutes == GetSetting(settings, "qr_expiry_minutes", 15)
    {
      rows := [];
      nextId := 1;
      expiryMinutes := GetSetting(settings, "qr_expiry_minutes", 15);
      issuedTokens := {};
      retired := {};
    }

    method GenerateQRCode(classId: nat, teacherId: nat, now: int) returns (issued: Issued)
      requires Valid()
      requires forall r :: r in rows ==> r.createdAt <= now
      modifies this
      ensures Valid()
      ensures issued.token !in old(issuedTokens) && issued.token !in TokensOf(old(rows))
      ensures issued == Issued(old(nextId), issued.token, classId, now + expiryMinutes * SecondsPerMinute, expiryMinutes)
      ensures rows == IssueRows(old(rows), classId, teacherId, now, expiryMinutes, old(nextId), issued.token)
      ensures nextId == old(nextId) + 1
      ensures issuedTokens == old(issuedTokens) + {issued.token} && retired == old(retired)
    {
      ghost var before := rows;
      var used := issuedTokens;
      rows := DeactivateClass(rows, classId);
      var longer := LongerThanAll(used);
      var token: string :| token !in used;
      var expiresAt := now + expiryMinutes * SecondsPerMinute;
      rows := rows + [QRRow(nextId, classId, token, teacherId, now, expiresAt, true)];
      issued := Issued(nextId, token, classId, expiresAt, expiryMinutes);
      IssueKeepsTableOk(before, classId, teacherId, now, expiryMinutes, nextId, token);
      IssueKeepsNoneActive(before, classId, teacherId, now, expiryMinutes, nextId, token, retired);
      IssueKeepsIdsAndTokens(before, classId, teacherId, now, expiryMinutes, nextId, token, issuedTokens);
      issuedTokens := issuedTokens + {token};
      nextId := nextId + 1;
    }

    method ValidateQRCode(token: string, now: int) returns (result: Validation)
      requires Valid()
      modifies this
      ensures Valid() && nextId == old(nextId) && issuedTokens == old(issuedTokens)
      ensures (rows, result) == Validate(old(rows), token, now)
      ensures retired == old(retired) + (if result == Rejected(QRCodeExpired) then {token} else {})
      ensures token in old(retired) ==> result == Rejected(InvalidQRCode)
    {
      var found := IndexOfActive(rows, token);
      if found.None? {
        return Rejected(InvalidQRCode);
      }
      var i := found.value;
      if rows[i].expiresAt < now {
        rows := rows[i := rows[i].(isActive := false)];
        DeactivationKeepsTableOk(old(rows), rows);
        DeactivationKeepsNoneActive(old(rows), rows, retired);
        ExpiredLeavesNoActive(old(rows), token, now);
        retired := retired + {token};
        return Rejected(QRCodeExpired);
      }
      result := Accepted(ValidToken(rows[i].id, rows[i].classId, rows[i].expiresAt, RoundMinutes(rows[i].expiresAt - now)));
    }

    /** Walks the table from the newest row back, keeping the listed rows and
        annotating each with its minutes left. */
    method GetActiveQRCodes(teacher: Option<nat>, now: int) returns (listing: seq<ActiveQR>)
      ensures listing == Listing(rows, teacher, now)
    {
      var all := rows;
      listing := [];
      var i := |all|;
      assert all[..i] == all;
      while i > 0
        invariant 0 <= i <= |all|
        invariant listing + Listing(all[..i], teacher, now) == Listing(all, teacher, now)
      {
        var qr := all[i - 1];
        ListingStep(all, teacher, now, i);
        if Listed(qr, teacher, now) {
          listing := listing + [ActiveQR(qr, RoundMinutes(qr.expiresAt - now))];
        }
        i := i - 1;
      }
      assert all[..0] == [];
    }


    method DeactivateQRCode(qrId: nat, teacher: Option<nat>) returns (ok: bool, message: string)
      requires Valid()
      modifies this
      ensures Valid() && nextId == old(nextId)
      ensures issuedTokens == old(issuedTokens) && retired == old(retired)
      ensures (rows, ok) == DeactivateById(old(rows), qrId, teacher)
      ensures message == DeactivateMessage(ok)
    {
      var outcome := DeactivateById(rows, qrId, teacher);
      DeactivationKeepsTableOk(rows, outcome.0);
      DeactivationKeepsNoneActive(rows, outcome.0, retired);
      rows, ok := outcome.0, outcome.1;
      message := DeactivateMessage(ok);
    }

    method CleanupExpiredQRCodes(now: int)
      requires Valid()
      modifies this
      ensures Valid() && nextId == old(nextId)
      ensures issuedTokens == old(issuedTokens) && retired == old(retired)
      ensures rows == Cleanup(old(rows), now)
    {
      CleanupSound(rows, now);
      CleanupKeepsNoneActive(rows, now, retired);
      CleanupKeepsIdsAndTokens(rows, now, nextId, issuedTokens);
      rows := ExpireStale(rows, now);
      rows := PurgeOld(rows, now);
    }

    method GetQRCodeStats(teacher: Option<nat>, now: int) returns (stats: QRStats)
      ensures stats == Stats(rows, teacher, now)
      ensures stats.activeCount + stats.expiredCount <= stats.totalGenerated
    {
      StatsConsistent(rows, teacher, now);
      stats := Stats(rows, teacher, now);
    }

    /** One round of generateBulkQRCodes' loop: issue the code for classes[n]. */
    method IssueNextInBulk(classes: seq<nat>, n: nat, teacherId: nat, now: int, results: seq<Issued>,
                           ghost orig: seq<QRRow>, ghost origIssued: set<string>, ghost firstId: nat)
      returns (issued: Issued)
      requires Valid()
      requires forall r :: r in rows ==> r.createdAt <= now
      requires n < |classes| && |results| == n && nextId == firstId + n
      requires BulkTokens(origIssued, issuedTokens, results)
      requires BulkState(orig, rows, classes[..n], results, firstId, teacherId, now, expiryMinutes)
      modifies this
      ensures Valid()
      ensures forall r :: r in rows ==> r.createdAt <= now
      ensures nextId == old(nextId) + 1 && retired == old(retired)
      ensures BulkTokens(origIssued, issuedTokens, results + [issued])
      ensures BulkState(orig, rows, classes[..n + 1], results + [issued], firstId, teacherId, now, expiryMinutes)
    {
      ghost var before, issuedBefore, prefix := rows, issuedTokens, classes[..n];
      assert classes[..n + 1] == prefix + [classes[n]];
      issued := GenerateQRCode(classes[n], teacherId, now);
      BulkStep(orig, before, rows, prefix, classes[n], results, issued, firstId, teacherId, now, expiryMinutes);
      BulkTokensStep(origIssued, issuedBefore, results, issued);
    }

    /** Issues one token per listed class, in order; when a class is listed
        twice only its last token stays active. */
    method GenerateBulkQRCodes(classes: seq<nat>, teacherId: nat, now: int) returns (results: seq<Issued>)
      requires Valid()
      requires forall r :: r in rows ==> r.createdAt <= now
      modifies this
      ensures Valid()
      ensures nextId == old(nextId) + |classes| && retired == old(retired)
      ensures BulkState(old(rows), rows, classes, results, old(nextId), teacherId, now, expiryMinutes)
      ensures BulkTokens(old(issuedTokens), issuedTokens, results)
    {
      results := [];
      var n := 0;
      assert classes[..0] == [];
      while n < |classes|
        invariant 0 <= n <= |classes|
        invariant Valid()
        invariant forall r :: r in rows ==> r.createdAt <= now
        invariant nextId == old(nextId) + n && retired == old(retired)
        invariant |results| == n && BulkTokens(old(issuedTokens), issuedTokens, results)
        invariant BulkState(old(rows), rows, classes[..n], results, old(nextId), teacherId, now, expiryMinutes)
      {
        var issued := IssueNextInBulk(classes, n, teacherId, now, results, old(rows), old(issuedTokens), old(nextId));
        results := results + [issued];
        n := n + 1;
      }
      assert classes[..n] == classes;
    }
  }
}
