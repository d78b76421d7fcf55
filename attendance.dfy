/**
 * The attendance ledger's rules: one row per (student, class, date), a
 * check-out strictly after the check-in, no date after today, and the
 * derived duration.
 */
module AttendanceRules {
  import opened Common
  import opened Calendar
  import opened Records

  datatype AttendanceError =
    | DuplicateAttendance      // unique(student_id, class_id, date)
    | FutureDate               // _check_date
    | CheckOutNotAfterCheckIn  // _check_times

  /** The default state of a new attendance row. */
  const DefaultAttendanceState: AttendanceState := Present

  /** Two rows for the same student in the same class on the same day. */
  predicate SameSlot(a: Attendance, b: Attendance) {
    a.student == b.student && a.classId == b.classId && a.date == b.date
  }

  /** The table's unique constraint: no two rows share a slot. */
  predicate AttendanceUnique(t: map<AttendanceId, Attendance>) {
    forall i, j | i in t && j in t && i != j :: !SameSlot(t[i], t[j])
  }

  /** Some row of `t` already holds the slot of `a`. */
  predicate SlotTaken(t: map<AttendanceId, Attendance>, a: Attendance) {
    exists i | i in t :: SameSlot(t[i], a)
  }

  /** `_check_times`: when both times are set, check-out is strictly after check-in. */
  predicate TimesOk(a: Attendance) {
    a.checkIn.Some? && a.checkOut.Some? ==> a.checkIn.value < a.checkOut.value
  }

  /** `_check_date`: the attendance date is not after today. */
  predicate DateOk(a: Attendance, today: Day) {
    a.date <= today
  }

  /** Both check constraints of one row. */
  predicate RowOk(a: Attendance, today: Day) {
    TimesOk(a) && DateOk(a, today)
  }

  /** Hours between check-in and check-out, or 0 unless both are set. */
  function Duration(a: Attendance): (hours: real)
    ensures TimesOk(a) ==> hours >= 0.0
    ensures a.checkIn.None? || a.checkOut.None? ==> hours == 0.0
    ensures a.checkIn.Some? && a.checkOut.Some? ==>
              hours * 3600.0 == (a.checkOut.value - a.checkIn.value) as real
  {
    if a.checkIn.Some? && a.checkOut.Some? then
      (a.checkOut.value - a.checkIn.value) as real / (SecondsPerHour as real)
    else 0.0
  }

  /** With both times set and well ordered, the duration is strictly positive. */
  lemma DurationPositive(a: Attendance)
    requires a.checkIn.Some? && a.checkOut.Some? && TimesOk(a)
    ensures Duration(a) > 0.0
  {
  }

  /** A row checked in at 08:00 and out at 17:00 on the same day lasts nine hours. */
  lemma DurationOfSchoolDay(a: Attendance)
    requires a.checkIn == Some(StartOfDay(a.date) + 8 * SecondsPerHour)
    requires a.checkOut == Some(StartOfDay(a.date) + 17 * SecondsPerHour)
    ensures TimesOk(a) && Duration(a) == 9.0
  {
  }

  /** The rows among `rows` in state present. */
  function PresentRows(t: map<AttendanceId, Attendance>, rows: set<AttendanceId>): set<AttendanceId> {
    set k | k in rows && k in t && t[k].state == Present
  }

  /** `attended / total * 100`, or 0 when there is nothing to count. */
  function RatePercent(attended: nat, total: nat): (p: real)
    requires attended <= total
    ensures 0.0 <= p <= 100.0
    ensures total == 0 ==> p == 0.0
    ensures total > 0 ==> p * (total as real) == (attended as real) * 100.0
  {
    if total > 0 then (attended as real) / (total as real) * 100.0 else 0.0
  }

  /** A rate reaches a threshold exactly when `100 * attended >= threshold * total`. */
  lemma RateReachesThreshold(attended: nat, total: nat, threshold: real)
    requires attended <= total && total > 0
    ensures RatePercent(attended, total) >= threshold <==> (attended as real) * 100.0 >= threshold * (total as real)
  {
    var p := RatePercent(attended, total);
    var t := total as real;
    if p >= threshold {
      assert p * t >= threshold * t;
    } else {
      assert p * t < threshold * t;
    }
  }

  /** Attendance statistics over a set of rows: their number, the present ones, the rate. */
  datatype AttendanceStats = AttendanceStats(totalClasses: nat, attendedClasses: nat, percentage: real)

  /** The statistics of `rows`; with no row all three are zero. */
  function StatsOver(t: map<AttendanceId, Attendance>, rows: set<AttendanceId>): (s: AttendanceStats)
    ensures s.totalClasses == |rows| && s.attendedClasses == |PresentRows(t, rows)|
    ensures s.attendedClasses <= s.totalClasses
    ensures 0.0 <= s.percentage <= 100.0
    ensures rows == {} ==> s == AttendanceStats(0, 0, 0.0)
    ensures rows != {} ==> s.percentage * (|rows| as real) == (s.attendedClasses as real) * 100.0
  {
    SubsetSize(PresentRows(t, rows), rows);
    var total := |rows|;
    var attended := |PresentRows(t, rows)|;
    AttendanceStats(total, attended, RatePercent(attended, total))
  }

  /**
   * The error a single new row raises against table `t`: the unique
   * constraint is enforced by the database when the row is inserted, the
   * two Python constraints afterwards, `_check_date` before `_check_times`.
   */
  function RowError(t: map<AttendanceId, Attendance>, a: Attendance, today: Day): (r: Option<AttendanceError>)
    ensures r.None? <==> !SlotTaken(t, a) && RowOk(a, today)
    ensures SlotTaken(t, a) ==> r == Some(DuplicateAttendance)
  {
    if SlotTaken(t, a) then Some(DuplicateAttendance)
    else if !DateOk(a, today) then Some(FutureDate)
    else if !TimesOk(a) then Some(CheckOutNotAfterCheckIn)
    else None
  }

  /** Two rows of the batch `vals`, or one of them and a row of `t`, share a slot. */
  predicate BatchHasDuplicate(t: map<AttendanceId, Attendance>, vals: seq<Attendance>) {
    exists k | 0 <= k < |vals| :: SlotTaken(t, vals[k]) || exists j | 0 <= j < k :: SameSlot(vals[j], vals[k])
  }

  /**
   * The error a batch create of `vals` raises: all rows are inserted first
   * (so a duplicate anywhere wins), then `_check_date` runs over the whole
   * batch, then `_check_times`.
   */
  function BatchError(t: map<AttendanceId, Attendance>, vals: seq<Attendance>, today: Day): (r: Option<AttendanceError>)
    ensures r.None? <==> !BatchHasDuplicate(t, vals) && forall k | 0 <= k < |vals| :: RowOk(vals[k], today)
    ensures |vals| == 1 ==> r == RowError(t, vals[0], today)
  {
    if BatchHasDuplicate(t, vals) then Some(DuplicateAttendance)
    else if exists k | 0 <= k < |vals| :: !DateOk(vals[k], today) then Some(FutureDate)
    else if exists k | 0 <= k < |vals| :: !TimesOk(vals[k]) then Some(CheckOutNotAfterCheckIn)
    else None
  }

  /** The row of the batch `vals` that receives id `id` when ids are handed out from `next`. */
  function RowWithId(vals: seq<Attendance>, next: nat, id: AttendanceId): Attendance
    requires next <= id < next + |vals|
  {
    vals[id - next]
  }

  /** The table after `vals` are inserted with consecutive fresh ids starting at `next`. */
  function InsertBatch(t: map<AttendanceId, Attendance>, next: nat, vals: seq<Attendance>): map<AttendanceId, Attendance> {
    t + map id: AttendanceId | next <= id < next + |vals| :: RowWithId(vals, next, id)
  }

  /**
   * A batch that raises no duplicate error keeps the table's unique
   * constraint, provided the ids it takes are fresh.
   */
  lemma InsertBatchKeepsUnique(t: map<AttendanceId, Attendance>, next: nat, vals: seq<Attendance>)
    requires AttendanceUnique(t)
    requires forall i | i in t :: i < next
    requires !BatchHasDuplicate(t, vals)
    ensures AttendanceUnique(InsertBatch(t, next, vals))
  {
    var u := InsertBatch(t, next, vals);
    forall i, j | i in u && j in u && i != j
      ensures !SameSlot(u[i], u[j])
    {
      if i in t && j in t {
      } else if i in t {
        assert u[j] == vals[j - next] && !SlotTaken(t, vals[j - next]);
      } else if j in t {
        assert u[i] == vals[i - next] && !SlotTaken(t, vals[i - next]);
      } else if i < j {
        assert u[i] == vals[i - next] && u[j] == vals[j - next];
        assert !SameSlot(vals[i - next], vals[j - next]);
      } else {
        assert u[i] == vals[i - next] && u[j] == vals[j - next];
        assert !SameSlot(vals[j - next], vals[i - next]);
      }
    }
  }

  /** Recording the same slot twice: the second insertion raises the duplicate error. */
  lemma SecondRecordIsDuplicate(t: map<AttendanceId, Attendance>, next: nat, a: Attendance, b: Attendance, today: Day)
    requires forall i | i in t :: i < next
    requires SameSlot(a, b)
    ensures RowError(InsertBatch(t, next, [a]), b, today) == Some(DuplicateAttendance)
  {
    assert InsertBatch(t, next, [a])[next] == a;
  }

  /** Handing out the ids of `a` and then one more id for `v` is the batch insertion of `a + [v]`. */
  lemma InsertBatchStep(t: map<AttendanceId, Attendance>, next: nat, a: seq<Attendance>, v: Attendance)
    ensures InsertBatch(InsertBatch(t, next, a), next + |a|, [v]) == InsertBatch(t, next, a + [v])
  {
    var lhs := InsertBatch(InsertBatch(t, next, a), next + |a|, [v]);
    var rhs := InsertBatch(t, next, a + [v]);
    assert lhs.Keys == rhs.Keys;
    forall k | k in lhs ensures lhs[k] == rhs[k] {
      if next <= k < next + |a| {
        assert (a + [v])[k - next] == a[k - next];
      }
    }
  }

  /** Inserting row `i` after the rows before it is the batch insertion of the first `i + 1` rows. */
  lemma InsertBatchNext(t: map<AttendanceId, Attendance>, next: nat, vals: seq<Attendance>, i: nat)
    requires i < |vals|
    ensures InsertBatch(InsertBatch(t, next, vals[..i]), next + i, [vals[i..][0]]) == InsertBatch(t, next, vals[..i + 1])
  {
    assert vals[i..][0] == vals[i];
    assert vals[..i] + [vals[i]] == vals[..i + 1];
    InsertBatchStep(t, next, vals[..i], vals[i]);
  }

  /**
   * The error raised when the rows of `vals` are created one at a time,
   * each create inserting its row and running its own checks: the first
   * row that fails decides, and the rows before it are in the table.
   */
  function SequentialError(t: map<AttendanceId, Attendance>, next: nat, vals: seq<Attendance>, today: Day): (r: Option<AttendanceError>)
    ensures vals != [] && RowError(t, vals[0], today).Some? ==> r == RowError(t, vals[0], today)
    decreases |vals|
  {
    if vals == [] then None
    else if RowError(t, vals[0], today).Some? then RowError(t, vals[0], today)
    else SequentialError(InsertBatch(t, next, [vals[0]]), next + 1, vals[1..], today)
  }

  /** After one row `v` is inserted at a fresh id, a slot is taken when it was before or `v` holds it. */
  lemma SlotTakenAfterInsert(t: map<AttendanceId, Attendance>, next: nat, v: Attendance, x: Attendance)
    requires forall i | i in t :: i < next
    ensures SlotTaken(InsertBatch(t, next, [v]), x) <==> SlotTaken(t, x) || SameSlot(v, x)
  {
    var u := InsertBatch(t, next, [v]);
    assert u[next] == v;
    if SlotTaken(t, x) {
      var i :| i in t && SameSlot(t[i], x);
      assert u[i] == t[i];
    }
    if SlotTaken(u, x) && !SameSlot(v, x) {
      var i :| i in u && SameSlot(u[i], x);
      assert i in t && u[i] == t[i];
    }
  }

  /** A duplicate in `vals` behind a free first row is a duplicate of the rest once the first row is in. */
  lemma DuplicateMovesPastFirst(t: map<AttendanceId, Attendance>, next: nat, vals: seq<Attendance>)
    requires forall i | i in t :: i < next
    requires vals != [] && !SlotTaken(t, vals[0])
    requires BatchHasDuplicate(t, vals)
    ensures BatchHasDuplicate(InsertBatch(t, next, [vals[0]]), vals[1..])
  {
    var u, rest := InsertBatch(t, next, [vals[0]]), vals[1..];
    var k :| 0 <= k < |vals| && (SlotTaken(t, vals[k]) || exists j | 0 <= j < k :: SameSlot(vals[j], vals[k]));
    assert k > 0 && vals[k] == rest[k - 1];
    SlotTakenAfterInsert(t, next, vals[0], rest[k - 1]);
    if !SlotTaken(t, vals[k]) {
      var j :| 0 <= j < k && SameSlot(vals[j], vals[k]);
      if j > 0 {
        assert vals[j] == rest[j - 1];
      }
    }
    assert SlotTaken(u, rest[k - 1]) || exists j | 0 <= j < k - 1 :: SameSlot(rest[j], rest[k - 1]);
  }

  /** A duplicate of the rest, once the first row is in, is a duplicate of the whole batch. */
  lemma DuplicateMovesBeforeFirst(t: map<AttendanceId, Attendance>, next: nat, vals: seq<Attendance>)
    requires forall i | i in t :: i < next
    requires vals != []
    requires BatchHasDuplicate(InsertBatch(t, next, [vals[0]]), vals[1..])
    ensures BatchHasDuplicate(t, vals)
  {
    var u, rest := InsertBatch(t, next, [vals[0]]), vals[1..];
    var k :| 0 <= k < |rest| && (SlotTaken(u, rest[k]) || exists j | 0 <= j < k :: SameSlot(rest[j], rest[k]));
    assert rest[k] == vals[k + 1];
    SlotTakenAfterInsert(t, next, vals[0], rest[k]);
    if !SlotTaken(u, rest[k]) {
      var j :| 0 <= j < k && SameSlot(rest[j], rest[k]);
      assert rest[j] == vals[j + 1];
    }
    assert SlotTaken(t, vals[k + 1]) || exists j | 0 <= j < k + 1 :: SameSlot(vals[j], vals[k + 1]);
  }

  /** Every row of a non-empty batch passes its checks exactly when the first one and the rest do. */
  lemma AllRowsOkSplit(vals: seq<Attendance>, today: Day)
    requires vals != []
    ensures (forall k | 0 <= k < |vals| :: RowOk(vals[k], today))
            <==> RowOk(vals[0], today) && forall k | 0 <= k < |vals[1..]| :: RowOk(vals[1..][k], today)
  {
    if RowOk(vals[0], today) && forall k | 0 <= k < |vals[1..]| :: RowOk(vals[1..][k], today) {
      forall k | 0 <= k < |vals| ensures RowOk(vals[k], today) {
        if k > 0 { assert vals[k] == vals[1..][k - 1]; }
      }
    }
  }

  /**
   * Creating the rows one at a time fails exactly when creating them as
   * one batch fails: a duplicate of an earlier row of the batch is found
   * either way, once that row is in the table.
   */
  lemma {:induction false} SequentialMatchesBatch(t: map<AttendanceId, Attendance>, next: nat, vals: seq<Attendance>, today: Day)
    requires forall i | i in t :: i < next
    ensures SequentialError(t, next, vals, today).None? <==> BatchError(t, vals, today).None?
    decreases |vals|
  {
    if vals == [] {
      return;
    }
    if RowError(t, vals[0], today).Some? {
      FirstRowFailsBatch(t, vals, today);
      return;
    }
    InsertBatchBelow(t, next, [vals[0]]);
    SequentialMatchesBatch(InsertBatch(t, next, [vals[0]]), next + 1, vals[1..], today);
    FreeFirstRowDefersToRest(t, next, vals, today);
  }

  /** The ids of a batch inserted from `next` stay below `next + |vals|`. */
  lemma InsertBatchBelow(t: map<AttendanceId, Attendance>, next: nat, vals: seq<Attendance>)
    requires forall i | i in t :: i < next
    ensures forall i | i in InsertBatch(t, next, vals) :: i < next + |vals|
  {
  }

  /** A batch whose first row fails on its own fails as a batch. */
  lemma FirstRowFailsBatch(t: map<AttendanceId, Attendance>, vals: seq<Attendance>, today: Day)
    requires vals != [] && RowError(t, vals[0], today).Some?
    ensures BatchError(t, vals, today).Some?
  {
    if SlotTaken(t, vals[0]) {
      assert BatchHasDuplicate(t, vals);
    } else {
      assert !RowOk(vals[0], today);
    }
  }

  /** Behind a first row that passes, the batch passes exactly when the rest passes once that row is in. */
  lemma FreeFirstRowDefersToRest(t: map<AttendanceId, Attendance>, next: nat, vals: seq<Attendance>, today: Day)
    requires forall i | i in t :: i < next
    requires vals != [] && RowError(t, vals[0], today).None?
    ensures BatchError(t, vals, today).None? <==> BatchError(InsertBatch(t, next, [vals[0]]), vals[1..], today).None?
  {
    AllRowsOkSplit(vals, today);
    DuplicateIffAfterFirst(t, next, vals);
  }

  /** Behind a free first row, the batch has a duplicate exactly when the rest has one once that row is in. */
  lemma DuplicateIffAfterFirst(t: map<AttendanceId, Attendance>, next: nat, vals: seq<Attendance>)
    requires forall i | i in t :: i < next
    requires vals != [] && !SlotTaken(t, vals[0])
    ensures BatchHasDuplicate(t, vals) <==> BatchHasDuplicate(InsertBatch(t, next, [vals[0]]), vals[1..])
  {
    if BatchHasDuplicate(t, vals) {
      DuplicateMovesPastFirst(t, next, vals);
    }
    if BatchHasDuplicate(InsertBatch(t, next, [vals[0]]), vals[1..]) {
      DuplicateMovesBeforeFirst(t, next, vals);
    }
  }
}
