/**
 * The four-step bulk attendance wizard: choose a class and a date, choose
 * students, mark each student's line, and confirm, which creates one
 * attendance row per line in one batch.
 */
module BulkAttendance {
  import opened Common
  import opened Calendar
  import opened Records
  import opened AttendanceRules
  import opened EnrollmentRules
  import opened Store

  datatype Step = Selection | Students | AttendanceStep | SummaryStep

  /** The step `action_next_step` leads to; the summary is the last one. */
  function StepAfter(s: Step): Step {
    match s
    case Selection => Students
    case Students => AttendanceStep
    case AttendanceStep => SummaryStep
    case SummaryStep => SummaryStep
  }

  /** The step `action_previous_step` leads to; the selection is the first one. */
  function StepBefore(s: Step): Step {
    match s
    case Selection => Selection
    case Students => Selection
    case AttendanceStep => Students
    case SummaryStep => AttendanceStep
  }

  /** Going back undoes going forward and the other way round, except at the two ends. */
  lemma BackUndoesNext(s: Step)
    ensures s != SummaryStep ==> StepBefore(StepAfter(s)) == s
    ensures s != Selection ==> StepAfter(StepBefore(s)) == s
    ensures StepAfter(SummaryStep) == SummaryStep && StepBefore(Selection) == Selection
  {
  }

  /** One line of the wizard: a student, the state to record and optional notes. */
  datatype BulkLine = BulkLine(student: StudentId, state: AttendanceState, notes: Option<string>)

  datatype BulkState = AllPresent | AllAbsent | Custom

  /** The state a bulk action writes on every line; custom writes nothing. */
  function BulkTarget(b: BulkState): Option<AttendanceState> {
    match b
    case AllPresent => Some(Present)
    case AllAbsent => Some(Absent)
    case Custom => None
  }

  /** The context flags the wizard reads. */
  datatype WizardContext = WizardContext(allowDuplicateAttendance: bool, defaultAttendanceState: AttendanceState,
                                         trackTime: bool)

  const DefaultWizardContext := WizardContext(false, Present, false)

  datatype WizardError =
    | MissingClassOrDate                // "Please select class and date."
    | AttendanceExists                  // "Attendance already exists for this class and date."
    | NoStudents                        // "Please select at least one student."
    | NoAttendanceData                  // "No attendance data to process."
    | CreateFailed(error: AttendanceError)

  /** Some attendance row of `t` is for class `c` on day `d`. */
  predicate AttendanceExistsFor(t: map<AttendanceId, Attendance>, c: ClassId, d: Day) {
    exists k | k in t :: t[k].classId == c && t[k].date == d
  }

  // ---------------------------------------------------------------- summary

  /** The number of lines in state `st`. */
  function CountIn(lines: seq<BulkLine>, st: AttendanceState): (n: nat)
    ensures n <= |lines|
    ensures (forall i | 0 <= i < |lines| :: lines[i].state == st) ==> n == |lines|
    ensures (forall i | 0 <= i < |lines| :: lines[i].state != st) ==> n == 0
  {
    if lines == [] then 0
    else (if lines[0].state == st then 1 else 0) + CountIn(lines[1..], st)
  }

  /** Every line is in exactly one of the four states. */
  lemma {:induction false} StatesPartitionLines(lines: seq<BulkLine>)
    ensures CountIn(lines, Present) + CountIn(lines, Absent) + CountIn(lines, Late) + CountIn(lines, Excused) == |lines|
  {
    if lines != [] {
      StatesPartitionLines(lines[1..]);
    }
  }

  datatype WizardSummary = WizardSummary(totalStudents: nat, presentCount: nat, absentCount: nat, lateCount: nat)

  /**
   * `_compute_summary`: the lines, and the lines present, absent and late.
   * Excused lines are in the total only, so the three counts add up to the
   * total less the excused lines.
   */
  function Summary(lines: seq<BulkLine>): (s: WizardSummary)
    ensures s.totalStudents == |lines|
    ensures s.presentCount + s.absentCount + s.lateCount + CountIn(lines, Excused) == s.totalStudents
    ensures s.presentCount + s.absentCount + s.lateCount <= s.totalStudents
  {
    StatesPartitionLines(lines);
    WizardSummary(|lines|, CountIn(lines, Present), CountIn(lines, Absent), CountIn(lines, Late))
  }

  /** After marking all present (or all absent) every line is counted there and nowhere else. */
  lemma BulkStateSummary(lines: seq<BulkLine>, b: BulkState)
    requires b != Custom
    requires forall i | 0 <= i < |lines| :: Some(lines[i].state) == BulkTarget(b)
    ensures b == AllPresent ==> Summary(lines) == WizardSummary(|lines|, |lines|, 0, 0)
    ensures b == AllAbsent ==> Summary(lines) == WizardSummary(|lines|, 0, |lines|, 0)
  {
  }

  // ------------------------------------------------- attendance row values

  /** The enrolled enrollments of `student` in `course` (what the search with limit 1 looks in). */
  function MatchingEnrollments(enrollments: map<EnrollmentId, Enrollment>, student: StudentId, course: CourseId): set<EnrollmentId> {
    set k | k in enrollments && enrollments[k].student == student && enrollments[k].course == course
                             && enrollments[k].state == Enrolled
  }

  /** With (student, course) unique, there is at most one enrollment to link. */
  lemma AtMostOneMatch(enrollments: map<EnrollmentId, Enrollment>, student: StudentId, course: CourseId, x: EnrollmentId, y: EnrollmentId)
    requires EnrollmentsUnique(enrollments)
    requires x in MatchingEnrollments(enrollments, student, course) && y in MatchingEnrollments(enrollments, student, course)
    ensures x == y
  {
  }

  /**
   * `_prepare_attendance_vals` for one line: the wizard's class, date and
   * teacher, the line's student and state, the line's notes or else the
   * wizard's, the student's enrolled enrollment in the wizard's course when
   * there is one, and 08:00 to 17:00 on the day when time is tracked.
   */
  function PrepareValues(ctx: WizardContext, enrollments: map<EnrollmentId, Enrollment>, c: ClassId, d: Day,
                         teacher: Option<TeacherId>, course: Option<CourseId>, notes: Option<string>,
                         line: BulkLine): (a: Attendance)
    ensures a.student == line.student && a.classId == c && a.date == d && a.state == line.state && a.teacher == teacher
    ensures a.notes == OrElse(line.notes, notes)
    ensures a.enrollment.Some? <==> course.Some? && MatchingEnrollments(enrollments, line.student, course.value) != {}
    ensures a.enrollment.Some? ==> a.enrollment.value in MatchingEnrollments(enrollments, line.student, course.value)
    ensures ctx.trackTime ==> TimesOk(a) && Duration(a) == 9.0
    ensures !ctx.trackTime ==> Duration(a) == 0.0
  {
    var link := if course.Some? && MatchingEnrollments(enrollments, line.student, course.value) != {}
                then Some(Min(MatchingEnrollments(enrollments, line.student, course.value))) else None;
    var a := Attendance(line.student, c, link, d, line.state, teacher, OrElse(line.notes, notes), None, None);
    if ctx.trackTime then
      var timed := a.(checkIn := Some(StartOfDay(d) + 8 * SecondsPerHour),
                      checkOut := Some(StartOfDay(d) + 17 * SecondsPerHour));
      DurationOfSchoolDay(timed);
      timed
    else a
  }

  /** The values `action_confirm` collects, one per line, in line order. */
  function ConfirmValues(ctx: WizardContext, enrollments: map<EnrollmentId, Enrollment>, c: ClassId, d: Day,
                         teacher: Option<TeacherId>, course: Option<CourseId>, notes: Option<string>,
                         lines: seq<BulkLine>): seq<Attendance>
  {
    seq(|lines|, i requires 0 <= i < |lines| => PrepareValues(ctx, enrollments, c, d, teacher, course, notes, lines[i]))
  }

  /**
   * Once the rows of a non-empty confirmation are in the table, line `i`
   * is recorded under id `next + i` and the class and date are taken: the
   * selection step refuses to start over for them.
   */
  lemma ConfirmedLinesAreRecorded(ctx: WizardContext, enrollments: map<EnrollmentId, Enrollment>, c: ClassId, d: Day,
                                  teacher: Option<TeacherId>, course: Option<CourseId>, notes: Option<string>,
                                  lines: seq<BulkLine>, t: map<AttendanceId, Attendance>, next: nat)
    requires |lines| > 0
    ensures var after := InsertBatch(t, next, ConfirmValues(ctx, enrollments, c, d, teacher, course, notes, lines));
            (forall i | 0 <= i < |lines| ::
               next + i in after && after[next + i].student == lines[i].student && after[next + i].state == lines[i].state)
            && AttendanceExistsFor(after, c, d)
  {
    var vals := ConfirmValues(ctx, enrollments, c, d, teacher, course, notes, lines);
    var after := InsertBatch(t, next, vals);
    forall i | 0 <= i < |lines|
      ensures next + i in after && after[next + i].student == lines[i].student && after[next + i].state == lines[i].state
    {
      assert after[next + i] == vals[i];
    }
    assert after[next].classId == c && after[next].date == d;
  }

  // ----------------------------------------------------------------- wizard

  class BulkAttendanceWizard {
    var step: Step
    var classId: Option<ClassId>
    var date: Option<Day>
    var courseId: Option<CourseId>
    var teacherId: Option<TeacherId>
    var studentIds: seq<StudentId>
    var lines: seq<BulkLine>
    var bulkState: BulkState
    var notes: Option<string>

    /** A new wizard with the field defaults: first step, today's date, custom bulk action. */
    constructor (c: Option<ClassId>, today: Day)
      ensures step == Selection && classId == c && date == Some(today) && courseId == None && teacherId == None
      ensures studentIds == [] && lines == [] && bulkState == Custom && notes == None
    {
      step, classId, date, courseId, teacherId := Selection, c, Some(today), None, None;
      studentIds, lines, bulkState, notes := [], [], Custom, None;
    }

    /** `_generate_attendance_lines`: the old lines are replaced by one line per selected student. */
    method GenerateLines(ctx: WizardContext)
      modifies this`lines
      ensures |lines| == |studentIds|
      ensures forall i | 0 <= i < |lines| :: lines[i] == BulkLine(studentIds[i], ctx.defaultAttendanceState, Some(""))
    {
      lines := [];
      for i := 0 to |studentIds|
        invariant |lines| == i
        invariant forall k | 0 <= k < i :: lines[k] == BulkLine(studentIds[k], ctx.defaultAttendanceState, Some(""))
      {
        lines := lines + [BulkLine(studentIds[i], ctx.defaultAttendanceState, Some(""))];
      }
    }

    /**
     * `action_next_step`: each step has its own guard; a passing guard
     * moves one step forward and a failing one leaves the wizard as it was.
     */
    method NextStep(ctx: WizardContext, db: SchoolDb) returns (r: Outcome<WizardError>)
      modifies this`step, this`lines
      ensures r.Pass? ==> step == StepAfter(old(step))
      ensures r.Fail? ==> step == old(step) && lines == old(lines)
      ensures old(step) == Selection ==>
                (r.Pass? <==> classId.Some? && date.Some?
                              && (ctx.allowDuplicateAttendance || !AttendanceExistsFor(db.attendances, classId.value, date.value)))
                && (classId.None? || date.None? ==> r == Fail(MissingClassOrDate))
                && (classId.Some? && date.Some? && r.Fail? ==> r == Fail(AttendanceExists))
                && lines == old(lines)
      ensures old(step) == Students ==>
                (r.Pass? <==> |studentIds| > 0) && (r.Fail? ==> r == Fail(NoStudents))
                && (r.Pass? ==> |lines| == |studentIds|
                                && forall i | 0 <= i < |lines| :: lines[i] == BulkLine(studentIds[i], ctx.defaultAttendanceState, Some("")))
      ensures old(step) == AttendanceStep ==>
                (r.Pass? <==> |lines| > 0) && (r.Fail? ==> r == Fail(NoAttendanceData)) && lines == old(lines)
      ensures old(step) == SummaryStep ==> r.Pass? && lines == old(lines)
    {
      match step
      case Selection =>
        if classId.None? || date.None? {
          return Fail(MissingClassOrDate);
        }
        if !ctx.allowDuplicateAttendance && AttendanceExistsFor(db.attendances, classId.value, date.value) {
          return Fail(AttendanceExists);
        }
        step := Students;
        r := Pass;
      case Students =>
        if |studentIds| == 0 {
          return Fail(NoStudents);
        }
        GenerateLines(ctx);
        step := AttendanceStep;
        r := Pass;
      case AttendanceStep =>
        if |lines| == 0 {
          return Fail(NoAttendanceData);
        }
        step := SummaryStep;
        r := Pass;
      case SummaryStep =>
        r := Pass;
    }

    /** `action_previous_step`: one step back; the first step stays where it is. */
    method PreviousStep()
      modifies this`step
      ensures step == StepBefore(old(step))
    {
      step := StepBefore(step);
    }

    /**
     * `_onchange_bulk_state`: mark all present or all absent overwrites the
     * state of every line and nothing else; custom leaves the lines alone.
     */
    method ApplyBulkState()
      modifies this`lines
      ensures bulkState == Custom ==> lines == old(lines)
      ensures |lines| == |old(lines)|
      ensures bulkState != Custom ==>
                forall i | 0 <= i < |lines| :: lines[i] == old(lines)[i].(state := BulkTarget(bulkState).value)
    {
      if bulkState == Custom || |lines| == 0 {
        return;
      }
      var st := BulkTarget(bulkState).value;
      for i := 0 to |lines|
        invariant |lines| == |old(lines)|
        invariant forall k | 0 <= k < i :: lines[k] == old(lines)[k].(state := st)
        invariant forall k | i <= k < |lines| :: lines[k] == old(lines)[k]
      {
        lines := lines[i := lines[i].(state := st)];
      }
    }

    /**
     * `action_confirm`: with no line it raises; otherwise it collects the
     * values of every line and creates them in one batch, which either
     * inserts them all or raises and inserts none.
     */
    method Confirm(ctx: WizardContext, db: SchoolDb, today: Day) returns (r: Outcome<WizardError>)
      requires db.Valid()
      requires classId.Some? && date.Some?
      modifies db`attendances, db`nextId
      ensures db.Valid()
      ensures |lines| == 0 ==> r == Fail(NoAttendanceData)
      ensures var vals := ConfirmValues(ctx, db.enrollments, classId.value, date.value, teacherId, courseId, notes, lines);
              var err := BatchError(old(db.attendances), vals, today);
              |lines| > 0 ==>
                (err.Some? ==> r == Fail(CreateFailed(err.value)))
                && (err.None? ==> r == Pass && db.attendances == InsertBatch(old(db.attendances), old(db.nextId), vals)
                                  && db.nextId == old(db.nextId) + |lines|)
      ensures r.Fail? ==> db.attendances == old(db.attendances) && db.nextId == old(db.nextId)
    {
      if |lines| == 0 {
        return Fail(NoAttendanceData);
      }
      var vals: seq<Attendance> := [];
      for i := 0 to |lines|
        invariant |vals| == i
        invariant forall k | 0 <= k < i ::
                    vals[k] == PrepareValues(ctx, db.enrollments, classId.value, date.value, teacherId, courseId, notes, lines[k])
      {
        vals := vals + [PrepareValues(ctx, db.enrollments, classId.value, date.value, teacherId, courseId, notes, lines[i])];
      }
      assert vals == ConfirmValues(ctx, db.enrollments, classId.value, date.value, teacherId, courseId, notes, lines);
      var created := db.CreateAttendances(vals, today);
      if created.Fail? {
        return Fail(CreateFailed(created.error));
      }
      r := Pass;
    }
  }
}
