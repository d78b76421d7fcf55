/**
 * The enrollment engine: the six-state workflow of a student's enrollment
 * in a course, the guards on each step (prerequisites, seats, attendance,
 * an existing invoice, the date constraint), the letter grade, the
 * attendance statistics, the invoice and refund an enrollment produces,
 * and the constraints of the enrollment table.
 *
 * Each guard is stated over the tables as they are before the action;
 * the database class applies the writes the action makes when its guard
 * passes.
 */
module EnrollmentRules {
  import opened Common
  import opened Calendar
  import opened Records
  import opened AttendanceRules
  import CourseRollups

  /**
   * The context flags the enrollment actions read, with their defaults in
   * `DefaultEnrollContext`.
   */
  datatype EnrollContext = EnrollContext(
    skipPrerequisites: bool,
    skipCapacity: bool,
    generateInvoice: bool,
    minAttendancePercentage: real,
    autoGrade: bool,
    cancellationReason: string,
    processRefund: bool,
    autoConfirm: bool,
    defaultCourse: Option<CourseId>)

  const DefaultEnrollContext: EnrollContext :=
    EnrollContext(false, false, true, 75.0, false, "Student request", false, false, None)

  /** The five workflow actions. */
  datatype EnrollmentAction = Confirming | Enrolling | Completing | Cancelling | Failing

  datatype EnrollError =
    | WrongState(action: EnrollmentAction, state: EnrollmentState)
    | MissingPrerequisites(missing: set<CourseId>, names: string)
    | CourseFull
    | AttendanceBelowMinimum(minimum: real)
    | InvoiceAlreadyExists
    | CompletionBeforeEnrollment   // _check_dates
    | DuplicateEnrollment          // unique(student_id, course_id)
    | ScoreOutOfRange              // check(score >= 0 AND score <= 100)
    | CourseRequired
    | UnknownRecord

  // ---------------------------------------------------------------- workflow

  /** The states each action accepts. */
  predicate CanStart(a: EnrollmentAction, s: EnrollmentState) {
    match a
    case Confirming => s == Draft
    case Enrolling => s == Confirmed
    case Completing => s == Enrolled
    case Failing => s == Enrolled
    case Cancelling => s != Completed && s != Cancelled
  }

  /** The state each action leads to. */
  function Target(a: EnrollmentAction): EnrollmentState {
    match a
    case Confirming => Confirmed
    case Enrolling => Enrolled
    case Completing => Completed
    case Failing => Failed
    case Cancelling => Cancelled
  }

  /** The enrollment lifecycle, written out edge by edge. */
  const Lifecycle: set<(EnrollmentState, EnrollmentState)> := {
    (Draft, Confirmed), (Confirmed, Enrolled), (Enrolled, Completed), (Enrolled, Failed),
    (Draft, Cancelled), (Confirmed, Cancelled), (Enrolled, Cancelled), (Failed, Cancelled)
  }

  /**
   * The actions realise exactly the edges of the lifecycle (a failed
   * enrollment can still be cancelled), and completed and cancelled
   * enrollments accept no action at all.
   */
  lemma ActionsRealiseLifecycle(from: EnrollmentState, to: EnrollmentState)
    ensures (from, to) in Lifecycle <==> exists a :: CanStart(a, from) && Target(a) == to
    ensures forall a :: !CanStart(a, Completed) && !CanStart(a, Cancelled)
    ensures forall a :: CanStart(a, Failed) <==> a == Cancelling
  {
    if (from, to) in Lifecycle {
      var a := if to == Confirmed then Confirming else if to == Enrolled then Enrolling
               else if to == Completed then Completing else if to == Failed then Failing else Cancelling;
      assert CanStart(a, from) && Target(a) == to;
    }
  }

  // ----------------------------------------------------------- prerequisites

  /** The enrollments of a student (the student's `enrollment_ids`). */
  function StudentEnrollments(enrollments: map<EnrollmentId, Enrollment>, s: StudentId): set<EnrollmentId> {
    set k | k in enrollments && enrollments[k].student == s
  }

  /** The courses of a student's completed enrollments. */
  function CompletedCourses(enrollments: map<EnrollmentId, Enrollment>, s: StudentId): set<CourseId> {
    set k | k in enrollments && enrollments[k].student == s && enrollments[k].state == Completed :: enrollments[k].course
  }

  /** `", ".join(names)`. */
  function JoinNames(names: seq<string>): string {
    if names == [] then "" else if |names| == 1 then names[0] else names[0] + ", " + JoinNames(names[1..])
  }

  /** The names of courses `ids`, in id order, joined for the error message. */
  function CourseNames(courses: map<CourseId, Course>, ids: set<CourseId>): string {
    var order := Ordered(ids);
    JoinNames(seq(|order|, i requires 0 <= i < |order| => if order[i] in courses then courses[order[i]].name else ""))
  }

  /**
   * The prerequisites a read of `prerequisite_ids` yields: the records of
   * the relation that exist and are not archived.
   */
  function ActivePrerequisites(courses: map<CourseId, Course>, course: Course): set<CourseId> {
    set p | p in course.prerequisites && p in courses && courses[p].active
  }

  /**
   * `_check_prerequisites`: it fails exactly when some active prerequisite
   * of the course is not among the courses the student has completed, and
   * the error carries those missing courses and their names.
   */
  function CheckPrerequisites(courses: map<CourseId, Course>, course: Course, completed: set<CourseId>): (r: Outcome<EnrollError>)
    ensures r.Pass? <==> forall p | p in course.prerequisites && p in courses && courses[p].active :: p in completed
    ensures r.Fail? ==> r.error == MissingPrerequisites(ActivePrerequisites(courses, course) - completed,
                                                        CourseNames(courses, ActivePrerequisites(courses, course) - completed))
  {
    var missing := ActivePrerequisites(courses, course) - completed;
    assert missing == {} <==> ActivePrerequisites(courses, course) <= completed by {
      if missing == {} {
        forall c | c in ActivePrerequisites(courses, course) ensures c in completed { assert c !in missing; }
      }
    }
    if missing != {} then Fail(MissingPrerequisites(missing, CourseNames(courses, missing))) else Pass
  }

  /**
   * An archived prerequisite is not required: a course whose only
   * prerequisite is archived can be entered without completing it.
   */
  lemma ArchivedPrerequisiteIgnored(courses: map<CourseId, Course>, course: Course, p: CourseId, completed: set<CourseId>)
    requires course.prerequisites == {p} && p in courses && !courses[p].active
    ensures CheckPrerequisites(courses, course, completed) == Pass
  {
    assert ActivePrerequisites(courses, course) == {};
  }

  // ---------------------------------------------------------------- capacity

  /** The enrollments holding a seat of course `c`: confirmed or enrolled. */
  function HeldSeats(enrollments: map<EnrollmentId, Enrollment>, c: CourseId): set<EnrollmentId> {
    set k | k in enrollments && enrollments[k].course == c
                               && (enrollments[k].state == Confirmed || enrollments[k].state == Enrolled)
  }

  /** `_check_course_capacity`: a set capacity blocks once the held seats reach it. */
  function CheckCourseCapacity(course: Course, held: nat): (r: Outcome<EnrollError>)
    ensures r.Fail? <==> course.capacity != 0 && held >= course.capacity
    ensures r.Fail? ==> r.error == CourseFull
  {
    if course.capacity != 0 && held >= course.capacity then Fail(CourseFull) else Pass
  }

  // ------------------------------------------------------------------ guards

  /** The enrollment `id` and its course are in the tables. */
  predicate Known(enrollments: map<EnrollmentId, Enrollment>, courses: map<CourseId, Course>, id: EnrollmentId) {
    id in enrollments && enrollments[id].course in courses
  }

  /**
   * `action_confirm`: the enrollment must be a draft; then, unless skipped,
   * the prerequisites must be complete and a seat must be free.
   */
  function ConfirmCheck(ctx: EnrollContext, enrollments: map<EnrollmentId, Enrollment>,
                        courses: map<CourseId, Course>, id: EnrollmentId): (r: Outcome<EnrollError>)
    requires Known(enrollments, courses, id)
    ensures var e := enrollments[id]; var course := courses[e.course];
            r.Pass? <==> e.state == Draft
                         && (ctx.skipPrerequisites || ActivePrerequisites(courses, course) <= CompletedCourses(enrollments, e.student))
                         && (ctx.skipCapacity || course.capacity == 0 || |HeldSeats(enrollments, e.course)| < course.capacity)
    ensures enrollments[id].state != Draft ==> r == Fail(WrongState(Confirming, enrollments[id].state))
    ensures var e := enrollments[id]; var course := courses[e.course];
            var done := CompletedCourses(enrollments, e.student);
            (e.state == Draft && !ctx.skipPrerequisites && !(ActivePrerequisites(courses, course) <= done))
            ==> r == Fail(MissingPrerequisites(ActivePrerequisites(courses, course) - done,
                                              CourseNames(courses, ActivePrerequisites(courses, course) - done)))
    ensures var e := enrollments[id]; var course := courses[e.course];
            (e.state == Draft
             && (ctx.skipPrerequisites || ActivePrerequisites(courses, course) <= CompletedCourses(enrollments, e.student))
             && !ctx.skipCapacity && course.capacity != 0 && |HeldSeats(enrollments, e.course)| >= course.capacity)
            ==> r == Fail(CourseFull)
  {
    var e := enrollments[id];
    var course := courses[e.course];
    if e.state != Draft then Fail(WrongState(Confirming, e.state))
    else if !ctx.skipPrerequisites && CheckPrerequisites(courses, course, CompletedCourses(enrollments, e.student)).Fail? then
      CheckPrerequisites(courses, course, CompletedCourses(enrollments, e.student))
    else if !ctx.skipCapacity && CheckCourseCapacity(course, |HeldSeats(enrollments, e.course)|).Fail? then
      Fail(CourseFull)
    else Pass
  }

  /** The enrollment table after confirming `id`. */
  function WithConfirmed(enrollments: map<EnrollmentId, Enrollment>, id: EnrollmentId): map<EnrollmentId, Enrollment>
    requires id in enrollments
  {
    enrollments[id := enrollments[id].(state := Confirmed)]
  }

  /**
   * With the capacity check in force, a confirmation never takes a course
   * beyond its capacity: the seat it takes is the one the check found free.
   */
  lemma {:induction false} ConfirmRespectsCapacity(ctx: EnrollContext, enrollments: map<EnrollmentId, Enrollment>,
                                                   courses: map<CourseId, Course>, id: EnrollmentId)
    requires Known(enrollments, courses, id) && !ctx.skipCapacity
    requires ConfirmCheck(ctx, enrollments, courses, id).Pass?
    requires courses[enrollments[id].course].capacity > 0
    ensures |HeldSeats(WithConfirmed(enrollments, id), enrollments[id].course)| <= courses[enrollments[id].course].capacity
  {
    var c := enrollments[id].course;
    var after := WithConfirmed(enrollments, id);
    assert HeldSeats(after, c) == HeldSeats(enrollments, c) + {id};
    assert id !in HeldSeats(enrollments, c);
  }

  /**
   * `action_confirm` on a recordset: each enrollment in turn, checked
   * against the table the earlier ones left (so the seats they took are
   * held); the first refusal is raised, and the rollback leaves the table
   * as it was.
   */
  function ConfirmAll(ctx: EnrollContext, enrollments: map<EnrollmentId, Enrollment>,
                      courses: map<CourseId, Course>, ids: seq<EnrollmentId>): (r: Result<map<EnrollmentId, Enrollment>, EnrollError>)
    requires forall i | 0 <= i < |ids| :: Known(enrollments, courses, ids[i])
    ensures r.Ok? ==> r.value.Keys == enrollments.Keys
    decreases |ids|
  {
    if ids == [] then Ok(enrollments)
    else
      var c := ConfirmCheck(ctx, enrollments, courses, ids[0]);
      if c.Fail? then Err(c.error)
      else
        var w := WithConfirmed(enrollments, ids[0]);
        assert forall j | 0 <= j < |ids[1..]| :: Known(w, courses, ids[1..][j]) by {
          forall j | 0 <= j < |ids[1..]| ensures Known(w, courses, ids[1..][j]) {
            assert ids[1..][j] == ids[j + 1] && Known(enrollments, courses, ids[j + 1]);
          }
        }
        ConfirmAll(ctx, w, courses, ids[1..])
  }

  /** The next enrollments of a recordset see the table the first one left. */
  lemma ConfirmAllStep(ctx: EnrollContext, enrollments: map<EnrollmentId, Enrollment>,
                       courses: map<CourseId, Course>, ids: seq<EnrollmentId>)
    requires ids != [] && forall i | 0 <= i < |ids| :: Known(enrollments, courses, ids[i])
    ensures ConfirmCheck(ctx, enrollments, courses, ids[0]).Pass? ==>
              forall j | 0 <= j < |ids[1..]| :: Known(WithConfirmed(enrollments, ids[0]), courses, ids[1..][j])
    ensures ConfirmCheck(ctx, enrollments, courses, ids[0]).Pass? ==>
              ConfirmAll(ctx, enrollments, courses, ids) == ConfirmAll(ctx, WithConfirmed(enrollments, ids[0]), courses, ids[1..])
    ensures ConfirmCheck(ctx, enrollments, courses, ids[0]).Fail? ==>
              ConfirmAll(ctx, enrollments, courses, ids) == Err(ConfirmCheck(ctx, enrollments, courses, ids[0]).error)
  {
    var w := WithConfirmed(enrollments, ids[0]);
    forall j | 0 <= j < |ids[1..]| ensures Known(w, courses, ids[1..][j]) {
      assert ids[1..][j] == ids[j + 1] && Known(enrollments, courses, ids[j + 1]);
    }
  }

  /** A confirmed recordset leaves its enrollments confirmed and the others as they were. */
  lemma {:induction false} ConfirmAllConfirms(ctx: EnrollContext, enrollments: map<EnrollmentId, Enrollment>,
                                              courses: map<CourseId, Course>, ids: seq<EnrollmentId>)
    requires forall i | 0 <= i < |ids| :: Known(enrollments, courses, ids[i])
    requires ConfirmAll(ctx, enrollments, courses, ids).Ok?
    ensures ConfirmAll(ctx, enrollments, courses, ids).value == AllConfirmed(enrollments, ids)
    decreases |ids|
  {
    if ids == [] {
      assert AllConfirmed(enrollments, ids) == enrollments;
    } else {
      ConfirmAllStep(ctx, enrollments, courses, ids);
      var w := WithConfirmed(enrollments, ids[0]);
      ConfirmAllConfirms(ctx, w, courses, ids[1..]);
      AllConfirmedCons(enrollments, ids);
    }
  }

  /** Confirming the first enrollment and then the rest confirms them all. */
  lemma AllConfirmedCons(enrollments: map<EnrollmentId, Enrollment>, ids: seq<EnrollmentId>)
    requires ids != [] && ids[0] in enrollments
    ensures AllConfirmed(WithConfirmed(enrollments, ids[0]), ids[1..]) == AllConfirmed(enrollments, ids)
  {
    var m, want := AllConfirmed(WithConfirmed(enrollments, ids[0]), ids[1..]), AllConfirmed(enrollments, ids);
    forall k | k in enrollments ensures m[k] == want[k] {
      assert k in ids <==> k == ids[0] || k in ids[1..] by {
        assert ids == [ids[0]] + ids[1..];
      }
    }
    assert m == want;
  }

  /** The table with the enrollments `ids` confirmed and every other one as it was. */
  function AllConfirmed(enrollments: map<EnrollmentId, Enrollment>, ids: seq<EnrollmentId>): (m: map<EnrollmentId, Enrollment>)
    ensures m.Keys == enrollments.Keys
    ensures forall k | k in m :: m[k] == enrollments[k].(state := m[k].state)
  {
    map k | k in enrollments :: if k in ids then enrollments[k].(state := Confirmed) else enrollments[k]
  }

  /** A recordset is confirmed only when it holds each enrollment once, and each of them is a draft. */
  lemma {:induction false} ConfirmAllNeedsDistinctDrafts(ctx: EnrollContext, enrollments: map<EnrollmentId, Enrollment>,
                                                         courses: map<CourseId, Course>, ids: seq<EnrollmentId>)
    requires forall i | 0 <= i < |ids| :: Known(enrollments, courses, ids[i])
    requires ConfirmAll(ctx, enrollments, courses, ids).Ok?
    ensures Distinct(ids)
    ensures forall i | 0 <= i < |ids| :: ids[i] in enrollments && enrollments[ids[i]].state == Draft
    decreases |ids|
  {
    if ids != [] {
      ConfirmAllStep(ctx, enrollments, courses, ids);
      var w := WithConfirmed(enrollments, ids[0]);
      var rest := ids[1..];
      ConfirmAllNeedsDistinctDrafts(ctx, w, courses, rest);
      assert enrollments[ids[0]].state == Draft && w[ids[0]].state == Confirmed;
      forall j | 0 < j < |ids| ensures ids[j] != ids[0] && enrollments[ids[j]].state == Draft {
        assert ids[j] == rest[j - 1] && w[ids[j]].state == Draft;
        assert ids[j] != ids[0];
        assert enrollments[ids[j]] == w[ids[j]];
      }
      forall i, j | 0 <= i < j < |ids| ensures ids[i] != ids[j] {
        if i > 0 { assert ids[i] == rest[i - 1] && ids[j] == rest[j - 1]; }
      }
    }
  }

  /**
   * The loop of `action_confirm` over the table's values: each enrollment
   * in turn against the states the earlier ones were given, stopping at the
   * first refusal.
   */
  method ConfirmEach(ctx: EnrollContext, enrollments: map<EnrollmentId, Enrollment>,
                     courses: map<CourseId, Course>, ids: seq<EnrollmentId>) returns (r: Result<map<EnrollmentId, Enrollment>, EnrollError>)
    requires forall i | 0 <= i < |ids| :: Known(enrollments, courses, ids[i])
    ensures r == ConfirmAll(ctx, enrollments, courses, ids)
  {
    var table := enrollments;
    var i := 0;
    while i < |ids|
      invariant 0 <= i <= |ids|
      invariant forall j | 0 <= j < |ids| :: Known(table, courses, ids[j])
      invariant ConfirmAll(ctx, enrollments, courses, ids) == ConfirmAll(ctx, table, courses, ids[i..])
    {
      assert ids[i..][0] == ids[i] && ids[i..][1..] == ids[i + 1..];
      ConfirmAllStep(ctx, table, courses, ids[i..]);
      var c := ConfirmCheck(ctx, table, courses, ids[i]);
      if c.Fail? {
        return Err(c.error);
      }
      table := WithConfirmed(table, ids[i]);
      i := i + 1;
    }
    assert ids[i..] == [];
    r := Ok(table);
  }

  /** A recordset of one enrollment is confirmed exactly as that enrollment alone. */
  lemma ConfirmAllSingle(ctx: EnrollContext, enrollments: map<EnrollmentId, Enrollment>,
                         courses: map<CourseId, Course>, id: EnrollmentId)
    requires Known(enrollments, courses, id)
    ensures var c := ConfirmCheck(ctx, enrollments, courses, id);
            ConfirmAll(ctx, enrollments, courses, [id]) ==
              if c.Pass? then Ok(WithConfirmed(enrollments, id)) else Err(c.error)
  {
    assert [id][1..] == [];
  }

  /**
   * Two drafts on a course with one free seat: the first alone could be
   * confirmed, but confirming both refuses the second, so neither is.
   */
  lemma LastSeatRefusesPair()
    ensures var course := Course("Algebra", 1, None, None, 0, 1, false, {}, true);
            var enrollments := map[1 := Enrollment(7, 5, None, Draft, None, None, 0.0, None, None),
                                   2 := Enrollment(8, 5, None, Draft, None, None, 0.0, None, None)];
            var courses := map[5 := course];
            ConfirmCheck(DefaultEnrollContext, enrollments, courses, 1).Pass?
            && ConfirmAll(DefaultEnrollContext, enrollments, courses, [1, 2]) == Err(CourseFull)
  {
    var course := Course("Algebra", 1, None, None, 0, 1, false, {}, true);
    var enrollments := map[1 := Enrollment(7, 5, None, Draft, None, None, 0.0, None, None),
                           2 := Enrollment(8, 5, None, Draft, None, None, 0.0, None, None)];
    var courses := map[5 := course];
    assert HeldSeats(enrollments, 5) == {};
    assert ActivePrerequisites(courses, course) == {};
    var after := WithConfirmed(enrollments, 1);
    assert HeldSeats(after, 5) == {1};
    assert [1, 2][1..] == [2];
  }

  /**
   * The course's own headroom counts enrolled enrollments only, so it can
   * show free seats while confirmation is refused for lack of them.
   */
  lemma HeadroomCanDisagreeWithCapacityCheck()
    ensures var course := Course("Algebra", 1, None, None, 0, 1, false, {}, true);
            var enrollments := map[1 := Enrollment(7, 5, None, Confirmed, None, None, 0.0, None, None),
                                   2 := Enrollment(8, 5, None, Draft, None, None, 0.0, None, None)];
            var courses := map[5 := course];
            CourseRollups.Totals(course, enrollments, 5).availableCapacity == 1
            && ConfirmCheck(DefaultEnrollContext, enrollments, courses, 2) == Fail(CourseFull)
  {
    var course := Course("Algebra", 1, None, None, 0, 1, false, {}, true);
    var enrollments := map[1 := Enrollment(7, 5, None, Confirmed, None, None, 0.0, None, None),
                           2 := Enrollment(8, 5, None, Draft, None, None, 0.0, None, None)];
    assert CourseRollups.EnrolledIn(enrollments, 5) == {};
    assert HeldSeats(enrollments, 5) == {1};
    assert CompletedCourses(enrollments, 8) == {};
  }

  /**
   * `action_enroll`: the enrollment must be confirmed; with invoice
   * generation on, an invoice already linked is an error (checked before the
   * fee); writing today's enrollment date must not put it after a
   * completion date already set.
   */
  function EnrollCheck(ctx: EnrollContext, e: Enrollment, today: Day): (r: Outcome<EnrollError>)
    ensures r.Pass? <==> e.state == Confirmed && !(ctx.generateInvoice && e.invoice.Some?)
                         && !(e.completionDate.Some? && e.completionDate.value < today)
    ensures e.state != Confirmed ==> r == Fail(WrongState(Enrolling, e.state))
    ensures e.state == Confirmed && ctx.generateInvoice && e.invoice.Some? ==> r == Fail(InvoiceAlreadyExists)
    ensures (e.state == Confirmed && !(ctx.generateInvoice && e.invoice.Some?)
             && e.completionDate.Some? && e.completionDate.value < today) ==> r == Fail(CompletionBeforeEnrollment)
  {
    if e.state != Confirmed then Fail(WrongState(Enrolling, e.state))
    else if ctx.generateInvoice && e.invoice.Some? then Fail(InvoiceAlreadyExists)
    else if e.completionDate.Some? && e.completionDate.value < today then Fail(CompletionBeforeEnrollment)
    else Pass
  }

  /** An invoice is created when generation is on and the course has a fee. */
  predicate CreatesInvoice(ctx: EnrollContext, course: Course) {
    ctx.generateInvoice && course.feeAmount != 0
  }

  /**
   * The invoice of an enrollment (`_prepare_invoice_vals`): a customer
   * invoice for the student's partner, dated today, with one line of
   * quantity 1 at the course fee; a new move is a draft named "/".
   */
  function InvoiceFor(course: Course, partner: Option<PartnerId>, today: Day): (inv: Invoice)
    ensures inv.moveType == OutInvoice && inv.partner == partner && inv.invoiceDate == Some(today)
    ensures |inv.lines| == 1 && inv.lines[0].quantity == 1 && inv.lines[0].priceUnit == course.feeAmount
    ensures inv.lines[0].product == course.product
    ensures AmountTotal(inv) == course.feeAmount
    ensures inv.paymentState == NotPaid && inv.reversedEntry.None?
  {
    var line := InvoiceLine(course.product, "Course Enrollment: " + course.name, 1, course.feeAmount);
    assert LinesTotal([line]) == course.feeAmount by { assert [line][1..] == []; }
    Invoice("/", OutInvoice, partner, Some(today), "Enrollment: " + course.name, [line], NotPaid, None)
  }

  /** The rows of the attendance table linked to enrollment `id`. */
  function EnrollmentRows(attendances: map<AttendanceId, Attendance>, id: EnrollmentId): set<AttendanceId> {
    set k | k in attendances && attendances[k].enrollment == Some(id)
  }

  /**
   * `_compute_attendance_stats`: the linked rows, the present ones among
   * them, and the percentage, all 0 without rows.
   */
  function EnrollmentStats(attendances: map<AttendanceId, Attendance>, id: EnrollmentId): (s: AttendanceStats)
    ensures s.totalClasses == |EnrollmentRows(attendances, id)|
    ensures s.attendedClasses == |PresentRows(attendances, EnrollmentRows(attendances, id))|
    ensures s.attendedClasses <= s.totalClasses && 0.0 <= s.percentage <= 100.0
    ensures s.totalClasses == 0 ==> s.attendedClasses == 0 && s.percentage == 0.0
    ensures s.totalClasses > 0 ==> s.percentage == (s.attendedClasses as real) / (s.totalClasses as real) * 100.0
  {
    StatsOver(attendances, EnrollmentRows(attendances, id))
  }

  /**
   * `action_complete`: the enrollment must be enrolled and its attendance
   * percentage must reach the minimum; writing today's completion date
   * must not put it before the enrollment date.
   */
  function CompleteCheck(ctx: EnrollContext, attendances: map<AttendanceId, Attendance>,
                         enrollments: map<EnrollmentId, Enrollment>, id: EnrollmentId, today: Day): (r: Outcome<EnrollError>)
    requires id in enrollments
    ensures var e := enrollments[id];
            r.Pass? <==> e.state == Enrolled
                         && EnrollmentStats(attendances, id).percentage >= ctx.minAttendancePercentage
                         && !(e.enrollmentDate.Some? && today < e.enrollmentDate.value)
    ensures enrollments[id].state == Enrolled && EnrollmentStats(attendances, id).percentage < ctx.minAttendancePercentage
            ==> r == Fail(AttendanceBelowMinimum(ctx.minAttendancePercentage))
    ensures enrollments[id].state != Enrolled ==> r == Fail(WrongState(Completing, enrollments[id].state))
    ensures var e := enrollments[id];
            (e.state == Enrolled && EnrollmentStats(attendances, id).percentage >= ctx.minAttendancePercentage
             && e.enrollmentDate.Some? && today < e.enrollmentDate.value) ==> r == Fail(CompletionBeforeEnrollment)
  {
    var e := enrollments[id];
    if e.state != Enrolled then Fail(WrongState(Completing, e.state))
    else if EnrollmentStats(attendances, id).percentage < ctx.minAttendancePercentage then
      Fail(AttendanceBelowMinimum(ctx.minAttendancePercentage))
    else if e.enrollmentDate.Some? && today < e.enrollmentDate.value then Fail(CompletionBeforeEnrollment)
    else Pass
  }

  /**
   * With linked attendance, completion under the default minimum needs at
   * least three present rows in four.
   */
  lemma {:induction false} CompletionNeedsThreeQuarters(attendances: map<AttendanceId, Attendance>,
                                                        enrollments: map<EnrollmentId, Enrollment>, id: EnrollmentId, today: Day)
    requires id in enrollments && EnrollmentRows(attendances, id) != {}
    ensures var s := EnrollmentStats(attendances, id);
            CompleteCheck(DefaultEnrollContext, attendances, enrollments, id, today).Pass? ==>
              4 * s.attendedClasses >= 3 * s.totalClasses
  {
    var s := EnrollmentStats(attendances, id);
    RateReachesThreshold(s.attendedClasses, s.totalClasses, 75.0);
    assert s.percentage == RatePercent(s.attendedClasses, s.totalClasses);
  }

  /** The lowest score of each grade (F has none). */
  function MinScore(g: Grade): real {
    match g
    case APlus => 95.0
    case A => 90.0
    case BPlus => 85.0
    case B => 80.0
    case CPlus => 75.0
    case C => 70.0
    case D => 60.0
    case F => 0.0
  }

  /** Grades from best (0) to worst (7). */
  function Rank(g: Grade): nat {
    match g
    case APlus => 0
    case A => 1
    case BPlus => 2
    case B => 3
    case CPlus => 4
    case C => 5
    case D => 6
    case F => 7
  }

  /**
   * `_auto_assign_grade`: the best grade whose lowest score the score
   * reaches, F when it reaches none.
   */
  function GradeFor(score: real): (g: Grade)
    ensures g != F ==> score >= MinScore(g)
    ensures forall h: Grade | Rank(h) < Rank(g) :: score < MinScore(h)
  {
    if score >= 95.0 then APlus
    else if score >= 90.0 then A
    else if score >= 85.0 then BPlus
    else if score >= 80.0 then B
    else if score >= 75.0 then CPlus
    else if score >= 70.0 then C
    else if score >= 60.0 then D
    else F
  }

  /** A higher score never earns a worse grade. */
  lemma GradeMonotone(s1: real, s2: real)
    requires s1 <= s2
    ensures Rank(GradeFor(s2)) <= Rank(GradeFor(s1))
  {
  }

  /** The grade after completion: assigned from the score only when it is nonzero and auto-grading is on. */
  function GradeAfterCompletion(ctx: EnrollContext, e: Enrollment): (g: Option<Grade>)
    ensures ctx.autoGrade && e.score != 0.0 ==> g == Some(GradeFor(e.score))
    ensures !(ctx.autoGrade && e.score != 0.0) ==> g == e.grade
  {
    if e.score != 0.0 && ctx.autoGrade then Some(GradeFor(e.score)) else e.grade
  }

  /** `action_fail`: only an enrolled enrollment can fail. */
  function FailCheck(e: Enrollment): (r: Outcome<EnrollError>)
    ensures r.Pass? <==> CanStart(Failing, e.state)
    ensures r.Fail? ==> r.error == WrongState(Failing, e.state)
  {
    if e.state != Enrolled then Fail(WrongState(Failing, e.state)) else Pass
  }

  /** `action_cancel`: every state except completed and cancelled can be cancelled. */
  function CancelCheck(e: Enrollment): (r: Outcome<EnrollError>)
    ensures r.Pass? <==> CanStart(Cancelling, e.state)
    ensures r.Fail? ==> r.error == WrongState(Cancelling, e.state)
  {
    if e.state == Completed || e.state == Cancelled then Fail(WrongState(Cancelling, e.state)) else Pass
  }

  /** A refund is created for a linked invoice that is not unpaid, when refunds are requested. */
  predicate RefundDue(ctx: EnrollContext, e: Enrollment, invoices: map<InvoiceId, Invoice>) {
    ctx.processRefund && e.invoice.Some? && e.invoice.value in invoices
    && invoices[e.invoice.value].paymentState != NotPaid
  }

  /** `_process_refund`: a credit note for the invoice's partner that reverses it, with no lines. */
  function RefundFor(invoices: map<InvoiceId, Invoice>, inv: InvoiceId): (refund: Invoice)
    requires inv in invoices
    ensures refund.moveType == OutRefund && refund.reversedEntry == Some(inv)
    ensures refund.partner == invoices[inv].partner && refund.ref == "Refund for: " + invoices[inv].name
    ensures AmountTotal(refund) == 0 && refund.paymentState == NotPaid
  {
    Invoice("/", OutRefund, invoices[inv].partner, None, "Refund for: " + invoices[inv].name, [], NotPaid, Some(inv))
  }

  // ---------------------------------------------------------- the table

  /** No two enrollments of the same student in the same course. */
  predicate EnrollmentsUnique(enrollments: map<EnrollmentId, Enrollment>) {
    forall i, j | i in enrollments && j in enrollments && i != j ::
      !(enrollments[i].student == enrollments[j].student && enrollments[i].course == enrollments[j].course)
  }

  /** The score check constraint. */
  predicate ScoreOk(e: Enrollment) {
    0.0 <= e.score <= 100.0
  }

  /** `_check_dates`: a completion date is not before the enrollment date. */
  predicate EnrollmentDatesOk(e: Enrollment) {
    e.completionDate.Some? && e.enrollmentDate.Some? ==> e.completionDate.value >= e.enrollmentDate.value
  }

  predicate EnrollmentTableOk(enrollments: map<EnrollmentId, Enrollment>) {
    EnrollmentsUnique(enrollments)
    && forall k | k in enrollments :: ScoreOk(enrollments[k]) && EnrollmentDatesOk(enrollments[k])
  }

  /**
   * Rewriting one enrollment without touching its student, course or score
   * keeps the table's constraints, provided its dates stay in order.
   */
  lemma RewriteKeepsTable(enrollments: map<EnrollmentId, Enrollment>, id: EnrollmentId, e: Enrollment)
    requires EnrollmentTableOk(enrollments) && id in enrollments
    requires e.student == enrollments[id].student && e.course == enrollments[id].course
    requires e.score == enrollments[id].score && EnrollmentDatesOk(e)
    ensures EnrollmentTableOk(enrollments[id := e])
  {
  }

  /** Rewriting the states of any enrollments, and nothing else, keeps the table's constraints. */
  lemma RestateKeepsTable(enrollments: map<EnrollmentId, Enrollment>, table: map<EnrollmentId, Enrollment>)
    requires EnrollmentTableOk(enrollments) && table.Keys == enrollments.Keys
    requires forall k | k in table :: table[k] == enrollments[k].(state := table[k].state)
    ensures EnrollmentTableOk(table)
  {
    forall i, j | i in table && j in table && i != j
      ensures !(table[i].student == table[j].student && table[i].course == table[j].course)
    {
      assert table[i].student == enrollments[i].student && table[j].student == enrollments[j].student;
    }
  }

  /** What a create receives; `course` falls back on the context's default course. */
  datatype EnrollmentVals = EnrollmentVals(student: StudentId, course: Option<CourseId>,
                                           enrollmentDate: Option<Day>, score: real,
                                           completionDate: Option<Day>)

  /** The course a create ends up with. */
  function CourseOf(ctx: EnrollContext, vals: EnrollmentVals): Option<CourseId> {
    if vals.course.Some? then vals.course else ctx.defaultCourse
  }

  /** The record a create inserts: a draft, dated today unless a date is given. */
  function NewEnrollment(vals: EnrollmentVals, course: CourseId, today: Day): (e: Enrollment)
    ensures e.state == Draft && e.student == vals.student && e.course == course && e.invoice.None?
    ensures e.enrollmentDate == Some(vals.enrollmentDate.GetOr(today))
    ensures e.score == vals.score && e.completionDate == vals.completionDate
  {
    Enrollment(vals.student, course, Some(vals.enrollmentDate.GetOr(today)), Draft, None, None,
               vals.score, vals.completionDate, None)
  }

  /**
   * The error inserting enrollment `e` raises: a score out of range, a
   * second enrollment of the student in the course, an unknown student or
   * course, then the date constraint.
   */
  function InsertError(enrollments: map<EnrollmentId, Enrollment>, students: set<StudentId>, courses: set<CourseId>,
                       e: Enrollment): (r: Option<EnrollError>)
    ensures r.None? <==> ScoreOk(e) && EnrollmentDatesOk(e) && e.student in students && e.course in courses
                         && forall k | k in enrollments :: !(enrollments[k].student == e.student && enrollments[k].course == e.course)
  {
    if !ScoreOk(e) then Some(ScoreOutOfRange)
    else if exists k | k in enrollments :: enrollments[k].student == e.student && enrollments[k].course == e.course then
      Some(DuplicateEnrollment)
    else if e.student !in students || e.course !in courses then Some(UnknownRecord)
    else if !EnrollmentDatesOk(e) then Some(CompletionBeforeEnrollment)
    else None
  }

  /** An insertion that raises no error keeps the table's constraints. */
  lemma InsertKeepsTable(enrollments: map<EnrollmentId, Enrollment>, students: set<StudentId>, courses: set<CourseId>,
                         id: EnrollmentId, e: Enrollment)
    requires EnrollmentTableOk(enrollments) && id !in enrollments
    requires InsertError(enrollments, students, courses, e).None?
    ensures EnrollmentTableOk(enrollments[id := e])
  {
  }

  /** Enrolling the same student in the same course twice raises the duplicate error. */
  lemma SecondEnrollmentIsDuplicate(enrollments: map<EnrollmentId, Enrollment>, students: set<StudentId>,
                                    courses: set<CourseId>, k: EnrollmentId, e: Enrollment)
    requires k in enrollments && enrollments[k].student == e.student && enrollments[k].course == e.course
    requires ScoreOk(e)
    ensures InsertError(enrollments, students, courses, e) == Some(DuplicateEnrollment)
  {
  }
}
