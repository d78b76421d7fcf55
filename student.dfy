/**
 * The student lifecycle: the six-state workflow, the enrolment validation
 * (partner, class, class capacity, minimum age), the graduation
 * requirements, the derived age, attendance percentage, fee totals and
 * enrollment counts, the generated student ID, and the constraints of the
 * student table.
 */
module StudentRules {
  import opened Common
  import opened Calendar
  import opened Records
  import opened AttendanceRules
  import opened EnrollmentRules
  import opened ClassRollups

  /**
   * The context flags the student actions read.  `company` is the current
   * company, the default of a new student's company.
   */
  datatype StudentContext = StudentContext(
    skipValidation: bool,
    minAge: int,
    schoolId: Option<SchoolId>,
    autoEnroll: bool,
    defaultClass: Option<ClassId>,
    company: CompanyId)

  function DefaultStudentContext(company: CompanyId): StudentContext {
    StudentContext(false, 5, None, false, None, company)
  }

  datatype StudentAction =
    | EnrollStudent | TransferStudent | GraduateStudent | SuspendStudent | ReactivateStudent | DropoutStudent

  datatype StudentError =
    | StudentWrongState(action: StudentAction, state: StudentState)
    | PartnerRequired
    | ClassRequired
    | ClassFull
    | TooYoung(minAge: int)
    | RequirementsNotMet
    | GraduationBeforeEnrollment   // _check_dates
    | AgeOutOfRange                // _check_age
    | DuplicateStudentCode         // unique(student_id, company_id)
    | UnknownStudentRecord
    | MissingSchool                // the context's school_id names no school, so reading its code raises

  // ---------------------------------------------------------------- workflow

  /** The states each action accepts. */
  predicate StudentCanStart(a: StudentAction, s: StudentState) {
    match a
    case EnrollStudent => s == StudentDraft
    case TransferStudent => s == StudentEnrolled || s == Suspended
    case GraduateStudent => s == StudentEnrolled
    case SuspendStudent => s == StudentEnrolled
    case ReactivateStudent => s == Suspended
    case DropoutStudent => s == StudentEnrolled || s == Suspended
  }

  /** The state each action leaves; a transfer only opens the transfer form and keeps the state. */
  function StudentTarget(a: StudentAction, s: StudentState): StudentState {
    match a
    case EnrollStudent => StudentEnrolled
    case TransferStudent => s
    case GraduateStudent => Graduated
    case SuspendStudent => Suspended
    case ReactivateStudent => StudentEnrolled
    case DropoutStudent => Dropped
  }

  /** The state guard every student action starts with. */
  function StudentCheck(a: StudentAction, s: StudentState): (r: Outcome<StudentError>)
    ensures r.Pass? <==> StudentCanStart(a, s)
    ensures r.Fail? ==> r.error == StudentWrongState(a, s)
  {
    if StudentCanStart(a, s) then Pass else Fail(StudentWrongState(a, s))
  }

  /** The student lifecycle, written out edge by edge. */
  const StudentLifecycle: set<(StudentState, StudentState)> := {
    (StudentDraft, StudentEnrolled), (StudentEnrolled, Graduated), (StudentEnrolled, Suspended),
    (Suspended, StudentEnrolled), (StudentEnrolled, Dropped), (Suspended, Dropped)
  }

  /**
   * The actions that change state realise exactly the lifecycle's edges; a
   * transfer changes nothing; graduated, transferred and dropped students
   * accept no action; and no action leads to the transferred state.
   */
  lemma StudentActionsRealiseLifecycle(from: StudentState, to: StudentState)
    ensures (from, to) in StudentLifecycle <==>
              exists a :: a != TransferStudent && StudentCanStart(a, from) && StudentTarget(a, from) == to
    ensures forall s :: StudentTarget(TransferStudent, s) == s
    ensures forall a :: !StudentCanStart(a, Graduated) && !StudentCanStart(a, Transferred) && !StudentCanStart(a, Dropped)
    ensures forall a, s | StudentCanStart(a, s) :: StudentTarget(a, s) != Transferred
  {
    if (from, to) in StudentLifecycle {
      var a := if to == Graduated then GraduateStudent else if to == Suspended then SuspendStudent
               else if to == Dropped then DropoutStudent
               else if from == StudentDraft then EnrollStudent else ReactivateStudent;
      assert a != TransferStudent && StudentCanStart(a, from) && StudentTarget(a, from) == to;
    }
  }

  // --------------------------------------------------------------------- age

  /** `_compute_age`: the age at `today` from the partner's date of birth, 0 without one. */
  function StudentAge(partners: map<PartnerId, Partner>, st: Student, today: Day): (age: int)
    ensures !(st.partner.Some? && st.partner.value in partners && partners[st.partner.value].dateOfBirth.Some?) ==> age == 0
    ensures st.partner.Some? && st.partner.value in partners && partners[st.partner.value].dateOfBirth.Some? ==>
              var birth := Civil(partners[st.partner.value].dateOfBirth.value);
              var now := Civil(today);
              age == Age(partners[st.partner.value].dateOfBirth.value, today)
              && !YmdBefore(now, Ymd(birth.year + age, birth.month, birth.day))
              && YmdBefore(now, Ymd(birth.year + age + 1, birth.month, birth.day))
  {
    if st.partner.Some? && st.partner.value in partners && partners[st.partner.value].dateOfBirth.Some? then
      var birth := partners[st.partner.value].dateOfBirth.value;
      YearsBetweenCountsAnniversaries(Civil(birth), Civil(today));
      Age(birth, today)
    else 0
  }

  /** `_check_age`: a known age lies between 3 and 100. */
  function AgeCheck(age: int): (r: Outcome<StudentError>)
    ensures r.Pass? <==> age == 0 || 3 <= age <= 100
    ensures r.Fail? ==> r.error == AgeOutOfRange
  {
    if age != 0 && age < 3 then Fail(AgeOutOfRange)
    else if age != 0 && age > 100 then Fail(AgeOutOfRange)
    else Pass
  }

  // -------------------------------------------------------------- validation

  /** The student `id` and the partner and class it refers to are in the tables. */
  predicate StudentKnown(students: map<StudentId, Student>, classes: map<ClassId, ClassRec>, id: StudentId) {
    id in students && (students[id].classId.Some? ==> students[id].classId.value in classes)
  }

  /**
   * `_validate_enrollment`: a partner and a class are required; a class
   * with a capacity must have fewer students assigned than that capacity
   * (the student being enrolled is one of them); a known age must reach
   * the minimum age.
   */
  function ValidateEnrollment(ctx: StudentContext, partners: map<PartnerId, Partner>, students: map<StudentId, Student>,
                              classes: map<ClassId, ClassRec>, id: StudentId, today: Day): (r: Outcome<StudentError>)
    requires StudentKnown(students, classes, id)
    ensures var st := students[id];
            r.Pass? <==> st.partner.Some? && st.classId.Some?
                         && (classes[st.classId.value].capacity == 0
                             || |ClassMembers(students, st.classId.value)| < classes[st.classId.value].capacity)
                         && !(StudentAge(partners, st, today) != 0 && StudentAge(partners, st, today) < ctx.minAge)
    ensures students[id].partner.None? ==> r == Fail(PartnerRequired)
    ensures students[id].partner.Some? && students[id].classId.None? ==> r == Fail(ClassRequired)
    ensures var st := students[id];
            (st.partner.Some? && st.classId.Some? && classes[st.classId.value].capacity != 0
             && |ClassMembers(students, st.classId.value)| >= classes[st.classId.value].capacity) ==> r == Fail(ClassFull)
    ensures var st := students[id];
            (st.partner.Some? && st.classId.Some?
             && (classes[st.classId.value].capacity == 0
                 || |ClassMembers(students, st.classId.value)| < classes[st.classId.value].capacity)
             && StudentAge(partners, st, today) != 0 && StudentAge(partners, st, today) < ctx.minAge)
            ==> r == Fail(TooYoung(ctx.minAge))
  {
    var st := students[id];
    if st.partner.None? then Fail(PartnerRequired)
    else if st.classId.None? then Fail(ClassRequired)
    else if classes[st.classId.value].capacity != 0
            && |ClassMembers(students, st.classId.value)| >= classes[st.classId.value].capacity then Fail(ClassFull)
    else if StudentAge(partners, st, today) != 0 && StudentAge(partners, st, today) < ctx.minAge then Fail(TooYoung(ctx.minAge))
    else Pass
  }

  /**
   * The student being enrolled is already counted among the class's
   * students, so a class whose capacity is one refuses every enrolment
   * that is validated.
   */
  lemma {:induction false} OwnSeatCounts(ctx: StudentContext, partners: map<PartnerId, Partner>, students: map<StudentId, Student>,
                                         classes: map<ClassId, ClassRec>, id: StudentId, today: Day)
    requires StudentKnown(students, classes, id)
    requires students[id].partner.Some? && students[id].classId.Some?
    requires classes[students[id].classId.value].capacity == 1
    ensures ValidateEnrollment(ctx, partners, students, classes, id, today) == Fail(ClassFull)
  {
    var c := students[id].classId.value;
    assert id in ClassMembers(students, c);
    SubsetSize({id}, ClassMembers(students, c));
  }

  /**
   * `action_enroll`: a draft student, validated unless validation is
   * skipped, whose graduation date (if any) is not before today's
   * enrollment date.
   */
  function EnrollStudentCheck(ctx: StudentContext, partners: map<PartnerId, Partner>, students: map<StudentId, Student>,
                              classes: map<ClassId, ClassRec>, id: StudentId, today: Day): (r: Outcome<StudentError>)
    requires StudentKnown(students, classes, id)
    ensures r.Pass? <==> students[id].state == StudentDraft
                         && (ctx.skipValidation || ValidateEnrollment(ctx, partners, students, classes, id, today).Pass?)
                         && !(students[id].graduationDate.Some? && students[id].graduationDate.value < today)
    ensures students[id].state != StudentDraft ==> r == Fail(StudentWrongState(EnrollStudent, students[id].state))
    ensures (students[id].state == StudentDraft && !ctx.skipValidation
             && ValidateEnrollment(ctx, partners, students, classes, id, today).Fail?)
            ==> r == ValidateEnrollment(ctx, partners, students, classes, id, today)
    ensures (students[id].state == StudentDraft
             && (ctx.skipValidation || ValidateEnrollment(ctx, partners, students, classes, id, today).Pass?)
             && students[id].graduationDate.Some? && students[id].graduationDate.value < today)
            ==> r == Fail(GraduationBeforeEnrollment)
  {
    var st := students[id];
    if st.state != StudentDraft then Fail(StudentWrongState(EnrollStudent, st.state))
    else if !ctx.skipValidation && ValidateEnrollment(ctx, partners, students, classes, id, today).Fail? then
      ValidateEnrollment(ctx, partners, students, classes, id, today)
    else if st.graduationDate.Some? && st.graduationDate.value < today then Fail(GraduationBeforeEnrollment)
    else Pass
  }

  // -------------------------------------------------------------- graduation

  /** The attendance rows of student `id` (the student's `attendance_ids`). */
  function StudentRows(attendances: map<AttendanceId, Attendance>, id: StudentId): set<AttendanceId> {
    set k | k in attendances && attendances[k].student == id
  }

  /**
   * `_compute_attendance_percentage`: present rows over all the student's
   * rows, 0 without rows; the stored value always satisfies the table's
   * check that it lies between 0 and 100.
   */
  function StudentAttendance(attendances: map<AttendanceId, Attendance>, id: StudentId): (p: real)
    ensures 0.0 <= p <= 100.0
    ensures StudentRows(attendances, id) == {} ==> p == 0.0
    ensures StudentRows(attendances, id) != {} ==>
              p * (|StudentRows(attendances, id)| as real) == (|PresentRows(attendances, StudentRows(attendances, id))| as real) * 100.0
  {
    StatsOver(attendances, StudentRows(attendances, id)).percentage
  }

  /** The active required courses of the department of the student's class; none without a class. */
  function RequiredCourses(classes: map<ClassId, ClassRec>, courses: map<CourseId, Course>, st: Student): set<CourseId> {
    if st.classId.Some? && st.classId.value in classes then
      set c | c in courses && courses[c].department == classes[st.classId.value].department
                           && courses[c].active && courses[c].required
    else {}
  }

  /** `_check_graduation_requirements`: attendance of at least 75% and every required course completed. */
  predicate GraduationRequirementsMet(classes: map<ClassId, ClassRec>, courses: map<CourseId, Course>,
                                      enrollments: map<EnrollmentId, Enrollment>, attendances: map<AttendanceId, Attendance>,
                                      students: map<StudentId, Student>, id: StudentId)
    requires id in students
  {
    StudentAttendance(attendances, id) >= 75.0
    && RequiredCourses(classes, courses, students[id]) <= CompletedCourses(enrollments, id)
  }

  /**
   * `action_graduate`: an enrolled student who meets the graduation
   * requirements, whose enrollment date (if any) is not after today's
   * graduation date.
   */
  function GraduateCheck(classes: map<ClassId, ClassRec>, courses: map<CourseId, Course>,
                         enrollments: map<EnrollmentId, Enrollment>, attendances: map<AttendanceId, Attendance>,
                         students: map<StudentId, Student>, id: StudentId, today: Day): (r: Outcome<StudentError>)
    requires id in students
    ensures r.Pass? <==> students[id].state == StudentEnrolled
                         && GraduationRequirementsMet(classes, courses, enrollments, attendances, students, id)
                         && !(students[id].enrollmentDate.Some? && today < students[id].enrollmentDate.value)
    ensures students[id].state == StudentEnrolled
            && !GraduationRequirementsMet(classes, courses, enrollments, attendances, students, id)
            ==> r == Fail(RequirementsNotMet)
    ensures students[id].state != StudentEnrolled ==> r == Fail(StudentWrongState(GraduateStudent, students[id].state))
    ensures (students[id].state == StudentEnrolled
             && GraduationRequirementsMet(classes, courses, enrollments, attendances, students, id)
             && students[id].enrollmentDate.Some? && today < students[id].enrollmentDate.value)
            ==> r == Fail(GraduationBeforeEnrollment)
  {
    var st := students[id];
    if st.state != StudentEnrolled then Fail(StudentWrongState(GraduateStudent, st.state))
    else if !GraduationRequirementsMet(classes, courses, enrollments, attendances, students, id) then Fail(RequirementsNotMet)
    else if st.enrollmentDate.Some? && today < st.enrollmentDate.value then Fail(GraduationBeforeEnrollment)
    else Pass
  }

  /** Without any attendance record a student cannot graduate. */
  lemma NoAttendanceNoGraduation(classes: map<ClassId, ClassRec>, courses: map<CourseId, Course>,
                                 enrollments: map<EnrollmentId, Enrollment>, attendances: map<AttendanceId, Attendance>,
                                 students: map<StudentId, Student>, id: StudentId, today: Day)
    requires id in students && StudentRows(attendances, id) == {}
    ensures GraduateCheck(classes, courses, enrollments, attendances, students, id, today).Fail?
  {
  }

  /**
   * A student whose required course is not completed cannot graduate,
   * whatever the attendance.
   */
  lemma {:induction false} MissingRequiredCourseBlocksGraduation(classes: map<ClassId, ClassRec>, courses: map<CourseId, Course>,
                                                                 enrollments: map<EnrollmentId, Enrollment>,
                                                                 attendances: map<AttendanceId, Attendance>,
                                                                 students: map<StudentId, Student>, id: StudentId, today: Day,
                                                                 c: CourseId)
    requires id in students && c in RequiredCourses(classes, courses, students[id])
    requires forall k | k in enrollments && enrollments[k].student == id && enrollments[k].course == c ::
               enrollments[k].state != Completed
    ensures GraduateCheck(classes, courses, enrollments, attendances, students, id, today).Fail?
  {
    assert c !in CompletedCourses(enrollments, id);
  }

  // -------------------------------------------------------------------- fees

  /** The amount of invoice `i`, 0 for an id the table does not hold. */
  function Amount(invoices: map<InvoiceId, Invoice>): nat -> int {
    (i: nat) => if i in invoices then AmountTotal(invoices[i]) else 0
  }

  /** The distinct customer invoices linked to the student's enrollments. */
  function StudentInvoices(enrollments: map<EnrollmentId, Enrollment>, invoices: map<InvoiceId, Invoice>,
                           id: StudentId): set<InvoiceId> {
    set k | k in enrollments && enrollments[k].student == id && enrollments[k].invoice.Some?
                             && enrollments[k].invoice.value in invoices
                             && invoices[enrollments[k].invoice.value].moveType == OutInvoice
          :: enrollments[k].invoice.value
  }

  /** The invoices among `s` that are not paid. */
  function Unpaid(invoices: map<InvoiceId, Invoice>, s: set<InvoiceId>): set<InvoiceId> {
    set i | i in s && i in invoices && invoices[i].paymentState != Paid
  }

  /** `_compute_total_fees`: the sum over all the student's invoices, and over the unpaid ones. */
  datatype Fees = Fees(totalFees: int, outstandingFees: int)

  /**
   * The total is the sum over the student's invoices and the outstanding
   * fees the sum over the unpaid ones; the total splits into the
   * outstanding part and the paid part, and with non-negative amounts the
   * outstanding fees never exceed the total.
   */
  function StudentFees(enrollments: map<EnrollmentId, Enrollment>, invoices: map<InvoiceId, Invoice>, id: StudentId): (f: Fees)
    ensures var s := StudentInvoices(enrollments, invoices, id);
            f.totalFees == Sum(s, Amount(invoices)) && f.outstandingFees == Sum(Unpaid(invoices, s), Amount(invoices))
    ensures var s := StudentInvoices(enrollments, invoices, id);
            f.totalFees == f.outstandingFees + Sum(s - Unpaid(invoices, s), Amount(invoices))
    ensures (forall i | i in invoices :: AmountTotal(invoices[i]) >= 0) ==> 0 <= f.outstandingFees <= f.totalFees
  {
    var s := StudentInvoices(enrollments, invoices, id);
    var u := Unpaid(invoices, s);
    SumSplit(s, u, Amount(invoices));
    assert s * u == u;
    UnpaidBounded(invoices, s);
    Fees(Sum(s, Amount(invoices)), Sum(u, Amount(invoices)))
  }

  /** With non-negative amounts, the unpaid invoices sum to between 0 and the whole. */
  lemma UnpaidBounded(invoices: map<InvoiceId, Invoice>, s: set<InvoiceId>)
    ensures (forall i | i in invoices :: AmountTotal(invoices[i]) >= 0) ==>
              0 <= Sum(Unpaid(invoices, s), Amount(invoices)) <= Sum(s, Amount(invoices))
  {
    if forall i | i in invoices :: AmountTotal(invoices[i]) >= 0 {
      SumMonotone(Unpaid(invoices, s), s, Amount(invoices));
    }
  }

  /** `_compute_enrollments`: all the student's enrollments, and the enrolled ones. */
  datatype EnrollmentCounts = EnrollmentCounts(totalEnrollments: nat, activeEnrollments: nat)

  /** The student's enrollments in state enrolled. */
  function ActiveEnrollmentsOf(enrollments: map<EnrollmentId, Enrollment>, id: StudentId): set<EnrollmentId> {
    set k | k in enrollments && enrollments[k].student == id && enrollments[k].state == Enrolled
  }

  function StudentEnrollmentCounts(enrollments: map<EnrollmentId, Enrollment>, id: StudentId): (n: EnrollmentCounts)
    ensures n.totalEnrollments == |StudentEnrollments(enrollments, id)|
    ensures n.activeEnrollments == |ActiveEnrollmentsOf(enrollments, id)|
    ensures n.activeEnrollments <= n.totalEnrollments
  {
    var active := ActiveEnrollmentsOf(enrollments, id);
    SubsetSize(active, StudentEnrollments(enrollments, id));
    EnrollmentCounts(|StudentEnrollments(enrollments, id)|, |active|)
  }

  // -------------------------------------------------------------- student ID

  /**
   * The school code from the context's school, or "STU" without a school
   * (no id, or the falsy id 0) or without a code; a school id that names
   * no school raises when its code is read.
   */
  function SchoolPrefix(schools: map<SchoolId, School>, schoolId: Option<SchoolId>): (p: Result<string, StudentError>)
    ensures p.Err? <==> SchoolGiven(schoolId) && schoolId.value !in schools
    ensures p.Err? ==> p.error == MissingSchool
    ensures p.Ok? ==> p.value != ""
    ensures SchoolGiven(schoolId) && schoolId.value in schools && schools[schoolId.value].code != "" ==> p == Ok(schools[schoolId.value].code)
    ensures !SchoolGiven(schoolId) || (schoolId.value in schools && schools[schoolId.value].code == "") ==> p == Ok("STU")
  {
    if !SchoolGiven(schoolId) then Ok("STU")
    else if schoolId.value !in schools then Err(MissingSchool)
    else if schools[schoolId.value].code != "" then Ok(schools[schoolId.value].code)
    else Ok("STU")
  }

  /** A context school id counts only when it is truthy: present and not 0. */
  predicate SchoolGiven(schoolId: Option<SchoolId>) {
    schoolId.Some? && schoolId.value != 0
  }

  /** The number part of a generated ID: the next sequence value, or "0001" without one. */
  function SequencePart(sequence: Option<string>): string {
    if IsSet(sequence) then sequence.value else "0001"
  }

  /**
   * `_generate_student_id`: the prefix followed by the number part; it
   * raises exactly when the prefix does.
   */
  function GenerateStudentId(schools: map<SchoolId, School>, schoolId: Option<SchoolId>, sequence: Option<string>): (code: Result<string, StudentError>)
    ensures code.Err? <==> SchoolPrefix(schools, schoolId).Err?
    ensures code.Err? ==> code.error == MissingSchool
    ensures code.Ok? ==> var p := SchoolPrefix(schools, schoolId).value;
                         |code.value| > |p| && code.value[..|p|] == p
                         && code.value[|p|..] == (if IsSet(sequence) then sequence.value else "0001")
  {
    match SchoolPrefix(schools, schoolId)
    case Err(e) => Err(e)
    case Ok(p) =>
      var code := p + SequencePart(sequence);
      assert code[|p|..] == SequencePart(sequence);
      Ok(code)
  }

  /** Distinct sequence values give distinct IDs under the same school. */
  lemma GeneratedIdsDiffer(schools: map<SchoolId, School>, schoolId: Option<SchoolId>, s1: string, s2: string)
    requires s1 != "" && s2 != "" && s1 != s2
    ensures GenerateStudentId(schools, schoolId, Some(s1)).Ok? ==>
              GenerateStudentId(schools, schoolId, Some(s1)) != GenerateStudentId(schools, schoolId, Some(s2))
  {
    var c1, c2 := GenerateStudentId(schools, schoolId, Some(s1)), GenerateStudentId(schools, schoolId, Some(s2));
    if c1.Ok? {
      var p := SchoolPrefix(schools, schoolId).value;
      assert c1.value[|p|..] == s1 && c2.value[|p|..] == s2;
    }
  }

  /** Without a school in the context and without a sequence, the ID is "STU0001". */
  lemma DefaultGeneratedId(schools: map<SchoolId, School>)
    ensures GenerateStudentId(schools, None, None) == Ok("STU0001")
  {
    assert SequencePart(None) == "0001";
    assert "STU" + "0001" == "STU0001";
  }

  // -------------------------------------------------------------- the table

  /** The student ID is unique per company; students without a company never clash. */
  predicate CodesUnique(students: map<StudentId, Student>) {
    forall i, j | i in students && j in students && i != j ::
      !(students[i].code == students[j].code && students[i].company.Some? && students[i].company == students[j].company)
  }

  /** `_check_dates`: a graduation date is not before the enrollment date. */
  predicate StudentDatesOk(st: Student) {
    st.graduationDate.Some? && st.enrollmentDate.Some? ==> st.graduationDate.value >= st.enrollmentDate.value
  }

  predicate StudentTableOk(students: map<StudentId, Student>) {
    CodesUnique(students) && forall k | k in students :: StudentDatesOk(students[k])
  }

  /** What a create receives; missing values fall back on the defaults. */
  datatype StudentVals = StudentVals(partner: Option<PartnerId>, code: Option<string>, classId: Option<ClassId>,
                                     enrollmentDate: Option<Day>, state: StudentState, company: Option<CompanyId>,
                                     gender: Option<Gender>, parents: set<PartnerId>, graduationDate: Option<Day>)

  /**
   * The record a create inserts: the ID generated when none is given, the
   * context's class when none is given, today's enrollment date and the
   * current company by default.  Generating the ID raises when the
   * context's school does not exist.
   */
  function NewStudent(ctx: StudentContext, schools: map<SchoolId, School>, vals: StudentVals,
                      sequence: Option<string>, today: Day): (r: Result<Student, StudentError>)
    ensures r.Err? <==> !IsSet(vals.code) && GenerateStudentId(schools, ctx.schoolId, sequence).Err?
    ensures r.Err? ==> r.error == MissingSchool
    ensures r.Ok? && IsSet(vals.code) ==> r.value.code == vals.code.value
    ensures r.Ok? && !IsSet(vals.code) ==> Ok(r.value.code) == GenerateStudentId(schools, ctx.schoolId, sequence)
    ensures r.Ok? ==> r.value.code != ""
    ensures r.Ok? ==> r.value.classId == (if vals.classId.Some? then vals.classId else ctx.defaultClass)
    ensures r.Ok? ==> r.value.state == vals.state && r.value.partner == vals.partner
    ensures r.Ok? ==> r.value.enrollmentDate == Some(if vals.enrollmentDate.Some? then vals.enrollmentDate.value else today)
    ensures r.Ok? ==> r.value.company == Some(if vals.company.Some? then vals.company.value else ctx.company)
    ensures r.Ok? ==> r.value.gender == vals.gender && r.value.parents == vals.parents
                      && r.value.graduationDate == vals.graduationDate
  {
    var code := if IsSet(vals.code) then Ok(vals.code.value) else GenerateStudentId(schools, ctx.schoolId, sequence);
    match code
    case Err(e) => Err(e)
    case Ok(c) =>
      Ok(Student(vals.partner, c, if vals.classId.Some? then vals.classId else ctx.defaultClass,
                 Some(vals.enrollmentDate.GetOr(today)), vals.state, Some(vals.company.GetOr(ctx.company)),
                 vals.gender, vals.parents, vals.graduationDate))
  }

  /**
   * The error inserting a student raises: a missing partner, a student ID
   * already used in the same company, an unknown partner or class, then
   * the date constraint.
   */
  function StudentInsertError(students: map<StudentId, Student>, partners: set<PartnerId>, classes: set<ClassId>,
                              st: Student): (r: Option<StudentError>)
    ensures r.None? <==> st.partner.Some? && st.partner.value in partners
                         && (st.classId.Some? ==> st.classId.value in classes)
                         && StudentDatesOk(st)
                         && forall k | k in students :: !(students[k].code == st.code && st.company.Some? && students[k].company == st.company)
  {
    if st.partner.None? then Some(PartnerRequired)
    else if exists k | k in students :: students[k].code == st.code && st.company.Some? && students[k].company == st.company then
      Some(DuplicateStudentCode)
    else if st.partner.value !in partners || (st.classId.Some? && st.classId.value !in classes) then Some(UnknownStudentRecord)
    else if !StudentDatesOk(st) then Some(GraduationBeforeEnrollment)
    else None
  }

  /** An insertion that raises no error keeps the table's constraints. */
  lemma InsertStudentKeepsTable(students: map<StudentId, Student>, partners: set<PartnerId>, classes: set<ClassId>,
                                id: StudentId, st: Student)
    requires StudentTableOk(students) && id !in students && StudentInsertError(students, partners, classes, st).None?
    ensures StudentTableOk(students[id := st])
  {
  }

  /**
   * Rewriting one student without touching its ID or company keeps the
   * table's constraints, provided its dates stay in order.
   */
  lemma RewriteStudentKeepsTable(students: map<StudentId, Student>, id: StudentId, st: Student)
    requires StudentTableOk(students) && id in students
    requires st.code == students[id].code && st.company == students[id].company && StudentDatesOk(st)
    ensures StudentTableOk(students[id := st])
  {
  }
}
