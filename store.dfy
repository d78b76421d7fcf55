/**
 * The database the school records live in: one map per table and one id
 * counter.  `Valid` gathers the tables' constraints (unique keys, check
 * constraints, the date constraints) and the references between them.
 * Each action checks its guard against the tables as they are, writes
 * only when the guard passes, and leaves every table as it was when it
 * fails: a failed action is rolled back as a whole.
 */
module Store {
  import opened Common
  import opened Calendar
  import opened Records
  import opened AttendanceRules
  import opened EnrollmentRules
  import opened StudentRules
  import opened YearRules

  /** Every key of `keys` is below `next`. */
  predicate Below(keys: set<nat>, next: nat) {
    forall k | k in keys :: k < next
  }

  /** A bound on the keys stays a bound when it grows. */
  lemma BelowRaise(keys: set<nat>, next: nat, m: nat)
    requires Below(keys, next) && next <= m
    ensures Below(keys, m)
  {
  }

  /** The key at the bound is below the next bound. */
  lemma BelowAdd(keys: set<nat>, next: nat)
    requires Below(keys, next)
    ensures Below(keys + {next}, next + 1)
  {
  }

  /** Enrollments refer to a known student, course and invoice. */
  ghost predicate EnrollmentLinksOk(enrollments: map<EnrollmentId, Enrollment>, students: map<StudentId, Student>,
                                    courses: map<CourseId, Course>, invoices: map<InvoiceId, Invoice>)
  {
    forall k | k in enrollments ::
      enrollments[k].student in students && enrollments[k].course in courses
      && (enrollments[k].invoice.Some? ==> enrollments[k].invoice.value in invoices)
  }

  /** Students have a known partner and, when they have one, a known class. */
  ghost predicate StudentLinksOk(students: map<StudentId, Student>, partners: map<PartnerId, Partner>,
                                 classes: map<ClassId, ClassRec>)
  {
    forall k | k in students ::
      students[k].partner.Some? && students[k].partner.value in partners
      && (students[k].classId.Some? ==> students[k].classId.value in classes)
  }

  /** Every key of every table is below `n`. */
  ghost predicate FreshOk(partners: map<PartnerId, Partner>, schools: map<SchoolId, School>,
                          departments: map<DepartmentId, Department>, years: map<YearId, AcademicYear>,
                          classes: map<ClassId, ClassRec>, courses: map<CourseId, Course>,
                          students: map<StudentId, Student>, enrollments: map<EnrollmentId, Enrollment>,
                          attendances: map<AttendanceId, Attendance>, invoices: map<InvoiceId, Invoice>, n: nat)
  {
    Below(partners.Keys, n) && Below(schools.Keys, n) && Below(departments.Keys, n)
    && Below(years.Keys, n) && Below(classes.Keys, n) && Below(courses.Keys, n)
    && Below(students.Keys, n) && Below(enrollments.Keys, n)
    && Below(attendances.Keys, n) && Below(invoices.Keys, n)
  }

  /** The constraints of every table, the references between tables, and ids below the counter. */
  ghost predicate TablesOk(partners: map<PartnerId, Partner>, schools: map<SchoolId, School>,
                           departments: map<DepartmentId, Department>, years: map<YearId, AcademicYear>,
                           classes: map<ClassId, ClassRec>, courses: map<CourseId, Course>,
                           students: map<StudentId, Student>, enrollments: map<EnrollmentId, Enrollment>,
                           attendances: map<AttendanceId, Attendance>, invoices: map<InvoiceId, Invoice>, nextId: nat)
  {
    EnrollmentTableOk(enrollments) && StudentTableOk(students) && YearTableOk(years)
    && AttendanceUnique(attendances) && (forall k | k in attendances :: TimesOk(attendances[k]))
    && EnrollmentLinksOk(enrollments, students, courses, invoices) && StudentLinksOk(students, partners, classes)
    && FreshOk(partners, schools, departments, years, classes, courses, students, enrollments, attendances, invoices, nextId)
  }

  class SchoolDb {
    var partners: map<PartnerId, Partner>
    var schools: map<SchoolId, School>
    var departments: map<DepartmentId, Department>
    var years: map<YearId, AcademicYear>
    var classes: map<ClassId, ClassRec>
    var courses: map<CourseId, Course>
    var students: map<StudentId, Student>
    var enrollments: map<EnrollmentId, Enrollment>
    var attendances: map<AttendanceId, Attendance>
    var invoices: map<InvoiceId, Invoice>
    /** The next id handed out; it is above every key of every table. */
    var nextId: nat

    ghost predicate EnrollmentLinks()
      reads this
    {
      EnrollmentLinksOk(enrollments, students, courses, invoices)
    }

    ghost predicate StudentLinks()
      reads this
    {
      StudentLinksOk(students, partners, classes)
    }

    ghost predicate FreshAt(n: nat)
      reads this
    {
      FreshOk(partners, schools, departments, years, classes, courses, students, enrollments, attendances, invoices, n)
    }

    ghost predicate FreshIds()
      reads this
    {
      FreshAt(nextId)
    }

    /** The bound on every table's keys also holds further on. */
    lemma RaiseFresh(m: nat)
      requires FreshIds() && nextId <= m
      ensures FreshAt(m)
    {
      BelowRaise(partners.Keys, nextId, m); BelowRaise(schools.Keys, nextId, m); BelowRaise(departments.Keys, nextId, m);
      BelowRaise(years.Keys, nextId, m); BelowRaise(classes.Keys, nextId, m); BelowRaise(courses.Keys, nextId, m);
      BelowRaise(students.Keys, nextId, m); BelowRaise(enrollments.Keys, nextId, m);
      BelowRaise(attendances.Keys, nextId, m); BelowRaise(invoices.Keys, nextId, m);
    }

    ghost predicate Valid()
      reads this
    {
      TablesOk(partners, schools, departments, years, classes, courses, students, enrollments, attendances, invoices, nextId)
    }

    /** An empty database. */
    constructor ()
      ensures Valid()
      ensures partners == map[] && schools == map[] && departments == map[] && years == map[]
      ensures classes == map[] && courses == map[] && students == map[] && enrollments == map[]
      ensures attendances == map[] && invoices == map[] && nextId == 1
    {
      partners, schools, departments, years := map[], map[], map[], map[];
      classes, courses, students, enrollments := map[], map[], map[], map[];
      attendances, invoices, nextId := map[], map[], 1;
    }

    // ------------------------------------------------------------ enrollments

    /** `action_confirm` on one enrollment. */
    method ConfirmEnrollment(ctx: EnrollContext, id: EnrollmentId) returns (r: Outcome<EnrollError>)
      requires Valid() && id in enrollments
      modifies this`enrollments
      ensures Valid()
      ensures r == ConfirmCheck(ctx, old(enrollments), courses, id)
      ensures r.Pass? ==> enrollments == old(enrollments)[id := old(enrollments)[id].(state := Confirmed)]
      ensures r.Fail? ==> enrollments == old(enrollments)
    {
      r := ConfirmCheck(ctx, enrollments, courses, id);
      if r.Pass? {
        WriteEnrollment(id, enrollments[id].(state := Confirmed));
      }
    }

    /**
     * `action_confirm` on a recordset: the enrollments in turn, each checked
     * against the states the earlier ones were given; a refusal raises and
     * leaves the table as it was.
     */
    method ConfirmEnrollments(ctx: EnrollContext, ids: seq<EnrollmentId>) returns (r: Outcome<EnrollError>)
      requires Valid() && forall i | 0 <= i < |ids| :: ids[i] in enrollments
      modifies this`enrollments
      ensures Valid()
      ensures forall i | 0 <= i < |ids| :: Known(old(enrollments), courses, ids[i])
      ensures var all := ConfirmAll(ctx, old(enrollments), courses, ids);
              (all.Err? ==> r == Fail(all.error) && enrollments == old(enrollments))
              && (all.Ok? ==> r == Pass && enrollments == AllConfirmed(old(enrollments), ids))
    {
      assert forall j | 0 <= j < |ids| :: Known(enrollments, courses, ids[j]);
      var all := ConfirmEach(ctx, enrollments, courses, ids);
      if all.Err? {
        return Fail(all.error);
      }
      ConfirmAllConfirms(ctx, old(enrollments), courses, ids);
      WriteStates(all.value);
      r := Pass;
    }

    /** A rewrite of the states of the enrollment table, and of nothing else. */
    method WriteStates(table: map<EnrollmentId, Enrollment>)
      requires Valid() && table.Keys == enrollments.Keys
      requires forall k | k in table :: table[k] == enrollments[k].(state := table[k].state)
      modifies this`enrollments
      ensures Valid()
      ensures enrollments == table
    {
      RestateKeepsTable(enrollments, table);
      enrollments := table;
      assert EnrollmentLinks() by {
        forall k | k in enrollments
          ensures enrollments[k].student in students && enrollments[k].course in courses
                  && (enrollments[k].invoice.Some? ==> enrollments[k].invoice.value in invoices)
        {
          assert k in old(enrollments);
        }
      }
    }

    /**
     * `action_enroll` on one enrollment: with invoice generation on and a
     * fee on the course, a new invoice for the student's partner is created
     * and linked; the state becomes enrolled and the enrollment date today.
     */
    method EnrollEnrollment(ctx: EnrollContext, id: EnrollmentId, today: Day) returns (r: Outcome<EnrollError>)
      requires Valid() && id in enrollments
      modifies this`enrollments, this`invoices, this`nextId
      ensures Valid()
      ensures r == EnrollCheck(ctx, old(enrollments)[id], today)
      ensures r.Fail? ==> enrollments == old(enrollments) && invoices == old(invoices) && nextId == old(nextId)
      ensures var e := old(enrollments)[id]; var course := courses[e.course];
              r.Pass? && CreatesInvoice(ctx, course) ==>
                invoices == old(invoices)[old(nextId) := InvoiceFor(course, students[e.student].partner, today)]
                && nextId == old(nextId) + 1
                && enrollments == old(enrollments)[id := e.(state := Enrolled, enrollmentDate := Some(today),
                                                            invoice := Some(old(nextId)))]
      ensures var e := old(enrollments)[id]; var course := courses[e.course];
              r.Pass? && !CreatesInvoice(ctx, course) ==>
                invoices == old(invoices) && nextId == old(nextId)
                && enrollments == old(enrollments)[id := e.(state := Enrolled, enrollmentDate := Some(today))]
    {
      var e := enrollments[id];
      r := EnrollCheck(ctx, e, today);
      if r.Pass? {
        var course := courses[e.course];
        if CreatesInvoice(ctx, course) {
          var invoice := AddInvoice(InvoiceFor(course, students[e.student].partner, today));
          e := e.(invoice := Some(invoice));
        }
        WriteEnrollment(id, e.(state := Enrolled, enrollmentDate := Some(today)));
      }
    }

    /**
     * `action_complete` on one enrollment: the grade is assigned from the
     * score when asked for, the state becomes completed and the completion
     * date today.
     */
    method CompleteEnrollment(ctx: EnrollContext, id: EnrollmentId, today: Day) returns (r: Outcome<EnrollError>)
      requires Valid() && id in enrollments
      modifies this`enrollments
      ensures Valid()
      ensures r == CompleteCheck(ctx, attendances, old(enrollments), id, today)
      ensures var e := old(enrollments)[id];
              r.Pass? ==> enrollments == old(enrollments)[id := e.(state := Completed, completionDate := Some(today),
                                                               grade := GradeAfterCompletion(ctx, e))]
      ensures r.Fail? ==> enrollments == old(enrollments)
    {
      r := CompleteCheck(ctx, attendances, enrollments, id, today);
      if r.Pass? {
        var e := enrollments[id];
        WriteEnrollment(id, e.(state := Completed, completionDate := Some(today), grade := GradeAfterCompletion(ctx, e)));
      }
    }

    /**
     * `action_cancel` on one enrollment: the state becomes cancelled with
     * the context's reason, and a refund reversing the linked invoice is
     * created when one is due.
     */
    method CancelEnrollment(ctx: EnrollContext, id: EnrollmentId) returns (r: Outcome<EnrollError>)
      requires Valid() && id in enrollments
      modifies this`enrollments, this`invoices, this`nextId
      ensures Valid()
      ensures r == CancelCheck(old(enrollments)[id])
      ensures var e := old(enrollments)[id];
              r.Pass? ==> enrollments == old(enrollments)[id := e.(state := Cancelled,
                                                                cancellationReason := Some(ctx.cancellationReason))]
      ensures var e := old(enrollments)[id];
              r.Pass? && RefundDue(ctx, e, old(invoices)) ==>
                invoices == old(invoices)[old(nextId) := RefundFor(old(invoices), e.invoice.value)] && nextId == old(nextId) + 1
      ensures var e := old(enrollments)[id];
              !(r.Pass? && RefundDue(ctx, e, old(invoices))) ==> invoices == old(invoices) && nextId == old(nextId)
      ensures r.Fail? ==> enrollments == old(enrollments)
    {
      var e := enrollments[id];
      r := CancelCheck(e);
      if r.Pass? {
        WriteEnrollment(id, e.(state := Cancelled, cancellationReason := Some(ctx.cancellationReason)));
        if RefundDue(ctx, e, invoices) {
          var refund := AddInvoice(RefundFor(invoices, e.invoice.value));
        }
      }
    }

    /** `action_fail` on one enrollment. */
    method FailEnrollment(id: EnrollmentId) returns (r: Outcome<EnrollError>)
      requires Valid() && id in enrollments
      modifies this`enrollments
      ensures Valid()
      ensures r == FailCheck(old(enrollments)[id])
      ensures r.Pass? ==> enrollments == old(enrollments)[id := old(enrollments)[id].(state := Failed)]
      ensures r.Fail? ==> enrollments == old(enrollments)
    {
      r := FailCheck(enrollments[id]);
      if r.Pass? {
        WriteEnrollment(id, enrollments[id].(state := Failed));
      }
    }

    /** A rewrite of one enrollment that keeps its student, course and score, its dates in order and its invoice known. */
    method WriteEnrollment(id: EnrollmentId, e: Enrollment)
      requires Valid() && id in enrollments
      requires e.student == enrollments[id].student && e.course == enrollments[id].course && e.score == enrollments[id].score
      requires EnrollmentDatesOk(e) && (e.invoice.Some? ==> e.invoice.value in invoices)
      modifies this`enrollments
      ensures Valid()
      ensures enrollments == old(enrollments)[id := e]
    {
      RewriteKeepsTable(enrollments, id, e);
      assert enrollments[id := e].Keys == enrollments.Keys;
      enrollments := enrollments[id := e];
      assert EnrollmentLinks() by {
        forall k | k in enrollments
          ensures enrollments[k].student in students && enrollments[k].course in courses
                  && (enrollments[k].invoice.Some? ==> enrollments[k].invoice.value in invoices)
        {
          if k != id { assert k in old(enrollments); }
        }
      }
    }

    /** A new invoice at the next id. */
    method AddInvoice(inv: Invoice) returns (id: InvoiceId)
      requires Valid()
      modifies this`invoices, this`nextId
      ensures Valid()
      ensures id == old(nextId) && id !in old(invoices)
      ensures invoices == old(invoices)[id := inv] && nextId == old(nextId) + 1
    {
      id := nextId;
      RaiseFresh(id + 1);
      BelowAdd(invoices.Keys, id);
      assert invoices[id := inv].Keys == invoices.Keys + {id};
      invoices := invoices[id := inv];
      nextId := nextId + 1;
      assert EnrollmentLinks() by {
        forall k | k in enrollments
          ensures enrollments[k].invoice.Some? ==> enrollments[k].invoice.value in invoices
        {
          if enrollments[k].invoice.Some? { assert enrollments[k].invoice.value in old(invoices); }
        }
      }
    }

    /** The insertion of an enrollment that raises nothing, at the next id. */
    method InsertEnrollment(e: Enrollment) returns (id: EnrollmentId)
      requires Valid() && InsertError(enrollments, students.Keys, courses.Keys, e).None? && e.invoice.None?
      modifies this`enrollments, this`nextId
      ensures Valid()
      ensures id == old(nextId) && id !in old(enrollments)
      ensures enrollments == old(enrollments)[id := e] && nextId == old(nextId) + 1
    {
      id := nextId;
      InsertKeepsTable(enrollments, students.Keys, courses.Keys, id, e);
      RaiseFresh(id + 1);
      BelowAdd(enrollments.Keys, id);
      assert enrollments[id := e].Keys == enrollments.Keys + {id};
      enrollments := enrollments[id := e];
      nextId := nextId + 1;
      assert EnrollmentLinks() by {
        forall k | k in enrollments
          ensures enrollments[k].student in students && enrollments[k].course in courses
                  && (enrollments[k].invoice.Some? ==> enrollments[k].invoice.value in invoices)
        {
          if k != id { assert k in old(enrollments); }
        }
      }
    }

    /**
     * `create` of an enrollment: the course falls back on the context's
     * default course; the new draft is confirmed at once when the context
     * asks for it, and a failed confirmation undoes the creation.
     */
    method CreateEnrollment(ctx: EnrollContext, vals: EnrollmentVals, today: Day) returns (r: Result<EnrollmentId, EnrollError>)
      requires Valid()
      modifies this`enrollments, this`nextId
      ensures Valid()
      ensures CourseOf(ctx, vals).None? ==> r == Err(CourseRequired)
      ensures r.Err? ==> enrollments == old(enrollments) && nextId == old(nextId)
      ensures CourseOf(ctx, vals).Some? ==>
                var e := NewEnrollment(vals, CourseOf(ctx, vals).value, today);
                var err := InsertError(old(enrollments), students.Keys, courses.Keys, e);
                var inserted := old(enrollments)[old(nextId) := e];
                (err.Some? ==> r == Err(err.value))
                && (err.None? && !ctx.autoConfirm ==> r == Ok(old(nextId)) && enrollments == inserted)
                && (err.None? && ctx.autoConfirm ==>
                      var c := ConfirmCheck(ctx, inserted, courses, old(nextId));
                      (c.Fail? ==> r == Err(c.error))
                      && (c.Pass? ==> r == Ok(old(nextId))
                                      && enrollments == inserted[old(nextId) := e.(state := Confirmed)]))
      ensures r.Ok? ==> r.value !in old(enrollments) && nextId == old(nextId) + 1
    {
      var course := CourseOf(ctx, vals);
      if course.None? {
        return Err(CourseRequired);
      }
      var e := NewEnrollment(vals, course.value, today);
      var err := InsertError(enrollments, students.Keys, courses.Keys, e);
      if err.Some? {
        return Err(err.value);
      }
      r := InsertAndConfirm(ctx, e);
    }

    /** The insertion of a new enrollment, then its automatic confirmation, undone when that fails. */
    method InsertAndConfirm(ctx: EnrollContext, e: Enrollment) returns (r: Result<EnrollmentId, EnrollError>)
      requires Valid() && InsertError(enrollments, students.Keys, courses.Keys, e).None? && e.invoice.None?
      modifies this`enrollments, this`nextId
      ensures Valid()
      ensures r.Err? ==> enrollments == old(enrollments) && nextId == old(nextId)
      ensures r.Ok? ==> r.value == old(nextId) && r.value !in old(enrollments) && nextId == old(nextId) + 1
      ensures !ctx.autoConfirm ==> r == Ok(old(nextId)) && enrollments == old(enrollments)[old(nextId) := e]
      ensures ctx.autoConfirm ==>
                var inserted := old(enrollments)[old(nextId) := e];
                var c := ConfirmCheck(ctx, inserted, courses, old(nextId));
                (c.Fail? ==> r == Err(c.error))
                && (c.Pass? ==> r == Ok(old(nextId)) && enrollments == inserted[old(nextId) := e.(state := Confirmed)])
    {
      var saved := enrollments;
      var id := InsertEnrollment(e);
      r := Ok(id);
      if ctx.autoConfirm {
        var c := ConfirmEnrollment(ctx, id);
        if c.Fail? {
          enrollments, nextId := saved, id;
          r := Err(c.error);
          assert enrollments == old(enrollments) && nextId == old(nextId);
        }
      }
    }

    // --------------------------------------------------------------- students

    /** A rewrite of one student that keeps its ID and company, its dates in order and its partner and class known. */
    method WriteStudent(id: StudentId, st: Student)
      requires Valid() && id in students
      requires st.code == students[id].code && st.company == students[id].company && StudentDatesOk(st)
      requires st.partner.Some? && st.partner.value in partners && (st.classId.Some? ==> st.classId.value in classes)
      modifies this`students
      ensures Valid()
      ensures students == old(students)[id := st]
    {
      RewriteStudentKeepsTable(students, id, st);
      assert students[id := st].Keys == students.Keys;
      students := students[id := st];
      assert StudentLinks() by {
        forall k | k in students
          ensures students[k].partner.Some? && students[k].partner.value in partners
                  && (students[k].classId.Some? ==> students[k].classId.value in classes)
        {
          if k != id { assert k in old(students); }
        }
      }
    }

    /** The insertion of a student that raises nothing, at the next id. */
    method InsertStudent(st: Student) returns (id: StudentId)
      requires Valid() && StudentInsertError(students, partners.Keys, classes.Keys, st).None?
      modifies this`students, this`nextId
      ensures Valid()
      ensures id == old(nextId) && id !in old(students)
      ensures students == old(students)[id := st] && nextId == old(nextId) + 1
    {
      id := nextId;
      InsertStudentKeepsTable(students, partners.Keys, classes.Keys, id, st);
      RaiseFresh(id + 1);
      BelowAdd(students.Keys, id);
      assert students[id := st].Keys == students.Keys + {id};
      students := students[id := st];
      nextId := nextId + 1;
      assert StudentLinks() by {
        forall k | k in students
          ensures students[k].partner.Some? && students[k].partner.value in partners
                  && (students[k].classId.Some? ==> students[k].classId.value in classes)
        {
          if k != id { assert k in old(students); }
        }
      }
      assert EnrollmentLinks() by {
        forall k | k in enrollments ensures enrollments[k].student in students {
          assert enrollments[k].student in old(students);
        }
      }
    }

    /** `action_enroll` on a student. */
    method StudentEnroll(ctx: StudentContext, id: StudentId, today: Day) returns (r: Outcome<StudentError>)
      requires Valid() && id in students
      modifies this`students
      ensures Valid()
      ensures r == EnrollStudentCheck(ctx, partners, old(students), classes, id, today)
      ensures r.Pass? ==> students == old(students)[id := old(students)[id].(state := StudentEnrolled,
                                                                            enrollmentDate := Some(today))]
      ensures r.Fail? ==> students == old(students)
    {
      r := EnrollStudentCheck(ctx, partners, students, classes, id, today);
      if r.Pass? {
        WriteStudent(id, students[id].(state := StudentEnrolled, enrollmentDate := Some(today)));
      }
    }

    /** `action_transfer`: the state guard only; the state does not change. */
    method StudentTransfer(id: StudentId) returns (r: Outcome<StudentError>)
      requires id in students
      ensures r.Pass? <==> students[id].state == StudentEnrolled || students[id].state == Suspended
      ensures r.Fail? ==> r.error == StudentWrongState(TransferStudent, students[id].state)
    {
      r := StudentCheck(TransferStudent, students[id].state);
    }

    /** `action_graduate`: the state becomes graduated and the graduation date today. */
    method StudentGraduate(id: StudentId, today: Day) returns (r: Outcome<StudentError>)
      requires Valid() && id in students
      modifies this`students
      ensures Valid()
      ensures r == GraduateCheck(classes, courses, enrollments, attendances, old(students), id, today)
      ensures r.Pass? ==> students == old(students)[id := old(students)[id].(state := Graduated,
                                                                            graduationDate := Some(today))]
      ensures r.Fail? ==> students == old(students)
    {
      r := GraduateCheck(classes, courses, enrollments, attendances, students, id, today);
      if r.Pass? {
        WriteStudent(id, students[id].(state := Graduated, graduationDate := Some(today)));
      }
    }

    /**
     * `action_suspend`, `action_reactivate` and `action_dropout`: a state
     * guard and a state write, nothing else.
     */
    method StudentMove(a: StudentAction, id: StudentId) returns (r: Outcome<StudentError>)
      requires Valid() && id in students
      requires a == SuspendStudent || a == ReactivateStudent || a == DropoutStudent
      modifies this`students
      ensures Valid()
      ensures r == StudentCheck(a, old(students)[id].state)
      ensures r.Pass? ==> students == old(students)[id := old(students)[id].(state := StudentTarget(a, old(students)[id].state))]
      ensures r.Fail? ==> students == old(students)
    {
      r := StudentCheck(a, students[id].state);
      if r.Pass? {
        WriteStudent(id, students[id].(state := StudentTarget(a, students[id].state)));
      }
    }

    /** A write of a student's class (or of no class). */
    method AssignClass(id: StudentId, c: Option<ClassId>) returns (r: Outcome<StudentError>)
      requires Valid()
      modifies this`students
      ensures Valid()
      ensures r.Pass? <==> id in old(students) && (c.Some? ==> c.value in classes)
      ensures r.Pass? ==> students == old(students)[id := old(students)[id].(classId := c)]
      ensures r.Fail? ==> r.error == UnknownStudentRecord && students == old(students)
    {
      if id !in students || (c.Some? && c.value !in classes) {
        return Fail(UnknownStudentRecord);
      }
      WriteStudent(id, students[id].(classId := c));
      r := Pass;
    }

    /**
     * `create` of a student: the ID is generated when none is given, the
     * context's class is used when none is given; with `auto_enroll` the
     * new student is enrolled at once, and a failed enrolment undoes the
     * creation.
     */
    method CreateStudent(ctx: StudentContext, vals: StudentVals, sequence: Option<string>, today: Day)
      returns (r: Result<StudentId, StudentError>)
      requires Valid()
      modifies this`students, this`nextId
      ensures Valid()
      ensures r.Err? ==> students == old(students) && nextId == old(nextId)
      ensures NewStudent(ctx, schools, vals, sequence, today).Err? ==> r == Err(MissingSchool)
      ensures NewStudent(ctx, schools, vals, sequence, today).Ok? ==>
              var st := NewStudent(ctx, schools, vals, sequence, today).value;
              var err := StudentInsertError(old(students), partners.Keys, classes.Keys, st);
              var inserted := old(students)[old(nextId) := st];
              (err.Some? ==> r == Err(err.value))
              && (err.None? && !ctx.autoEnroll ==> r == Ok(old(nextId)) && students == inserted)
              && (err.None? && ctx.autoEnroll ==>
                    var c := EnrollStudentCheck(ctx, partners, inserted, classes, old(nextId), today);
                    (c.Fail? ==> r == Err(c.error))
                    && (c.Pass? ==> r == Ok(old(nextId))
                                    && students == inserted[old(nextId) := st.(state := StudentEnrolled,
                                                                               enrollmentDate := Some(today))]))
      ensures r.Ok? ==> r.value !in old(students) && nextId == old(nextId) + 1
    {
      var made := NewStudent(ctx, schools, vals, sequence, today);
      if made.Err? {
        return Err(made.error);
      }
      var st := made.value;
      var err := StudentInsertError(students, partners.Keys, classes.Keys, st);
      if err.Some? {
        return Err(err.value);
      }
      var saved := students;
      var id := InsertStudent(st);
      r := Ok(id);
      if ctx.autoEnroll {
        var c := StudentEnroll(ctx, id, today);
        if c.Fail? {
          students, nextId := saved, id;
          r := Err(c.error);
          assert students == old(students) && nextId == old(nextId);
          assert EnrollmentLinks() && StudentLinks() && FreshIds();
        }
      }
    }

    // ---------------------------------------------------------- academic years

    /** `action_activate` and `action_close` on one year. */
    method MoveYear(a: YearAction, id: YearId) returns (r: Outcome<YearError>)
      requires Valid() && id in years
      modifies this`years
      ensures Valid()
      ensures r == YearCheck(a, old(years)[id])
      ensures r.Pass? ==> years == old(years)[id := old(years)[id].(state := YearTarget(a))]
      ensures r.Fail? ==> years == old(years)
    {
      r := YearCheck(a, years[id]);
      if r.Pass? {
        years := years[id := years[id].(state := YearTarget(a))];
      }
    }

    /**
     * `action_activate` and `action_close` on a recordset: the years in
     * turn, and all of them undone when one is refused.
     */
    method MoveYears(a: YearAction, ids: seq<YearId>) returns (r: Outcome<YearError>)
      requires Valid() && forall i | 0 <= i < |ids| :: ids[i] in years
      modifies this`years
      ensures Valid()
      ensures var all := MoveAll(a, old(years), ids);
              (all.Err? ==> r == Fail(all.error) && years == old(years))
              && (all.Ok? ==> r == Pass && years == AllMoved(a, old(years), ids))
    {
      var all := MoveEach(a, years, ids);
      if all.Err? {
        return Fail(all.error);
      }
      MoveAllMoves(a, old(years), ids);
      WriteYears(all.value);
      r := Pass;
    }

    /** The years' table after a recordset action, written back in one step. */
    method WriteYears(table: map<YearId, AcademicYear>)
      requires Valid() && table.Keys == years.Keys
      requires forall k | k in table :: table[k] == years[k].(state := table[k].state)
      modifies this`years
      ensures Valid()
      ensures years == table
    {
      RestateKeepsYears(years, table);
      years := table;
    }

    /** `create` of an academic year, in state draft. */
    method CreateYear(name: string, school: SchoolId, startDate: Day, endDate: Day) returns (r: Result<YearId, YearError>)
      requires Valid()
      modifies this`years, this`nextId
      ensures Valid()
      ensures var y := AcademicYear(name, school, startDate, endDate, YearDraft);
              var err := NewYearError(old(years), schools.Keys, y);
              (err.Some? ==> r == Err(err.value) && years == old(years) && nextId == old(nextId))
              && (err.None? ==> r == Ok(old(nextId)) && years == old(years)[old(nextId) := y] && nextId == old(nextId) + 1)
    {
      var y := AcademicYear(name, school, startDate, endDate, YearDraft);
      var err := NewYearError(years, schools.Keys, y);
      if err.Some? {
        return Err(err.value);
      }
      InsertYearKeepsTable(years, schools.Keys, nextId, y);
      RaiseFresh(nextId + 1);
      BelowAdd(years.Keys, nextId);
      assert years[nextId := y].Keys == years.Keys + {nextId};
      years := years[nextId := y];
      r := Ok(nextId);
      nextId := nextId + 1;
    }

    // ------------------------------------------------------------- attendance

    /**
     * A batch `create` of attendance rows: either every row is inserted
     * with consecutive new ids, or the batch's error is raised and nothing
     * is inserted.
     */
    method CreateAttendances(vals: seq<Attendance>, today: Day) returns (r: Outcome<AttendanceError>)
      requires Valid()
      modifies this`attendances, this`nextId
      ensures Valid()
      ensures r.Fail? <==> BatchError(old(attendances), vals, today).Some?
      ensures r.Fail? ==> r.error == BatchError(old(attendances), vals, today).value
                          && attendances == old(attendances) && nextId == old(nextId)
      ensures r.Pass? ==> attendances == InsertBatch(old(attendances), old(nextId), vals)
                          && nextId == old(nextId) + |vals|
    {
      var err := BatchError(attendances, vals, today);
      if err.Some? {
        return Fail(err.value);
      }
      InsertBatchKeepsUnique(attendances, nextId, vals);
      var after := InsertBatch(attendances, nextId, vals);
      forall k | k in after ensures TimesOk(after[k]) {
        if k !in attendances {
          assert after[k] == vals[k - nextId];
        }
      }
      RaiseFresh(nextId + |vals|);
      assert Below(after.Keys, nextId + |vals|);
      attendances := after;
      nextId := nextId + |vals|;
      r := Pass;
    }

    /**
     * The rows of `vals` created one at a time, each by its own create:
     * the first row that raises aborts, and the rows created before it are
     * rolled back with it.
     */
    method CreateAttendancesInSequence(vals: seq<Attendance>, today: Day) returns (r: Outcome<AttendanceError>)
      requires Valid()
      modifies this`attendances, this`nextId
      ensures Valid()
      ensures r.Fail? <==> SequentialError(old(attendances), old(nextId), vals, today).Some?
      ensures r.Fail? ==> r.error == SequentialError(old(attendances), old(nextId), vals, today).value
                          && attendances == old(attendances) && nextId == old(nextId)
      ensures r.Pass? ==> attendances == InsertBatch(old(attendances), old(nextId), vals) && nextId == old(nextId) + |vals|
    {
      var t0, n0 := attendances, nextId;
      for i := 0 to |vals|
        invariant Valid()
        invariant attendances == InsertBatch(t0, n0, vals[..i]) && nextId == n0 + i
        invariant SequentialError(t0, n0, vals, today) == SequentialError(attendances, nextId, vals[i..], today)
      {
        var created := CreateOne(vals[i..], today);
        if created.Fail? {
          attendances, nextId := t0, n0;
          assert attendances == old(attendances) && nextId == old(nextId);
          assert EnrollmentLinks() && StudentLinks() && FreshIds();
          return created;
        }
        InsertBatchNext(t0, n0, vals, i);
        assert vals[i..][1..] == vals[i + 1..];
      }
      assert vals[..|vals|] == vals;
      r := Pass;
    }

    /** One create of the first row of `rest`, stated in terms of the sequential error of `rest`. */
    method CreateOne(rest: seq<Attendance>, today: Day) returns (r: Outcome<AttendanceError>)
      requires Valid() && rest != []
      modifies this`attendances, this`nextId
      ensures Valid()
      ensures r.Fail? <==> RowError(old(attendances), rest[0], today).Some?
      ensures r.Fail? ==> r == Fail(SequentialError(old(attendances), old(nextId), rest, today).value)
                          && attendances == old(attendances) && nextId == old(nextId)
      ensures r.Pass? ==> attendances == InsertBatch(old(attendances), old(nextId), [rest[0]]) && nextId == old(nextId) + 1
                          && SequentialError(old(attendances), old(nextId), rest, today)
                             == SequentialError(attendances, nextId, rest[1..], today)
    {
      r := CreateAttendances([rest[0]], today);
    }
  }
}
