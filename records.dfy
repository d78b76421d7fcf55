/**
 * The records of the school-administration tables.  Every table is a map
 * from record id to one of these values; relations are ids, reverse
 * relations (a class's students, a course's enrollments) are computed by
 * filtering the other table.
 */
module Records {
  import opened Common
  import opened Calendar

  type StudentId = nat
  type CourseId = nat
  type ClassId = nat
  type EnrollmentId = nat
  type AttendanceId = nat
  type InvoiceId = nat
  type PartnerId = nat
  type DepartmentId = nat
  type SchoolId = nat
  type YearId = nat
  type CompanyId = nat
  type TeacherId = nat
  type ProductId = nat

  datatype Gender = Male | Female | OtherGender

  /** A contact (res.partner): the student's identity, date of birth and gender. */
  datatype Partner = Partner(name: string, dateOfBirth: Option<Day>, gender: Option<Gender>)

  datatype School = School(name: string, code: string, company: Option<CompanyId>)

  datatype Department = Department(name: string, school: SchoolId)

  datatype YearState = YearDraft | YearActive | YearClosed

  datatype AcademicYear = AcademicYear(name: string, school: SchoolId, startDate: Day, endDate: Day, state: YearState)

  /** A class; a capacity of 0 means "no limit"; an archived class has `active` false. */
  datatype ClassRec = ClassRec(name: string, department: DepartmentId, academicYear: YearId,
                               teacher: Option<TeacherId>, capacity: int, active: bool)

  /**
   * A course; a capacity or fee of 0 means "none"; `prerequisites` are other
   * courses of the same table (nothing rules out a cycle); an archived
   * course has `active` false.
   */
  datatype Course = Course(name: string, department: DepartmentId, teacher: Option<TeacherId>,
                           product: Option<ProductId>, feeAmount: int, capacity: int,
                           required: bool, prerequisites: set<CourseId>, active: bool)

  datatype StudentState = StudentDraft | StudentEnrolled | Transferred | Graduated | Suspended | Dropped

  /**
   * A student.  Name and date of birth are those of the partner;
   * `code` is the external student ID, unique per company.
   */
  datatype Student = Student(partner: Option<PartnerId>, code: string, classId: Option<ClassId>,
                             enrollmentDate: Option<Day>, state: StudentState,
                             company: Option<CompanyId>, gender: Option<Gender>,
                             parents: set<PartnerId>, graduationDate: Option<Day>)

  datatype EnrollmentState = Draft | Confirmed | Enrolled | Completed | Cancelled | Failed

  datatype Grade = APlus | A | BPlus | B | CPlus | C | D | F

  /** A course enrollment; `score` is a percentage. */
  datatype Enrollment = Enrollment(student: StudentId, course: CourseId, enrollmentDate: Option<Day>,
                                   state: EnrollmentState, invoice: Option<InvoiceId>,
                                   grade: Option<Grade>, score: real, completionDate: Option<Day>,
                                   cancellationReason: Option<string>)

  datatype AttendanceState = Present | Absent | Late | Excused

  /** One attendance row; check-in and check-out are timestamps in seconds. */
  datatype Attendance = Attendance(student: StudentId, classId: ClassId, enrollment: Option<EnrollmentId>,
                                   date: Day, state: AttendanceState, teacher: Option<TeacherId>,
                                   notes: Option<string>, checkIn: Option<Seconds>, checkOut: Option<Seconds>)

  datatype MoveType = OutInvoice | OutRefund

  datatype PaymentState = NotPaid | InPayment | Paid | Partial | Reversed

  datatype InvoiceLine = InvoiceLine(product: Option<ProductId>, name: string, quantity: int, priceUnit: int)

  /**
   * An accounting move as the enrollment core sees it: type, partner, lines,
   * payment state and, for a refund, the invoice it reverses.
   */
  datatype Invoice = Invoice(name: string, moveType: MoveType, partner: Option<PartnerId>, invoiceDate: Option<Day>,
                             ref: string, lines: seq<InvoiceLine>, paymentState: PaymentState,
                             reversedEntry: Option<InvoiceId>)

  /** Untaxed total of a list of invoice lines. */
  function LinesTotal(lines: seq<InvoiceLine>): int {
    if lines == [] then 0 else lines[0].quantity * lines[0].priceUnit + LinesTotal(lines[1..])
  }

  /** `amount_total` of an invoice (taxes are not modelled). */
  function AmountTotal(inv: Invoice): int {
    LinesTotal(inv.lines)
  }
}
