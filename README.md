# School management: a verified model

This project models the rules of the `bi_school_management` Odoo module, plus the small
`add-info-urls` script that ships with it. The module covers schools, academic years,
classes, courses, students, course enrollments and attendance.

It models:

- the workflows of enrollments, students and academic years, with the guards that let each
  action start and the fields each action writes;
- the constraints the tables keep. These are SQL uniqueness and check constraints and the
  Python `@api.constrains` checks;
- the values the module computes: course, class and year totals, attendance statistics,
  grades, fee totals, age and the generated student ID;
- the three wizards that create attendance rows or register students.

Layout:

- **Common, Calendar, Records.** Shared wrappers (`Option`, `Outcome`, `Result`), the civil
  calendar behind ages, and one datatype per record. Dates are day numbers counted from
  1970-01-01; timestamps are seconds; money is an integer; percentages are exact reals.
- **Rules modules** (pure functions and lemmas):
  - `AttendanceRules` for the attendance ledger;
  - `ClassRollups`, `CourseRollups` and `YearRules` for the catalogue;
  - `EnrollmentRules` for the enrollment engine;
  - `StudentRules` for the student lifecycle;
  - `InfoUrls` for the script.

  Each guard is a function whose result is `Pass`, or `Fail` with the error the code
  raises. Each computed field is a function of the tables.
- **Store.** Holds `SchoolDb`, a class with one map per table and one id counter.
  - `Valid()` gathers the unique keys, the check constraints, the references between
    tables and the freshness of ids.
  - Every action is a method that evaluates its guard on the current tables. It writes only
    when the guard passes. It leaves every table as it was when the guard (or a constraint
    checked after the write) fails, as Odoo's transaction rollback does.
- **Wizards.** `BulkAttendance`, `AttendanceMarking` and `Registration` are classes whose
  methods update the wizard's fields and call the store.

Modelling choices:

- Odoo's context flags (`skip_prerequisites`, `min_attendance_percentage`, `auto_grade`,
  `generate_invoice`, `auto_enroll`, …) are explicit option records. Their defaults are the
  ones the code falls back on (`DefaultEnrollContext`, `DefaultStudentContext`,
  `DefaultWizardContext`).
- "Today", the sequence value and the current company are parameters.

Where the code and its description disagree, the model follows the code:

- a failed enrollment can still be cancelled;
- the course capacity check counts confirmed and enrolled enrollments, while the course's
  active count and headroom count enrolled ones only;
- a student's own seat counts against the class capacity;
- the age constraint is declared on a computed field that is not stored. Odoo never runs
  such a constraint, so it is modelled (`AgeCheck`) but enforced nowhere;
- the new-student path of the registration wizard raises at the partner create. Its values
  name `is_student`, which is not a field of res.partner here, so no student is ever created.

## Model

| member | source | states |
|---|---|---|
| EnrollmentRules.ActionsRealiseLifecycle | bi_school_management/models/education_enrollment.py:148-253 | The five actions realise exactly the eight workflow edges: draft→confirmed, confirmed→enrolled, enrolled→completed, enrolled→failed, and →cancelled from draft, confirmed, enrolled and failed. Completed and cancelled accept no action. Failed accepts cancellation only. |
| EnrollmentRules.CheckPrerequisites | bi_school_management/models/education_enrollment.py:256-271 | Passes exactly when every active prerequisite of the course (archived ones are dropped, as the many2many read does) is among the courses the student has completed. The error carries the missing set, active prerequisites minus completed, and their names. |
| EnrollmentRules.CheckCourseCapacity | bi_school_management/models/education_enrollment.py:273-288 | Fails exactly when the capacity is nonzero and the seats held are at least the capacity. |
| EnrollmentRules.ArchivedPrerequisiteIgnored | bi_school_management/models/education_course.py:43-73 | A course whose only prerequisite is archived passes the prerequisite check, whatever the student has completed. |
| EnrollmentRules.ConfirmCheck | bi_school_management/models/education_enrollment.py:148-170 | Confirmation passes exactly when the enrollment is a draft, the active prerequisites are completed unless skipped, and the capacity is 0 or the confirmed plus enrolled enrollments are below it unless skipped. A non-draft gets the wrong-state error. A draft missing an active prerequisite, when not skipped, gets the missing-prerequisites error naming the missing courses and their names. A draft past that check whose course is full, when capacity is not skipped, gets the course-full error. |
| EnrollmentRules.ConfirmRespectsCapacity | bi_school_management/models/education_enrollment.py:158-159 | With the capacity check on, a passing confirmation leaves the seats held on the course at most the capacity. |
| EnrollmentRules.HeadroomCanDisagreeWithCapacityCheck | bi_school_management/models/education_enrollment.py:273-288 | A course of capacity 1 with one confirmed enrollment shows one free seat in its headroom, yet refuses to confirm a second draft with the course-full error. |
| EnrollmentRules.ConfirmAll | bi_school_management/models/education_enrollment.py:148-170 | Confirming a recordset checks each enrollment in order against the table the earlier ones left. The first refusal is the error of the whole call; a pass keeps every key. |
| EnrollmentRules.ConfirmAllStep | bi_school_management/models/education_enrollment.py:150-170 | A recordset's result is its first enrollment's refusal, or the rest of the recordset confirmed on the table with the first one confirmed. |
| EnrollmentRules.ConfirmAllConfirms | bi_school_management/models/education_enrollment.py:150-170 | A passing recordset leaves exactly its enrollments confirmed, and every other enrollment and every other field as they were. |
| EnrollmentRules.ConfirmAllNeedsDistinctDrafts | bi_school_management/models/education_enrollment.py:150-153 | A passing recordset names each enrollment once, and each of them was a draft. |
| EnrollmentRules.ConfirmEach | bi_school_management/models/education_enrollment.py:150-170 | The loop over the recordset gives the same result as the recordset confirmation. |
| EnrollmentRules.ConfirmAllSingle | bi_school_management/models/education_enrollment.py:148-170 | A recordset of one enrollment behaves as that enrollment's own confirmation. |
| EnrollmentRules.LastSeatRefusesPair | bi_school_management/models/education_enrollment.py:150-170 | Two drafts on a course of capacity 1: the first alone would pass, but together they raise the course-full error. |
| EnrollmentRules.EnrollCheck | bi_school_management/models/education_enrollment.py:172-193 | Enrolling passes exactly when the enrollment is confirmed and, with invoice generation on, no invoice is linked yet, and today is not after a completion date already set. A state other than confirmed gets the wrong-state error, a linked invoice under generation gets the invoice-exists error, and otherwise a completion date before today gets the completion-before-enrollment error. |
| EnrollmentRules.InvoiceFor | bi_school_management/models/education_enrollment.py:314-354 | The invoice is a customer invoice for the student's partner, dated today and unpaid. It has exactly one line, of quantity 1 at the course fee for the course product, so its total is the fee. |
| EnrollmentRules.EnrollmentStats | bi_school_management/models/education_enrollment.py:129-145 | The total is the number of linked attendance rows, and attended is the number of those that are present, so attended ≤ total. With rows, the percentage is attended / total × 100; with none it is 0. |
| EnrollmentRules.CompleteCheck | bi_school_management/models/education_enrollment.py:195-224 | Completion passes exactly when the enrollment is enrolled, its attendance percentage reaches the minimum, and today is not before the enrollment date. A state other than enrolled gets the wrong-state error. An enrolled enrollment below the minimum gets the below-minimum error, and one that reaches it before its enrollment date gets the completion-before-enrollment error. |
| EnrollmentRules.CompletionNeedsThreeQuarters | bi_school_management/models/education_enrollment.py:202-205 | With linked attendance and the default minimum of 75, completion passes only if 4·attended ≥ 3·total. |
| EnrollmentRules.GradeFor | bi_school_management/models/education_enrollment.py:401-420 | A grade other than F has its threshold reached. Every better grade's threshold lies above the score, so the first matching threshold from the top wins. |
| EnrollmentRules.GradeMonotone | bi_school_management/models/education_enrollment.py:401-420 | A higher score never gets a worse grade. |
| EnrollmentRules.GradeAfterCompletion | bi_school_management/models/education_enrollment.py:210-211 | The grade is recomputed from the score only when automatic grading is on and the score is nonzero. Otherwise it is kept. |
| EnrollmentRules.FailCheck | bi_school_management/models/education_enrollment.py:245-253 | Failing passes exactly when the enrollment is enrolled. Otherwise the error is the wrong-state error. |
| EnrollmentRules.CancelCheck | bi_school_management/models/education_enrollment.py:226-243 | Cancelling passes exactly when the state is neither completed nor cancelled. Otherwise the error is the wrong-state error. |
| EnrollmentRules.RefundFor | bi_school_management/models/education_enrollment.py:368-387 | The refund is a credit note for the invoice's partner. It reverses that invoice and its reference is "Refund for: " followed by the invoice name. |
| EnrollmentRules.RewriteKeepsTable | bi_school_management/models/education_enrollment.py:115-126 | A write that keeps student, course and score, with dates in order, keeps the table's constraints: (student, course) unique, score in [0, 100], completion not before enrollment. |
| EnrollmentRules.NewEnrollment | bi_school_management/models/education_enrollment.py:473-486 | A created enrollment is a draft for the given student and course, with no invoice. Its enrollment date is the given one, or today. Its score and completion date are the given ones, which the insertion checks judge. |
| EnrollmentRules.InsertError | bi_school_management/models/education_enrollment.py:115-126 | An insertion raises nothing exactly when the score is in range, the dates are in order, the student and course exist, and no enrollment has the same (student, course). |
| EnrollmentRules.InsertKeepsTable | bi_school_management/models/education_enrollment.py:489-496 | An insertion that raises nothing keeps every constraint of the enrollment table. |
| EnrollmentRules.SecondEnrollmentIsDuplicate | bi_school_management/models/education_enrollment.py:115-120 | A second enrollment of the same student in the same course, with a valid score, raises the duplicate error. |
| StudentRules.StudentCheck | bi_school_management/models/education_student.py:122-225 | An action passes exactly when the state allows it. Otherwise the error is the wrong-state error for that action and state. |
| StudentRules.StudentActionsRealiseLifecycle | bi_school_management/models/education_student.py:122-225 | The actions realise exactly draft→enrolled, enrolled→graduated, enrolled→suspended, suspended→enrolled, enrolled→dropped and suspended→dropped. Transfer keeps the state. No action leads to transferred. Graduated, transferred and dropped accept no action. |
| StudentRules.StudentAge | bi_school_management/models/education_student.py:111-119 | With a known partner and date of birth, the age is the one from the calendar: its birthday in the age's year has come by today, and the next one has not. Otherwise the age is 0. |
| StudentRules.AgeCheck | bi_school_management/models/education_student.py:373-379 | An age passes exactly when it is 0 or in [3, 100]. |
| StudentRules.ValidateEnrollment | bi_school_management/models/education_student.py:228-243 | Validation passes exactly when the student has a partner and a class, the class capacity is 0 or the students in the class are below it, and a known age reaches the minimum. A missing partner is reported first, then a missing class. A full class of nonzero capacity gets the class-full error, and otherwise a known age below the minimum gets the too-young error. |
| StudentRules.OwnSeatCounts | bi_school_management/models/education_student.py:234-238 | A student assigned to a class of capacity 1 fills it alone, so validating that student's enrolment fails with the class-full error. |
| StudentRules.EnrollStudentCheck | bi_school_management/models/education_student.py:122-148 | Enrolment passes exactly when the student is a draft, validation passes unless skipped, and the graduation date is not before today. A non-draft gets the wrong-state error. A draft that fails validation gets validation's own error. A draft past validation whose graduation date is before today gets the graduation-before-enrollment error. |
| StudentRules.StudentAttendance | bi_school_management/models/education_student.py:94-102 | The percentage lies in [0, 100] and is 0 with no rows. Otherwise percentage × rows = present rows × 100. |
| StudentRules.GraduateCheck | bi_school_management/models/education_student.py:171-190 | Graduation passes exactly when the student is enrolled, has attendance ≥ 75 and every required course of the class's department completed, and today is not before the enrollment date. A state other than enrolled gets the wrong-state error, and an unmet requirement gives the requirements error. A student meeting the requirements with today before the enrollment date gets the graduation-before-enrollment error. |
| StudentRules.NoAttendanceNoGraduation | bi_school_management/models/education_student.py:245-255 | A student without attendance rows cannot graduate. |
| StudentRules.MissingRequiredCourseBlocksGraduation | bi_school_management/models/education_student.py:245-255 | A student with a required course that is not completed cannot graduate, whatever the attendance. |
| StudentRules.StudentFees | bi_school_management/models/education_student.py:104-110 | The total is the sum of the amounts of the student's distinct customer invoices, and the outstanding fees that of the unpaid ones. The total equals outstanding plus the paid invoices' amounts; with non-negative amounts, 0 ≤ outstanding ≤ total. |
| StudentRules.StudentEnrollmentCounts | bi_school_management/models/education_student.py:88-92 | The total counts all the student's enrollments, and the active count the ones in state enrolled, so active ≤ total. |
| StudentRules.SchoolPrefix | bi_school_management/models/education_student.py:353-363 | A school in context that does not exist raises the missing-record error. Otherwise the prefix is that school's code when it has one, and "STU" when it has none or no school is given. A school id of 0 counts as not given, as Python treats 0 as false. The prefix is never empty. |
| StudentRules.GenerateStudentId | bi_school_management/models/education_student.py:353-363 | Fails exactly when the prefix does, with the same error. Otherwise the ID is the prefix followed by the sequence value, or by "0001" when there is none. |
| StudentRules.GeneratedIdsDiffer | bi_school_management/models/education_student.py:353-363 | Two different sequence values give two different IDs. |
| StudentRules.DefaultGeneratedId | bi_school_management/models/education_student.py:353-363 | With no school and no sequence value the ID is "STU0001". |
| StudentRules.NewStudent | bi_school_management/models/education_student.py:334-351 | A given student ID is kept, and an empty one is generated; a generation that raises fails the create. The class falls back on the context's class, the enrollment date on today and the company on the context's company. State, partner, gender, parents and graduation date are the given ones. |
| StudentRules.StudentInsertError | bi_school_management/models/education_student.py:81-85 | An insertion raises nothing exactly when the partner is given and exists, the class exists, the dates are in order, and no student of the same company has the same ID. |
| StudentRules.InsertStudentKeepsTable | bi_school_management/models/education_student.py:366-371 | An insertion that raises nothing keeps the student table's constraints. |
| StudentRules.RewriteStudentKeepsTable | bi_school_management/models/education_student.py:366-371 | A write that keeps the ID and company, with dates in order, keeps the student table's constraints. |
| Calendar.CivilRoundTrip | bi_school_management/models/education_student.py:115-117 | Every day number comes back from its calendar date, and the date has a month in 1..12 and a day in 1..31. |
| Calendar.CivilInjective | bi_school_management/models/education_student.py:115-117 | Two different days never share a calendar date. |
| Calendar.DayOfYearInRange | bi_school_management/models/education_student.py:115-117 | Within a 400-year era, a day's year of the era lies in 0..399 and its day of that year in 0..365. |
| Calendar.CivilEpoch | bi_school_management/models/education_student.py:115-117 | Day 0 is 1 January 1970, which fixes the numbering the round trip is about. |
| Calendar.YearsBetweenCountsAnniversaries | bi_school_management/models/education_student.py:115-117 | The age is the year difference, less one when the birthday has not come yet this year. |
| AttendanceRules.Duration | bi_school_management/models/education_attendance.py:86-93 | The duration is 0 unless both times are set. Otherwise duration × 3600 is the seconds between them, never negative when the times are in order. |
| AttendanceRules.DurationPositive | bi_school_management/models/education_attendance.py:86-103 | With both times set and in order, the duration is strictly positive. |
| AttendanceRules.DurationOfSchoolDay | bi_school_management/models/education_attendance.py:86-93 | 08:00 to 17:00 on one day is in order and lasts 9 hours. |
| AttendanceRules.RatePercent | bi_school_management/models/education_enrollment.py:135-143 | attended/total·100 lies in [0, 100] and is 0 when the total is 0. |
| AttendanceRules.RateReachesThreshold | bi_school_management/models/education_enrollment.py:135-143 | With rows, the rate reaches a threshold exactly when attended·100 ≥ threshold·total. |
| AttendanceRules.StatsOver | bi_school_management/models/education_enrollment.py:129-145 | The counts are those of the rows and of their present subset, attended ≤ total, and the percentage lies in [0, 100]. No rows give zero everywhere. |
| AttendanceRules.RowError | bi_school_management/models/education_attendance.py:78-109 | A row raises nothing exactly when its slot (student, class, date) is free, its date is not after today and its check-out follows its check-in. A taken slot gives the duplicate error. |
| AttendanceRules.BatchError | bi_school_management/models/education_attendance.py:78-109 | A batch raises nothing exactly when no row duplicates a stored row or an earlier row of the batch, and every row passes both checks. A batch of one behaves like a single row. |
| AttendanceRules.InsertBatchKeepsUnique | bi_school_management/models/education_attendance.py:78-84 | A batch free of duplicates, stored at fresh ids, keeps (student, class, date) unique. |
| AttendanceRules.SecondRecordIsDuplicate | bi_school_management/models/education_attendance.py:78-84 | Recording the same slot twice makes the second insertion raise the duplicate error. |
| AttendanceRules.SequentialError | bi_school_management/wizard/attendance_bulk_wizard.py:23-34 | When rows are created one at a time, a first row that raises decides the error. |
| AttendanceRules.SequentialMatchesBatch | bi_school_management/wizard/attendance_bulk_wizard.py:23-34 | Creating rows one at a time fails exactly when creating them as one batch fails. |
| CourseRollups.Totals | bi_school_management/models/education_course.py:77-87 | Total counts all enrollments of the course, active counts the enrolled ones, and active ≤ total. With nonzero capacity, active + available = capacity, unclamped; with zero capacity, available is 0. |
| CourseRollups.ConfirmingLeavesTotals | bi_school_management/models/education_course.py:81-83 | Confirming a draft leaves the course totals unchanged. |
| ClassRollups.Totals | bi_school_management/models/education_class.py:38-45 | Total counts the students of the class. With nonzero capacity, total + available = capacity; with zero capacity, available is 0. |
| ClassRollups.AssignClassMembers | bi_school_management/wizard/student_registration_wizard.py:41 | Moving a student into a class adds exactly that student to it and takes exactly that student from the old class. |
| YearRules.YearCheck | bi_school_management/models/education_academic_year.py:76-90 | Activation passes exactly from draft, and closing exactly from active. Otherwise the error is the wrong-state error. |
| YearRules.YearActionsFollowLifecycle | bi_school_management/models/education_academic_year.py:76-90 | The actions realise exactly draft→active and active→closed, and a closed year accepts no action. |
| YearRules.MoveAll | bi_school_management/models/education_academic_year.py:76-90 | An action on a recordset checks each year in order against the table the earlier ones left. The first refusal is the error of the whole call; a pass keeps every key. |
| YearRules.MoveAllStep | bi_school_management/models/education_academic_year.py:78-90 | A recordset's result is its first year's refusal, or the rest moved on the table with the first one moved. |
| YearRules.MoveAllMoves | bi_school_management/models/education_academic_year.py:76-90 | A passing recordset puts exactly its years in the target state and leaves everything else as it was. |
| YearRules.MoveAllSucceedsIff | bi_school_management/models/education_academic_year.py:76-90 | A recordset passes exactly when it names each year once and every year is in the action's starting state. |
| YearRules.MoveEach | bi_school_management/models/education_academic_year.py:78-90 | The loop over the recordset gives the same result as the recordset action. |
| YearRules.RestateKeepsYears | bi_school_management/models/education_academic_year.py:56-66 | Writing only states keeps the year table's constraints. |
| YearRules.NewYearError | bi_school_management/models/education_academic_year.py:15-66 | A new year raises nothing exactly when its end follows its start, no year of the same school has its name, and its school exists. Bad dates are reported first, and a missing school last, as the foreign key is checked at the end of the statement. |
| YearRules.InsertYearKeepsTable | bi_school_management/models/education_academic_year.py:93-98 | An insertion that raises nothing keeps name-per-school uniqueness and the date order. |
| YearRules.StudentsOfAddUp | bi_school_management/models/education_academic_year.py:69-73 | The distinct students of a set of classes number the sum of the classes' student counts. |
| YearRules.YearStudentsAreClassSum | bi_school_management/models/education_academic_year.py:69-73 | A year's student total is the sum of its classes' student totals. |
| InfoUrls.FirstCode | scripts/add-info-urls.py:28-32 | No code exactly when no `[` + capital + decimal digits + `(` occurs, where a digit is any Unicode decimal digit, as Python's `\d` on text. Otherwise the code is the letter and digits of the leftmost such occurrence. |
| InfoUrls.SearchFindsFirst | scripts/add-info-urls.py:29 | The search from the start of the line finds the leftmost match and its end. |
| InfoUrls.NoMatchUnchanged | scripts/add-info-urls.py:28-37 | A line without a match is returned unchanged. |
| InfoUrls.AddInfoUrls | scripts/add-info-urls.py:28-37 | A line with no match is unchanged. For the leftmost match, a code in the table gives the right-stripped line plus " More info at " + URL + newline; a code not in the table gives the line unchanged. |
| InfoUrls.FirstCodeOfFirstMatch | scripts/add-info-urls.py:29-32 | The extracted code is the letter and digits of the leftmost match. |
| InfoUrls.FirstMatchDecides | scripts/add-info-urls.py:29-37 | For a given leftmost match: the first match decides. A known code gives the right-stripped line plus " More info at " + URL + newline; an unknown code gives the line unchanged. |
| InfoUrls.CodeShape | scripts/add-info-urls.py:32 | An extracted code is one capital letter followed by one or more digits. |
| InfoUrls.TableShape | scripts/add-info-urls.py:10-22 | Every code of the table is a capital and four digits. |
| InfoUrls.ExampleUnknownFirst | scripts/add-info-urls.py:29-37 | A mapped code after an unmapped first match does not help. |
| InfoUrls.ShortFirstCodeUnchanged | scripts/add-info-urls.py:29-37 | A first code whose length is not five, so not in the table, leaves the line unchanged. |
| InfoUrls.ExampleNonAsciiDigitFirst | scripts/add-info-urls.py:29-37 | A first code written with an Arabic-Indic digit is a match, so the known code after it adds nothing. |
| InfoUrls.ExampleKnown | scripts/add-info-urls.py:29-37 | A known first code gives the stripped line, " More info at ", its URL and a newline. |
| InfoUrls.RStrip | scripts/add-info-urls.py:35 | The result is a prefix of the line with no trailing whitespace, and only whitespace was removed. |
| Store.SchoolDb.ConfirmEnrollment | bi_school_management/models/education_enrollment.py:148-170 | Keeps the invariant. The result is the confirmation guard. On success only the state becomes confirmed; on failure nothing changes. |
| Store.SchoolDb.ConfirmEnrollments | bi_school_management/models/education_enrollment.py:148-170 | Keeps the invariant. The recordset is confirmed as ConfirmAll says. A refusal changes nothing; a pass leaves exactly the named enrollments confirmed. |
| Store.SchoolDb.WriteStates | bi_school_management/models/education_enrollment.py:148-170 | Keeps the invariant. Writes new enrollment states, all other fields kept. |
| Store.SchoolDb.EnrollEnrollment | bi_school_management/models/education_enrollment.py:172-193 | Keeps the invariant. The result is the enrolling guard. With a fee and invoice generation on, one new invoice is created and linked. State and enrollment date are written. A failure changes nothing. |
| Store.SchoolDb.CompleteEnrollment | bi_school_management/models/education_enrollment.py:195-224 | Keeps the invariant. The result is the completion guard. On success state, completion date and grade are written; a failure changes nothing. |
| Store.SchoolDb.CancelEnrollment | bi_school_management/models/education_enrollment.py:226-243 | Keeps the invariant. The state becomes cancelled with the context's reason (default "Student request"). A refund is created exactly when one is due. A failure changes nothing. |
| Store.SchoolDb.FailEnrollment | bi_school_management/models/education_enrollment.py:245-253 | Keeps the invariant. The state becomes failed only from enrolled; a failure changes nothing. |
| Store.SchoolDb.CreateEnrollment | bi_school_management/models/education_enrollment.py:473-486 | A missing course falls back on the context's course, or raises. An insertion error raises. Automatic confirmation runs on the new draft, and its failure rolls the creation back. |
| Store.SchoolDb.InsertAndConfirm | bi_school_management/models/education_enrollment.py:473-486 | The new enrollment gets the next id. With automatic confirmation, the confirmation guard runs on the table that holds it. A refusal restores the table and the counter; a pass leaves the enrollment confirmed. |
| Store.SchoolDb.StudentEnroll | bi_school_management/models/education_student.py:122-148 | Keeps the invariant. The result is the enrolment guard. On success state and enrollment date are written; a failure changes nothing. |
| Store.SchoolDb.StudentTransfer | bi_school_management/models/education_student.py:150-169 | Passes exactly for an enrolled or suspended student and changes nothing. |
| Store.SchoolDb.StudentGraduate | bi_school_management/models/education_student.py:171-190 | Keeps the invariant. The result is the graduation guard. On success state and graduation date are written; a failure changes nothing. |
| Store.SchoolDb.StudentMove | bi_school_management/models/education_student.py:192-225 | Suspend, reactivate and dropout: a state guard and a state write, with nothing changed on failure. |
| Store.SchoolDb.AssignClass | bi_school_management/wizard/student_registration_wizard.py:41 | Writes only the student's class, when both records exist. |
| Store.SchoolDb.CreateStudent | bi_school_management/models/education_student.py:334-351 | The record is built as described for NewStudent, and a generation that raises fails the create with nothing written. An insertion error raises. Automatic enrolment runs on the new student, and its failure rolls the creation back. |
| Store.SchoolDb.MoveYear | bi_school_management/models/education_academic_year.py:76-90 | Keeps the invariant. The result is the year guard. On success only the state is written. |
| Store.SchoolDb.MoveYears | bi_school_management/models/education_academic_year.py:76-90 | Keeps the invariant. The recordset is moved as MoveAll says. A refusal changes nothing; a pass puts exactly the named years in the target state. |
| Store.SchoolDb.WriteYears | bi_school_management/models/education_academic_year.py:76-90 | Keeps the invariant. Writes new year states, all other fields kept. |
| Store.SchoolDb.CreateYear | bi_school_management/models/education_academic_year.py:15-66 | A new draft year is inserted at the next id exactly when it raises nothing, its school included. Otherwise the error is raised and nothing changes. |
| Store.SchoolDb.CreateAttendances | bi_school_management/models/education_attendance.py:78-109 | A batch either inserts every row at consecutive new ids or raises the batch error and inserts none. |
| Store.SchoolDb.CreateAttendancesInSequence | bi_school_management/wizard/attendance_bulk_wizard.py:23-34 | One create per row. The first failing row's error aborts and rolls back the rows before it. Otherwise the rows are those of the batch insertion. |
| Store.SchoolDb.CreateOne | bi_school_management/wizard/attendance_bulk_wizard.py:25-34 | One create of the first remaining row. It fails exactly when that row raises. On success the rest goes on with the same sequential error. |
| BulkAttendance.BackUndoesNext | bi_school_management/wizard/bulk_attendance_wizard.py:168-218 | Previous undoes next except at the last step, and next undoes previous except at the first. |
| BulkAttendance.CountIn | bi_school_management/wizard/bulk_attendance_wizard.py:88-100 | A count is at most the lines. It is all of them when all have the state, and none when none has it. |
| BulkAttendance.StatesPartitionLines | bi_school_management/wizard/bulk_attendance_wizard.py:88-100 | Present + absent + late + excused lines = all lines. |
| BulkAttendance.Summary | bi_school_management/wizard/bulk_attendance_wizard.py:88-100 | Total is the lines. Present + absent + late + excused = total, so the three counts never exceed it. |
| BulkAttendance.BulkStateSummary | bi_school_management/wizard/bulk_attendance_wizard.py:160-165 | After mark-all-present every line counts as present; after mark-all-absent every line counts as absent. |
| BulkAttendance.AtMostOneMatch | bi_school_management/wizard/bulk_attendance_wizard.py:287-297 | With (student, course) unique there is at most one enrollment to link. |
| BulkAttendance.PrepareValues | bi_school_management/wizard/bulk_attendance_wizard.py:275-312 | The row has the wizard's class, date and teacher and the line's student and state. Notes are the line's, or the wizard's. An enrollment is linked exactly when the student has an enrolled one in the course. Time tracking gives a 9-hour row. |
| BulkAttendance.ConfirmedLinesAreRecorded | bi_school_management/wizard/bulk_attendance_wizard.py:243-260 | After confirming, line i is recorded under the i-th new id, and the (class, date) pair now has attendance. |
| BulkAttendance.BulkAttendanceWizard.constructor | bi_school_management/wizard/bulk_attendance_wizard.py:12-62 | A new wizard starts at the selection step, dated today, with the custom bulk state and no lines. |
| BulkAttendance.BulkAttendanceWizard.GenerateLines | bi_school_management/wizard/bulk_attendance_wizard.py:220-241 | Exactly one line per selected student, in order, in the default state, with empty notes. |
| BulkAttendance.BulkAttendanceWizard.NextStep | bi_school_management/wizard/bulk_attendance_wizard.py:168-205 | Each step's guard is stated both ways, with its error. A pass moves one step forward; a failure changes nothing. The students step regenerates the lines. |
| BulkAttendance.BulkAttendanceWizard.PreviousStep | bi_school_management/wizard/bulk_attendance_wizard.py:207-218 | One step back; selection stays selection. |
| BulkAttendance.BulkAttendanceWizard.ApplyBulkState | bi_school_management/wizard/bulk_attendance_wizard.py:160-165 | Custom leaves the lines alone. Otherwise every line gets the bulk state and nothing else changes. |
| BulkAttendance.BulkAttendanceWizard.Confirm | bi_school_management/wizard/bulk_attendance_wizard.py:243-260 | No lines raise. Otherwise the rows prepared from the lines are one batch: all inserted, or the batch error and none. |
| AttendanceMarking.Recorded | bi_school_management/wizard/attendance_bulk_wizard.py:43-51 | A line is recorded as present, absent or late, never excused. |
| AttendanceMarking.MarkValues | bi_school_management/wizard/attendance_bulk_wizard.py:25-33 | The row has the line's student and state, the wizard's class and date, and the class's teacher. |
| AttendanceMarking.ClassLinesCoverMembers | bi_school_management/wizard/attendance_bulk_wizard.py:14-21 | The lines name every student of the class exactly once and no one else, each present. |
| AttendanceMarking.AttendanceBulkWizard.constructor | bi_school_management/wizard/attendance_bulk_wizard.py:8-12 | A new wizard is dated today, with no lines. |
| AttendanceMarking.AttendanceBulkWizard.OnchangeClass | bi_school_management/wizard/attendance_bulk_wizard.py:14-21 | No class gives no lines; a class gives its lines. |
| AttendanceMarking.AttendanceBulkWizard.MarkAttendance | bi_school_management/wizard/attendance_bulk_wizard.py:23-34 | Fails exactly when the batch of the lines' rows would. The error is the first failing create's error, and nothing stays inserted. Otherwise every line's row is inserted. |
| Registration.FirstUnknownField | bi_school_management/models/res_partner_extension.py:4-12 | No key is reported exactly when every key is `name` or a field this module adds to res.partner. A reported key is one of the keys and is neither. |
| Registration.RegistrationPartnerIsRefused | bi_school_management/wizard/student_registration_wizard.py:47-53 | The wizard's partner values carry `is_student`, the key res.partner refuses. |
| Registration.StudentRegistrationWizard.constructor | bi_school_management/wizard/student_registration_wizard.py:9-25 | A new wizard registers an existing student by default, with every new-student field empty. |
| Registration.StudentRegistrationWizard.OnchangeRegistrationType | bi_school_management/wizard/student_registration_wizard.py:27-35 | "New" clears the student. "Existing" clears the four new-student fields. |
| Registration.StudentRegistrationWizard.RegisterStudent | bi_school_management/wizard/student_registration_wizard.py:37-69 | With no student or no name it raises a name error. An existing student gets only its class written. A new student with a name fails with the invalid-field error for `is_student`. Every failure leaves the students as before. |
| Registration.StudentRegistrationWizard.RegisterExisting | bi_school_management/wizard/student_registration_wizard.py:38-41 | Writes the wizard's class on the chosen student, and nothing else. |
| Registration.StudentRegistrationWizard.RegisterNew | bi_school_management/wizard/student_registration_wizard.py:42-53 | Without a name, a name error. With one, the invalid-field error of the partner create, before anything is written. |

## Left out

- Notifications, activities, messages and certificates are left out. These are mail
  side effects and empty stubs; they have no effect on the tables modelled here.
- Accounting internals are left out: journal and income-account searches, invoice posting
  (`action_post`), payment terms, and the computation of an invoice's payment state. An
  invoice is a record with lines, a partner, a type and a payment state that the model
  takes as given.
- Window actions, returned view dictionaries, onchange domain returns and `default_get`
  are left out. They configure the user interface only.
- The bulk wizard's two domain-only onchanges (`_onchange_class_id`, `_onchange_course_id`)
  are left out, and so is the `all_students` auto-selection. The student selection is a
  field the user sets.
- Record order is not modelled:
  - The marking wizard's class lines follow student ids, where Odoo orders students by
    student ID and name.
  - The bulk attendance wizard's selected students are a sequence, which may name a student
    twice, where a Many2many field holds each record once.
  - That wizard's lines, and so the ids `ConfirmedLinesAreRecorded` assigns them, follow the
    sequence's order rather than the student model's order.
  - The enrollment a bulk attendance row links to is the least matching id. Uniqueness of
    (student, course) makes this the only match (`AtMostOneMatch`).
- `ir.sequence`, the current company and today's date are parameters. Ids come from one
  counter shared by all tables.
- Floating point is not modelled: percentages and durations are exact reals, and money is
  an integer.
- Concurrency and locking are not modelled. Every action is atomic.
- The department and school models and the course and batch-creation wizards are not part
  of this model. They only count related records or create records without rules.
- `test_get_students.py` and the script's `main` loop are not part of this model. They are
  network and terminal I/O.
- StudentRules.AgeCheck: modelled but enforced by no action, because Odoo does not trigger
  a constraint declared on a non-stored computed field.
- Store.SchoolDb.CreateAttendances: does not check that the student, class and enrollment
  a row refers to exist. The references are decided by the callers, and the store keeps no
  invariant about them.
- BulkAttendance.BulkAttendanceWizard.Confirm: requires the class and the date. They are
  required fields of the wizard, so a saved wizard always has them.
- AttendanceMarking.AttendanceBulkWizard.MarkAttendance: requires the class to exist, for
  the same reason.
- EnrollEnrollment, CompleteEnrollment, CancelEnrollment, FailEnrollment: each acts on one
  enrollment. On a recordset Odoo runs them in order and one failure undoes the whole call;
  the model states that only for confirmation (`ConfirmEnrollments`) and for the year
  actions (`MoveYears`).
- Records.AmountTotal: sums the invoice lines without taxes. Tax computation belongs to the
  accounting module, which is not part of this model.
- InfoUrls.IsDigit: the decimal digits are those of Unicode 15.0. Later Unicode versions
  that add digits are not covered.
- EnrollmentRules.RefundFor: the refund is modelled with no lines, as the code creates it.
  The amounts that posting would copy from the reversed invoice are not modelled.
