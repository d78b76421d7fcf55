/**
 * The one-screen attendance wizard: choosing a class fills one line per
 * student of the class, and marking creates one attendance row per line,
 * each with its own create.
 */
module AttendanceMarking {
  import opened Common
  import opened Calendar
  import opened Records
  import opened AttendanceRules
  import opened ClassRollups
  import opened Store

  /** The states a line of this wizard offers. */
  datatype LineState = LinePresent | LineAbsent | LineLate

  /** The attendance state a line state is recorded as. */
  function Recorded(s: LineState): (st: AttendanceState)
    ensures st != Excused
  {
    match s
    case LinePresent => Present
    case LineAbsent => Absent
    case LineLate => Late
  }

  datatype MarkLine = MarkLine(student: StudentId, state: LineState)

  /** The row `action_mark_attendance` creates for one line: the wizard's class and date, the class's teacher. */
  function MarkValues(c: ClassId, teacher: Option<TeacherId>, d: Day, line: MarkLine): (a: Attendance)
    ensures a.student == line.student && a.classId == c && a.date == d && a.state == Recorded(line.state)
    ensures a.teacher == teacher && a.enrollment.None? && a.notes.None?
    ensures Duration(a) == 0.0
  {
    Attendance(line.student, c, None, d, Recorded(line.state), teacher, None, None, None)
  }

  /** The rows of all lines, in line order. */
  function AllMarkValues(c: ClassId, teacher: Option<TeacherId>, d: Day, lines: seq<MarkLine>): seq<Attendance> {
    seq(|lines|, i requires 0 <= i < |lines| => MarkValues(c, teacher, d, lines[i]))
  }

  /** The lines a class fills the wizard with: each student of the class once, present. */
  function ClassLines(students: map<StudentId, Student>, c: ClassId): seq<MarkLine> {
    var members := Ordered(ClassMembers(students, c));
    seq(|members|, i requires 0 <= i < |members| => MarkLine(members[i], LinePresent))
  }

  /** The lines of a class name every student of the class exactly once, and no one else. */
  lemma ClassLinesCoverMembers(students: map<StudentId, Student>, c: ClassId)
    ensures var lines := ClassLines(students, c);
            |lines| == |ClassMembers(students, c)|
            && (forall s :: s in ClassMembers(students, c) <==> exists i | 0 <= i < |lines| :: lines[i].student == s)
            && (forall i, j | 0 <= i < j < |lines| :: lines[i].student != lines[j].student)
            && (forall i | 0 <= i < |lines| :: lines[i].state == LinePresent)
  {
    var members := Ordered(ClassMembers(students, c));
    var lines := ClassLines(students, c);
    forall s | s in ClassMembers(students, c)
      ensures exists i | 0 <= i < |lines| :: lines[i].student == s
    {
      var i :| 0 <= i < |members| && members[i] == s;
      assert lines[i].student == s;
    }
    forall s | exists i | 0 <= i < |lines| :: lines[i].student == s
      ensures s in ClassMembers(students, c)
    {
      var i :| 0 <= i < |lines| && lines[i].student == s;
      assert members[i] == s;
    }
  }

  class AttendanceBulkWizard {
    var classId: Option<ClassId>
    var date: Day
    var lines: seq<MarkLine>

    constructor (today: Day)
      ensures classId == None && date == today && lines == []
    {
      classId, date, lines := None, today, [];
    }

    /**
     * `_onchange_class_id`: the old lines are dropped and, when a class is
     * chosen, one line per student of the class is added, each present.
     */
    method OnchangeClass(db: SchoolDb)
      modifies this`lines
      ensures classId.None? ==> lines == []
      ensures classId.Some? ==> lines == ClassLines(db.students, classId.value)
    {
      if classId.None? {
        lines := [];
        return;
      }
      var target := ClassLines(db.students, classId.value);
      var members := Ordered(ClassMembers(db.students, classId.value));
      var filled: seq<MarkLine> := [];
      for i := 0 to |members|
        invariant filled == target[..i]
      {
        assert target[i] == MarkLine(members[i], LinePresent);
        filled := filled + [MarkLine(members[i], LinePresent)];
      }
      assert target[..|members|] == target;
      lines := filled;
    }

    /**
     * `action_mark_attendance`: one create per line, in line order.  The
     * first row that raises aborts the action and every row created before
     * it is rolled back with it; a run without error inserts exactly the
     * rows of a batch create of all lines.
     */
    method MarkAttendance(db: SchoolDb, today: Day) returns (r: Outcome<AttendanceError>)
      requires db.Valid()
      requires classId.Some? && classId.value in db.classes
      modifies db`attendances, db`nextId
      ensures db.Valid()
      ensures var vals := AllMarkValues(classId.value, db.classes[classId.value].teacher, date, lines);
              (r.Fail? <==> BatchError(old(db.attendances), vals, today).Some?)
              && (r.Fail? ==> SequentialError(old(db.attendances), old(db.nextId), vals, today).Some?
                              && r.error == SequentialError(old(db.attendances), old(db.nextId), vals, today).value
                              && db.attendances == old(db.attendances) && db.nextId == old(db.nextId))
              && (r.Pass? ==> db.attendances == InsertBatch(old(db.attendances), old(db.nextId), vals)
                              && db.nextId == old(db.nextId) + |lines|)
    {
      var vals := AllMarkValues(classId.value, db.classes[classId.value].teacher, date, lines);
      SequentialMatchesBatch(db.attendances, db.nextId, vals, today);
      r := db.CreateAttendancesInSequence(vals, today);
    }
  }
}
