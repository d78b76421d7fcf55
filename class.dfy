/**
 * A class's stored totals: the number of students assigned to it and the
 * seats left under its capacity.  Both are recomputed from the student
 * table, so they are functions of the students and the capacity alone.
 */
module ClassRollups {
  import opened Common
  import opened Records

  /** The students whose class is `c` (the class's `student_ids`). */
  function ClassMembers(students: map<StudentId, Student>, c: ClassId): set<StudentId> {
    set s | s in students && students[s].classId == Some(c)
  }

  /** The two stored totals of a class. */
  datatype ClassTotals = ClassTotals(totalStudents: nat, availableCapacity: int)

  /**
   * `_compute_totals`: the member count, and the capacity less that count
   * when a capacity is set (0 otherwise); the headroom is not clamped.
   */
  function Totals(cls: ClassRec, students: map<StudentId, Student>, c: ClassId): (t: ClassTotals)
    ensures t.totalStudents == |ClassMembers(students, c)|
    ensures cls.capacity != 0 ==> t.totalStudents + t.availableCapacity == cls.capacity
    ensures cls.capacity == 0 ==> t.availableCapacity == 0
  {
    var total := |ClassMembers(students, c)|;
    ClassTotals(total, if cls.capacity != 0 then cls.capacity - total else 0)
  }

  /**
   * Writing a student's class to `c` (from another class or none) adds
   * exactly that student to `c`'s members and takes them off the class they
   * left; every other class keeps its members.
   */
  lemma {:induction false} AssignClassMembers(students: map<StudentId, Student>, s: StudentId, c: ClassId, d: ClassId)
    requires s in students && students[s].classId != Some(c)
    ensures var after := students[s := students[s].(classId := Some(c))];
            ClassMembers(after, c) == ClassMembers(students, c) + {s}
            && |ClassMembers(after, c)| == |ClassMembers(students, c)| + 1
            && (d != c && students[s].classId == Some(d) ==>
                  ClassMembers(after, d) == ClassMembers(students, d) - {s}
                  && |ClassMembers(after, d)| == |ClassMembers(students, d)| - 1)
            && (d != c && students[s].classId != Some(d) ==> ClassMembers(after, d) == ClassMembers(students, d))
  {
    var after := students[s := students[s].(classId := Some(c))];
    assert ClassMembers(after, c) == ClassMembers(students, c) + {s};
    assert s !in ClassMembers(students, c);
    if d != c {
      if students[s].classId == Some(d) {
        assert ClassMembers(after, d) == ClassMembers(students, d) - {s};
        assert s in ClassMembers(students, d);
      } else {
        assert ClassMembers(after, d) == ClassMembers(students, d);
      }
    }
  }
}
