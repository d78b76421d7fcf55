/**
 * A course's stored totals: all its enrollments, the enrolled ones among
 * them, and the seats left under its capacity (counted against enrolled
 * enrollments only).
 */
module CourseRollups {
  import opened Common
  import opened Records

  /** The enrollments of course `c` (the course's `enrollment_ids`). */
  function CourseEnrollments(enrollments: map<EnrollmentId, Enrollment>, c: CourseId): set<EnrollmentId> {
    set k | k in enrollments && enrollments[k].course == c
  }

  /** The enrollments of course `c` in state enrolled. */
  function EnrolledIn(enrollments: map<EnrollmentId, Enrollment>, c: CourseId): set<EnrollmentId> {
    set k | k in enrollments && enrollments[k].course == c && enrollments[k].state == Enrolled
  }

  /** The three stored totals of a course. */
  datatype CourseTotals = CourseTotals(totalEnrollments: nat, activeEnrollments: nat, availableCapacity: int)

  /**
   * `_compute_totals`: every enrollment counts towards the total, only the
   * enrolled ones towards the active count, and the headroom is the
   * capacity less the active count when a capacity is set (0 otherwise).
   */
  function Totals(course: Course, enrollments: map<EnrollmentId, Enrollment>, c: CourseId): (t: CourseTotals)
    ensures t.totalEnrollments == |CourseEnrollments(enrollments, c)|
    ensures t.activeEnrollments == |EnrolledIn(enrollments, c)|
    ensures t.activeEnrollments <= t.totalEnrollments
    ensures course.capacity != 0 ==> t.activeEnrollments + t.availableCapacity == course.capacity
    ensures course.capacity == 0 ==> t.availableCapacity == 0
  {
    var total := |CourseEnrollments(enrollments, c)|;
    var active := |EnrolledIn(enrollments, c)|;
    SubsetSize(EnrolledIn(enrollments, c), CourseEnrollments(enrollments, c));
    CourseTotals(total, active, if course.capacity != 0 then course.capacity - active else 0)
  }

  /**
   * A confirmed enrollment is not active: confirming a draft leaves the
   * totals unchanged, although it takes a seat for the capacity check.
   */
  lemma ConfirmingLeavesTotals(course: Course, enrollments: map<EnrollmentId, Enrollment>, c: CourseId, id: EnrollmentId)
    requires id in enrollments && enrollments[id].state == Draft
    ensures Totals(course, enrollments[id := enrollments[id].(state := Confirmed)], c) == Totals(course, enrollments, c)
  {
    var after := enrollments[id := enrollments[id].(state := Confirmed)];
    assert CourseEnrollments(after, c) == CourseEnrollments(enrollments, c);
    assert EnrolledIn(after, c) == EnrolledIn(enrollments, c);
  }
}
