/**
 * The academic year: a draft -> active -> closed state machine, its date
 * and name constraints, and its totals over the classes of the year.
 */
module YearRules {
  import opened Common
  import opened Records
  import opened ClassRollups

  datatype YearAction = Activate | Close

  datatype YearError =
    | YearWrongState(action: YearAction, state: YearState)  // "Only draft/active academic years can be ..."
    | EndNotAfterStart                                     // date_check and _check_dates
    | DuplicateYearName                                    // unique(name, school_id)
    | UnknownSchool                                        // the school_id foreign key

  /** The state an action starts from, and the one it leads to. */
  function YearSource(a: YearAction): YearState {
    match a
    case Activate => YearDraft
    case Close => YearActive
  }

  function YearTarget(a: YearAction): YearState {
    match a
    case Activate => YearActive
    case Close => YearClosed
  }

  /** The guard of `action_activate` and `action_close`: only one starting state is allowed. */
  function YearCheck(a: YearAction, y: AcademicYear): (r: Outcome<YearError>)
    ensures r.Pass? <==> y.state == YearSource(a)
    ensures r.Fail? ==> r.error == YearWrongState(a, y.state)
  {
    if y.state == YearSource(a) then Pass else Fail(YearWrongState(a, y.state))
  }

  /** The year's lifecycle as a relation: draft to active, and active to closed. */
  predicate YearTransition(from: YearState, to: YearState) {
    (from == YearDraft && to == YearActive) || (from == YearActive && to == YearClosed)
  }

  /**
   * The actions move a year exactly along the lifecycle, and a closed
   * year has no way out.
   */
  lemma YearActionsFollowLifecycle(from: YearState, to: YearState)
    ensures YearTransition(from, to) <==>
              exists a: YearAction :: YearSource(a) == from && YearTarget(a) == to
    ensures forall a: YearAction, y: AcademicYear | y.state == YearClosed :: YearCheck(a, y).Fail?
  {
    if YearTransition(from, to) {
      var a := if from == YearDraft then Activate else Close;
      assert YearSource(a) == from && YearTarget(a) == to;
    }
  }

  /** The year `id` after the action's state write. */
  function Moved(a: YearAction, years: map<YearId, AcademicYear>, id: YearId): map<YearId, AcademicYear>
    requires id in years
  {
    years[id := years[id].(state := YearTarget(a))]
  }

  /**
   * An action on a recordset of years: each year in turn, checked against
   * the table the earlier ones left; the first refusal is raised, and the
   * rollback leaves the table as it was.
   */
  function MoveAll(a: YearAction, years: map<YearId, AcademicYear>, ids: seq<YearId>): (r: Result<map<YearId, AcademicYear>, YearError>)
    requires forall i | 0 <= i < |ids| :: ids[i] in years
    ensures r.Ok? ==> r.value.Keys == years.Keys
    decreases |ids|
  {
    if ids == [] then Ok(years)
    else if YearCheck(a, years[ids[0]]).Fail? then Err(YearWrongState(a, years[ids[0]].state))
    else MoveAll(a, Moved(a, years, ids[0]), ids[1..])
  }

  /** The table with the years `ids` in the action's target state and every other one as it was. */
  function AllMoved(a: YearAction, years: map<YearId, AcademicYear>, ids: seq<YearId>): (m: map<YearId, AcademicYear>)
    ensures m.Keys == years.Keys
    ensures forall k | k in m :: m[k] == years[k].(state := m[k].state)
  {
    map k | k in years :: if k in ids then years[k].(state := YearTarget(a)) else years[k]
  }

  /** Moving the first year and then the rest moves them all. */
  lemma AllMovedCons(a: YearAction, years: map<YearId, AcademicYear>, ids: seq<YearId>)
    requires ids != [] && ids[0] in years
    ensures AllMoved(a, Moved(a, years, ids[0]), ids[1..]) == AllMoved(a, years, ids)
  {
    var m, want := AllMoved(a, Moved(a, years, ids[0]), ids[1..]), AllMoved(a, years, ids);
    forall k | k in years ensures m[k] == want[k] {
      assert k in ids <==> k == ids[0] || k in ids[1..] by {
        assert ids == [ids[0]] + ids[1..];
      }
    }
    assert m == want;
  }

  /** A recordset action that passes puts its years, and only those, in the target state. */
  lemma {:induction false} MoveAllMoves(a: YearAction, years: map<YearId, AcademicYear>, ids: seq<YearId>)
    requires forall i | 0 <= i < |ids| :: ids[i] in years
    requires MoveAll(a, years, ids).Ok?
    ensures MoveAll(a, years, ids).value == AllMoved(a, years, ids)
    decreases |ids|
  {
    if ids == [] {
      assert AllMoved(a, years, ids) == years;
    } else {
      MoveAllStep(a, years, ids);
      MoveAllMoves(a, Moved(a, years, ids[0]), ids[1..]);
      AllMovedCons(a, years, ids);
    }
  }

  /** The later years of a recordset see the table the first one left. */
  lemma MoveAllStep(a: YearAction, years: map<YearId, AcademicYear>, ids: seq<YearId>)
    requires ids != [] && forall i | 0 <= i < |ids| :: ids[i] in years
    ensures YearCheck(a, years[ids[0]]).Pass? ==>
              forall j | 0 <= j < |ids[1..]| :: ids[1..][j] in Moved(a, years, ids[0])
    ensures YearCheck(a, years[ids[0]]).Pass? ==>
              MoveAll(a, years, ids) == MoveAll(a, Moved(a, years, ids[0]), ids[1..])
    ensures YearCheck(a, years[ids[0]]).Fail? ==>
              MoveAll(a, years, ids) == Err(YearWrongState(a, years[ids[0]].state))
  {
    forall j | 0 <= j < |ids[1..]| ensures ids[1..][j] in Moved(a, years, ids[0]) {
      assert ids[1..][j] == ids[j + 1];
    }
  }

  /**
   * The loop of a recordset action over the years' values: each year in
   * turn against the states the earlier ones were given, stopping at the
   * first refusal.
   */
  method MoveEach(a: YearAction, years: map<YearId, AcademicYear>, ids: seq<YearId>)
    returns (r: Result<map<YearId, AcademicYear>, YearError>)
    requires forall i | 0 <= i < |ids| :: ids[i] in years
    ensures r == MoveAll(a, years, ids)
  {
    var table := years;
    var i := 0;
    while i < |ids|
      invariant 0 <= i <= |ids|
      invariant table.Keys == years.Keys
      invariant MoveAll(a, years, ids) == MoveAll(a, table, ids[i..])
    {
      assert ids[i..][0] == ids[i] && ids[i..][1..] == ids[i + 1..];
      MoveAllStep(a, table, ids[i..]);
      if YearCheck(a, table[ids[i]]).Fail? {
        return Err(YearWrongState(a, table[ids[i]].state));
      }
      table := Moved(a, table, ids[i]);
      i := i + 1;
    }
    assert ids[i..] == [];
    r := Ok(table);
  }

  /** Writing new states leaves the names, schools and dates, and so the constraints, as they were. */
  lemma RestateKeepsYears(years: map<YearId, AcademicYear>, table: map<YearId, AcademicYear>)
    requires YearTableOk(years) && table.Keys == years.Keys
    requires forall k | k in table :: table[k] == years[k].(state := table[k].state)
    ensures YearTableOk(table)
  {
    forall i, j | i in table && j in table && i != j
      ensures !(table[i].name == table[j].name && table[i].school == table[j].school)
    {
      assert table[i].name == years[i].name && table[j].name == years[j].name;
    }
    forall i | i in table ensures YearDatesOk(table[i]) {
      assert table[i].startDate == years[i].startDate && table[i].endDate == years[i].endDate;
    }
  }

  /**
   * A recordset action passes exactly when no year occurs twice and every
   * year is in the action's starting state.
   */
  lemma {:induction false} MoveAllSucceedsIff(a: YearAction, years: map<YearId, AcademicYear>, ids: seq<YearId>)
    requires forall i | 0 <= i < |ids| :: ids[i] in years
    ensures MoveAll(a, years, ids).Ok? <==>
              Distinct(ids) && forall i | 0 <= i < |ids| :: years[ids[i]].state == YearSource(a)
    decreases |ids|
  {
    if ids != [] && YearCheck(a, years[ids[0]]).Pass? {
      var rest := ids[1..];
      var moved := Moved(a, years, ids[0]);
      MoveAllSucceedsIff(a, moved, rest);
      assert YearSource(a) != YearTarget(a);
      assert forall j | 0 <= j < |rest| :: rest[j] == ids[j + 1];
      assert (forall j | 0 <= j < |rest| :: moved[rest[j]].state == YearSource(a)) <==>
             (forall j | 0 <= j < |rest| :: rest[j] != ids[0] && years[rest[j]].state == YearSource(a));
      if Distinct(ids) && forall i | 0 <= i < |ids| :: years[ids[i]].state == YearSource(a) {
        assert forall j | 0 <= j < |rest| :: rest[j] != ids[0] && years[rest[j]].state == YearSource(a) by {
          forall j | 0 <= j < |rest| ensures rest[j] != ids[0] && years[rest[j]].state == YearSource(a) {
            assert ids[0] != ids[j + 1];
            assert years[ids[j + 1]].state == YearSource(a);
          }
        }
      }
      if Distinct(rest) && forall j | 0 <= j < |rest| :: rest[j] != ids[0] && years[rest[j]].state == YearSource(a) {
        forall i, j | 0 <= i < j < |ids| ensures ids[i] != ids[j] {
          if i == 0 { assert ids[j] == rest[j - 1]; } else { assert ids[i] == rest[i - 1] && ids[j] == rest[j - 1]; }
        }
        forall i | 0 <= i < |ids| ensures years[ids[i]].state == YearSource(a) {
          if i > 0 { assert ids[i] == rest[i - 1]; }
        }
      }
    }
  }

  /** Both date constraints: the end date is strictly after the start date. */
  predicate YearDatesOk(y: AcademicYear) {
    y.endDate > y.startDate
  }

  /** No two years of the same school share a name. */
  predicate YearNamesUnique(years: map<YearId, AcademicYear>) {
    forall i, j | i in years && j in years && i != j ::
      !(years[i].name == years[j].name && years[i].school == years[j].school)
  }

  /** The constraints of the year table. */
  predicate YearTableOk(years: map<YearId, AcademicYear>) {
    YearNamesUnique(years) && forall i | i in years :: YearDatesOk(years[i])
  }

  /**
   * The error creating `y` raises against `years` and the ids of the
   * schools: the date check and the uniqueness are checked as the row is
   * inserted, the date check first; the school reference at the end of the
   * statement.
   */
  function NewYearError(years: map<YearId, AcademicYear>, schools: set<SchoolId>, y: AcademicYear): (r: Option<YearError>)
    ensures r.None? <==> YearDatesOk(y) && y.school in schools
                         && forall i | i in years :: !(years[i].name == y.name && years[i].school == y.school)
    ensures !YearDatesOk(y) ==> r == Some(EndNotAfterStart)
    ensures YearDatesOk(y) && (exists i | i in years :: years[i].name == y.name && years[i].school == y.school)
            ==> r == Some(DuplicateYearName)
    ensures YearDatesOk(y) && y.school !in schools && (forall i | i in years :: !(years[i].name == y.name && years[i].school == y.school))
            ==> r == Some(UnknownSchool)
  {
    if !YearDatesOk(y) then Some(EndNotAfterStart)
    else if exists i | i in years :: years[i].name == y.name && years[i].school == y.school then Some(DuplicateYearName)
    else if y.school !in schools then Some(UnknownSchool)
    else None
  }

  /** Inserting a year that raises no error keeps the table's constraints. */
  lemma InsertYearKeepsTable(years: map<YearId, AcademicYear>, schools: set<SchoolId>, id: YearId, y: AcademicYear)
    requires YearTableOk(years) && id !in years && NewYearError(years, schools, y).None?
    ensures YearTableOk(years[id := y])
  {
  }

  /** The active classes of year `y` (the year's `class_ids`; archived classes are not listed). */
  function YearClasses(classes: map<ClassId, ClassRec>, y: YearId): set<ClassId> {
    set c | c in classes && classes[c].academicYear == y && classes[c].active
  }

  /** The students assigned to one of the classes `cs`. */
  function StudentsOf(students: map<StudentId, Student>, cs: set<ClassId>): set<StudentId> {
    set s | s in students && students[s].classId.Some? && students[s].classId.value in cs
  }

  datatype YearTotals = YearTotals(totalClasses: nat, totalStudents: nat)

  /** `_compute_totals`: the number of classes, and of distinct students over those classes. */
  function Totals(classes: map<ClassId, ClassRec>, students: map<StudentId, Student>, y: YearId): (t: YearTotals)
    ensures t.totalClasses == |YearClasses(classes, y)|
    ensures t.totalStudents == |StudentsOf(students, YearClasses(classes, y))|
  {
    YearTotals(|YearClasses(classes, y)|, |StudentsOf(students, YearClasses(classes, y))|)
  }

  /**
   * A student belongs to one class at most, so the distinct students of a
   * set of classes number exactly the sum of the classes' member counts.
   */
  lemma {:induction false} StudentsOfAddUp(students: map<StudentId, Student>, cs: set<ClassId>, f: nat -> int)
    requires forall c :: f(c) == |ClassMembers(students, c)|
    ensures |StudentsOf(students, cs)| == Sum(cs, f)
    decreases cs
  {
    if cs == {} {
      assert StudentsOf(students, cs) == {};
    } else {
      var m := Min(cs);
      StudentsOfAddUp(students, cs - {m}, f);
      assert StudentsOf(students, cs) == StudentsOf(students, cs - {m}) + ClassMembers(students, m);
      assert StudentsOf(students, cs - {m}) * ClassMembers(students, m) == {};
    }
  }

  /** The year's student total is the sum of its classes' student totals. */
  lemma YearStudentsAreClassSum(classes: map<ClassId, ClassRec>, students: map<StudentId, Student>, y: YearId)
    ensures Totals(classes, students, y).totalStudents
            == Sum(YearClasses(classes, y), (c: nat) => |ClassMembers(students, c)|)
  {
    StudentsOfAddUp(students, YearClasses(classes, y), (c: nat) => |ClassMembers(students, c)|);
  }
}
