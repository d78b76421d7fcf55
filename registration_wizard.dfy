/**
 * The student registration wizard: put an existing student into a class,
 * or create a partner and a student for a new one.  The file imports
 * neither `UserError` nor `_`, so both of its own error branches end in a
 * name error instead of the intended message.  The partner values of the
 * new-student branch name `is_student`, a field res.partner does not have
 * here (only `date_of_birth` and `gender` are added to it), so the partner
 * create raises at once and the branch never reaches the student create.
 */
module Registration {
  import opened Common
  import opened Calendar
  import opened Records
  import opened StudentRules
  import opened Store

  datatype RegistrationType = Existing | New

  datatype RegistrationError =
    | UndefinedName                       // `UserError` / `_` used without being imported
    | InvalidPartnerField(field: string)  // a key of the partner values that res.partner does not define
    | StudentFailed(error: StudentError)  // raised by the class write of an existing student

  /** The fields res.partner gains from this module, on top of its own `name`. */
  const PartnerExtraFields: set<string> := {"date_of_birth", "gender"}

  /** The keys of the wizard's partner values, in the order they are written. */
  const RegistrationPartnerKeys: seq<string> := ["name", "date_of_birth", "gender", "is_student"]

  /**
   * The first key of `keys` that is neither `name` nor one of the added
   * fields: the one `create` reports as invalid.
   */
  function FirstUnknownField(keys: seq<string>): (f: Option<string>)
    ensures f.None? <==> forall i | 0 <= i < |keys| :: keys[i] == "name" || keys[i] in PartnerExtraFields
    ensures f.Some? ==> f.value in keys && f.value != "name" && f.value !in PartnerExtraFields
  {
    if keys == [] then None
    else if keys[0] == "name" || keys[0] in PartnerExtraFields then
      var rest := FirstUnknownField(keys[1..]);
      assert forall i | 1 <= i < |keys| :: keys[i] == keys[1..][i - 1];
      rest
    else Some(keys[0])
  }

  /** The wizard's partner values always carry the unknown `is_student`. */
  lemma RegistrationPartnerIsRefused()
    ensures FirstUnknownField(RegistrationPartnerKeys) == Some("is_student")
  {
    assert RegistrationPartnerKeys[1..][1..][1..] == ["is_student"];
  }

  class StudentRegistrationWizard {
    var registrationType: RegistrationType
    var studentId: Option<StudentId>
    var classId: ClassId
    var newName: Option<string>
    var newDateOfBirth: Option<Day>
    var newGender: Option<Gender>
    var newParents: set<PartnerId>

    /** A new wizard: registration of an existing student by default. */
    constructor (c: ClassId)
      ensures registrationType == Existing && studentId == None && classId == c
      ensures newName == None && newDateOfBirth == None && newGender == None && newParents == {}
    {
      registrationType, studentId, classId := Existing, None, c;
      newName, newDateOfBirth, newGender, newParents := None, None, None, {};
    }

    /** `_onchange_registration_type`: each type clears the other type's fields. */
    method OnchangeRegistrationType()
      modifies this`studentId, this`newName, this`newDateOfBirth, this`newGender, this`newParents
      ensures registrationType == New ==>
                studentId == None && newName == old(newName) && newDateOfBirth == old(newDateOfBirth)
                && newGender == old(newGender) && newParents == old(newParents)
      ensures registrationType == Existing ==>
                studentId == old(studentId) && newName == None && newDateOfBirth == None
                && newGender == None && newParents == {}
    {
      if registrationType == New {
        studentId := None;
      } else {
        newName, newDateOfBirth, newGender, newParents := None, None, None, {};
      }
    }

    /**
     * `action_register_student`.  An existing student gets the wizard's
     * class and nothing else changes; a new student's partner create raises,
     * so nothing is written.
     */
    method RegisterStudent(db: SchoolDb) returns (r: Outcome<RegistrationError>)
      requires db.Valid()
      modifies db`students
      ensures db.Valid()
      ensures r.Fail? ==> db.students == old(db.students)
      ensures registrationType == Existing && studentId.None? ==> r == Fail(UndefinedName)
      ensures registrationType == Existing && studentId.Some? ==>
                (r.Pass? <==> studentId.value in old(db.students) && classId in db.classes)
                && (r.Pass? ==> db.students == old(db.students)[studentId.value := old(db.students)[studentId.value].(classId := Some(classId))])
                && (r.Fail? ==> r == Fail(StudentFailed(UnknownStudentRecord)))
      ensures registrationType == New ==>
                r == Fail(if IsSet(newName) then InvalidPartnerField("is_student") else UndefinedName)
    {
      if registrationType == Existing {
        r := RegisterExisting(db);
      } else {
        r := RegisterNew();
      }
    }

    /** The existing-student branch: a write of the student's class. */
    method RegisterExisting(db: SchoolDb) returns (r: Outcome<RegistrationError>)
      requires db.Valid()
      modifies db`students
      ensures db.Valid()
      ensures studentId.None? ==> r == Fail(UndefinedName)
      ensures studentId.Some? ==>
                (r.Pass? <==> studentId.value in old(db.students) && classId in db.classes)
                && (r.Pass? ==> db.students == old(db.students)[studentId.value := old(db.students)[studentId.value].(classId := Some(classId))])
                && (r.Fail? ==> r == Fail(StudentFailed(UnknownStudentRecord)))
      ensures r.Fail? ==> db.students == old(db.students)
    {
      if studentId.None? {
        return Fail(UndefinedName);
      }
      var written := db.AssignClass(studentId.value, Some(classId));
      r := if written.Pass? then Pass else Fail(StudentFailed(written.error));
    }

    /**
     * The new-student branch: without a name a name error; with one, the
     * partner create refuses the values before anything is written.
     */
    method RegisterNew() returns (r: Outcome<RegistrationError>)
      ensures r.Fail?
      ensures !IsSet(newName) ==> r == Fail(UndefinedName)
      ensures IsSet(newName) ==> r == Fail(InvalidPartnerField("is_student"))
    {
      if !IsSet(newName) {
        return Fail(UndefinedName);
      }
      var unknown := FirstUnknownField(RegistrationPartnerKeys);
      RegistrationPartnerIsRefused();
      r := Fail(InvalidPartnerField(unknown.value));
    }
  }
}
