/** The Student document (Student.js): the profile linking a user to a class,
    with a unique student code, parent details and two status fields, and the
    static that generates the next student code. */
module Students {
  import opened Common
  import opened Text
  import opened Codes
  import opened School

  datatype AcademicStatus = Active | Transferred | Graduated | Suspended

  datatype StudentFeeStatus = FeePaid | FeePending | FeeOverdue | FeePartial

  /** One parent or guardian entry; every field is optional in its schema.
    * `detail` is the `occupation` of a father or mother and the `relation` of a guardian. */
  datatype Contact = Contact(name: Option<string>, phone: Option<string>, email: Option<string>, detail: Option<string>)

  /** `parent_info`: a key that is absent is `None`. */
  datatype ParentInfo = ParentInfo(father: Option<Contact>, mother: Option<Contact>, guardian: Option<Contact>)

  const NoParents := ParentInfo(None, None, None)

  datatype StudentDoc = StudentDoc(
    id: Id,
    userId: Id,
    studentCode: string,
    classId: Option<Id>,
    enrollmentDate: int,
    parentInfo: ParentInfo,
    academicStatus: AcademicStatus,
    feeStatus: StudentFeeStatus,
    createdAt: int)

  /** The projection of a student document that the chat and socket rules read. */
  function Profile(d: StudentDoc): StudentProfile {
    StudentProfile(d.id, d.userId, d.classId)
  }

  /** `generateStudentCode()` in year `year` with `count` students stored. */
  function StudentCode(year: nat, count: nat): (r: string)
    ensures |r| >= 9 && r[..3] == "STU"
    ensures forall i :: 3 <= i < |r| ==> IsDigit(r[i])
  {
    YearCodeDigits("STU", year, count, 5);
    YearCode("STU", year, count, 5)
  }

  /** A generated student code is "STU", two digits reading as the year modulo
      100, then digits reading as `count + 1`: five of them while the count fits,
      more (never truncated) once it does not. */
  lemma StudentCodeShape(year: nat, count: nat)
    requires year >= 10
    ensures var r := StudentCode(year, count);
      |r| >= 10 && r[..3] == "STU"
      && (forall i :: 3 <= i < |r| ==> IsDigit(r[i]))
      && DecimalValue(r[3..5]) == year % 100
      && DecimalValue(r[5..]) == count + 1
      && (count + 1 < 100000 <==> |r| == 10)
  {
    YearCodeParts("STU", year, count, 5);
    YearCodeValues("STU", year, count, 5);
    YearCodeLength("STU", year, count, 5);
    assert Pow10(5) == 100000;
    if count + 1 >= 100000 {
      DecimalLength(count + 1, 6);
      assert Pow10(6) == 1000000;
    }
  }

  /** Distinct counts give distinct codes within a year, and the `uppercase`
      setter stores a generated code unchanged. */
  lemma StudentCodeStored(year: nat, c1: nat, c2: nat)
    requires year >= 10
    ensures c1 != c2 ==> StudentCode(year, c1) != StudentCode(year, c2)
    ensures ToUpper(StudentCode(year, c1)) == StudentCode(year, c1)
  {
    if c1 != c2 {
      YearCodeInjective("STU", year, c1, c2, 5);
    }
    YearCodeUppercase("STU", year, c1, 5);
  }

  /** `Student.create(...)`: the code is stored trimmed and uppercased, the
      enrolment date defaults to now, `academic_status` to active and
      `fee_status` to overdue. A code that is empty once trimmed fails the
      `required` validator (400). */
  function NewStudent(id: Id, userId: Id, code: string, classId: Option<Id>, enrollmentDate: Option<int>,
                      parentInfo: Option<ParentInfo>, now: int): (r: Outcome<StudentDoc>)
    ensures r.Err? <==> Trim(code) == []
    ensures r.Err? ==> r.code == BadRequest
    ensures r.Ok? ==> (r.value.id == id && r.value.userId == userId && r.value.classId == classId
      && r.value.studentCode == ToUpper(Trim(code))
      && ToUpper(r.value.studentCode) == r.value.studentCode
      && |r.value.studentCode| == |Trim(code)|
      && r.value.academicStatus == Active && r.value.feeStatus == FeeOverdue && r.value.createdAt == now
      && (enrollmentDate.Some? ==> r.value.enrollmentDate == enrollmentDate.value)
      && (enrollmentDate.None? ==> r.value.enrollmentDate == now)
      && r.value.parentInfo == (if parentInfo.Some? then parentInfo.value else NoParents))
  {
    var c := ToUpper(Trim(code));
    if c == [] then Err(BadRequest)
    else
      ToUpperIdempotent(Trim(code));
      Ok(StudentDoc(id, userId, c, classId,
        if enrollmentDate.Some? then enrollmentDate.value else now,
        if parentInfo.Some? then parentInfo.value else NoParents,
        Active, FeeOverdue, now))
  }
}
