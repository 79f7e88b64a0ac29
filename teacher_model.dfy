/** The Teacher document (Teacher.js): the profile linking a user to a unique
    teacher code and an employment status, and the static that generates the
    next teacher code. */
module Teachers {
  import opened Common
  import opened Text
  import opened Codes

  datatype TeacherStatus = Active | Inactive | OnLeave | Terminated

  datatype TeacherDoc = TeacherDoc(id: Id, userId: Id, teacherCode: string, employmentDate: int, status: TeacherStatus)

  /** `generateTeacherCode()` in year `year` with `count` teachers stored. */
  function TeacherCode(year: nat, count: nat): (r: string)
    ensures |r| >= 8 && r[..3] == "TCH"
    ensures forall i :: 3 <= i < |r| ==> IsDigit(r[i])
  {
    YearCodeDigits("TCH", year, count, 4);
    YearCode("TCH", year, count, 4)
  }

  /** A generated teacher code is "TCH", two digits reading as the year modulo
      100, then digits reading as `count + 1`: four of them while the count fits,
      more (never truncated) once it does not. */
  lemma TeacherCodeShape(year: nat, count: nat)
    requires year >= 10
    ensures var r := TeacherCode(year, count);
      |r| >= 9 && r[..3] == "TCH"
      && (forall i :: 3 <= i < |r| ==> IsDigit(r[i]))
      && DecimalValue(r[3..5]) == year % 100
      && DecimalValue(r[5..]) == count + 1
      && (count + 1 < 10000 <==> |r| == 9)
  {
    YearCodeParts("TCH", year, count, 4);
    YearCodeValues("TCH", year, count, 4);
    YearCodeLength("TCH", year, count, 4);
    assert Pow10(4) == 10000;
    if count + 1 >= 10000 {
      DecimalLength(count + 1, 5);
      assert Pow10(5) == 100000;
    }
  }

  /** Distinct counts give distinct codes within a year, and the `uppercase`
      setter stores a generated code unchanged. */
  lemma TeacherCodeStored(year: nat, c1: nat, c2: nat)
    requires year >= 10
    ensures c1 != c2 ==> TeacherCode(year, c1) != TeacherCode(year, c2)
    ensures ToUpper(TeacherCode(year, c1)) == TeacherCode(year, c1)
  {
    if c1 != c2 {
      YearCodeInjective("TCH", year, c1, c2, 4);
    }
    YearCodeUppercase("TCH", year, c1, 4);
  }

  /** `Teacher.create(...)`: the code is stored trimmed and uppercased, the
      employment date defaults to now and the status to active; a code that is
      empty once trimmed fails the `required` validator (400). */
  function NewTeacher(id: Id, userId: Id, code: string, employmentDate: Option<int>, now: int): (r: Outcome<TeacherDoc>)
    ensures r.Err? <==> Trim(code) == []
    ensures r.Err? ==> r.code == BadRequest
    ensures r.Ok? ==> (r.value.id == id && r.value.userId == userId
      && r.value.teacherCode == ToUpper(Trim(code))
      && ToUpper(r.value.teacherCode) == r.value.teacherCode
      && |r.value.teacherCode| == |Trim(code)|
      && r.value.status == Active
      && r.value.employmentDate == (if employmentDate.Some? then employmentDate.value else now))
  {
    var c := ToUpper(Trim(code));
    if c == [] then Err(BadRequest)
    else
      ToUpperIdempotent(Trim(code));
      Ok(TeacherDoc(id, userId, c, if employmentDate.Some? then employmentDate.value else now, Active))
  }
}
