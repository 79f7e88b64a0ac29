/** Individual subject enrolment (studentSubjectController.js): enrolling a
    student in a ClassSubject, creating that ClassSubject on the fly when only a
    subject is named, re-enrolling a dropped enrolment in place, unenrolling, and
    listing a student's enrolled subjects. */
module Enrolments {
  import opened Common
  import opened School
  import opened JsArray

  /** The position of the first enrolment of the student in the ClassSubject. */
  function EnrolmentIndex(es: seq<Enrolment>, studentId: Id, csId: Id): (r: Option<nat>)
    ensures r.Some? ==> (r.value < |es| && es[r.value].studentId == studentId && es[r.value].classSubjectId == csId
      && forall k :: 0 <= k < r.value ==> !(es[k].studentId == studentId && es[k].classSubjectId == csId))
    ensures r.None? <==> forall e :: e in es ==> !(e.studentId == studentId && e.classSubjectId == csId)
  {
    if es == [] then None
    else if es[0].studentId == studentId && es[0].classSubjectId == csId then Some(0)
    else
      var k := EnrolmentIndex(es[1..], studentId, csId);
      if k.Some? then Some(k.value + 1) else None
  }

  /** `ClassSubject.findOne({ class_id, subject_id })`. */
  function FindClassSubject(css: seq<ClassSubject>, classId: Id, subjectId: Id): (r: Option<ClassSubject>)
    ensures r.Some? ==> r.value in css && r.value.classId == classId && r.value.subjectId == subjectId
    ensures r.None? <==> forall cs :: cs in css ==> !(cs.classId == classId && cs.subjectId == subjectId)
  {
    if css == [] then None
    else if css[0].classId == classId && css[0].subjectId == subjectId then Some(css[0])
    else FindClassSubject(css[1..], classId, subjectId)
  }

  /** The unique (student_id, class_subject_id) index on enrolments, and
      enrolment ids below the next fresh id. */
  ghost predicate EnrolmentsValid(es: seq<Enrolment>, nextId: Id) {
    (forall i, j :: 0 <= i < j < |es| ==>
       !(es[i].studentId == es[j].studentId && es[i].classSubjectId == es[j].classSubjectId))
    && (forall e :: e in es ==> e.id < nextId && e.classSubjectId < nextId)
  }

  /** The store invariant: valid enrolments and ClassSubject ids below the next
      fresh id. */
  ghost predicate StoreValid(css: seq<ClassSubject>, es: seq<Enrolment>, nextId: Id) {
    EnrolmentsValid(es, nextId) && forall cs :: cs in css ==> cs.id < nextId
  }

  /** The status, ClassSubjects, enrolments and next fresh id after a request. */
  datatype EnrolResult = EnrolResult(code: nat, css: seq<ClassSubject>, es: seq<Enrolment>, nextId: Id)

  /** The ClassSubject id the request ends up with, and the ClassSubjects after
      the on-the-fly creation: with only `subject_id` given, the existing
      ClassSubject of (student's class, subject) is reused, or one active
      ClassSubject is created (500 if the class document is missing, since its
      academic year is read). */
  function ResolveClassSubject(css: seq<ClassSubject>, classes: set<Id>, nextId: Id, classId: Id,
                               csId: Option<Id>, subjectId: Option<Id>): (r: Outcome<(Option<Id>, seq<ClassSubject>, Id)>)
    ensures !(subjectId.Some? && csId.None?) ==> r == Ok((csId, css, nextId))
    ensures subjectId.Some? && csId.None? && FindClassSubject(css, classId, subjectId.value).Some? ==>
      r == Ok((Some(FindClassSubject(css, classId, subjectId.value).value.id), css, nextId))
    ensures subjectId.Some? && csId.None? && FindClassSubject(css, classId, subjectId.value).None? ==>
      if classId in classes then
        r == Ok((Some(nextId), css + [ClassSubject(nextId, classId, subjectId.value, [], true)], nextId + 1))
      else r == Err(ServerError)
  {
    if subjectId.Some? && csId.None? then
      var found := FindClassSubject(css, classId, subjectId.value);
      if found.Some? then Ok((Some(found.value.id), css, nextId))
      else if classId !in classes then Err(ServerError)
      else Ok((Some(nextId), css + [ClassSubject(nextId, classId, subjectId.value, [], true)], nextId + 1))
    else Ok((csId, css, nextId))
  }

  /** The last step of `enrollStudent`, once the ClassSubject is known to be in
      the student's class: an existing enrolment that is not `enrolled` is
      flipped in place (200), an `enrolled` one is refused (400), and otherwise
      one enrolment is created (201). Afterwards, unless refused, the student's
      first enrolment in the ClassSubject is `enrolled`, and the unique index
      still holds. */
  function Place(es: seq<Enrolment>, nextId: Id, studentId: Id, csId: Id): (r: (nat, seq<Enrolment>, Id))
    ensures r.0 in {200, 201, BadRequest}
    ensures var k := EnrolmentIndex(es, studentId, csId);
      (r.0 == 200 <==> (k.Some? && es[k.value].status != Enrolled))
      && (r.0 == 200 ==> r.1 == es[k.value := es[k.value].(status := Enrolled)] && r.2 == nextId)
      && (r.0 == BadRequest <==> (k.Some? && es[k.value].status == Enrolled))
      && (r.0 == BadRequest ==> r.1 == es && r.2 == nextId)
      && (r.0 == 201 <==> k.None?)
      && (r.0 == 201 ==> r.1 == es + [Enrolment(nextId, studentId, csId, Enrolled)] && r.2 == nextId + 1)
    ensures EnrolmentIndex(r.1, studentId, csId).Some?
      && r.1[EnrolmentIndex(r.1, studentId, csId).value].status == Enrolled
    ensures EnrolmentsValid(es, nextId) && csId < nextId ==> EnrolmentsValid(r.1, r.2)
  {
    var k := EnrolmentIndex(es, studentId, csId);
    if k.Some? then
      if es[k.value].status != Enrolled then
        var es1 := es[k.value := es[k.value].(status := Enrolled)];
        FlipKeepsIndex(es, k.value, studentId, csId, nextId);
        (200, es1, nextId)
      else (BadRequest, es, nextId)
    else
      var e := Enrolment(nextId, studentId, csId, Enrolled);
      AppendKeepsIndex(es, e, nextId);
      (201, es + [e], nextId + 1)
  }

  lemma FlipKeepsIndex(es: seq<Enrolment>, k: nat, studentId: Id, csId: Id, nextId: Id)
    requires EnrolmentIndex(es, studentId, csId) == Some(k)
    ensures var es1 := es[k := es[k].(status := Enrolled)];
      EnrolmentIndex(es1, studentId, csId) == Some(k)
      && (EnrolmentsValid(es, nextId) ==> EnrolmentsValid(es1, nextId))
  {
    var es1 := es[k := es[k].(status := Enrolled)];
    var k1 := EnrolmentIndex(es1, studentId, csId);
    assert es1[k].studentId == studentId && es1[k].classSubjectId == csId;
    if EnrolmentsValid(es, nextId) {
      forall i, j | 0 <= i < j < |es1|
        ensures !(es1[i].studentId == es1[j].studentId && es1[i].classSubjectId == es1[j].classSubjectId)
      {
        assert es1[i].studentId == es[i].studentId && es1[i].classSubjectId == es[i].classSubjectId;
        assert es1[j].studentId == es[j].studentId && es1[j].classSubjectId == es[j].classSubjectId;
      }
      forall e | e in es1 ensures e.id < nextId {
        var i :| 0 <= i < |es1| && es1[i] == e;
        assert e.id == es[i].id && e.classSubjectId == es[i].classSubjectId;
      }
    }
  }

  lemma AppendKeepsIndex(es: seq<Enrolment>, e: Enrolment, nextId: Id)
    requires EnrolmentIndex(es, e.studentId, e.classSubjectId).None?
    requires e.id == nextId
    ensures EnrolmentIndex(es + [e], e.studentId, e.classSubjectId) == Some(|es|)
    ensures EnrolmentsValid(es, nextId) && e.classSubjectId < nextId ==> EnrolmentsValid(es + [e], nextId + 1)
  {
    var es1 := es + [e];
    var k1 := EnrolmentIndex(es1, e.studentId, e.classSubjectId);
    assert es1[|es|] == e;
    if EnrolmentsValid(es, nextId) {
      forall i, j | 0 <= i < j < |es1|
        ensures !(es1[i].studentId == es1[j].studentId && es1[i].classSubjectId == es1[j].classSubjectId)
      {
        if j == |es| { assert es1[i] in es; }
      }
    }
  }

  /** `enrollStudent` as a transition of the store. */
  function Enroll(students: seq<StudentProfile>, classes: set<Id>, css: seq<ClassSubject>, es: seq<Enrolment>, nextId: Id,
                  studentId: Id, csId: Option<Id>, subjectId: Option<Id>): (r: EnrolResult)
    ensures r.code in {200, 201, BadRequest, NotFound, ServerError}
    ensures r.code != 200 && r.code != 201 ==> r.es == es
    ensures r.code == 200 ==> |r.es| == |es|
    ensures r.code == 201 ==> |r.es| == |es| + 1
    ensures r.code == 200 ==>
      exists k :: 0 <= k < |es| && es[k].studentId == studentId && es[k].status != Enrolled
                  && r.es == es[k := es[k].(status := Enrolled)]
    ensures r.code == 201 ==> r.es[..|es|] == es && r.es[|es|].studentId == studentId && r.es[|es|].status == Enrolled
  {
    var st := StudentById(students, studentId);
    if st.None? then EnrolResult(NotFound, css, es, nextId)
    else if st.value.classId.None? then
      if subjectId.Some? && csId.None? then EnrolResult(ServerError, css, es, nextId)
      else if csId.None? then EnrolResult(BadRequest, css, es, nextId)
      else if ClassSubjectById(css, csId.value).None? then EnrolResult(NotFound, css, es, nextId)
      else EnrolResult(ServerError, css, es, nextId)
    else
      var classId := st.value.classId.value;
      var resolved := ResolveClassSubject(css, classes, nextId, classId, csId, subjectId);
      if resolved.Err? then EnrolResult(ServerError, css, es, nextId)
      else
        var (c, css1, next1) := resolved.value;
        if c.None? then EnrolResult(BadRequest, css1, es, next1)
        else
          var cs := ClassSubjectById(css1, c.value);
          if cs.None? then EnrolResult(NotFound, css1, es, next1)
          else if cs.value.classId != classId then EnrolResult(BadRequest, css1, es, next1)
          else
            var (code, es1, next2) := Place(es, next1, studentId, c.value);
            EnrolResult(code, css1, es1, next2)
  }

  /** The error answers of `enrollStudent`, each leaving the store unchanged:
      404 for an unknown student; 400 when neither id is given; 404 for an
      unknown ClassSubject; 400 for a ClassSubject of another class; 500 for a
      student without a class once a ClassSubject is in hand
      (`student.class_id.toString()`). */
  lemma EnrollRefusals(students: seq<StudentProfile>, classes: set<Id>, css: seq<ClassSubject>, es: seq<Enrolment>, nextId: Id,
                       studentId: Id, csId: Option<Id>, subjectId: Option<Id>)
    ensures var r := Enroll(students, classes, css, es, nextId, studentId, csId, subjectId);
      var st := StudentById(students, studentId);
      (st.None? ==> r == EnrolResult(NotFound, css, es, nextId))
      && (st.Some? && csId.None? && subjectId.None? ==> r == EnrolResult(BadRequest, css, es, nextId))
      && (st.Some? && csId.Some? && ClassSubjectById(css, csId.value).None? ==> r == EnrolResult(NotFound, css, es, nextId))
      && (st.Some? && csId.Some? && ClassSubjectById(css, csId.value).Some? && st.value.classId.Some?
          && ClassSubjectById(css, csId.value).value.classId != st.value.classId.value
          ==> r == EnrolResult(BadRequest, css, es, nextId))
      && (st.Some? && st.value.classId.None? && (csId.Some? || subjectId.Some?) && r.code != NotFound
          ==> r == EnrolResult(ServerError, css, es, nextId))
  {
  }

  /** Every `enrollStudent` request preserves the store invariant: the unique
      (student, ClassSubject) index and ids below the next fresh id. */
  lemma EnrollKeepsStore(students: seq<StudentProfile>, classes: set<Id>, css: seq<ClassSubject>, es: seq<Enrolment>, nextId: Id,
                         studentId: Id, csId: Option<Id>, subjectId: Option<Id>)
    requires StoreValid(css, es, nextId)
    ensures var r := Enroll(students, classes, css, es, nextId, studentId, csId, subjectId);
      StoreValid(r.css, r.es, r.nextId)
  {
    var st := StudentById(students, studentId);
    if st.Some? && st.value.classId.Some? {
      var classId := st.value.classId.value;
      var resolved := ResolveClassSubject(css, classes, nextId, classId, csId, subjectId);
      if resolved.Ok? {
        var (c, css1, next1) := resolved.value;
        ResolveKeepsStore(css, es, classes, nextId, classId, csId, subjectId);
        if c.Some? && ClassSubjectById(css1, c.value).Some? && ClassSubjectById(css1, c.value).value.classId == classId {
          var cs := ClassSubjectById(css1, c.value).value;
          assert cs in css1;
        }
      }
    }
  }

  /** Resolving the ClassSubject keeps the store invariant under the new next id. */
  lemma ResolveKeepsStore(css: seq<ClassSubject>, es: seq<Enrolment>, classes: set<Id>, nextId: Id, classId: Id,
                          csId: Option<Id>, subjectId: Option<Id>)
    requires StoreValid(css, es, nextId)
    requires ResolveClassSubject(css, classes, nextId, classId, csId, subjectId).Ok?
    ensures var (c, css1, next1) := ResolveClassSubject(css, classes, nextId, classId, csId, subjectId).value;
      StoreValid(css1, es, next1)
  {
    var (c, css1, next1) := ResolveClassSubject(css, classes, nextId, classId, csId, subjectId).value;
    assert next1 >= nextId;
    forall e | e in es ensures e.id < next1 && e.classSubjectId < next1 { }
    assert EnrolmentsValid(es, next1);
  }

  /** A successful `enrollStudent` (200 or 201) leaves the student with an
      `enrolled` enrolment in a ClassSubject of the student's own class: the
      one given, or the one found or created for the subject. 200 flips an
      existing enrolment in place; 201 appends exactly one. */
  lemma EnrollSuccess(students: seq<StudentProfile>, classes: set<Id>, css: seq<ClassSubject>, es: seq<Enrolment>, nextId: Id,
                      studentId: Id, csId: Option<Id>, subjectId: Option<Id>)
    ensures var r := Enroll(students, classes, css, es, nextId, studentId, csId, subjectId);
      r.code in {200, 201} ==> exists cs :: (cs in r.css
            && Some(cs.classId) == StudentById(students, studentId).value.classId
            && (csId.Some? ==> cs.id == csId.value && r.css == css)
            && (csId.None? ==> subjectId.Some? && cs.subjectId == subjectId.value)
            && EnrolmentIndex(r.es, studentId, cs.id).Some?
            && r.es[EnrolmentIndex(r.es, studentId, cs.id).value].status == Enrolled
            && (r.code == 201 ==> r.es == es + [Enrolment(r.nextId - 1, studentId, cs.id, Enrolled)])
            && (r.code == 200 ==>
                  |r.es| == |es| && EnrolmentIndex(es, studentId, cs.id).Some?
                  && var k := EnrolmentIndex(es, studentId, cs.id).value;
                     es[k].status != Enrolled && r.es == es[k := es[k].(status := Enrolled)]))
  {
    var r := Enroll(students, classes, css, es, nextId, studentId, csId, subjectId);
    var st := StudentById(students, studentId);
    if st.Some? && st.value.classId.Some? {
      var classId := st.value.classId.value;
      var resolved := ResolveClassSubject(css, classes, nextId, classId, csId, subjectId);
      if resolved.Ok? {
        var (c, css1, next1) := resolved.value;
        if c.Some? && ClassSubjectById(css1, c.value).Some? && ClassSubjectById(css1, c.value).value.classId == classId {
          var cs := ClassSubjectById(css1, c.value).value;
          var placed := Place(es, next1, studentId, cs.id);
          assert r == EnrolResult(placed.0, css1, placed.1, placed.2);
          assert cs in r.css;
        }
      }
    }
  }

  /** The subject-only form of `enrollStudent` reuses the ClassSubject of the
      student's class and subject when there is one, and otherwise creates
      exactly one, active and without teachers (only when the class document
      exists). */
  lemma EnrollBySubject(students: seq<StudentProfile>, classes: set<Id>, css: seq<ClassSubject>, es: seq<Enrolment>, nextId: Id,
                        studentId: Id, subjectId: Id)
    requires StoreValid(css, es, nextId)
    requires StudentById(students, studentId).Some? && StudentById(students, studentId).value.classId.Some?
    ensures var r := Enroll(students, classes, css, es, nextId, studentId, None, Some(subjectId));
      var classId := StudentById(students, studentId).value.classId.value;
      (FindClassSubject(css, classId, subjectId).Some? ==> r.css == css && r.code in {200, 201, BadRequest})
      && (FindClassSubject(css, classId, subjectId).None? && classId !in classes ==> r == EnrolResult(ServerError, css, es, nextId))
      && (FindClassSubject(css, classId, subjectId).None? && classId in classes ==>
            r.css == css + [ClassSubject(nextId, classId, subjectId, [], true)] && r.code == 201
            && r.es == es + [Enrolment(nextId + 1, studentId, nextId, Enrolled)])
  {
    var classId := StudentById(students, studentId).value.classId.value;
    if FindClassSubject(css, classId, subjectId).None? && classId in classes {
      var css1 := css + [ClassSubject(nextId, classId, subjectId, [], true)];
      ClassSubjectByIdLast(css, ClassSubject(nextId, classId, subjectId, [], true));
    }
  }

  /** A ClassSubject with an id none of the others carry is found by id. */
  lemma ClassSubjectByIdLast(css: seq<ClassSubject>, cs: ClassSubject)
    requires forall c :: c in css ==> c.id != cs.id
    ensures ClassSubjectById(css + [cs], cs.id) == Some(cs)
  {
    var r := ClassSubjectById(css + [cs], cs.id);
    assert r.value in css + [cs];
  }

  /** One row of `getStudentSubjects`. */
  datatype SubjectRow = SubjectRow(classSubjectId: Id, enrolmentId: Id, subjectId: Id, teachers: seq<Assignment>, status: EnrolStatus)

  /** `getStudentSubjects`: the student's `enrolled` enrolments, in stored order,
      each joined with its ClassSubject; one whose ClassSubject is gone makes
      `ss.class_subject_id._id` throw (500). */
  function StudentSubjects(css: seq<ClassSubject>, es: seq<Enrolment>, studentId: Id): (r: Outcome<seq<SubjectRow>>)
    ensures var en := Filter(es, (e: Enrolment) => e.studentId == studentId && e.status == Enrolled);
      (r.Err? <==> exists e :: e in en && ClassSubjectById(css, e.classSubjectId).None?)
      && (r.Err? ==> r.code == ServerError)
      && (r.Ok? ==> |r.value| == |en| && forall i :: 0 <= i < |en| ==>
            r.value[i].enrolmentId == en[i].id && r.value[i].classSubjectId == en[i].classSubjectId
            && r.value[i].status == Enrolled)
  {
    var en := Filter(es, (e: Enrolment) => e.studentId == studentId && e.status == Enrolled);
    Rows(css, en)
  }

  function Rows(css: seq<ClassSubject>, en: seq<Enrolment>): (r: Outcome<seq<SubjectRow>>)
    ensures r.Err? <==> exists e :: e in en && ClassSubjectById(css, e.classSubjectId).None?
    ensures r.Err? ==> r.code == ServerError
    ensures r.Ok? ==> |r.value| == |en| && forall i :: 0 <= i < |en| ==>
      r.value[i].enrolmentId == en[i].id && r.value[i].classSubjectId == en[i].classSubjectId
      && r.value[i].status == en[i].status
    ensures r.Ok? ==> forall i :: 0 <= i < |en| ==> var cs := ClassSubjectById(css, en[i].classSubjectId);
      cs.Some? && r.value[i].subjectId == cs.value.subjectId && r.value[i].teachers == cs.value.teachers
  {
    if en == [] then Ok([])
    else
      var cs := ClassSubjectById(css, en[0].classSubjectId);
      var rest := Rows(css, en[1..]);
      if cs.None? then Err(ServerError)
      else if rest.Err? then rest
      else Ok([SubjectRow(cs.value.id, en[0].id, cs.value.subjectId, cs.value.teachers, en[0].status)] + rest.value)
  }

  /** Deleting the first enrolment of the student in the ClassSubject leaves
      none, under the unique index, and keeps the index. */
  lemma RemoveKeepsValid(es: seq<Enrolment>, nextId: Id, i: nat, studentId: Id, csId: Id)
    requires EnrolmentsValid(es, nextId)
    requires EnrolmentIndex(es, studentId, csId) == Some(i)
    ensures var es1 := es[..i] + es[i + 1..];
      EnrolmentsValid(es1, nextId) && EnrolmentIndex(es1, studentId, csId).None?
  {
    var es1 := es[..i] + es[i + 1..];
    forall j | 0 <= j < |es1| ensures es1[j] == es[if j < i then j else j + 1] { }
    forall e | e in es1 ensures !(e.studentId == studentId && e.classSubjectId == csId) && e.id < nextId && e.classSubjectId < nextId {
      var j :| 0 <= j < |es1| && es1[j] == e;
      var j1 := if j < i then j else j + 1;
      assert es[j1] == e && j1 != i;
      if j1 < i {
        assert !(es[j1].studentId == es[i].studentId && es[j1].classSubjectId == es[i].classSubjectId);
      } else {
        assert !(es[i].studentId == es[j1].studentId && es[i].classSubjectId == es[j1].classSubjectId);
      }
    }
    forall p, q | 0 <= p < q < |es1|
      ensures !(es1[p].studentId == es1[q].studentId && es1[p].classSubjectId == es1[q].classSubjectId)
    {
      var p1, q1 := if p < i then p else p + 1, if q < i then q else q + 1;
      assert p1 < q1;
    }
  }

  /** The enrolment collection as `unenrollStudent` changes it. */
  class EnrolmentStore {
    var classSubjects: seq<ClassSubject>
    var enrolments: seq<Enrolment>
    var nextId: Id

    ghost predicate Valid()
      reads this
    {
      StoreValid(classSubjects, enrolments, nextId)
    }

    constructor()
      ensures Valid() && classSubjects == [] && enrolments == [] && nextId == 0
    {
      classSubjects := [];
      enrolments := [];
      nextId := 0;
    }

    /** `enrollStudent`: the store takes the state `Enroll` describes; a
        re-enrolment flips the stored status in place. */
    method EnrollStudent(students: seq<StudentProfile>, classes: set<Id>, studentId: Id, csId: Option<Id>, subjectId: Option<Id>)
      returns (code: nat)
      requires Valid()
      modifies this
      ensures Valid()
      ensures Enroll(students, classes, old(classSubjects), old(enrolments), old(nextId), studentId, csId, subjectId)
        == EnrolResult(code, classSubjects, enrolments, nextId)
    {
      EnrollKeepsStore(students, classes, classSubjects, enrolments, nextId, studentId, csId, subjectId);
      ghost var css0, es0, next0 := classSubjects, enrolments, nextId;
      var st := StudentById(students, studentId);
      if st.None? {
        return NotFound;
      }
      if st.value.classId.None? {
        if subjectId.Some? && csId.None? {
          return ServerError;
        } else if csId.None? {
          return BadRequest;
        } else if ClassSubjectById(classSubjects, csId.value).None? {
          return NotFound;
        }
        return ServerError;
      }
      var classId := st.value.classId.value;
      var resolved := ResolveClassSubject(classSubjects, classes, nextId, classId, csId, subjectId);
      if resolved.Err? {
        return ServerError;
      }
      var (c, css1, next1) := resolved.value;
      classSubjects, nextId := css1, next1;
      if c.None? {
        return BadRequest;
      }
      var cs := ClassSubjectById(classSubjects, c.value);
      if cs.None? {
        return NotFound;
      }
      if cs.value.classId != classId {
        return BadRequest;
      }
      ghost var placed := Place(enrolments, nextId, studentId, c.value);
      assert Enroll(students, classes, css0, es0, next0, studentId, csId, subjectId)
        == EnrolResult(placed.0, classSubjects, placed.1, placed.2);
      var k := EnrolmentIndex(enrolments, studentId, c.value);
      if k.Some? {
        if enrolments[k.value].status == Enrolled {
          return BadRequest;
        }
        enrolments := enrolments[k.value := enrolments[k.value].(status := Enrolled)];
        return 200;
      }
      enrolments := enrolments + [Enrolment(nextId, studentId, c.value, Enrolled)];
      nextId := nextId + 1;
      code := 201;
    }

    /** `unenrollStudent`: deletes the first enrolment of the student in the
        ClassSubject and answers 200, or answers 404 and changes nothing. */
    method UnenrollStudent(studentId: Id, csId: Id) returns (code: nat)
      requires Valid()
      modifies this`enrolments
      ensures Valid()
      ensures old(EnrolmentIndex(enrolments, studentId, csId)).None? ==> code == NotFound && enrolments == old(enrolments)
      ensures old(EnrolmentIndex(enrolments, studentId, csId)).Some? ==>
        (code == 200 && var k := old(EnrolmentIndex(enrolments, studentId, csId)).value;
         enrolments == old(enrolments[..k] + enrolments[k + 1..]))
      ensures EnrolmentIndex(enrolments, studentId, csId).None?
    {
      var k := EnrolmentIndex(enrolments, studentId, csId);
      if k.None? {
        return NotFound;
      }
      var i := k.value;
      RemoveKeepsValid(enrolments, nextId, i, studentId, csId);
      enrolments := enrolments[..i] + enrolments[i + 1..];
      code := 200;
    }
  }
}
