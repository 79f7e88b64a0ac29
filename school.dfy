/** The directory records the handlers look up: teacher and student profiles
    (each linked to one user by a unique `user_id`) and ClassSubject rows, which
    put a subject on a class and list the teachers assigned to it. */
module School {
  import opened Common

  datatype TeacherProfile = TeacherProfile(id: Id, userId: Id)

  /** A student profile; `class_id` is optional in the Student schema. */
  datatype StudentProfile = StudentProfile(id: Id, userId: Id, classId: Option<Id>)

  /** One entry of a ClassSubject's `teachers` array. */
  datatype Assignment = Assignment(teacherId: Id, isPrimary: bool)

  /** A ClassSubject row; `class_id` and `subject_id` are required by its schema. */
  datatype ClassSubject = ClassSubject(id: Id, classId: Id, subjectId: Id, teachers: seq<Assignment>, active: bool)

  datatype EnrolStatus = Enrolled | Dropped | Completed | FailedCourse

  /** A StudentSubject row: one student's enrolment in one ClassSubject. */
  datatype Enrolment = Enrolment(id: Id, studentId: Id, classSubjectId: Id, status: EnrolStatus)

  datatype Directory = Directory(
    users: seq<User>,
    teachers: seq<TeacherProfile>,
    students: seq<StudentProfile>,
    classSubjects: seq<ClassSubject>)

  /** The unique indexes the lookups rely on: `_id` on users, `user_id` on both
      profile collections, and `_id` on profiles and ClassSubjects. */
  ghost predicate WellFormed(dir: Directory) {
    UniqueUserIds(dir.users)
    && (forall i, j :: 0 <= i < j < |dir.teachers| ==>
          dir.teachers[i].userId != dir.teachers[j].userId && dir.teachers[i].id != dir.teachers[j].id)
    && (forall i, j :: 0 <= i < j < |dir.students| ==>
          dir.students[i].userId != dir.students[j].userId && dir.students[i].id != dir.students[j].id)
    && (forall i, j :: 0 <= i < j < |dir.classSubjects| ==> dir.classSubjects[i].id != dir.classSubjects[j].id)
  }

  /** `Teacher.findOne({ user_id })`. */
  function TeacherOfUser(teachers: seq<TeacherProfile>, userId: Id): (r: Option<TeacherProfile>)
    ensures r.Some? ==> r.value in teachers && r.value.userId == userId
    ensures r.None? <==> forall t :: t in teachers ==> t.userId != userId
  {
    if teachers == [] then None
    else if teachers[0].userId == userId then Some(teachers[0])
    else TeacherOfUser(teachers[1..], userId)
  }

  /** `Student.findOne({ user_id })`. */
  function StudentOfUser(students: seq<StudentProfile>, userId: Id): (r: Option<StudentProfile>)
    ensures r.Some? ==> r.value in students && r.value.userId == userId
    ensures r.None? <==> forall s :: s in students ==> s.userId != userId
  {
    if students == [] then None
    else if students[0].userId == userId then Some(students[0])
    else StudentOfUser(students[1..], userId)
  }

  /** `Student.findById(id)`. */
  function StudentById(students: seq<StudentProfile>, id: Id): (r: Option<StudentProfile>)
    ensures r.Some? ==> r.value in students && r.value.id == id
    ensures r.None? <==> forall s :: s in students ==> s.id != id
  {
    if students == [] then None
    else if students[0].id == id then Some(students[0])
    else StudentById(students[1..], id)
  }

  /** `ClassSubject.findById(id)`. */
  function ClassSubjectById(css: seq<ClassSubject>, id: Id): (r: Option<ClassSubject>)
    ensures r.Some? ==> r.value in css && r.value.id == id
    ensures r.None? <==> forall c :: c in css ==> c.id != id
  {
    if css == [] then None
    else if css[0].id == id then Some(css[0])
    else ClassSubjectById(css[1..], id)
  }

  /** The teacher profile appears in the ClassSubject's `teachers`. */
  predicate Teaches(cs: ClassSubject, teacherId: Id) {
    exists a :: a in cs.teachers && a.teacherId == teacherId
  }

  /** Some ClassSubject of the class lists the teacher. */
  predicate TeachesClass(css: seq<ClassSubject>, teacherId: Id, classId: Id) {
    exists cs :: cs in css && cs.classId == classId && Teaches(cs, teacherId)
  }

  /** With a unique `user_id` index, the profile lookup finds the stored profile. */
  lemma {:induction false} TeacherOfUserUnique(teachers: seq<TeacherProfile>, t: TeacherProfile)
    requires forall i, j :: 0 <= i < j < |teachers| ==> teachers[i].userId != teachers[j].userId
    requires t in teachers
    ensures TeacherOfUser(teachers, t.userId) == Some(t)
  {
    if teachers[0] != t {
      var k :| 0 <= k < |teachers| && teachers[k] == t;
      assert teachers[1..][k - 1] == t;
      TeacherOfUserUnique(teachers[1..], t);
    }
  }

  lemma {:induction false} StudentOfUserUnique(students: seq<StudentProfile>, s: StudentProfile)
    requires forall i, j :: 0 <= i < j < |students| ==> students[i].userId != students[j].userId
    requires s in students
    ensures StudentOfUser(students, s.userId) == Some(s)
  {
    if students[0] != s {
      var k :| 0 <= k < |students| && students[k] == s;
      assert students[1..][k - 1] == s;
      StudentOfUserUnique(students[1..], s);
    }
  }
}
