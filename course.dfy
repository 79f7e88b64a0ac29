/** Courses (courseController.js): creating a course for a ClassSubject with
    the teacher it is assigned to, listing the courses a user may see, and
    appending a material to a course. */
module Courses {
  import opened Common
  import opened Text
  import opened School
  import opened JsArray
  import opened Materials

  /** One entry of a course's `materials`. */
  datatype CourseMaterial = CourseMaterial(title: string, kind: string, url: string,
                                           filePath: Option<string>, description: Option<string>)

  datatype CourseDoc = CourseDoc(
    id: Id,
    classSubjectId: Id,
    title: string,
    description: Option<string>,
    teacherId: Option<Id>,
    materials: seq<CourseMaterial>,
    isActive: bool,
    createdAt: int)

  /** The body of a create request. */
  datatype CourseRequest = CourseRequest(classSubjectId: Option<Id>, title: Option<string>, description: Option<string>)

  /** `teachers.find(t => t.is_primary)`. */
  function FirstPrimary(ts: seq<Assignment>): (r: Option<nat>)
    ensures r.Some? ==> (r.value < |ts| && ts[r.value].isPrimary
      && forall j :: 0 <= j < r.value ==> !ts[j].isPrimary)
    ensures r.None? <==> forall a :: a in ts ==> !a.isPrimary
  {
    if ts == [] then None
    else if ts[0].isPrimary then Some(0)
    else
      var k := FirstPrimary(ts[1..]);
      if k.Some? then Some(k.value + 1) else None
  }

  /** The teacher an admin's course gets: the first primary teacher of the
      ClassSubject, else its first teacher, else nobody. */
  function AssignedTeacher(ts: seq<Assignment>): (r: Option<Id>)
    ensures r.None? <==> ts == []
    ensures r.Some? ==> exists a :: a in ts && a.teacherId == r.value
    ensures (exists a :: a in ts && a.isPrimary) ==>
      exists i :: 0 <= i < |ts| && ts[i].isPrimary && r == Some(ts[i].teacherId)
                  && forall j :: 0 <= j < i ==> !ts[j].isPrimary
    ensures ts != [] && (forall a :: a in ts ==> !a.isPrimary) ==> r == Some(ts[0].teacherId)
  {
    var p := FirstPrimary(ts);
    if p.Some? then Some(ts[p.value].teacherId)
    else if ts != [] then Some(ts[0].teacherId)
    else None
  }

  /** `ClassSubject.findOne({ _id, 'teachers.teacher_id': teacher })`. */
  function ListedClassSubject(css: seq<ClassSubject>, csId: Option<Id>, teacherId: Id): (r: Option<ClassSubject>)
    ensures r.Some? ==> r.value in css && Some(r.value.id) == csId && Teaches(r.value, teacherId)
    ensures r.None? <==> forall cs :: cs in css && Some(cs.id) == csId ==> !Teaches(cs, teacherId)
  {
    if css == [] then None
    else if Some(css[0].id) == csId && Teaches(css[0], teacherId) then Some(css[0])
    else ListedClassSubject(css[1..], csId, teacherId)
  }

  /** `ClassSubject.findById(id)` for an id that may be missing. */
  function FindClassSubjectArg(css: seq<ClassSubject>, csId: Option<Id>): (r: Option<ClassSubject>)
    ensures r.Some? ==> r.value in css && Some(r.value.id) == csId
    ensures r.None? <==> (csId.None? || forall cs :: cs in css ==> cs.id != csId.value)
  {
    if csId.None? then None else ClassSubjectById(css, csId.value)
  }

  /** `createCourse`: a teacher needs a profile (404) listed in the
      ClassSubject's teachers (403) and becomes the course's teacher; an admin
      needs the ClassSubject to exist (404) and assigns its primary or first
      teacher, or none; any other role is refused (403). The schema then
      requires a title that is not blank once trimmed (400). */
  function CreateCourse(id: Id, now: int, caller: User, req: CourseRequest,
                        teachers: seq<TeacherProfile>, css: seq<ClassSubject>): (r: Outcome<CourseDoc>)
    ensures caller.role == Teacher && TeacherOfUser(teachers, caller.id).None? ==> r == Err(NotFound)
    ensures caller.role == Teacher && TeacherOfUser(teachers, caller.id).Some?
            && ListedClassSubject(css, req.classSubjectId, TeacherOfUser(teachers, caller.id).value.id).None?
            ==> r == Err(Forbidden)
    ensures IsAdmin(caller.role) && FindClassSubjectArg(css, req.classSubjectId).None? ==> r == Err(NotFound)
    ensures caller.role != Teacher && !IsAdmin(caller.role) ==> r == Err(Forbidden)
    ensures r.Err? ==> r.code in {NotFound, Forbidden, BadRequest}
    ensures r.Err? && r.code == BadRequest ==> req.title.None? || Trim(req.title.value) == []
    ensures r.Ok? <==> (((caller.role == Teacher && TeacherOfUser(teachers, caller.id).Some?
                          && ListedClassSubject(css, req.classSubjectId, TeacherOfUser(teachers, caller.id).value.id).Some?)
                         || (IsAdmin(caller.role) && FindClassSubjectArg(css, req.classSubjectId).Some?))
                        && req.title.Some? && Trim(req.title.value) != [])
    ensures r.Ok? ==> var c := r.value;
      req.title.Some? && c.title == Trim(req.title.value) && c.title != []
      && Some(c.classSubjectId) == req.classSubjectId && c.materials == [] && c.isActive
      && c.id == id && c.createdAt == now
      && (caller.role == Teacher ==> c.teacherId == Some(TeacherOfUser(teachers, caller.id).value.id))
      && (IsAdmin(caller.role) ==> c.teacherId == AssignedTeacher(FindClassSubjectArg(css, req.classSubjectId).value.teachers))
  {
    var teacher: Outcome<Option<Id>> :=
      if caller.role == Teacher then
        var t := TeacherOfUser(teachers, caller.id);
        if t.None? then Err(NotFound)
        else if ListedClassSubject(css, req.classSubjectId, t.value.id).None? then Err(Forbidden)
        else Ok(Some(t.value.id))
      else if IsAdmin(caller.role) then
        var cs := FindClassSubjectArg(css, req.classSubjectId);
        if cs.None? then Err(NotFound) else Ok(AssignedTeacher(cs.value.teachers))
      else Err(Forbidden);
    if teacher.Err? then Err(teacher.code)
    else if req.title.None? || Trim(req.title.value) == [] then Err(BadRequest)
    else
      Ok(CourseDoc(id, req.classSubjectId.value, Trim(req.title.value),
                   if req.description.Some? then Some(Trim(req.description.value)) else None,
                   teacher.value, [], true, now))
  }

  /** Whoever creates it, a course's teacher is one that its ClassSubject lists. */
  lemma CreatedCourseTeacherListed(id: Id, now: int, caller: User, req: CourseRequest,
                                   teachers: seq<TeacherProfile>, css: seq<ClassSubject>)
    requires CreateCourse(id, now, caller, req, teachers, css).Ok?
    requires CreateCourse(id, now, caller, req, teachers, css).value.teacherId.Some?
    ensures var c := CreateCourse(id, now, caller, req, teachers, css).value;
      exists cs :: cs in css && cs.id == c.classSubjectId && Teaches(cs, c.teacherId.value)
  {
    var c := CreateCourse(id, now, caller, req, teachers, css).value;
    if caller.role == Teacher {
      var cs := ListedClassSubject(css, req.classSubjectId, TeacherOfUser(teachers, caller.id).value.id).value;
      assert cs.id == c.classSubjectId;
    } else {
      var cs := FindClassSubjectArg(css, req.classSubjectId).value;
      var a :| a in cs.teachers && a.teacherId == c.teacherId.value;
      assert Teaches(cs, c.teacherId.value);
    }
  }

  function CourseCreated(c: CourseDoc): int {
    c.createdAt
  }

  /** The ClassSubjects of a class, as `ClassSubject.find({ class_id })` with a
      `class_id` that may be null (no ClassSubject has a null class). */
  function ClassSubjectIdsOf(css: seq<ClassSubject>, classId: Option<Id>): set<Id> {
    set cs | cs in css && Some(cs.classId) == classId :: cs.id
  }

  /** The condition `getCourses` puts on a course for a caller with a profile:
      a teacher's own courses; a student's class's active courses; all for an admin. */
  predicate CourseVisible(c: CourseDoc, caller: User, teachers: seq<TeacherProfile>,
                          students: seq<StudentProfile>, css: seq<ClassSubject>) {
    if caller.role == Teacher then
      TeacherOfUser(teachers, caller.id).Some? && c.teacherId == Some(TeacherOfUser(teachers, caller.id).value.id)
    else if caller.role == Student then
      StudentOfUser(students, caller.id).Some?
      && c.classSubjectId in ClassSubjectIdsOf(css, StudentOfUser(students, caller.id).value.classId) && c.isActive
    else IsAdmin(caller.role)
  }

  /** `getCourses`: 404 for a teacher without a profile, [] for a student
      without one, 403 for other roles; otherwise the visible courses newest first. */
  function GetCourses(caller: User, teachers: seq<TeacherProfile>, students: seq<StudentProfile>,
                      css: seq<ClassSubject>, courses: seq<CourseDoc>): (r: Outcome<seq<CourseDoc>>)
    ensures r.Err? <==> (caller.role == Teacher && TeacherOfUser(teachers, caller.id).None?)
                        || (caller.role != Teacher && caller.role != Student && !IsAdmin(caller.role))
    ensures r.Err? ==> r.code == (if caller.role == Teacher then NotFound else Forbidden)
    ensures r.Ok? ==> SortedDesc(r.value, CourseCreated)
  {
    if caller.role == Teacher then
      var t := TeacherOfUser(teachers, caller.id);
      if t.None? then Err(NotFound)
      else Ok(SortDesc(Filter(courses, (c: CourseDoc) => c.teacherId == Some(t.value.id)), CourseCreated))
    else if caller.role == Student then
      var s := StudentOfUser(students, caller.id);
      if s.None? then Ok([])
      else
        var ids := ClassSubjectIdsOf(css, s.value.classId);
        Ok(SortDesc(Filter(courses, (c: CourseDoc) => c.classSubjectId in ids && c.isActive), CourseCreated))
    else if IsAdmin(caller.role) then Ok(SortDesc(courses, CourseCreated))
    else Err(Forbidden)
  }

  /** A listed course is exactly a stored course visible to the caller, and the
      list holds each such course as often as the store does. */
  lemma GetCoursesContents(caller: User, teachers: seq<TeacherProfile>, students: seq<StudentProfile>,
                           css: seq<ClassSubject>, courses: seq<CourseDoc>, c: CourseDoc)
    requires GetCourses(caller, teachers, students, css, courses).Ok?
    ensures var r := GetCourses(caller, teachers, students, css, courses).value;
      (c in r <==> c in courses && CourseVisible(c, caller, teachers, students, css))
      && multiset(r)[c] == (if CourseVisible(c, caller, teachers, students, css) then multiset(courses)[c] else 0)
  {
    var r := GetCourses(caller, teachers, students, css, courses).value;
    if caller.role == Teacher {
      var t := TeacherOfUser(teachers, caller.id).value;
      var p := (x: CourseDoc) => x.teacherId == Some(t.id);
      FilterCount(courses, p, c);
    } else if caller.role == Student {
      var s := StudentOfUser(students, caller.id);
      if s.Some? {
        var ids := ClassSubjectIdsOf(css, s.value.classId);
        var p := (x: CourseDoc) => x.classSubjectId in ids && x.isActive;
        FilterCount(courses, p, c);
      }
    }
    assert c in r <==> multiset(r)[c] > 0;
    assert c in courses <==> multiset(courses)[c] > 0;
  }

  /** Filtering keeps every occurrence of an element that satisfies the
      condition and none of one that does not. */
  lemma {:induction false} FilterCount<T>(s: seq<T>, p: T -> bool, x: T)
    ensures multiset(Filter(s, p))[x] == if p(x) then multiset(s)[x] else 0
  {
    if s != [] {
      FilterCount(s[1..], p, x);
      var head: seq<T> := if p(s[0]) then [s[0]] else [];
      assert multiset(Filter(s, p)) == multiset(head) + multiset(Filter(s[1..], p));
      assert multiset(s) == multiset([s[0]]) + multiset(s[1..]) by {
        assert s == [s[0]] + s[1..];
      }
    }
  }

  /** The material `addMaterial` pushes, once the schema accepts it: a title
      that is not blank once trimmed, a type from the enum and a non-empty URL
      (the upload path when a file came and the type is not `link`). */
  function NewCourseMaterial(title: Option<string>, kind: Option<string>, url: Option<string>,
                             description: Option<string>, file: Option<string>): (r: Option<CourseMaterial>)
    ensures r.Some? <==> (title.Some? && Trim(title.value) != [] && kind.Some? && kind.value in MaterialKinds
                          && Truthy(FinalUrl(kind, url, file)))
    ensures r.Some? ==> (Some(r.value.url) == FinalUrl(kind, url, file) && r.value.filePath == FilePath(file)
                         && r.value.title == Trim(title.value) && Some(r.value.kind) == kind
                         && r.value.description == TrimField(description))
  {
    var u := FinalUrl(kind, url, file);
    if title.Some? && Trim(title.value) != [] && kind.Some? && kind.value in MaterialKinds && Truthy(u) then
      Some(CourseMaterial(Trim(title.value), kind.value, u.value, FilePath(file), TrimField(description)))
    else None
  }

  /** Who may add to a course: an admin, or a teacher whose profile owns it. */
  predicate MayAddMaterial(course: CourseDoc, caller: User, teachers: seq<TeacherProfile>) {
    IsAdmin(caller.role)
    || (caller.role == Teacher && TeacherOfUser(teachers, caller.id).Some?
        && course.teacherId == Some(TeacherOfUser(teachers, caller.id).value.id))
  }

  /** `addMaterial`'s answer for a found course: a teacher must have a profile
      that owns the course (403), and reading the owner of a course without a
      teacher throws (500); an admin may add to any course; other roles get
      403; then the schema refuses an invalid material (400). */
  function AddMaterialCode(course: CourseDoc, caller: User, teachers: seq<TeacherProfile>,
                           m: Option<CourseMaterial>): (code: nat)
    ensures code == 200 <==> m.Some? && MayAddMaterial(course, caller, teachers)
    ensures code == BadRequest <==> m.None? && MayAddMaterial(course, caller, teachers)
    ensures code == ServerError <==> (caller.role == Teacher && TeacherOfUser(teachers, caller.id).Some?
      && course.teacherId.None?)
    ensures code == Forbidden <==> ((caller.role == Teacher && (TeacherOfUser(teachers, caller.id).None?
        || (course.teacherId.Some? && course.teacherId.value != TeacherOfUser(teachers, caller.id).value.id)))
      || (caller.role != Teacher && !IsAdmin(caller.role)))
    ensures code in {200, BadRequest, Forbidden, ServerError}
  {
    var auth :=
      if caller.role == Teacher then
        var t := TeacherOfUser(teachers, caller.id);
        if t.None? then Forbidden
        else if course.teacherId.None? then ServerError
        else if course.teacherId.value != t.value.id then Forbidden
        else 200
      else if IsAdmin(caller.role) then 200
      else Forbidden;
    if auth != 200 then auth
    else if m.None? then BadRequest
    else 200
  }

  /** A teacher adding to a course created without a teacher (an admin's
      course for a ClassSubject with no teachers) gets a server error rather
      than a refusal: the ownership check reads the missing teacher's id. */
  lemma AddMaterialUnassigned(course: CourseDoc, caller: User, teachers: seq<TeacherProfile>, m: Option<CourseMaterial>)
    requires caller.role == Teacher && TeacherOfUser(teachers, caller.id).Some? && course.teacherId.None?
    ensures AddMaterialCode(course, caller, teachers, m) == ServerError
  {
  }

  function CourseIndex(courses: seq<CourseDoc>, id: Id): (r: Option<nat>)
    ensures r.Some? ==> (r.value < |courses| && courses[r.value].id == id
      && forall k :: 0 <= k < r.value ==> courses[k].id != id)
    ensures r.None? <==> forall c :: c in courses ==> c.id != id
  {
    if courses == [] then None
    else if courses[0].id == id then Some(0)
    else
      var k := CourseIndex(courses[1..], id);
      if k.Some? then Some(k.value + 1) else None
  }

  /** The course collection. */
  class CourseStore {
    var courses: seq<CourseDoc>
    var nextId: Id

    ghost predicate Valid()
      reads this
    {
      forall c :: c in courses ==> c.id < nextId
    }

    constructor()
      ensures Valid() && courses == [] && nextId == 0
    {
      courses := [];
      nextId := 0;
    }

    /** `createCourse`: stores the new course (201) or stores nothing. */
    method Create(caller: User, req: CourseRequest, teachers: seq<TeacherProfile>, css: seq<ClassSubject>, now: int)
      returns (r: Outcome<CourseDoc>)
      requires Valid()
      modifies this
      ensures Valid()
      ensures r == CreateCourse(old(nextId), now, caller, req, teachers, css)
      ensures r.Ok? ==> courses == old(courses) + [r.value] && nextId == old(nextId) + 1
      ensures r.Err? ==> courses == old(courses) && nextId == old(nextId)
    {
      r := CreateCourse(nextId, now, caller, req, teachers, css);
      if r.Ok? {
        courses := courses + [r.value];
        nextId := nextId + 1;
      }
    }

    /** `addMaterial`: 404 for an unknown course; otherwise `AddMaterialCode`,
        and on 200 the material is pushed onto the end of that course's
        materials, in place; nothing else changes. */
    method AddMaterial(id: Id, caller: User, teachers: seq<TeacherProfile>, title: Option<string>,
                       kind: Option<string>, url: Option<string>, description: Option<string>, file: Option<string>)
      returns (code: nat)
      requires Valid()
      modifies this`courses
      ensures Valid()
      ensures var k := CourseIndex(old(courses), id);
        var m := NewCourseMaterial(title, kind, url, description, file);
        (k.None? ==> code == NotFound && courses == old(courses))
        && (k.Some? ==> code == AddMaterialCode(old(courses)[k.value], caller, teachers, m))
        && (k.Some? && code != 200 ==> courses == old(courses))
        && (k.Some? && code == 200 ==>
              courses == old(courses)[k.value := old(courses)[k.value].(materials := old(courses)[k.value].materials + [m.value])])
    {
      var m := NewCourseMaterial(title, kind, url, description, file);
      var k := CourseIndex(courses, id);
      if k.None? {
        return NotFound;
      }
      var i := k.value;
      code := AddMaterialCode(courses[i], caller, teachers, m);
      if code != 200 {
        return;
      }
      var course := courses[i];
      course := course.(materials := course.materials + [m.value]);
      courses := courses[i := course];
      forall c | c in courses ensures c.id < nextId {
        var j :| 0 <= j < |courses| && courses[j] == c;
        if j != i { assert c in old(courses); } else { assert c.id == id; }
      }
    }
  }
}
