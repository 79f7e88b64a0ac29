/** Exams (examController.js): grading a submission, the pass rule, what a student
    may open, who may edit or delete an exam, how id fields in a request are
    normalised, where a new exam is announced, and the completion flag. */
module Exams {
  import opened Common

  /** A question; `correctOption` is required in storage and absent only in
      what a student is sent. */
  datatype Question = Question(id: Id, text: string, options: seq<string>, correctOption: Option<int>, points: Option<int>)

  datatype ExamKind = ExamPaper | Homework

  datatype Exam = Exam(
    id: Id,
    title: string,
    courseId: Option<Id>,
    classId: Option<Id>,
    subjectId: Option<Id>,
    questions: seq<Question>,
    duration: int,
    passingScore: int,
    kind: ExamKind,
    linkedMaterial: Option<string>,
    grade: Option<int>,
    createdBy: Option<Id>)

  /** One entry of the submitted `answers`. */
  datatype Answer = Answer(questionId: Id, selectedOption: int)

  datatype GradedAnswer = GradedAnswer(questionId: Id, selectedOption: int, isCorrect: bool)

  datatype ExamStatus = Passed | Failed

  datatype ExamResult = ExamResult(
    studentId: Id, examId: Id, score: int, totalPoints: int,
    answers: seq<GradedAnswer>, status: ExamStatus, gradedAt: int)

  // ---------------------------------------------------------------------------
  // Grading

  /** `q.points || 1`: a missing or zero weight counts as 1. */
  function Weight(q: Question): (w: int)
    ensures q.points.None? || q.points.value == 0 ==> w == 1
    ensures q.points.Some? && q.points.value != 0 ==> w == q.points.value
  {
    if q.points.Some? && q.points.value != 0 then q.points.value else 1
  }

  /** `answers.find(a => a.questionId === q._id)`: the first answer to that question. */
  function FindAnswer(answers: seq<Answer>, qid: Id): (r: Option<nat>)
    ensures r.Some? ==> (r.value < |answers| && answers[r.value].questionId == qid
      && forall j :: 0 <= j < r.value ==> answers[j].questionId != qid)
    ensures r.None? ==> forall j :: 0 <= j < |answers| ==> answers[j].questionId != qid
  {
    if answers == [] then None
    else if answers[0].questionId == qid then Some(0)
    else match FindAnswer(answers[1..], qid)
      case None => None
      case Some(i) => Some(i + 1)
  }

  /** The first answer to the question selects its correct option. */
  predicate IsCorrect(q: Question, answers: seq<Answer>) {
    var k := FindAnswer(answers, q.id);
    k.Some? && q.correctOption == Some(answers[k.value].selectedOption)
  }

  /** The graded entry of one question; -1 marks an unanswered one. */
  function GradeOne(q: Question, answers: seq<Answer>): (g: GradedAnswer)
    ensures g.questionId == q.id && g.isCorrect == IsCorrect(q, answers)
    ensures FindAnswer(answers, q.id).None? ==> g.selectedOption == -1 && !g.isCorrect
    ensures FindAnswer(answers, q.id).Some? ==> g.selectedOption == answers[FindAnswer(answers, q.id).value].selectedOption
  {
    var k := FindAnswer(answers, q.id);
    GradedAnswer(q.id, if k.Some? then answers[k.value].selectedOption else -1, IsCorrect(q, answers))
  }

  /** The sum of the weights. */
  function TotalPoints(qs: seq<Question>): int {
    if qs == [] then 0 else TotalPoints(qs[..|qs| - 1]) + Weight(qs[|qs| - 1])
  }

  /** The sum of the weights of the questions answered correctly. */
  function Score(qs: seq<Question>, answers: seq<Answer>): int {
    if qs == [] then 0
    else Score(qs[..|qs| - 1], answers) + (if IsCorrect(qs[|qs| - 1], answers) then Weight(qs[|qs| - 1]) else 0)
  }

  /** Non-negative weights, as the schema's default of 1 gives. */
  predicate NonNegativePoints(qs: seq<Question>) {
    forall i :: 0 <= i < |qs| ==> qs[i].points.None? || qs[i].points.value >= 0
  }

  /** With non-negative weights the score lies between 0 and the total, and every
      question adds at least one point to the total. */
  lemma {:induction false} ScoreBounds(qs: seq<Question>, answers: seq<Answer>)
    requires NonNegativePoints(qs)
    ensures 0 <= Score(qs, answers) <= TotalPoints(qs)
    ensures TotalPoints(qs) >= |qs|
  {
    if qs != [] {
      var init := qs[..|qs| - 1];
      assert NonNegativePoints(init) by {
        forall i | 0 <= i < |init| ensures init[i].points.None? || init[i].points.value >= 0 {
          assert init[i] == qs[i];
        }
      }
      ScoreBounds(init, answers);
    }
  }

  /** Answering every question correctly scores the total; answering nothing
      scores 0. */
  lemma {:induction false} ScoreExtremes(qs: seq<Question>, answers: seq<Answer>)
    ensures (forall i :: 0 <= i < |qs| ==> IsCorrect(qs[i], answers)) ==> Score(qs, answers) == TotalPoints(qs)
    ensures answers == [] ==> Score(qs, answers) == 0
  {
    if qs != [] {
      var init := qs[..|qs| - 1];
      ScoreExtremes(init, answers);
      if forall i :: 0 <= i < |qs| ==> IsCorrect(qs[i], answers) {
        assert forall i :: 0 <= i < |init| ==> init[i] == qs[i];
      }
    }
  }

  /** `percentage = score / totalPoints * 100` compared with `passingScore`, with
      the quotient's IEEE behaviour at a zero total: 0/0 is NaN and fails, a
      positive score over 0 is +Infinity and passes, a negative one fails. */
  function ResultStatus(score: int, total: int, passingScore: int): (r: ExamStatus)
    ensures total > 0 ==> (r == Passed <==> score * 100 >= passingScore * total)
    ensures total == 0 ==> (r == Passed <==> score > 0)
  {
    if total > 0 then (if score * 100 >= passingScore * total then Passed else Failed)
    else if total < 0 then (if score * 100 <= passingScore * total then Passed else Failed)
    else if score > 0 then Passed
    else Failed
  }

  /** An exam without questions is always failed; with questions, a better score
      never turns a pass into a failure. */
  lemma PassRule(qs: seq<Question>, answers: seq<Answer>, passingScore: int, better: int)
    requires NonNegativePoints(qs)
    ensures qs == [] ==> ResultStatus(Score(qs, answers), TotalPoints(qs), passingScore) == Failed
    ensures (qs != [] && better >= Score(qs, answers)
      && ResultStatus(Score(qs, answers), TotalPoints(qs), passingScore) == Passed) ==>
      ResultStatus(better, TotalPoints(qs), passingScore) == Passed
  {
    ScoreBounds(qs, answers);
  }

  /** The `forEach` over the questions: accumulates the score and the total and
      pushes one graded entry per question, in question order. */
  method Grade(qs: seq<Question>, answers: seq<Answer>) returns (score: int, total: int, graded: seq<GradedAnswer>)
    ensures score == Score(qs, answers) && total == TotalPoints(qs)
    ensures |graded| == |qs| && forall i :: 0 <= i < |qs| ==> graded[i] == GradeOne(qs[i], answers)
  {
    score, total, graded := 0, 0, [];
    for i := 0 to |qs|
      invariant score == Score(qs[..i], answers) && total == TotalPoints(qs[..i])
      invariant |graded| == i && forall j :: 0 <= j < i ==> graded[j] == GradeOne(qs[j], answers)
    {
      assert qs[..i + 1][..i] == qs[..i];
      var q := qs[i];
      var w := if q.points.Some? && q.points.value != 0 then q.points.value else 1;
      total := total + w;
      var k := FindAnswer(answers, q.id);
      var correct := false;
      if k.Some? {
        if q.correctOption == Some(answers[k.value].selectedOption) {
          score := score + w;
          correct := true;
        }
      }
      graded := graded + [GradedAnswer(q.id, if k.Some? then answers[k.value].selectedOption else -1, correct)];
    }
    assert qs[..|qs|] == qs;
  }

  // ---------------------------------------------------------------------------
  // Submissions

  /** The result collection's unique (student, exam) index. */
  ghost predicate OneResultEach(results: seq<ExamResult>) {
    forall i, j :: 0 <= i < j < |results| ==>
      results[i].studentId != results[j].studentId || results[i].examId != results[j].examId
  }

  predicate Taken(results: seq<ExamResult>, studentId: Id, examId: Id) {
    exists i :: 0 <= i < |results| && results[i].studentId == studentId && results[i].examId == examId
  }

  class ResultStore {
    var results: seq<ExamResult>

    ghost predicate Valid()
      reads this
    {
      OneResultEach(results)
    }

    constructor()
      ensures Valid() && results == []
    {
      results := [];
    }

    /** `submitExam`: 404 without the exam; 400 for a second submission by the same
        student, before any grading; otherwise exactly one graded result is
        stored and returned. */
    method SubmitExam(exam: Option<Exam>, studentId: Id, answers: seq<Answer>, now: int) returns (r: Outcome<ExamResult>)
      requires Valid()
      modifies this
      ensures Valid()
      ensures exam.None? ==> r == Err(NotFound) && results == old(results)
      ensures exam.Some? && Taken(old(results), studentId, exam.value.id) ==> r == Err(BadRequest) && results == old(results)
      ensures exam.Some? && !Taken(old(results), studentId, exam.value.id) ==>
        var qs := exam.value.questions;
        r.Ok? && results == old(results) + [r.value]
        && r.value.studentId == studentId && r.value.examId == exam.value.id
        && r.value.score == Score(qs, answers) && r.value.totalPoints == TotalPoints(qs)
        && |r.value.answers| == |qs| && (forall i :: 0 <= i < |qs| ==> r.value.answers[i] == GradeOne(qs[i], answers))
        && r.value.status == ResultStatus(Score(qs, answers), TotalPoints(qs), exam.value.passingScore)
        && r.value.gradedAt == now
    {
      if exam.None? {
        return Err(NotFound);
      }
      var e := exam.value;
      var taken := false;
      var i := 0;
      while i < |results|
        invariant 0 <= i <= |results|
        invariant taken <==> exists j :: 0 <= j < i && results[j].studentId == studentId && results[j].examId == e.id
      {
        if results[i].studentId == studentId && results[i].examId == e.id {
          taken := true;
        }
        i := i + 1;
      }
      if taken {
        return Err(BadRequest);
      }
      var score, total, graded := Grade(e.questions, answers);
      var status := if total > 0 then (if score * 100 >= e.passingScore * total then Passed else Failed)
        else if total < 0 then (if score * 100 <= e.passingScore * total then Passed else Failed)
        else if score > 0 then Passed else Failed;
      var res := ExamResult(studentId, e.id, score, total, graded, status, now);
      results := results + [res];
      r := Ok(res);
    }
  }

  // ---------------------------------------------------------------------------
  // Access

  /** The student's class as `populate('class_id')` gives it. */
  datatype StudentClass = StudentClass(classId: Id, grade: int)

  /** The exam is for the student's class, or for the student's grade (a truthy
      grade equal to the class's). */
  predicate HasAccess(exam: Exam, sc: StudentClass) {
    (exam.classId.Some? && exam.classId.value == sc.classId)
    || (exam.grade.Some? && exam.grade.value != 0 && exam.grade.value == sc.grade)
  }

  /** The exam as a student receives it: every `correctOption` removed. */
  function Stripped(exam: Exam): (r: Exam)
    ensures |r.questions| == |exam.questions|
    ensures forall i :: 0 <= i < |r.questions| ==>
      r.questions[i] == exam.questions[i].(correctOption := None)
    ensures r.(questions := exam.questions) == exam
  {
    exam.(questions := seq(|exam.questions|, i requires 0 <= i < |exam.questions| => exam.questions[i].(correctOption := None)))
  }

  /** `getExam`: 404 without the exam; a student gets 404 without a profile or
      class, 403 without class or grade access, 400 when already taken, and
      otherwise the exam without answers; anyone else gets the exam as stored. */
  function GetExam(exam: Option<Exam>, caller: User, sc: Option<StudentClass>, results: seq<ExamResult>): (r: Outcome<Exam>)
    ensures exam.None? ==> r == Err(NotFound)
    ensures exam.Some? && caller.role != Student ==> r == Ok(exam.value)
    ensures exam.Some? && caller.role == Student ==>
      (sc.None? ==> r == Err(NotFound))
      && (sc.Some? && !HasAccess(exam.value, sc.value) ==> r == Err(Forbidden))
      && (sc.Some? && HasAccess(exam.value, sc.value) && Taken(results, caller.id, exam.value.id) ==> r == Err(BadRequest))
      && (r.Ok? <==> sc.Some? && HasAccess(exam.value, sc.value) && !Taken(results, caller.id, exam.value.id))
      && (r.Ok? ==> r.value == Stripped(exam.value))
  {
    if exam.None? then Err(NotFound)
    else if caller.role != Student then Ok(exam.value)
    else if sc.None? then Err(NotFound)
    else if !HasAccess(exam.value, sc.value) then Err(Forbidden)
    else if Taken(results, caller.id, exam.value.id) then Err(BadRequest)
    else Ok(Stripped(exam.value))
  }

  /** The ownership check of `updateExam` and `deleteExam`. */
  function CanModify(caller: User, exam: Exam): (r: bool)
    ensures r <==> IsAdmin(caller.role) || exam.createdBy == Some(caller.id)
  {
    IsAdmin(caller.role) || (exam.createdBy.Some? && exam.createdBy.value == caller.id)
  }

  /** `isCompleted`: the exam id is among the ids of the caller's results. */
  function IsCompleted(examId: Id, results: seq<ExamResult>, me: Id): (r: bool)
    ensures r <==> Taken(results, me, examId)
  {
    exists i :: 0 <= i < |results| && results[i].studentId == me && results[i].examId == examId
  }

  // ---------------------------------------------------------------------------
  // Exams without a course

  /** The condition `getIndependentExams` queries with. For a student, the
      object spread replaces the `$or` on `course_id` by the class-or-grade
      `$or`, so the condition on the course is lost and exams of a course are
      listed too; anyone else gets the exams without a course. With `intended`
      the condition on the course is kept for students as well. */
  predicate Listed(e: Exam, caller: User, sc: Option<StudentClass>, intended: bool) {
    if caller.role == Student then
      sc.Some? && (e.classId == Some(sc.value.classId) || e.grade == Some(sc.value.grade))
      && (!intended || e.courseId.None?)
    else e.courseId.None?
  }

  /** What the caller is sent of a listed exam: students never see answers. */
  function View(caller: User, e: Exam): (r: Exam)
    ensures r.id == e.id && r.courseId == e.courseId && r.classId == e.classId && r.grade == e.grade
    ensures caller.role == Student ==> r == Stripped(e)
    ensures caller.role != Student ==> r == e
  {
    if caller.role == Student then Stripped(e) else e
  }

  /** `getIndependentExams`: a student without a profile or class gets `[]`;
      otherwise the exams the condition admits, in store order, as the caller
      may see them. */
  function IndependentExams(exams: seq<Exam>, caller: User, sc: Option<StudentClass>, intended: bool): (r: seq<Exam>)
    ensures |r| <= |exams|
    ensures caller.role == Student && sc.None? ==> r == []
    ensures forall e :: e in exams && Listed(e, caller, sc, intended) ==> View(caller, e) in r
    ensures forall x :: x in r ==> exists e :: e in exams && Listed(e, caller, sc, intended) && x == View(caller, e)
  {
    if exams == [] then []
    else
      var rest := IndependentExams(exams[1..], caller, sc, intended);
      assert forall e :: e in exams ==> e == exams[0] || e in exams[1..];
      if Listed(exams[0], caller, sc, intended) then [View(caller, exams[0])] + rest else rest
  }

  /** As written, a student is listed an exam that belongs to a course: here
      exam 9 of course 5, set for the student's class 3. */
  lemma StudentSeesCourseExam()
    ensures var e := Exam(9, "Quiz", Some(5), Some(3), Some(4), [], 30, 50, ExamPaper, None, None, Some(2));
      var r := IndependentExams([e], User(1, Student, true), Some(StudentClass(3, 7)), false);
      e.courseId.Some? && |r| == 1 && r[0].courseId == Some(5)
  {
    var e := Exam(9, "Quiz", Some(5), Some(3), Some(4), [], 30, 50, ExamPaper, None, None, Some(2));
    var r := IndependentExams([e], User(1, Student, true), Some(StudentClass(3, 7)), false);
    assert View(User(1, Student, true), e) in r;
  }

  /** With the condition on the course kept, nobody is listed an exam of a
      course; a student is listed exactly the course-free exams of their class
      or grade; staff see the same list either way. */
  lemma IntendedIndependentExams(exams: seq<Exam>, caller: User, sc: Option<StudentClass>)
    ensures forall x :: x in IndependentExams(exams, caller, sc, true) ==> x.courseId.None?
    ensures caller.role == Student && sc.Some? ==> forall e :: e in exams ==>
      (View(caller, e) in IndependentExams(exams, caller, sc, true) <==>
       e.courseId.None? && (e.classId == Some(sc.value.classId) || e.grade == Some(sc.value.grade)))
    ensures caller.role != Student ==> IndependentExams(exams, caller, sc, true) == IndependentExams(exams, caller, sc, false)
  {
    var r := IndependentExams(exams, caller, sc, true);
    forall x | x in r ensures x.courseId.None? {
      var e :| e in exams && Listed(e, caller, sc, true) && x == View(caller, e);
    }
  }

  // ---------------------------------------------------------------------------
  // Id fields in requests

  /** A JSON scalar given for an id field. */
  datatype IdValue = NullValue | Blank | NoneWord | Ref(id: Id)

  /** An id field as sent: a scalar, or a populated object whose `_id` is used. */
  datatype IdInput = Scalar(v: IdValue) | Wrapped(inner: IdValue)

  /** `updateExam`'s normalisation: an object gives its `_id`; `""`, `"none"` and
      null become null; a reference is kept. */
  function NormalizeId(x: IdInput): (r: Option<Id>)
    ensures r.Some? <==> (x.Scalar? && x.v.Ref?) || (x.Wrapped? && x.inner.Ref?)
    ensures r.Some? ==> r.value == (if x.Scalar? then x.v.id else x.inner.id)
  {
    var v := if x.Scalar? then x.v else x.inner;
    if v.Ref? then Some(v.id) else None
  }

  /** `createExam`'s normalisation of a scalar: a truthy value other than "none". */
  function CreateId(v: IdValue): (r: Option<Id>)
    ensures r.Some? <==> v.Ref?
  {
    if v.Ref? then Some(v.id) else None
  }

  /** The two normalisations agree on scalars, and normalising a kept reference
      again keeps it. */
  lemma NormalizeAgrees(v: IdValue)
    ensures NormalizeId(Scalar(v)) == CreateId(v)
    ensures NormalizeId(Scalar(v)).Some? ==> NormalizeId(Scalar(Ref(NormalizeId(Scalar(v)).value))) == NormalizeId(Scalar(v))
  {
  }

  /** The fields an `updateExam` body may carry; `None` is a field not sent. */
  datatype ExamInput = ExamInput(
    title: Option<string>,
    courseId: Option<IdInput>,
    classId: Option<IdInput>,
    subjectId: Option<IdInput>,
    questions: Option<seq<Question>>,
    duration: Option<int>,
    passingScore: Option<int>,
    kind: Option<ExamKind>,
    linkedMaterial: Option<Option<string>>,
    grade: Option<Option<int>>)

  /** `updateData` applied by `findByIdAndUpdate`: exactly the fields sent change,
      id fields normalised. */
  function ApplyUpdate(exam: Exam, in_: ExamInput): (r: Exam)
    ensures r.id == exam.id && r.createdBy == exam.createdBy
    ensures in_ == ExamInput(None, None, None, None, None, None, None, None, None, None) ==> r == exam
  {
    exam.(
      title := Sent(in_.title, exam.title),
      courseId := SentId(in_.courseId, exam.courseId),
      classId := SentId(in_.classId, exam.classId),
      subjectId := SentId(in_.subjectId, exam.subjectId),
      questions := Sent(in_.questions, exam.questions),
      duration := Sent(in_.duration, exam.duration),
      passingScore := Sent(in_.passingScore, exam.passingScore),
      kind := Sent(in_.kind, exam.kind),
      linkedMaterial := Sent(in_.linkedMaterial, exam.linkedMaterial),
      grade := Sent(in_.grade, exam.grade))
  }

  /** A field of the update: the value sent, or the stored one when not sent. */
  function Sent<T>(sent: Option<T>, stored: T): (r: T)
    ensures sent.None? ==> r == stored
    ensures sent.Some? ==> r == sent.value
  {
    if sent.Some? then sent.value else stored
  }

  /** An id field of the update, normalised when sent. */
  function SentId(sent: Option<IdInput>, stored: Option<Id>): (r: Option<Id>)
    ensures sent.None? ==> r == stored
    ensures sent.Some? ==> r == NormalizeId(sent.value)
  {
    if sent.Some? then NormalizeId(sent.value) else stored
  }

  /** Sending the same update twice leaves the exam as sending it once. */
  lemma ApplyUpdateIdempotent(exam: Exam, in_: ExamInput)
    ensures ApplyUpdate(ApplyUpdate(exam, in_), in_) == ApplyUpdate(exam, in_)
  {
  }

  /** Where `new_exam` is announced: the class room when the exam has a class,
      else the grade room for a truthy grade, else nowhere. */
  datatype Announcement = ToClass(classId: Id) | ToGrade(grade: int) | Nowhere

  function AnnounceTo(exam: Exam): (r: Announcement)
    ensures exam.classId.Some? ==> r == ToClass(exam.classId.value)
    ensures exam.classId.None? && exam.grade.Some? && exam.grade.value != 0 ==> r == ToGrade(exam.grade.value)
    ensures r == Nowhere <==> exam.classId.None? && (exam.grade.None? || exam.grade.value == 0)
  {
    if exam.classId.Some? then ToClass(exam.classId.value)
    else if exam.grade.Some? && exam.grade.value != 0 then ToGrade(exam.grade.value)
    else Nowhere
  }

  /** The schema's `required` text of a question and its options, and its
      required `correctOption`. */
  predicate QuestionsValid(qs: seq<Question>) {
    forall i :: 0 <= i < |qs| ==>
      (qs[i].text != [] && qs[i].correctOption.Some?
       && forall j :: 0 <= j < |qs[i].options| ==> qs[i].options[j] != [])
  }

  /** What the Exam schema requires of a stored exam: a non-empty title, a class,
      a subject, well-formed questions, and a grade, when set, within 1..12. */
  predicate SchemaValid(e: Exam) {
    e.title != [] && e.classId.Some? && e.subjectId.Some? && QuestionsValid(e.questions)
    && (e.grade.Some? ==> 1 <= e.grade.value <= 12)
  }

  /** `runValidators: true` checks only the paths the update sets: a title sent
      empty, a class or subject sent as null (after normalising), questions sent
      malformed, or a grade sent outside 1..12 fail validation. */
  predicate UpdateValid(exam: Exam, in_: ExamInput) {
    var e := ApplyUpdate(exam, in_);
    (in_.title.Some? ==> e.title != [])
    && (in_.classId.Some? ==> e.classId.Some?)
    && (in_.subjectId.Some? ==> e.subjectId.Some?)
    && (in_.questions.Some? ==> QuestionsValid(e.questions))
    && (in_.grade.Some? && in_.grade.value.Some? ==> 1 <= in_.grade.value.value <= 12)
  }

  /** `updateExam`: 404 without the exam, 403 unless the caller may modify it,
      400 when the update validators reject a field it sets; otherwise the
      updated exam and its announcement. */
  function UpdateExam(exam: Option<Exam>, caller: User, in_: ExamInput): (r: Outcome<(Exam, Announcement)>)
    ensures exam.None? ==> r == Err(NotFound)
    ensures exam.Some? && !CanModify(caller, exam.value) ==> r == Err(Forbidden)
    ensures exam.Some? && CanModify(caller, exam.value) && !UpdateValid(exam.value, in_) ==> r == Err(BadRequest)
    ensures r.Ok? <==> exam.Some? && CanModify(caller, exam.value) && UpdateValid(exam.value, in_)
    ensures r.Ok? ==> r.value == (ApplyUpdate(exam.value, in_), AnnounceTo(ApplyUpdate(exam.value, in_)))
  {
    if exam.None? then Err(NotFound)
    else if !CanModify(caller, exam.value) then Err(Forbidden)
    else if !UpdateValid(exam.value, in_) then Err(BadRequest)
    else var e := ApplyUpdate(exam.value, in_); Ok((e, AnnounceTo(e)))
  }

  /** An update the validators accept keeps a well-formed exam well-formed: the
      fields it does not set were valid already. */
  lemma UpdateKeepsSchema(exam: Exam, caller: User, in_: ExamInput)
    requires SchemaValid(exam)
    ensures UpdateExam(Some(exam), caller, in_).Ok? ==> SchemaValid(UpdateExam(Some(exam), caller, in_).value.0)
  {
    if UpdateExam(Some(exam), caller, in_).Ok? {
      var e := ApplyUpdate(exam, in_);
      assert e.title == Sent(in_.title, exam.title);
      assert e.classId == SentId(in_.classId, exam.classId);
      assert e.subjectId == SentId(in_.subjectId, exam.subjectId);
      assert e.questions == Sent(in_.questions, exam.questions);
      assert e.grade == Sent(in_.grade, exam.grade);
    }
  }

  /** `Exam.findById(id)` as a position in the collection. */
  function ExamIndex(exams: seq<Exam>, id: Id): (r: Option<nat>)
    ensures r.Some? ==> r.value < |exams| && exams[r.value].id == id
    ensures r.None? ==> forall e :: e in exams ==> e.id != id
  {
    if exams == [] then None
    else if exams[0].id == id then Some(0)
    else match ExamIndex(exams[1..], id)
      case None => None
      case Some(i) => Some(i + 1)
  }

  /** `deleteExam` over the exam collection: 404 for an unknown id, 403 unless the
      caller may modify the exam, otherwise that exam is removed. */
  function DeleteExam(exams: seq<Exam>, caller: User, id: Id): (r: Outcome<seq<Exam>>)
    ensures (forall e :: e in exams ==> e.id != id) <==> r == Err(NotFound)
    ensures r.Ok? ==> exists i :: (0 <= i < |exams| && exams[i].id == id && CanModify(caller, exams[i])
      && r.value == exams[..i] + exams[i + 1..])
    ensures r == Err(Forbidden) ==> exists e :: e in exams && e.id == id && !CanModify(caller, e)
    ensures r.Err? ==> r.code == NotFound || r.code == Forbidden
  {
    match ExamIndex(exams, id)
    case None => Err(NotFound)
    case Some(i) => if CanModify(caller, exams[i]) then Ok(exams[..i] + exams[i + 1..]) else Err(Forbidden)
  }

  /** `createExam`'s body fields; `None` is a field not sent. */
  datatype NewExam = NewExam(
    title: string, courseId: IdValue, classId: IdValue, subjectId: IdValue,
    questions: seq<Question>, duration: Option<int>, passingScore: Option<int>, kind: ExamKind,
    linkedMaterial: Option<string>, grade: Option<int>)

  /** `finalGrade`: a falsy grade is taken from the class when the request names
      one that is found (`classGrade`). */
  function FinalGrade(in_: NewExam, classGrade: Option<int>): (r: Option<int>)
    ensures in_.grade.Some? && in_.grade.value != 0 ==> r == in_.grade
    ensures (in_.grade.None? || in_.grade.value == 0) && in_.classId.Ref? && classGrade.Some? ==> r == classGrade
  {
    if (in_.grade.None? || in_.grade.value == 0) && in_.classId.Ref? && classGrade.Some? then classGrade else in_.grade
  }

  /** The course check throws before anything is stored: a course id naming no
      course is 404, and so is `"none"`, which `findById` cannot cast. */
  predicate CourseRefused(in_: NewExam, courseExists: bool) {
    in_.courseId.NoneWord? || (in_.courseId.Ref? && !courseExists)
  }

  /** `createExam` by `creator` under the fresh id `id`: 404 when the course check
      throws; a falsy grade is inherited from the class when there is one; the
      schema then requires a title, a class, a subject, a duration, a passing
      score, well-formed questions and a grade within 1..12 (400 otherwise). The
      created exam holds what was sent and is announced to its class. */
  function CreateExam(in_: NewExam, courseExists: bool, classGrade: Option<int>, creator: Id, id: Id): (r: Outcome<(Exam, Announcement)>)
    ensures r == Err(NotFound) <==> CourseRefused(in_, courseExists)
    ensures r.Err? ==> r.code == NotFound || r.code == BadRequest
    ensures r.Ok? <==> (!CourseRefused(in_, courseExists) && in_.title != [] && in_.classId.Ref? && in_.subjectId.Ref?
      && in_.duration.Some? && in_.passingScore.Some? && QuestionsValid(in_.questions)
      && (FinalGrade(in_, classGrade).Some? ==> 1 <= FinalGrade(in_, classGrade).value <= 12))
    ensures r.Ok? ==> (var e := r.value.0;
      e.id == id && e.title == in_.title && e.questions == in_.questions
      && e.duration == in_.duration.value && e.passingScore == in_.passingScore.value
      && e.kind == in_.kind && e.linkedMaterial == in_.linkedMaterial
      && e.courseId == CreateId(in_.courseId) && e.classId == CreateId(in_.classId) && e.subjectId == CreateId(in_.subjectId)
      && e.grade == FinalGrade(in_, classGrade) && e.createdBy == Some(creator))
    ensures r.Ok? ==> SchemaValid(r.value.0) && r.value.1 == ToClass(r.value.0.classId.value)
  {
    if CourseRefused(in_, courseExists) then Err(NotFound)
    else if in_.duration.None? || in_.passingScore.None? then Err(BadRequest)
    else
      var exam := Exam(id, in_.title, CreateId(in_.courseId), CreateId(in_.classId), CreateId(in_.subjectId),
                       in_.questions, in_.duration.value, in_.passingScore.value, in_.kind, in_.linkedMaterial,
                       FinalGrade(in_, classGrade), Some(creator));
      if !SchemaValid(exam) then Err(BadRequest)
      else Ok((exam, AnnounceTo(exam)))
  }
}
