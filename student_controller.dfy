/** The student handlers (studentController.js): the list endpoint's filter,
    paging and `days_present` arithmetic, the subject merge of the details
    endpoint, and the create and update rules. Days are integer day numbers and a
    day's weekday is its number modulo 7. */
module StudentController {
  import opened Common
  import opened School
  import opened Students
  import opened JsArray
  import opened JsMap
  import opened Pagination
  import Absences

  // ---------------------------------------------------------------------------
  // Listing: filter and paging

  /** The query parameters the filter reads; an empty string is `None`. */
  datatype StudentQuery = StudentQuery(
    classId: Option<Id>,
    academicStatus: Option<AcademicStatus>,
    feeStatus: Option<StudentFeeStatus>)

  /** `mongoFilter`: a `None` field is a key the filter does not set. */
  datatype StudentFilter = StudentFilter(
    classId: Option<Id>,
    academicStatus: Option<AcademicStatus>,
    feeStatus: Option<StudentFeeStatus>,
    userId: Option<Id>)

  predicate Matches(f: StudentFilter, s: StudentDoc) {
    (f.classId.Some? ==> s.classId == f.classId)
    && (f.academicStatus.Some? ==> s.academicStatus == f.academicStatus.value)
    && (f.feeStatus.Some? ==> s.feeStatus == f.feeStatus.value)
    && (f.userId.Some? ==> s.userId == f.userId.value)
  }

  /** The query's own conditions. */
  predicate QueryMatches(q: StudentQuery, s: StudentDoc) {
    (q.classId.Some? ==> s.classId == q.classId)
    && (q.academicStatus.Some? ==> s.academicStatus == q.academicStatus.value)
    && (q.feeStatus.Some? ==> s.feeStatus == q.feeStatus.value)
  }

  /** The filter of `getStudents`: the query's conditions, and for a student
      caller also their own `user_id`, so a student lists only themselves. */
  function BuildFilter(caller: User, q: StudentQuery): (r: StudentFilter)
    ensures forall s :: Matches(r, s) <==> (QueryMatches(q, s) && (caller.role == Student ==> s.userId == caller.id))
    ensures caller.role == Student ==> r.userId == Some(caller.id)
  {
    StudentFilter(q.classId, q.academicStatus, q.feeStatus, if caller.role == Student then Some(caller.id) else None)
  }

  function CreatedAt(s: StudentDoc): int { s.createdAt }

  /** A row of the list: the student and its `total_absences`. */
  datatype StudentRow = StudentRow(doc: StudentDoc, totalAbsences: nat)

  datatype StudentListing = StudentListing(students: seq<StudentRow>, currentPage: int, totalPages: int, totalRecords: nat, perPage: int)

  /** The `$lookup` of the user followed by `$unwind: '$user_id'`: a student whose
      user is not stored has nothing to unwind and leaves the page. */
  function HasUser(users: seq<User>): StudentDoc -> bool {
    (s: StudentDoc) => FindUser(users, s.userId).Some?
  }

  /** `total_absences`: the student's approved absences grouped by calendar day,
      counted, so two approved absences on one day count once. */
  function ApprovedDays(absences: seq<Absences.Absence>, studentId: Id): nat {
    |set a | a in absences && a.studentId == studentId && a.status == Absences.Approved :: a.date|
  }

  function Rows(docs: seq<StudentDoc>, absences: seq<Absences.Absence>): (r: seq<StudentRow>)
    ensures |r| == |docs| && forall i :: 0 <= i < |docs| ==> r[i] == StudentRow(docs[i], ApprovedDays(absences, docs[i].id))
  {
    seq(|docs|, i requires 0 <= i < |docs| => StudentRow(docs[i], ApprovedDays(absences, docs[i].id)))
  }

  function RowDocs(rows: seq<StudentRow>): (r: seq<StudentDoc>)
    ensures |r| == |rows| && forall i :: 0 <= i < |rows| ==> r[i] == rows[i].doc
  {
    seq(|rows|, i requires 0 <= i < |rows| => rows[i].doc)
  }

  /** The matching students, newest first: what the pipeline pages through. */
  function Candidates(docs: seq<StudentDoc>, caller: User, q: StudentQuery): seq<StudentDoc> {
    var f := BuildFilter(caller, q);
    SortDesc(Filter(docs, s => Matches(f, s)), CreatedAt)
  }

  /** The list endpoint's documents and paging: the matching students, newest
      first, skipping `(page - 1) * limit` and keeping `limit`, less those whose
      user is missing, each with its `total_absences`; the totals count every
      match. A negative skip or limit is refused by the aggregation (500). */
  function GetStudents(docs: seq<StudentDoc>, users: seq<User>, absences: seq<Absences.Absence>, caller: User,
                       q: StudentQuery, page: Option<int>, limit: Option<int>): (r: Outcome<StudentListing>)
    ensures r.Err? <==> (Skip(Page(page), Limit(limit)) < 0 || Limit(limit) < 0)
    ensures r.Err? ==> r.code == ServerError
    ensures r.Ok? ==> var f := BuildFilter(caller, q);
      r.value.totalRecords == |Filter(docs, s => Matches(f, s))|
      && r.value.totalPages == TotalPages(r.value.totalRecords, Limit(limit))
      && r.value.perPage == Limit(limit) && r.value.currentPage == Page(page)
      && |r.value.students| <= Limit(limit)
      && SortedDesc(RowDocs(r.value.students), CreatedAt)
      && (forall s :: s in RowDocs(r.value.students) ==> s in docs && QueryMatches(q, s))
      && (caller.role == Student ==> forall s :: s in RowDocs(r.value.students) ==> s.userId == caller.id)
    ensures r.Ok? ==> var w := Window(Candidates(docs, caller, q), Skip(Page(page), Limit(limit)), Limit(limit));
      w.Ok? && RowDocs(r.value.students) == Filter(w.value, HasUser(users))
    ensures r.Ok? ==> forall i :: 0 <= i < |r.value.students| ==>
      r.value.students[i].totalAbsences == ApprovedDays(absences, r.value.students[i].doc.id)
  {
    var f := BuildFilter(caller, q);
    var matching := Filter(docs, s => Matches(f, s));
    var sorted := Candidates(docs, caller, q);
    var p, l := Page(page), Limit(limit);
    var skip := Skip(p, l);
    if skip < 0 || l < 0 then Err(ServerError)
    else
      var w := Window(sorted, skip, l).value;
      var kept := Filter(w, HasUser(users));
      PageRows(docs, caller, q, skip, l, users);
      var rows := Rows(kept, absences);
      assert RowDocs(rows) == kept;
      Ok(StudentListing(rows, p, TotalPages(|matching|, l), |matching|, l))
  }

  /** The page before the user join is a window of the sorted matches; what the
      join keeps of it is sorted, within the limit, and drawn from the matches. */
  lemma PageRows(docs: seq<StudentDoc>, caller: User, q: StudentQuery, skip: int, l: int, users: seq<User>)
    requires skip >= 0 && l > 0
    ensures var sorted := Candidates(docs, caller, q);
      var w := Window(sorted, skip, l);
      var kept := Filter(w.value, HasUser(users));
      w.Ok? && |kept| <= l && SortedDesc(kept, CreatedAt)
      && (forall s :: s in kept ==> s in docs && QueryMatches(q, s))
      && (caller.role == Student ==> forall s :: s in kept ==> s.userId == caller.id)
  {
    var sorted := Candidates(docs, caller, q);
    var w := Window(sorted, skip, l).value;
    var kept := Filter(w, HasUser(users));
    WindowSlice(sorted, skip, l);
    forall i, j | 0 <= i < j < |w| ensures CreatedAt(w[i]) >= CreatedAt(w[j]) {
      assert w[i] == sorted[skip + i] && w[j] == sorted[skip + j];
    }
    FilterSorted(w, HasUser(users), CreatedAt);
    forall x | x in kept ensures x in multiset(sorted) {
      var i :| 0 <= i < |w| && w[i] == x;
      assert sorted[skip + i] == x;
    }
    RowsMatch(docs, caller, q, kept);
  }

  /** When every student's user is stored, nothing leaves the page: the rows
      are exactly the window of the sorted matches at `(page - 1) * limit`. */
  lemma GetStudentsWindow(docs: seq<StudentDoc>, users: seq<User>, absences: seq<Absences.Absence>, caller: User,
                          q: StudentQuery, page: Option<int>, limit: Option<int>)
    requires forall s :: s in docs ==> FindUser(users, s.userId).Some?
    ensures var r := GetStudents(docs, users, absences, caller, q, page, limit);
      r.Ok? ==> IsWindowOf(Candidates(docs, caller, q), Skip(Page(page), Limit(limit)), Limit(limit), RowDocs(r.value.students))
  {
    var r := GetStudents(docs, users, absences, caller, q, page, limit);
    if r.Ok? {
      var sorted := Candidates(docs, caller, q);
      var skip, l := Skip(Page(page), Limit(limit)), Limit(limit);
      var w := Window(sorted, skip, l).value;
      WindowSlice(sorted, skip, l);
      forall i | 0 <= i < |w| ensures HasUser(users)(w[i]) {
        var f := BuildFilter(caller, q);
        assert w[i] == sorted[skip + i];
        assert w[i] in multiset(Filter(docs, s => Matches(f, s)));
      }
      FilterKeepsAll(w, HasUser(users));
    }
  }

  lemma RowsMatch(docs: seq<StudentDoc>, caller: User, q: StudentQuery, rows: seq<StudentDoc>)
    requires var f := BuildFilter(caller, q);
      forall x :: x in rows ==> x in multiset(SortDesc(Filter(docs, s => Matches(f, s)), CreatedAt))
    ensures forall s :: s in rows ==> s in docs && QueryMatches(q, s)
    ensures caller.role == Student ==> forall s :: s in rows ==> s.userId == caller.id
  {
    var f := BuildFilter(caller, q);
    var matching := Filter(docs, s => Matches(f, s));
    forall x | x in rows ensures x in docs && Matches(f, x) {
      assert x in multiset(matching);
    }
  }

  // ---------------------------------------------------------------------------
  // days_present

  /** The number of days in `[from, from + n)` whose weekday is not listed in
      `weekend`. */
  function Weekdays(from: int, n: nat, weekend: seq<int>): (r: nat)
    ensures r <= n
  {
    if n == 0 then 0
    else Weekdays(from, n - 1, weekend) + (if (from + n - 1) % 7 in weekend then 0 else 1)
  }

  /** The `weekend_days` setting as the shortcut needs it: distinct weekdays. */
  predicate WeekendSet(weekend: seq<int>) {
    (forall i :: 0 <= i < |weekend| ==> 0 <= weekend[i] < 7)
    && (forall i, j :: 0 <= i < j < |weekend| ==> weekend[i] != weekend[j])
  }

  /** What the handler computes for `total` days from `start`: each full week
      counts `7 - weekendDays.length`, and the remaining days are checked one by
      one. */
  function Shortcut(start: int, total: nat, weekend: seq<int>): int {
    (total / 7) * (7 - |weekend|) + Weekdays(start + (total / 7) * 7, total % 7, weekend)
  }

  /** The `days_present` of one student enrolled on day `start`, on day `today`,
      with `absences` approved absences. With distinct weekend days it is the
      number of working days in `[start, today]` less the absences, and never
      below 0 or above the number of days. */
  method DaysPresent(start: int, today: int, weekend: seq<int>, absences: nat) returns (days: int)
    ensures days >= 0
    ensures today < start ==> days == 0
    ensures today >= start ==> var n := Shortcut(start, today - start + 1, weekend) - absences;
      days == if n > 0 then n else 0
    ensures today >= start && WeekendSet(weekend) ==>
      (var n := Weekdays(start, today - start + 1, weekend) - absences;
       days == (if n > 0 then n else 0) && days <= today - start + 1)
  {
    var timeDiff := today - start;
    if timeDiff < 0 {
      return 0;
    }
    var totalDays := timeDiff + 1;
    var fullWeeks := totalDays / 7;
    var remainingDays := totalDays % 7;
    var weekdaysCount := fullWeeks * (7 - |weekend|);
    var tempDate := start + fullWeeks * 7;
    var i := 0;
    while i < remainingDays
      invariant 0 <= i <= remainingDays
      invariant tempDate == start + fullWeeks * 7 + i
      invariant weekdaysCount == fullWeeks * (7 - |weekend|) + Weekdays(start + fullWeeks * 7, i, weekend)
    {
      if tempDate % 7 !in weekend {
        weekdaysCount := weekdaysCount + 1;
      }
      tempDate := tempDate + 1;
      i := i + 1;
    }
    days := if weekdaysCount - absences > 0 then weekdaysCount - absences else 0;
    if WeekendSet(weekend) {
      ShortcutCounts(start, totalDays, weekend);
    }
  }

  /** The `map` over the page: each row's `days_present`, counted from its
      enrolment day with its `total_absences` taken off. With distinct weekend
      days each is the row's working days up to `today` less its absences. */
  method RowsDaysPresent(rows: seq<StudentRow>, today: int, weekend: seq<int>) returns (days: seq<int>)
    ensures |days| == |rows|
    ensures forall i :: 0 <= i < |rows| ==> days[i] >= 0 && (today < rows[i].doc.enrollmentDate ==> days[i] == 0)
    ensures WeekendSet(weekend) ==> forall i :: 0 <= i < |rows| && today >= rows[i].doc.enrollmentDate ==>
      var n := Weekdays(rows[i].doc.enrollmentDate, today - rows[i].doc.enrollmentDate + 1, weekend) - rows[i].totalAbsences;
      days[i] == if n > 0 then n else 0
  {
    days := [];
    var k := 0;
    while k < |rows|
      invariant 0 <= k <= |rows| && |days| == k
      invariant forall i :: 0 <= i < k ==> days[i] >= 0 && (today < rows[i].doc.enrollmentDate ==> days[i] == 0)
      invariant WeekendSet(weekend) ==> forall i :: 0 <= i < k && today >= rows[i].doc.enrollmentDate ==>
        var n := Weekdays(rows[i].doc.enrollmentDate, today - rows[i].doc.enrollmentDate + 1, weekend) - rows[i].totalAbsences;
        days[i] == if n > 0 then n else 0
    {
      var d := DaysPresent(rows[k].doc.enrollmentDate, today, weekend, rows[k].totalAbsences);
      days := days + [d];
      k := k + 1;
    }
  }

  /** With distinct weekend days the full-weeks shortcut counts exactly the
      working days of the range. */
  lemma ShortcutCounts(start: int, total: nat, weekend: seq<int>)
    requires WeekendSet(weekend)
    ensures Shortcut(start, total, weekend) == Weekdays(start, total, weekend)
  {
    var m := total / 7;
    WeekdaysSplit(start, 7 * m, total % 7, weekend);
    WeekdaysWeeks(start, m, weekend);
    assert m * 7 == 7 * m;
  }

  lemma {:induction false} WeekdaysSplit(from: int, a: nat, b: nat, weekend: seq<int>)
    ensures Weekdays(from, a + b, weekend) == Weekdays(from, a, weekend) + Weekdays(from + a, b, weekend)
  {
    if b > 0 {
      WeekdaysSplit(from, a, b - 1, weekend);
      assert from + (a + b) - 1 == (from + a) + b - 1;
    }
  }

  lemma ModShift(a: int, b: int, k: int)
    requires a % 7 == b % 7
    ensures (a + k) % 7 == (b + k) % 7
  {
    var qa, qb := a / 7, b / 7;
    assert a == 7 * qa + a % 7;
    assert b == 7 * qb + b % 7;
    assert a + k == 7 * (qa - qb) + (b + k);
  }

  lemma {:induction false} WeekdaysShift(a: int, b: int, n: nat, weekend: seq<int>)
    requires a % 7 == b % 7
    ensures Weekdays(a, n, weekend) == Weekdays(b, n, weekend)
  {
    if n > 0 {
      WeekdaysShift(a, b, n - 1, weekend);
      ModShift(a, b, n - 1);
    }
  }

  /** The number of weekdays below `k` listed in `weekend`. */
  function Hits(weekend: seq<int>, k: nat): nat {
    if k == 0 then 0 else Hits(weekend, k - 1) + (if k - 1 in weekend then 1 else 0)
  }

  lemma {:induction false} FirstWeek(k: nat, weekend: seq<int>)
    requires k <= 7
    ensures Weekdays(0, k, weekend) == k - Hits(weekend, k)
  {
    if k > 0 {
      FirstWeek(k - 1, weekend);
      assert (k - 1) % 7 == k - 1;
    }
  }

  lemma {:induction false} HitsSnoc(weekend: seq<int>, x: int, k: nat)
    requires x !in weekend
    ensures Hits(weekend + [x], k) == Hits(weekend, k) + (if 0 <= x < k then 1 else 0)
  {
    if k > 0 {
      HitsSnoc(weekend, x, k - 1);
      assert (k - 1 in weekend + [x]) <==> (k - 1 in weekend || k - 1 == x);
    }
  }

  lemma {:induction false} HitsAll(weekend: seq<int>)
    requires WeekendSet(weekend)
    ensures Hits(weekend, 7) == |weekend|
  {
    if weekend == [] {
      assert Hits([], 7) == 0 by { HitsEmpty(7); }
    } else {
      var n := |weekend| - 1;
      var w := weekend[..n];
      assert weekend == w + [weekend[n]];
      assert weekend[n] !in w;
      HitsAll(w);
      HitsSnoc(w, weekend[n], 7);
    }
  }

  lemma {:induction false} HitsEmpty(k: nat)
    ensures Hits([], k) == 0
  {
    if k > 0 { HitsEmpty(k - 1); }
  }

  /** Any seven consecutive days hold `7 - |weekend|` working days. */
  lemma WeekdaysWeek(from: int, weekend: seq<int>)
    requires WeekendSet(weekend)
    ensures Weekdays(from, 7, weekend) == 7 - |weekend|
  {
    var q := from % 7;
    WeekdaysShift(from, q, 7, weekend);
    WeekdaysSplit(q, 7 - q, q, weekend);
    WeekdaysShift(q + (7 - q), 0, q, weekend);
    WeekdaysSplit(0, q, 7 - q, weekend);
    FirstWeek(7, weekend);
    HitsAll(weekend);
  }

  lemma {:induction false} WeekdaysWeeks(from: int, m: nat, weekend: seq<int>)
    requires WeekendSet(weekend)
    ensures Weekdays(from, 7 * m, weekend) == m * (7 - |weekend|)
  {
    if m > 0 {
      WeekdaysWeeks(from, m - 1, weekend);
      WeekdaysSplit(from, 7 * (m - 1), 7, weekend);
      WeekdaysWeek(from + 7 * (m - 1), weekend);
      assert m * (7 - |weekend|) == (m - 1) * (7 - |weekend|) + (7 - |weekend|);
    }
  }

  // ---------------------------------------------------------------------------
  // getStudentDetails: the subject merge

  /** Where a merged entry came from: the student's class, or an individual
      enrolment (which carries its status). */
  datatype Source = FromClass | Individual(status: EnrolStatus)

  datatype SubjectEntry = SubjectEntry(classSubjectId: Id, subjectId: Id, classId: Id, teachers: seq<Assignment>, source: Source)

  function EntryKey(e: SubjectEntry): Id { e.classSubjectId }

  function Entry(cs: ClassSubject, source: Source): SubjectEntry {
    SubjectEntry(cs.id, cs.subjectId, cs.classId, cs.teachers, source)
  }

  /** `ClassSubject.find({ class_id, status: 'active' })`. */
  function ClassSubjectsOf(css: seq<ClassSubject>, classId: Id): seq<ClassSubject> {
    Filter(css, (cs: ClassSubject) => cs.classId == classId && cs.active)
  }

  /** `StudentSubject.find({ student_id, status: 'enrolled' })`. */
  function EnrolledOf(es: seq<Enrolment>, studentId: Id): seq<Enrolment> {
    Filter(es, (e: Enrolment) => e.studentId == studentId && e.status == Enrolled)
  }

  /** The entries the first `forEach` sets, in order: class subjects whose subject
      populates (the subject document exists). */
  function ClassEntries(qs: seq<ClassSubject>, subjects: set<Id>): seq<SubjectEntry> {
    if qs == [] then []
    else
      var n := |qs| - 1;
      ClassEntries(qs[..n], subjects) + (if qs[n].subjectId in subjects then [Entry(qs[n], FromClass)] else [])
  }

  /** The entry an enrolment sets, if its ClassSubject and that one's subject
      both populate. */
  function IndividualEntry(e: Enrolment, css: seq<ClassSubject>, subjects: set<Id>): Option<SubjectEntry> {
    var cs := ClassSubjectById(css, e.classSubjectId);
    if cs.Some? && cs.value.subjectId in subjects then Some(Entry(cs.value, Individual(e.status))) else None
  }

  /** The entries the second `forEach` sets, in order. */
  function IndividualEntries(es: seq<Enrolment>, css: seq<ClassSubject>, subjects: set<Id>): seq<SubjectEntry> {
    if es == [] then []
    else
      var n := |es| - 1;
      var x := IndividualEntry(es[n], css, subjects);
      IndividualEntries(es[..n], css, subjects) + (if x.Some? then [x.value] else [])
  }

  /** Everything the two loops set, in order. */
  function AllEntries(css: seq<ClassSubject>, subjects: set<Id>, es: seq<Enrolment>, studentId: Id, classId: Id): seq<SubjectEntry> {
    ClassEntries(ClassSubjectsOf(css, classId), subjects) + IndividualEntries(EnrolledOf(es, studentId), css, subjects)
  }

  lemma ClassEntriesStep(qs: seq<ClassSubject>, i: nat, subjects: set<Id>)
    requires i < |qs|
    ensures ClassEntries(qs[..i + 1], subjects)
      == ClassEntries(qs[..i], subjects) + (if qs[i].subjectId in subjects then [Entry(qs[i], FromClass)] else [])
  {
    assert qs[..i + 1][..i] == qs[..i];
  }

  lemma IndividualEntriesStep(es: seq<Enrolment>, j: nat, css: seq<ClassSubject>, subjects: set<Id>)
    requires j < |es|
    ensures var x := IndividualEntry(es[j], css, subjects);
      IndividualEntries(es[..j + 1], css, subjects)
      == IndividualEntries(es[..j], css, subjects) + (if x.Some? then [x.value] else [])
  {
    assert es[..j + 1][..j] == es[..j];
  }

  lemma IndexSnoc<T, K(!new)>(xs: seq<T>, x: T, key: T -> K)
    ensures Index(xs + [x], key) == Set(Index(xs, key), key(x), x)
  {
    assert (xs + [x])[..|xs|] == xs;
  }

  /** One turn of the first loop: a class subject with a populated subject sets
      its entry; any other leaves the map as it is. */
  lemma ClassIndexStep(qs: seq<ClassSubject>, i: nat, subjects: set<Id>)
    requires i < |qs|
    ensures var before := Index(ClassEntries(qs[..i], subjects), EntryKey);
      Index(ClassEntries(qs[..i + 1], subjects), EntryKey)
      == if qs[i].subjectId in subjects then Set(before, qs[i].id, Entry(qs[i], FromClass)) else before
  {
    ClassEntriesStep(qs, i, subjects);
    var prev := ClassEntries(qs[..i], subjects);
    if qs[i].subjectId in subjects {
      IndexSnoc(prev, Entry(qs[i], FromClass), EntryKey);
    } else {
      assert prev + [] == prev;
    }
  }

  /** One turn of the second loop: an enrolment whose ClassSubject and subject
      populate sets its entry over whatever was there. */
  lemma IndividualIndexStep(base: seq<SubjectEntry>, es: seq<Enrolment>, j: nat, css: seq<ClassSubject>, subjects: set<Id>)
    requires j < |es|
    ensures var before := Index(base + IndividualEntries(es[..j], css, subjects), EntryKey);
      var cs := ClassSubjectById(css, es[j].classSubjectId);
      Index(base + IndividualEntries(es[..j + 1], css, subjects), EntryKey)
      == if cs.Some? && cs.value.subjectId in subjects then Set(before, cs.value.id, Entry(cs.value, Individual(es[j].status))) else before
  {
    var prev := IndividualEntries(es[..j], css, subjects);
    IndividualEntriesStep(es, j, css, subjects);
    var cs := ClassSubjectById(css, es[j].classSubjectId);
    if cs.Some? && cs.value.subjectId in subjects {
      var e := Entry(cs.value, Individual(es[j].status));
      assert base + (prev + [e]) == (base + prev) + [e];
      IndexSnoc(base + prev, e, EntryKey);
    } else {
      assert prev + [] == prev;
    }
  }

  /** `subjects` of `getStudentDetails` for a student of class `classId`: class
      subjects first, then enrolled individual subjects overriding the same
      ClassSubject id, listed in the order keys were first set. */
  method MergeSubjects(css: seq<ClassSubject>, subjects: set<Id>, es: seq<Enrolment>, studentId: Id, classId: Id)
    returns (r: seq<SubjectEntry>)
    ensures r == Merged(css, subjects, es, studentId, classId)
  {
    var classSubjects := ClassSubjectsOf(css, classId);
    var studentSubjects := EnrolledOf(es, studentId);
    var subjectMap := SetClassEntries(classSubjects, subjects);
    subjectMap := SetIndividualEntries(subjectMap, ClassEntries(classSubjects, subjects), studentSubjects, css, subjects);
    r := Values(subjectMap);
  }

  /** The first `forEach`: each class subject with a populated subject is set
      under its id. */
  method SetClassEntries(classSubjects: seq<ClassSubject>, subjects: set<Id>) returns (subjectMap: JsMap<Id, SubjectEntry>)
    ensures subjectMap == Index(ClassEntries(classSubjects, subjects), EntryKey)
  {
    subjectMap := Empty();
    var i := 0;
    while i < |classSubjects|
      invariant 0 <= i <= |classSubjects|
      invariant subjectMap == Index(ClassEntries(classSubjects[..i], subjects), EntryKey)
    {
      var cs := classSubjects[i];
      ClassIndexStep(classSubjects, i, subjects);
      if cs.subjectId in subjects {
        subjectMap := Set(subjectMap, cs.id, Entry(cs, FromClass));
      }
      i := i + 1;
    }
    assert classSubjects[..i] == classSubjects;
  }

  /** The second `forEach`: each enrolment whose ClassSubject and subject
      populate is set under the ClassSubject's id, over the class entry. */
  method SetIndividualEntries(m: JsMap<Id, SubjectEntry>, base: seq<SubjectEntry>, studentSubjects: seq<Enrolment>,
                              css: seq<ClassSubject>, subjects: set<Id>) returns (subjectMap: JsMap<Id, SubjectEntry>)
    requires m == Index(base, EntryKey)
    ensures subjectMap == Index(base + IndividualEntries(studentSubjects, css, subjects), EntryKey)
  {
    subjectMap := m;
    var j := 0;
    assert studentSubjects[..0] == [];
    assert base + IndividualEntries([], css, subjects) == base;
    while j < |studentSubjects|
      invariant 0 <= j <= |studentSubjects|
      invariant subjectMap == Index(base + IndividualEntries(studentSubjects[..j], css, subjects), EntryKey)
    {
      var ss := studentSubjects[j];
      IndividualIndexStep(base, studentSubjects, j, css, subjects);
      var cs := ClassSubjectById(css, ss.classSubjectId);
      if cs.Some? && cs.value.subjectId in subjects {
        subjectMap := Set(subjectMap, cs.value.id, Entry(cs.value, Individual(ss.status)));
      }
      j := j + 1;
    }
    assert studentSubjects[..j] == studentSubjects;
  }

  lemma {:induction false} ClassEntriesMembers(qs: seq<ClassSubject>, subjects: set<Id>)
    ensures forall cs :: cs in qs && cs.subjectId in subjects ==> Entry(cs, FromClass) in ClassEntries(qs, subjects)
    ensures forall x :: x in ClassEntries(qs, subjects) ==> x.source == FromClass && x.subjectId in subjects
  {
    if qs != [] {
      var n := |qs| - 1;
      ClassEntriesMembers(qs[..n], subjects);
      forall cs | cs in qs && cs.subjectId in subjects ensures Entry(cs, FromClass) in ClassEntries(qs, subjects) {
        if cs != qs[n] {
          var k :| 0 <= k < |qs| && qs[k] == cs;
          assert qs[..n][k] == cs;
        }
      }
    }
  }

  lemma {:induction false} IndividualEntriesMembers(es: seq<Enrolment>, css: seq<ClassSubject>, subjects: set<Id>)
    ensures forall e :: e in es && IndividualEntry(e, css, subjects).Some? ==>
      IndividualEntry(e, css, subjects).value in IndividualEntries(es, css, subjects)
    ensures forall x :: x in IndividualEntries(es, css, subjects) ==> x.source.Individual? && x.subjectId in subjects
  {
    if es != [] {
      var n := |es| - 1;
      IndividualEntriesMembers(es[..n], css, subjects);
      forall e | e in es && IndividualEntry(e, css, subjects).Some?
        ensures IndividualEntry(e, css, subjects).value in IndividualEntries(es, css, subjects)
      {
        if e != es[n] {
          var k :| 0 <= k < |es| && es[k] == e;
          assert es[..n][k] == e;
        }
      }
    }
  }

  /** The list `getStudentDetails` answers. */
  function Merged(css: seq<ClassSubject>, subjects: set<Id>, es: seq<Enrolment>, studentId: Id, classId: Id): seq<SubjectEntry> {
    Values(Index(AllEntries(css, subjects, es, studentId, classId), EntryKey))
  }

  /** An item set in the second phase is represented by an item of that phase. */
  lemma LaterWins<T, K(!new)>(a: seq<T>, b: seq<T>, x: T, key: T -> K)
    requires x in b
    ensures var r := Values(Index(a + b, key));
      exists i :: 0 <= i < |r| && key(r[i]) == key(x) && r[i] in b
  {
    var items := a + b;
    var m := Index(items, key);
    var p :| 0 <= p < |b| && b[p] == x;
    assert items[|a| + p] == x;
    var i := ValueOfKey(items, key, |a| + p);
    var l := LastWithKey(items, key, key(x));
    assert l >= |a| + p;
    assert items[l] == b[l - |a|];
  }

  /** The listed value of an item's key is the map's value for that key. */
  lemma ValueOfKey<T, K(!new)>(items: seq<T>, key: T -> K, p: nat) returns (i: nat)
    requires p < |items|
    ensures i < |Values(Index(items, key))| && i < |Index(items, key).keys|
    ensures Index(items, key).keys[i] == key(items[p]) && key(items[p]) in Index(items, key).vals
    ensures Values(Index(items, key))[i] == Index(items, key).vals[key(items[p])]
  {
    var m := Index(items, key);
    KeyOccurs(items, key, key(items[p]));
    i :| 0 <= i < |m.keys| && m.keys[i] == key(items[p]);
  }

  /** An item of the first phase whose key the second phase never sets keeps its
      place. */
  lemma EarlierKept<T, K(!new)>(a: seq<T>, b: seq<T>, x: T, key: T -> K)
    requires x in a && forall y :: y in b ==> key(y) != key(x)
    ensures var r := Values(Index(a + b, key));
      exists i :: 0 <= i < |r| && key(r[i]) == key(x) && r[i] in a
  {
    var items := a + b;
    var p :| 0 <= p < |a| && a[p] == x;
    assert items[p] == x;
    var i := ValueOfKey(items, key, p);
    var l := LastWithKey(items, key, key(x));
    forall j | |a| <= j < |items| ensures key(items[j]) != key(x) {
      assert items[j] == b[j - |a|];
    }
    assert items[l] == a[l];
  }

  /** Each ClassSubject id appears once, and every entry is one that was set,
      with a populated subject. */
  lemma MergedEntries(css: seq<ClassSubject>, subjects: set<Id>, es: seq<Enrolment>, studentId: Id, classId: Id)
    ensures var r := Merged(css, subjects, es, studentId, classId);
      (forall i, j :: 0 <= i < j < |r| ==> r[i].classSubjectId != r[j].classSubjectId)
      && (forall x :: x in r ==> x in AllEntries(css, subjects, es, studentId, classId) && x.subjectId in subjects)
  {
    var items := AllEntries(css, subjects, es, studentId, classId);
    var r := Merged(css, subjects, es, studentId, classId);
    DedupedKeys(items, EntryKey);
    DedupedLast(items, EntryKey);
    ClassEntriesMembers(ClassSubjectsOf(css, classId), subjects);
    IndividualEntriesMembers(EnrolledOf(es, studentId), css, subjects);
    forall x | x in r ensures x in items {
      var i :| 0 <= i < |r| && r[i] == x;
      var l :| 0 <= l < |items| && items[l] == r[i];
    }
  }

  /** An enrolled individual subject always wins over the class entry for the
      same ClassSubject, and every active class subject of the class appears, as
      a class entry unless an enrolment of the student overrides it. */
  lemma MergedOverrides(css: seq<ClassSubject>, subjects: set<Id>, es: seq<Enrolment>, studentId: Id, classId: Id)
    ensures var r := Merged(css, subjects, es, studentId, classId);
      (forall e :: e in EnrolledOf(es, studentId) && IndividualEntry(e, css, subjects).Some? ==>
            exists i :: 0 <= i < |r| && r[i].classSubjectId == e.classSubjectId && r[i].source.Individual?)
      && (forall cs :: cs in ClassSubjectsOf(css, classId) && cs.subjectId in subjects ==>
            exists i :: 0 <= i < |r| && r[i].classSubjectId == cs.id)
      && (forall cs :: (cs in ClassSubjectsOf(css, classId) && cs.subjectId in subjects
            && forall e :: e in EnrolledOf(es, studentId) ==> e.classSubjectId != cs.id) ==>
            exists i :: 0 <= i < |r| && r[i].classSubjectId == cs.id && r[i].source == FromClass)
  {
    var en := EnrolledOf(es, studentId);
    var a := ClassEntries(ClassSubjectsOf(css, classId), subjects);
    var b := IndividualEntries(en, css, subjects);
    var r := Merged(css, subjects, es, studentId, classId);
    ClassEntriesMembers(ClassSubjectsOf(css, classId), subjects);
    IndividualEntriesMembers(en, css, subjects);
    forall e | e in en && IndividualEntry(e, css, subjects).Some?
      ensures exists i :: 0 <= i < |r| && r[i].classSubjectId == e.classSubjectId && r[i].source.Individual?
    {
      LaterWins(a, b, IndividualEntry(e, css, subjects).value, EntryKey);
    }
    forall cs | cs in ClassSubjectsOf(css, classId) && cs.subjectId in subjects
      ensures exists i :: 0 <= i < |r| && r[i].classSubjectId == cs.id
    {
      DedupedKeys(a + b, EntryKey);
      assert Entry(cs, FromClass) in a + b;
    }
    forall cs | (cs in ClassSubjectsOf(css, classId) && cs.subjectId in subjects
        && forall e :: e in en ==> e.classSubjectId != cs.id)
      ensures exists i :: 0 <= i < |r| && r[i].classSubjectId == cs.id && r[i].source == FromClass
    {
      forall y | y in b ensures EntryKey(y) != cs.id {
        var k :| 0 <= k < |b| && b[k] == y;
        IndividualKeys(en, css, subjects, k);
      }
      EarlierKept(a, b, Entry(cs, FromClass), EntryKey);
    }
  }

  /** An individual entry is keyed by the ClassSubject id of some enrolment. */
  lemma {:induction false} IndividualKeys(es: seq<Enrolment>, css: seq<ClassSubject>, subjects: set<Id>, k: nat)
    requires k < |IndividualEntries(es, css, subjects)|
    ensures exists e :: e in es && e.classSubjectId == IndividualEntries(es, css, subjects)[k].classSubjectId
  {
    var n := |es| - 1;
    var prev := IndividualEntries(es[..n], css, subjects);
    if k < |prev| {
      IndividualKeys(es[..n], css, subjects, k);
      var e :| e in es[..n] && e.classSubjectId == prev[k].classSubjectId;
      assert e in es;
    } else {
      assert IndividualEntries(es, css, subjects)[k] == IndividualEntry(es[n], css, subjects).value;
    }
  }

  // ---------------------------------------------------------------------------
  // createStudent and updateStudent

  /** The collections the two handlers read and write, with the next fresh id. */
  datatype Db = Db(users: seq<User>, students: seq<StudentDoc>, enrolments: seq<Enrolment>, classes: set<Id>, nextId: Id)

  datatype Response = Response(code: nat, db: Db)

  /** The unique `user_id` index of the Student collection, and fresh ids. */
  ghost predicate DbValid(db: Db) {
    (forall i, j :: 0 <= i < j < |db.students| ==> db.students[i].userId != db.students[j].userId)
    && (forall s :: s in db.students ==> s.id < db.nextId)
    && (forall e :: e in db.enrolments ==> e.id < db.nextId && e.studentId < db.nextId)
  }

  /** The position of the first user with that id. */
  function UserIndex(users: seq<User>, id: Id): (r: Option<nat>)
    ensures r.Some? ==> (r.value < |users| && users[r.value].id == id
      && forall k :: 0 <= k < r.value ==> users[k].id != id)
    ensures r.None? <==> FindUser(users, id).None?
    ensures r.Some? ==> FindUser(users, id) == Some(users[r.value])
  {
    if users == [] then None
    else if users[0].id == id then Some(0)
    else
      var k := UserIndex(users[1..], id);
      if k.Some? then Some(k.value + 1) else None
  }

  /** The students with that user id. */
  predicate HasProfile(students: seq<StudentDoc>, userId: Id) {
    exists s :: s in students && s.userId == userId
  }

  /** The length of the longest prefix of `ids` without a repeated id: what an
      ordered `insertMany` writes before a duplicate key stops it. */
  function DistinctPrefix(ids: seq<Id>): (k: nat)
    ensures k <= |ids|
    ensures forall i, j :: 0 <= i < j < k ==> ids[i] != ids[j]
    ensures k < |ids| ==> ids[k] in ids[..k]
  {
    if ids == [] then 0
    else
      var n := |ids| - 1;
      var k := DistinctPrefix(ids[..n]);
      if k < n then k
      else if ids[n] in ids[..n] then n
      else n + 1
  }

  /** The enrolment documents `subject_ids.map(...)` builds for a new student. */
  function NewEnrolments(studentId: Id, csIds: seq<Id>, firstId: Id): (r: seq<Enrolment>)
    ensures |r| == |csIds|
    ensures forall i :: 0 <= i < |r| ==> r[i] == Enrolment(firstId + i, studentId, csIds[i], Enrolled)
  {
    if csIds == [] then [] else [Enrolment(firstId, studentId, csIds[0], Enrolled)] + NewEnrolments(studentId, csIds[1..], firstId + 1)
  }

  /** The user after `user.role = 'student'`: the first user with the id now has
      role student, and every other user is kept. */
  function ForceStudent(users: seq<User>, userId: Id): (r: seq<User>)
    requires FindUser(users, userId).Some?
    ensures |r| == |users|
    ensures FindUser(r, userId) == Some(FindUser(users, userId).value.(role := Student))
    ensures forall v :: v in users && v.id != userId ==> v in r
  {
    var k := UserIndex(users, userId).value;
    var u := users[k];
    var r := users[k := u.(role := Student)];
    UserIndexUpdate(users, k, u.(role := Student));
    forall v | v in users && v.id != userId ensures v in r {
      var j :| 0 <= j < |users| && users[j] == v;
      assert r[j] == v;
    }
    r
  }

  /** `student_code || generateStudentCode()`: a given non-empty code, else the
      code generated from the number of stored students. */
  function CodeFor(code: Option<string>, year: nat, count: nat): string {
    if code.Some? && code.value != [] then code.value else StudentCode(year, count)
  }

  /** The steps of `createStudent` after the role switch: the class check (404),
      the one-profile-per-user check (400), validation and the unique code (400),
      then one student and its enrolments. */
  function AddStudent(db: Db, userId: Id, classId: Option<Id>, code: Option<string>, parentInfo: Option<ParentInfo>,
                      enrollmentDate: Option<int>, subjectIds: seq<Id>, year: nat, now: int): (r: Response)
    ensures r.db.users == db.users && r.db.classes == db.classes
    ensures var doc := NewStudent(db.nextId, userId, CodeFor(code, year, |db.students|), classId, enrollmentDate, parentInfo, now);
      (r.code == 201) <==> (classId.Some? && classId.value in db.classes
        && !HasProfile(db.students, userId)
        && doc.Ok? && (forall s :: s in db.students ==> s.studentCode != doc.value.studentCode)
        && DistinctPrefix(subjectIds) == |subjectIds|)
    ensures r.code != 201 && r.code != ServerError ==> r.db == db
    ensures r.code == 201 || r.code == ServerError ==>
      |r.db.students| == |db.students| + 1 && r.db.students[..|db.students|] == db.students
      && var s := r.db.students[|db.students|];
      s.id == db.nextId && s.userId == userId && s.classId == classId
      && s.academicStatus == Active && s.feeStatus == FeeOverdue
      && r.db.enrolments == db.enrolments + NewEnrolments(s.id, subjectIds[..DistinctPrefix(subjectIds)], db.nextId + 1)
    ensures r.code in {201, BadRequest, NotFound, ServerError}
    ensures DbValid(db) ==> DbValid(r.db)
  {
    if classId.None? || classId.value !in db.classes then Response(NotFound, db)
    else if HasProfile(db.students, userId) then Response(BadRequest, db)
    else
      var doc := NewStudent(db.nextId, userId, CodeFor(code, year, |db.students|), classId, enrollmentDate, parentInfo, now);
      if doc.Err? then Response(BadRequest, db)
      else if exists s :: s in db.students && s.studentCode == doc.value.studentCode then Response(BadRequest, db)
      else
        var k := DistinctPrefix(subjectIds);
        var added := NewEnrolments(doc.value.id, subjectIds[..k], db.nextId + 1);
        var db2 := db.(students := db.students + [doc.value], enrolments := db.enrolments + added,
                       nextId := db.nextId + 1 + |subjectIds|);
        assert db2.students[..|db.students|] == db.students;
        assert forall e :: e in added ==> e.id < db2.nextId && e.studentId < db2.nextId by {
          forall e | e in added ensures e.id < db2.nextId && e.studentId < db2.nextId {
            var i :| 0 <= i < |added| && added[i] == e;
          }
        }
        AppendValid(db, doc.value, added, db2.nextId);
        Response(if k == |subjectIds| then 201 else ServerError, db2)
  }

  /** `createStudent`. The user must exist (404); a user whose role is not student
      is switched to student and saved at once, before any other check, so the
      switch stays even when a later check fails. A repeated ClassSubject id in
      `subject_ids` stops the ordered insertion there and the request fails. */
  function CreateStudent(db: Db, userId: Id, classId: Option<Id>, code: Option<string>, parentInfo: Option<ParentInfo>,
                         enrollmentDate: Option<int>, subjectIds: seq<Id>, year: nat, now: int): (r: Response)
    ensures FindUser(db.users, userId).None? ==> r == Response(NotFound, db)
    ensures FindUser(db.users, userId).Some? ==>
      r.db.users == ForceStudent(db.users, userId)
      && r == AddStudent(db.(users := r.db.users), userId, classId, code, parentInfo, enrollmentDate, subjectIds, year, now)
    ensures DbValid(db) ==> DbValid(r.db)
  {
    if FindUser(db.users, userId).None? then Response(NotFound, db)
    else
      var db1 := db.(users := ForceStudent(db.users, userId));
      AddStudent(db1, userId, classId, code, parentInfo, enrollmentDate, subjectIds, year, now)
  }

  lemma AppendValid(db: Db, doc: StudentDoc, added: seq<Enrolment>, next: Id)
    requires doc.id == db.nextId && !HasProfile(db.students, doc.userId)
    requires next > db.nextId
    requires forall e :: e in added ==> e.id < next && e.studentId < next
    ensures DbValid(db) ==> DbValid(db.(students := db.students + [doc], enrolments := db.enrolments + added, nextId := next))
  {
  }

  lemma UserIndexUpdate(users: seq<User>, k: nat, v: User)
    requires UserIndex(users, v.id) == Some(k)
    ensures UserIndex(users[k := v], v.id) == Some(k)
  {
    if k > 0 {
      assert users[k := v][1..] == users[1..][k - 1 := v];
      UserIndexUpdate(users[1..], k - 1, v);
    }
  }

  /** The position of the first student with that id (`Student.findById`). */
  function StudentIndex(students: seq<StudentDoc>, id: Id): (r: Option<nat>)
    ensures r.Some? ==> (r.value < |students| && students[r.value].id == id
      && forall k :: 0 <= k < r.value ==> students[k].id != id)
    ensures r.None? <==> forall s :: s in students ==> s.id != id
  {
    if students == [] then None
    else if students[0].id == id then Some(0)
    else
      var k := StudentIndex(students[1..], id);
      if k.Some? then Some(k.value + 1) else None
  }

  lemma {:induction false} StudentIndexUpdate(students: seq<StudentDoc>, k: nat, d: StudentDoc)
    requires StudentIndex(students, d.id) == Some(k)
    ensures StudentIndex(students[k := d], d.id) == Some(k)
  {
    if k > 0 {
      assert students[k := d][1..] == students[1..][k - 1 := d];
      StudentIndexUpdate(students[1..], k - 1, d);
    }
  }

  /** `{ ...stored, ...patch }` over the three `parent_info` keys: a key the patch
      carries replaces the stored one, and the others are kept. */
  function MergeParents(stored: ParentInfo, patch: ParentInfo): (r: ParentInfo)
    ensures patch.father.Some? ==> r.father == patch.father
    ensures patch.father.None? ==> r.father == stored.father
    ensures patch.mother.Some? ==> r.mother == patch.mother
    ensures patch.mother.None? ==> r.mother == stored.mother
    ensures patch.guardian.Some? ==> r.guardian == patch.guardian
    ensures patch.guardian.None? ==> r.guardian == stored.guardian
  {
    ParentInfo(
      if patch.father.Some? then patch.father else stored.father,
      if patch.mother.Some? then patch.mother else stored.mother,
      if patch.guardian.Some? then patch.guardian else stored.guardian)
  }

  /** `{ ...student.parent_info, ...parent_info }` as written: spreading a stored
      subdocument copies only its internal own properties (`$__`, `_doc`, ...),
      none of which the schema keeps when the result is assigned back, so only
      the keys the patch carries survive. */
  function MergeParentsAsWritten(stored: ParentInfo, patch: ParentInfo): (r: ParentInfo)
    ensures r == patch
  {
    ParentInfo(patch.father, patch.mother, patch.guardian)
  }

  /** As written, updating only the mother drops the stored father, where the
      intended merge keeps him. */
  lemma ParentMergeLosesFather(father: Contact, mother: Contact)
    ensures var stored := ParentInfo(Some(father), None, None);
      var patch := ParentInfo(None, Some(mother), None);
      MergeParentsAsWritten(stored, patch).father.None?
      && MergeParents(stored, patch).father == Some(father)
      && MergeParents(stored, patch).mother == Some(mother)
  {
  }

  /** The fields `updateStudent` reads from the body; `None` is a falsy value. */
  datatype StudentPatch = StudentPatch(
    classId: Option<Id>,
    parentInfo: Option<ParentInfo>,
    academicStatus: Option<AcademicStatus>,
    feeStatus: Option<StudentFeeStatus>)

  /** The document after the patch: each field changes only when the patch gives
      it, and `parent_info` is merged key by key. */
  function Patched(d: StudentDoc, p: StudentPatch): (r: StudentDoc)
    ensures r.id == d.id && r.userId == d.userId && r.studentCode == d.studentCode
      && r.enrollmentDate == d.enrollmentDate && r.createdAt == d.createdAt
    ensures r.classId == if p.classId.Some? then p.classId else d.classId
    ensures r.parentInfo == if p.parentInfo.Some? then MergeParents(d.parentInfo, p.parentInfo.value) else d.parentInfo
    ensures r.academicStatus == if p.academicStatus.Some? then p.academicStatus.value else d.academicStatus
    ensures r.feeStatus == if p.feeStatus.Some? then p.feeStatus.value else d.feeStatus
  {
    d.(classId := if p.classId.Some? then p.classId else d.classId,
       parentInfo := if p.parentInfo.Some? then MergeParents(d.parentInfo, p.parentInfo.value) else d.parentInfo,
       academicStatus := if p.academicStatus.Some? then p.academicStatus.value else d.academicStatus,
       feeStatus := if p.feeStatus.Some? then p.feeStatus.value else d.feeStatus)
  }

  /** A status code, the database after the request, and the classes whose
      student count the handler recomputes. */
  datatype UpdateResponse = UpdateResponse(code: nat, db: Db, recount: seq<Id>)

  /** `updateStudent`: 404 for an unknown student or an unknown new class;
      otherwise the patched document is saved. Class counts are recomputed, for the
      old class if it still exists and for the new one, only when a class is given
      and differs from the stored one; a student that had no class fails there
      (`oldClassId.toString()` on undefined, 500) after the save. */
  function UpdateStudent(db: Db, id: Id, p: StudentPatch): (r: UpdateResponse)
    ensures StudentIndex(db.students, id).None? ==> r == UpdateResponse(NotFound, db, [])
    ensures p.classId.Some? && p.classId.value !in db.classes ==> r.code == NotFound && r.db == db
    ensures r.code in {200, NotFound, ServerError}
    ensures r.code != NotFound ==>
      var k := StudentIndex(db.students, id).value;
      r.db == db.(students := db.students[k := Patched(db.students[k], p)])
    ensures (r.recount != []) <==> (r.code == 200 && p.classId.Some? && db.students[StudentIndex(db.students, id).value].classId != p.classId)
    ensures r.code == ServerError <==> (StudentIndex(db.students, id).Some? && p.classId.Some? && p.classId.value in db.classes
      && db.students[StudentIndex(db.students, id).value].classId.None?)
    ensures r.recount != [] ==> var prev := db.students[StudentIndex(db.students, id).value].classId.value;
      r.recount == (if prev in db.classes then [prev] else []) + [p.classId.value]
    ensures DbValid(db) ==> DbValid(r.db)
  {
    var k := StudentIndex(db.students, id);
    if k.None? then UpdateResponse(NotFound, db, [])
    else if p.classId.Some? && p.classId.value !in db.classes then UpdateResponse(NotFound, db, [])
    else
      var d := db.students[k.value];
      var db1 := db.(students := db.students[k.value := Patched(d, p)]);
      assert DbValid(db) ==> DbValid(db1) by {
        if DbValid(db) {
          forall i, j | 0 <= i < j < |db1.students| ensures db1.students[i].userId != db1.students[j].userId {
            assert db1.students[i].userId == db.students[i].userId;
            assert db1.students[j].userId == db.students[j].userId;
          }
          forall s | s in db1.students ensures s.id < db1.nextId {
            var i :| 0 <= i < |db1.students| && db1.students[i] == s;
            assert s.id == db.students[i].id;
          }
        }
      }
      if p.classId.Some? && p.classId != d.classId then
        if d.classId.None? then UpdateResponse(ServerError, db1, [])
        else
          var prev := d.classId.value;
          UpdateResponse(200, db1, (if prev in db.classes then [prev] else []) + [p.classId.value])
      else UpdateResponse(200, db1, [])
  }

  /** Sending the same update again changes nothing and recomputes no class. */
  lemma UpdateStudentTwice(db: Db, id: Id, p: StudentPatch)
    requires UpdateStudent(db, id, p).code == 200
    ensures var r := UpdateStudent(db, id, p);
      UpdateStudent(r.db, id, p) == UpdateResponse(200, r.db, [])
  {
    var k := StudentIndex(db.students, id).value;
    var d := db.students[k];
    var d1 := Patched(d, p);
    StudentIndexUpdate(db.students, k, d1);
    var r := UpdateStudent(db, id, p);
    assert r.db.students[k] == d1;
    assert Patched(d1, p) == d1;
    assert r.db.students[k := d1] == r.db.students;
  }
}
