/** Absences (absenceController.js): recording an absence of a student from a
    ClassSubject for one session and period of a day, approving or rejecting
    it, the paginated list, and a student's report of approved absences.
    Dates are integer day numbers. */
module Absences {
  import opened Common
  import opened School
  import opened JsArray
  import opened Pagination
  import opened Text
  import opened Subjects

  datatype Session = Morning | Afternoon

  /** The periods a request may name. `FifthPeriod` passes the request
      validator but is outside the Absence schema's enum. */
  datatype Period = FullDay | FirstPeriod | SecondPeriod | ThirdPeriod | FourthPeriod | FifthPeriod

  /** The Absence schema's `period` enum. */
  predicate SchemaPeriod(p: Period) {
    p != FifthPeriod
  }

  datatype Reason = Sickness | Family | Vacation | OtherReason

  datatype AbsenceStatus = Pending | Approved | Rejected

  datatype Absence = Absence(
    id: Id,
    studentId: Id,
    classSubjectId: Option<Id>,
    date: int,
    session: Session,
    period: Period,
    reason: Reason,
    reasonDetails: Option<string>,
    reportedBy: Id,
    status: AbsenceStatus,
    approvedBy: Option<Id>,
    approvedAt: Option<int>,
    notes: Option<string>,
    createdAt: int)

  /** The body of a create request; an absent optional field is `None`. */
  datatype AbsenceRequest = AbsenceRequest(
    studentId: Id,
    classSubjectId: Option<Id>,
    date: int,
    session: Option<Session>,
    period: Option<Period>,
    reason: Option<Reason>,
    reasonDetails: Option<string>,
    notes: Option<string>)

  function SessionOf(req: AbsenceRequest): Session {
    if req.session.Some? then req.session.value else Morning
  }

  function PeriodOf(req: AbsenceRequest): Period {
    if req.period.Some? then req.period.value else FullDay
  }

  /** The `findOne` for an absence of the same student, ClassSubject, date,
      session and period (the defaults filled in). */
  predicate Recorded(absences: seq<Absence>, req: AbsenceRequest) {
    exists a :: a in absences && a.studentId == req.studentId && a.classSubjectId == req.classSubjectId
      && a.date == req.date && a.session == SessionOf(req) && a.period == PeriodOf(req)
  }

  /** `createAbsence`: 404 for an unknown student, then for a missing or unknown
      ClassSubject; a student without a class throws on `class_id.toString()`
      (500); 400 when the ClassSubject is of another class; 400 when the slot is
      already recorded; 400 from the schema for `fifth_period`. Otherwise the
      new absence is pending, reported by the caller, with session, period and
      reason defaulting to morning, full day and other, and the details and notes
      stored trimmed. */
  function NewAbsence(students: seq<StudentProfile>, css: seq<ClassSubject>, absences: seq<Absence>,
                      id: Id, req: AbsenceRequest, caller: Id, now: int): (r: Outcome<Absence>)
    ensures StudentById(students, req.studentId).None? ==> r == Err(NotFound)
    ensures (StudentById(students, req.studentId).Some?
      && (req.classSubjectId.None? || ClassSubjectById(css, req.classSubjectId.value).None?)) ==> r == Err(NotFound)
    ensures r.Ok? <==> (StudentById(students, req.studentId).Some? && req.classSubjectId.Some?
      && ClassSubjectById(css, req.classSubjectId.value).Some?
      && StudentById(students, req.studentId).value.classId == Some(ClassSubjectById(css, req.classSubjectId.value).value.classId)
      && !Recorded(absences, req) && SchemaPeriod(PeriodOf(req)))
    ensures r.Err? ==> r.code in {BadRequest, NotFound, ServerError}
    ensures r.Ok? ==> var a := r.value;
      a.id == id && a.studentId == req.studentId && a.classSubjectId == req.classSubjectId && a.date == req.date
      && a.session == SessionOf(req) && a.period == PeriodOf(req)
      && (req.reason.None? ==> a.reason == OtherReason) && (req.reason.Some? ==> a.reason == req.reason.value)
      && a.reportedBy == caller && a.status == Pending && a.approvedBy.None? && a.approvedAt.None?
      && a.createdAt == now
      && (req.reasonDetails.None? ==> a.reasonDetails.None?) && (req.notes.None? ==> a.notes.None?)
      && (req.reasonDetails.Some? ==> a.reasonDetails == Some(Trim(req.reasonDetails.value)))
      && (req.notes.Some? ==> a.notes == Some(Trim(req.notes.value)))
  {
    var st := StudentById(students, req.studentId);
    if st.None? then Err(NotFound)
    else if req.classSubjectId.None? then Err(NotFound)
    else
      var cs := ClassSubjectById(css, req.classSubjectId.value);
      if cs.None? then Err(NotFound)
      else if st.value.classId.None? then Err(ServerError)
      else if st.value.classId.value != cs.value.classId then Err(BadRequest)
      else if Recorded(absences, req) then Err(BadRequest)
      else if !SchemaPeriod(PeriodOf(req)) then Err(BadRequest)
      else Ok(Absence(id, req.studentId, req.classSubjectId, req.date, SessionOf(req), PeriodOf(req),
                      if req.reason.Some? then req.reason.value else OtherReason,
                      TrimField(req.reasonDetails), caller, Pending, None, None, TrimField(req.notes), now))
  }

  /** A request that creates an absence is refused (400) when repeated: the
      slot is then recorded. */
  lemma CreateTwiceRefused(students: seq<StudentProfile>, css: seq<ClassSubject>, absences: seq<Absence>,
                           id: Id, id2: Id, req: AbsenceRequest, caller: Id, caller2: Id, now: int, now2: int)
    requires NewAbsence(students, css, absences, id, req, caller, now).Ok?
    ensures var a := NewAbsence(students, css, absences, id, req, caller, now).value;
      NewAbsence(students, css, absences + [a], id2, req, caller2, now2) == Err(BadRequest)
  {
    var a := NewAbsence(students, css, absences, id, req, caller, now).value;
    assert a in absences + [a];
    assert Recorded(absences + [a], req);
  }

  /** A `fifth_period` request is never recorded, however valid otherwise. */
  lemma FifthPeriodRefused(students: seq<StudentProfile>, css: seq<ClassSubject>, absences: seq<Absence>,
                           id: Id, req: AbsenceRequest, caller: Id, now: int)
    requires req.period == Some(FifthPeriod)
    ensures NewAbsence(students, css, absences, id, req, caller, now).Err?
  {
  }

  /** `updateAbsence`'s changes to one absence: a status of approved or rejected
      is applied together with the approver and the time; pending (or none) is
      ignored; reason, details and notes change only when supplied, the details
      and notes stored trimmed. */
  function Updated(a: Absence, status: Option<AbsenceStatus>, reason: Option<Reason>,
                   details: Option<string>, notes: Option<string>, caller: Id, now: int): (r: Absence)
    ensures status == Some(Approved) || status == Some(Rejected) ==>
      r.status == status.value && r.approvedBy == Some(caller) && r.approvedAt == Some(now)
    ensures !(status == Some(Approved) || status == Some(Rejected)) ==>
      r.status == a.status && r.approvedBy == a.approvedBy && r.approvedAt == a.approvedAt
    ensures r.reason == (if reason.Some? then reason.value else a.reason)
    ensures r.reasonDetails == (if details.Some? then Some(Trim(details.value)) else a.reasonDetails)
    ensures r.notes == (if notes.Some? then Some(Trim(notes.value)) else a.notes)
    ensures r.(status := a.status, approvedBy := a.approvedBy, approvedAt := a.approvedAt,
               reason := a.reason, reasonDetails := a.reasonDetails, notes := a.notes) == a
  {
    var b := if status == Some(Approved) || status == Some(Rejected)
             then a.(status := status.value, approvedBy := Some(caller), approvedAt := Some(now)) else a;
    var c := if reason.Some? then b.(reason := reason.value) else b;
    var d := if details.Some? then c.(reasonDetails := TrimField(details)) else c;
    if notes.Some? then d.(notes := TrimField(notes)) else d
  }

  /** Applying the same update twice at the same instant is applying it once. */
  lemma UpdatedIdempotent(a: Absence, status: Option<AbsenceStatus>, reason: Option<Reason>,
                          details: Option<string>, notes: Option<string>, caller: Id, now: int)
    ensures var b := Updated(a, status, reason, details, notes, caller, now);
      Updated(b, status, reason, details, notes, caller, now) == b
  {
  }

  /** `getAbsences`' filter. `date` matches one day; `from_date` and `to_date`
      together replace it by a range; one of them alone is ignored. */
  datatype AbsenceQuery = AbsenceQuery(studentId: Option<Id>, classSubjectId: Option<Id>, status: Option<AbsenceStatus>,
                                       date: Option<int>, fromDate: Option<int>, toDate: Option<int>)

  predicate QueryMatches(q: AbsenceQuery, a: Absence) {
    (q.studentId.Some? ==> a.studentId == q.studentId.value)
    && (q.classSubjectId.Some? ==> a.classSubjectId == q.classSubjectId)
    && (q.status.Some? ==> a.status == q.status.value)
    && (if q.fromDate.Some? && q.toDate.Some? then q.fromDate.value <= a.date <= q.toDate.value
        else q.date.Some? ==> a.date == q.date.value)
  }

  function DateOf(a: Absence): int {
    a.date
  }

  datatype AbsenceListing = AbsenceListing(absences: seq<Absence>, currentPage: int, totalPages: int, totalRecords: nat, perPage: int)

  /** The absences the query matches, in store order. */
  function MatchingAbsences(absences: seq<Absence>, q: AbsenceQuery): (r: seq<Absence>)
    ensures forall a :: a in r ==> a in absences && QueryMatches(q, a)
    ensures forall a :: a in absences && QueryMatches(q, a) ==> a in r
  {
    Filter(absences, (a: Absence) => QueryMatches(q, a))
  }

  /** The `$match` as written: `student_id` and `class_subject_id` are put in the
      filter as request text, which an aggregation stage does not cast, and text
      never equals a stored ObjectId; so a filter naming either matches nothing. */
  predicate QueryMatchesAsWritten(q: AbsenceQuery, a: Absence) {
    q.studentId.None? && q.classSubjectId.None? && QueryMatches(q, a)
  }

  function MatchingAsWritten(absences: seq<Absence>, q: AbsenceQuery): seq<Absence> {
    Filter(absences, (a: Absence) => QueryMatchesAsWritten(q, a))
  }

  /** As written, a query by student or by ClassSubject lists no absence at all. */
  lemma {:induction false} IdFilterMatchesNothing(absences: seq<Absence>, q: AbsenceQuery)
    requires q.studentId.Some? || q.classSubjectId.Some?
    ensures MatchingAsWritten(absences, q) == []
  {
    if absences != [] {
      IdFilterMatchesNothing(absences[1..], q);
    }
  }

  /** An absence of student 7 is not listed for `student_id=7` as written, and is
      listed once the id is compared as an id. */
  lemma IdFilterAsWritten()
    ensures var a := Absence(1, 7, None, 0, Morning, FullDay, OtherReason, None, 2, Pending, None, None, None, 0);
      var q := AbsenceQuery(Some(7), None, None, None, None, None);
      MatchingAsWritten([a], q) == [] && MatchingAbsences([a], q) == [a]
  {
    var a := Absence(1, 7, None, 0, Morning, FullDay, OtherReason, None, 2, Pending, None, None, None, 0);
    var q := AbsenceQuery(Some(7), None, None, None, None, None);
    IdFilterMatchesNothing([a], q);
    assert QueryMatches(q, a);
    assert [a][1..] == [];
  }

  /** `getAbsences`: the matching absences by date, newest first, one page of
      them, with `total_pages = ceil(total / limit)`. The pipeline's `$skip`
      rejects a negative skip and its `$limit` a negative limit (500). */
  function GetAbsences(absences: seq<Absence>, q: AbsenceQuery, page: Option<int>, limit: Option<int>): (r: Outcome<AbsenceListing>)
    ensures r.Err? <==> (Skip(Page(page), Limit(limit)) < 0 || Limit(limit) < 0)
    ensures r.Err? ==> r.code == ServerError
    ensures r.Ok? ==> var matching := MatchingAbsences(absences, q);
      r.value.totalRecords == |matching|
      && r.value.totalPages == TotalPages(|matching|, Limit(limit))
      && (r.value.totalPages - 1) * Limit(limit) < |matching| <= r.value.totalPages * Limit(limit)
      && |r.value.absences| <= Limit(limit)
      && SortedDesc(r.value.absences, DateOf)
      && (forall a :: a in r.value.absences ==> a in absences && QueryMatches(q, a))
    ensures r.Ok? ==> r.value.currentPage == Page(page) && r.value.perPage == Limit(limit)
    ensures r.Ok? ==> IsWindowOf(SortDesc(MatchingAbsences(absences, q), DateOf), Skip(Page(page), Limit(limit)), Limit(limit), r.value.absences)
  {
    var p, l := Page(page), Limit(limit);
    if Skip(p, l) < 0 || l < 0 then Err(ServerError)
    else Ok(Listing(MatchingAbsences(absences, q), p, l))
  }

  /** The listing of the matches for page `p` of `l` absences. */
  function Listing(matching: seq<Absence>, p: int, l: int): (r: AbsenceListing)
    requires Skip(p, l) >= 0 && l > 0
    ensures r.totalRecords == |matching| && r.totalPages == TotalPages(|matching|, l)
    ensures |r.absences| <= l && SortedDesc(r.absences, DateOf)
    ensures forall a :: a in r.absences ==> a in matching
    ensures r.currentPage == p && r.perPage == l
    ensures IsWindowOf(SortDesc(matching, DateOf), Skip(p, l), l, r.absences)
  {
    SortedPage(matching, Skip(p, l), l);
    AbsenceListing(Window(SortDesc(matching, DateOf), Skip(p, l), l).value, p, TotalPages(|matching|, l), |matching|, l)
  }

  /** One page of the matches sorted by date: sorted, within the limit, and
      drawn from the matches. */
  lemma SortedPage(matching: seq<Absence>, skip: int, l: int)
    requires skip >= 0 && l > 0
    ensures var w := Window(SortDesc(matching, DateOf), skip, l);
      w.Ok? && |w.value| <= l && SortedDesc(w.value, DateOf) && forall a :: a in w.value ==> a in matching
  {
    var sorted := SortDesc(matching, DateOf);
    var w := Window(sorted, skip, l);
    PageSorted(sorted, w.value, if skip < |sorted| then skip else |sorted|);
    forall a | a in w.value ensures a in matching {
      assert a in multiset(sorted);
    }
  }

  lemma PageSorted(sorted: seq<Absence>, w: seq<Absence>, skip: nat)
    requires SortedDesc(sorted, DateOf)
    requires skip <= |sorted| && w <= sorted[skip..]
    ensures SortedDesc(w, DateOf)
  {
    forall i, j | 0 <= i < j < |w| ensures DateOf(w[i]) >= DateOf(w[j]) {
      assert w[i] == sorted[skip..][i] == sorted[skip + i];
      assert w[j] == sorted[skip..][j] == sorted[skip + j];
    }
  }

  /** The student report's matches: approved absences of the student, within
      `from_date` and `to_date` when each is given. */
  predicate InReport(a: Absence, studentId: Id, from: Option<int>, to: Option<int>) {
    a.studentId == studentId && a.status == Approved
    && (from.Some? ==> a.date >= from.value) && (to.Some? ==> a.date <= to.value)
  }

  const Reasons: seq<Reason> := [Sickness, Family, Vacation, OtherReason]

  /** One `by_reason` group. */
  datatype ReasonCount = ReasonCount(reason: Reason, count: nat)

  datatype Report = Report(totalAbsences: nat, bySubject: seq<SubjectGroup>, byReason: seq<ReasonCount>, recent: seq<Absence>)

  function CountReason(xs: seq<Absence>, reason: Reason): nat {
    |Filter(xs, (a: Absence) => a.reason == reason)|
  }

  /** The `$group` by reason: one group for each reason that occurs. */
  function ByReason(xs: seq<Absence>, reasons: seq<Reason>): (r: seq<ReasonCount>)
    ensures forall g :: g in r ==> g.count > 0 && g.reason in reasons && g.count == CountReason(xs, g.reason)
    ensures forall k :: k in reasons && CountReason(xs, k) > 0 ==> exists g :: g in r && g.reason == k
    ensures (forall i, j :: 0 <= i < j < |reasons| ==> reasons[i] != reasons[j]) ==>
      forall i, j :: 0 <= i < j < |r| ==> r[i].reason != r[j].reason
  {
    if reasons == [] then []
    else
      var n := CountReason(xs, reasons[0]);
      (if n > 0 then [ReasonCount(reasons[0], n)] else []) + ByReason(xs, reasons[1..])
  }

  /** The reason groups of a report: a reason has a group exactly when some
      absence gives it, and no reason has two. */
  lemma ReasonGroups(xs: seq<Absence>, reason: Reason)
    ensures (exists g :: g in ByReason(xs, Reasons) && g.reason == reason) <==> CountReason(xs, reason) > 0
    ensures var r := ByReason(xs, Reasons);
      forall i, j :: 0 <= i < j < |r| ==> r[i].reason != r[j].reason
  {
    EveryReasonListed(reason);
    GroupsOfListed(xs, Reasons, reason);
  }

  /** `Reasons` lists every reason, once. */
  lemma EveryReasonListed(reason: Reason)
    ensures reason in Reasons
    ensures forall i, j :: 0 <= i < j < |Reasons| ==> Reasons[i] != Reasons[j]
  {
    assert Reasons == [Sickness, Family, Vacation, OtherReason];
  }

  lemma GroupsOfListed(xs: seq<Absence>, reasons: seq<Reason>, reason: Reason)
    requires reason in reasons
    requires forall i, j :: 0 <= i < j < |reasons| ==> reasons[i] != reasons[j]
    ensures (exists g :: g in ByReason(xs, reasons) && g.reason == reason) <==> CountReason(xs, reason) > 0
    ensures var r := ByReason(xs, reasons);
      forall i, j :: 0 <= i < j < |r| ==> r[i].reason != r[j].reason
  {
    var r := ByReason(xs, reasons);
    if g :| g in r && g.reason == reason {
      assert g.count == CountReason(xs, reason) > 0;
    } else {
      assert !(CountReason(xs, reason) > 0 && reason in reasons);
    }
  }

  function SumCounts(gs: seq<ReasonCount>): nat {
    if gs == [] then 0 else gs[0].count + SumCounts(gs[1..])
  }

  /** `getStudentAbsenceReport`: 404 for an unknown student; otherwise the
      number of matching absences, their groups by ClassSubject and by reason,
      each of which adds up to that number, and the ten most recent by date. */
  function StudentReport(students: seq<StudentProfile>, css: seq<ClassSubject>, subjects: seq<SubjectDoc>,
                         absences: seq<Absence>, studentId: Id, from: Option<int>, to: Option<int>): (r: Outcome<Report>)
    ensures r.Err? <==> StudentById(students, studentId).None?
    ensures r.Err? ==> r.code == NotFound
    ensures r.Ok? ==> var xs := Filter(absences, (a: Absence) => InReport(a, studentId, from, to));
      r.value.totalAbsences == |xs|
      && SumCounts(r.value.byReason) == r.value.totalAbsences
      && r.value.byReason == ByReason(xs, Reasons)
      && (forall g :: g in r.value.byReason ==> g.count == CountReason(xs, g.reason))
      && |r.value.recent| == (if |xs| < 10 then |xs| else 10)
      && SortedDesc(r.value.recent, DateOf)
      && (forall a :: a in r.value.recent ==> a in absences && InReport(a, studentId, from, to))
    ensures r.Ok? ==> var xs := Filter(absences, (a: Absence) => InReport(a, studentId, from, to));
      multiset(r.value.recent) <= multiset(xs)
      && forall a, b :: a in xs && a !in r.value.recent && b in r.value.recent ==> a.date <= b.date
    ensures r.Ok? ==> var xs := Filter(absences, (a: Absence) => InReport(a, studentId, from, to));
      r.value.bySubject == BySubject(xs, css, subjects) && SumGroups(r.value.bySubject) == r.value.totalAbsences
  {
    if StudentById(students, studentId).None? then Err(NotFound)
    else Ok(ReportOf(Filter(absences, (a: Absence) => InReport(a, studentId, from, to)), css, subjects))
  }

  /** The report's facets over the matching absences `xs`. */
  function ReportOf(xs: seq<Absence>, css: seq<ClassSubject>, subjects: seq<SubjectDoc>): (rep: Report)
    ensures rep.totalAbsences == |xs| && SumCounts(rep.byReason) == |xs|
    ensures rep.byReason == ByReason(xs, Reasons)
    ensures forall g :: g in rep.byReason ==> g.count == CountReason(xs, g.reason)
    ensures |rep.recent| == (if |xs| < 10 then |xs| else 10) && SortedDesc(rep.recent, DateOf)
    ensures (forall a :: a in rep.recent ==> a in xs) && multiset(rep.recent) <= multiset(xs)
    ensures forall a, b :: a in xs && a !in rep.recent && b in rep.recent ==> a.date <= b.date
    ensures rep.bySubject == BySubject(xs, css, subjects) && SumGroups(rep.bySubject) == |xs|
  {
    ReasonsPartition(xs);
    var recent := Top(xs, DateOf, 10);
    RecentNewest(xs, recent);
    Report(|xs|, BySubject(xs, css, subjects), ByReason(xs, Reasons), recent)
  }

  /** Every matching absence left out of `recent` is no newer than those in it. */
  lemma RecentNewest(xs: seq<Absence>, recent: seq<Absence>)
    requires recent == Top(xs, DateOf, 10)
    ensures multiset(recent) <= multiset(xs)
    ensures forall a, b :: a in xs && a !in recent && b in recent ==> a.date <= b.date
  {
    TopSubMultiset(xs, DateOf, 10);
    forall a, b | a in xs && a !in recent && b in recent ensures a.date <= b.date {
      TopNewest(xs, DateOf, 10, a);
    }
  }

  /** One `by_subject` group: the ClassSubject (`None` groups the absences without
      one), the number of absences and their dates in store order, and the
      subject's name and code, or `General` and `GEN` when the ClassSubject or its
      subject is not found. */
  datatype SubjectGroup = SubjectGroup(classSubjectId: Option<Id>, count: nat, dates: seq<int>,
                                       subjectName: string, subjectCode: string)

  const GeneralName: string := "General"
  const GeneralCode: string := "GEN"

  /** The distinct ClassSubjects of the absences: the `_id`s `$group` makes. */
  function GroupKeys(xs: seq<Absence>): (r: seq<Option<Id>>)
    ensures forall i, j :: 0 <= i < j < |r| ==> r[i] != r[j]
    ensures forall a :: a in xs ==> a.classSubjectId in r
    ensures forall k :: k in r ==> exists a :: a in xs && a.classSubjectId == k
  {
    if xs == [] then []
    else
      var t := GroupKeys(xs[1..]);
      assert forall a :: a in xs ==> a == xs[0] || a in xs[1..];
      if xs[0].classSubjectId in t then t else [xs[0].classSubjectId] + t
  }

  function InGroup(k: Option<Id>): Absence -> bool {
    (a: Absence) => a.classSubjectId == k
  }

  /** The absences of one ClassSubject, counted. */
  function CountSubject(xs: seq<Absence>, k: Option<Id>): nat {
    |Filter(xs, InGroup(k))|
  }

  function DatesOf(xs: seq<Absence>): (r: seq<int>)
    ensures |r| == |xs| && forall i :: 0 <= i < |xs| ==> r[i] == xs[i].date
  {
    seq(|xs|, i requires 0 <= i < |xs| => xs[i].date)
  }

  function SubjectById(subjects: seq<SubjectDoc>, id: Id): (r: Option<SubjectDoc>)
    ensures r.Some? ==> r.value in subjects && r.value.id == id
    ensures r.None? ==> forall d :: d in subjects ==> d.id != id
  {
    if subjects == [] then None
    else if subjects[0].id == id then Some(subjects[0])
    else SubjectById(subjects[1..], id)
  }

  /** The two `$lookup`s: ClassSubject, then its subject. */
  function SubjectOf(css: seq<ClassSubject>, subjects: seq<SubjectDoc>, k: Option<Id>): Option<SubjectDoc> {
    if k.None? then None
    else
      var cs := ClassSubjectById(css, k.value);
      if cs.None? then None else SubjectById(subjects, cs.value.subjectId)
  }

  function Group(xs: seq<Absence>, css: seq<ClassSubject>, subjects: seq<SubjectDoc>, k: Option<Id>): SubjectGroup {
    var members := Filter(xs, InGroup(k));
    var sub := SubjectOf(css, subjects, k);
    SubjectGroup(k, |members|, DatesOf(members),
                 if sub.Some? then sub.value.name else GeneralName,
                 if sub.Some? then sub.value.code else GeneralCode)
  }

  function GroupsOf(xs: seq<Absence>, css: seq<ClassSubject>, subjects: seq<SubjectDoc>, keys: seq<Option<Id>>): (r: seq<SubjectGroup>)
    ensures |r| == |keys| && forall i :: 0 <= i < |keys| ==> r[i] == Group(xs, css, subjects, keys[i])
  {
    if keys == [] then [] else [Group(xs, css, subjects, keys[0])] + GroupsOf(xs, css, subjects, keys[1..])
  }

  /** The `by_subject` facet: one group per ClassSubject that occurs, holding
      exactly the absences of that ClassSubject, named after its subject or
      `General`. */
  function BySubject(xs: seq<Absence>, css: seq<ClassSubject>, subjects: seq<SubjectDoc>): (r: seq<SubjectGroup>)
    ensures forall i, j :: 0 <= i < j < |r| ==> r[i].classSubjectId != r[j].classSubjectId
    ensures forall a :: a in xs ==> exists g :: g in r && g.classSubjectId == a.classSubjectId
    ensures forall g :: g in r ==> g.count > 0 && g.count == CountSubject(xs, g.classSubjectId) && |g.dates| == g.count
    ensures forall g :: g in r ==> g.dates == DatesOf(Filter(xs, InGroup(g.classSubjectId)))
    ensures forall g :: g in r ==> var sub := SubjectOf(css, subjects, g.classSubjectId);
      g.subjectName == (if sub.Some? then sub.value.name else GeneralName)
      && g.subjectCode == (if sub.Some? then sub.value.code else GeneralCode)
    ensures SumGroups(r) == |xs|
  {
    var keys := GroupKeys(xs);
    GroupsNonEmpty(xs, css, subjects, keys);
    GroupsCover(xs, css, subjects, keys);
    GroupsSum(xs, css, subjects, keys);
    KeysCountAll(xs);
    GroupsOf(xs, css, subjects, keys)
  }

  lemma GroupsNonEmpty(xs: seq<Absence>, css: seq<ClassSubject>, subjects: seq<SubjectDoc>, keys: seq<Option<Id>>)
    requires keys == GroupKeys(xs)
    ensures forall g :: g in GroupsOf(xs, css, subjects, keys) ==> g.count > 0
  {
    var r := GroupsOf(xs, css, subjects, keys);
    forall g | g in r ensures g.count > 0 {
      var i :| 0 <= i < |r| && r[i] == g;
      var k := keys[i];
      assert k in GroupKeys(xs);
      var a :| a in xs && a.classSubjectId == k;
      MemberCounts(xs, k, a);
      assert g == Group(xs, css, subjects, k);
    }
  }

  lemma MemberCounts(xs: seq<Absence>, k: Option<Id>, a: Absence)
    requires a in xs && a.classSubjectId == k
    ensures CountSubject(xs, k) > 0
  {
    var j :| 0 <= j < |xs| && xs[j] == a;
    assert InGroup(k)(xs[j]);
  }

  lemma GroupsCover(xs: seq<Absence>, css: seq<ClassSubject>, subjects: seq<SubjectDoc>, keys: seq<Option<Id>>)
    requires keys == GroupKeys(xs)
    ensures forall a :: a in xs ==> exists g :: g in GroupsOf(xs, css, subjects, keys) && g.classSubjectId == a.classSubjectId
  {
    var r := GroupsOf(xs, css, subjects, keys);
    forall a | a in xs ensures exists g :: g in r && g.classSubjectId == a.classSubjectId {
      var i :| 0 <= i < |keys| && keys[i] == a.classSubjectId;
      assert r[i] in r;
    }
  }

  function SumGroups(gs: seq<SubjectGroup>): nat {
    if gs == [] then 0 else gs[0].count + SumGroups(gs[1..])
  }

  /** The counts of the given ClassSubjects, added up. */
  function SumKeys(xs: seq<Absence>, keys: seq<Option<Id>>): nat {
    if keys == [] then 0 else CountSubject(xs, keys[0]) + SumKeys(xs, keys[1..])
  }

  lemma {:induction false} GroupsSum(xs: seq<Absence>, css: seq<ClassSubject>, subjects: seq<SubjectDoc>, keys: seq<Option<Id>>)
    ensures SumGroups(GroupsOf(xs, css, subjects, keys)) == SumKeys(xs, keys)
  {
    if keys != [] {
      GroupsSum(xs, css, subjects, keys[1..]);
      assert GroupsOf(xs, css, subjects, keys)[1..] == GroupsOf(xs, css, subjects, keys[1..]);
    }
  }

  /** The groups together count every absence exactly once. */
  lemma {:induction false} KeysCountAll(xs: seq<Absence>)
    ensures SumKeys(xs, GroupKeys(xs)) == |xs|
  {
    if xs != [] {
      var a, rest := xs[0], xs[1..];
      var t := GroupKeys(rest);
      KeysCountAll(rest);
      SumKeysStep(xs, t);
      if a.classSubjectId !in t {
        var k := [a.classSubjectId] + t;
        assert k[1..] == t;
        CountSubjectStep(xs, a.classSubjectId);
        AbsentKeyCountsNothing(rest, a.classSubjectId);
      }
    }
  }

  lemma CountSubjectStep(xs: seq<Absence>, k: Option<Id>)
    requires xs != []
    ensures CountSubject(xs, k) == (if xs[0].classSubjectId == k then 1 else 0) + CountSubject(xs[1..], k)
  {
  }

  lemma AbsentKeyCountsNothing(xs: seq<Absence>, k: Option<Id>)
    requires k !in GroupKeys(xs)
    ensures CountSubject(xs, k) == 0
  {
    var f := Filter(xs, InGroup(k));
    assert forall a :: a in f ==> a in xs && a.classSubjectId == k;
  }

  /** Taking one absence off the front lowers the counts of distinct keys by one
      exactly when its ClassSubject is among them. */
  lemma {:induction false} SumKeysStep(xs: seq<Absence>, keys: seq<Option<Id>>)
    requires xs != []
    requires forall i, j :: 0 <= i < j < |keys| ==> keys[i] != keys[j]
    ensures SumKeys(xs, keys) == SumKeys(xs[1..], keys) + (if xs[0].classSubjectId in keys then 1 else 0)
  {
    if keys != [] {
      SumKeysStep(xs, keys[1..]);
      CountSubjectStep(xs, keys[0]);
      assert xs[0].classSubjectId in keys <==> xs[0].classSubjectId == keys[0] || xs[0].classSubjectId in keys[1..];
      assert keys[0] !in keys[1..];
    }
  }

  /** The counts of the given reasons, added up. */
  function CountAll(xs: seq<Absence>, reasons: seq<Reason>): nat {
    if reasons == [] then 0 else CountReason(xs, reasons[0]) + CountAll(xs, reasons[1..])
  }

  /** Every absence has one of the four reasons, so the groups count each once. */
  lemma ReasonsPartition(xs: seq<Absence>)
    ensures SumCounts(ByReason(xs, Reasons)) == |xs|
  {
    ByReasonSum(xs, Reasons);
    CountAllReasons(xs);
  }

  /** The four reasons together count every absence. */
  lemma CountAllReasons(xs: seq<Absence>)
    ensures CountAll(xs, Reasons) == |xs|
  {
    ReasonCountsSum(xs);
    var a, b, c, d := CountReason(xs, Sickness), CountReason(xs, Family), CountReason(xs, Vacation), CountReason(xs, OtherReason);
    assert CountAll(xs, [OtherReason]) == d by { assert [OtherReason][1..] == []; }
    assert CountAll(xs, [Vacation, OtherReason]) == c + d by { assert [Vacation, OtherReason][1..] == [OtherReason]; }
    assert CountAll(xs, [Family, Vacation, OtherReason]) == b + c + d by {
      assert [Family, Vacation, OtherReason][1..] == [Vacation, OtherReason];
    }
    assert Reasons[1..] == [Family, Vacation, OtherReason];
  }

  lemma {:induction false} ByReasonSum(xs: seq<Absence>, reasons: seq<Reason>)
    ensures SumCounts(ByReason(xs, reasons)) == CountAll(xs, reasons)
  {
    if reasons != [] {
      var n := CountReason(xs, reasons[0]);
      ByReasonSum(xs, reasons[1..]);
      SumCountsAppend(if n > 0 then [ReasonCount(reasons[0], n)] else [], ByReason(xs, reasons[1..]));
    }
  }

  lemma {:induction false} SumCountsAppend(a: seq<ReasonCount>, b: seq<ReasonCount>)
    ensures SumCounts(a + b) == SumCounts(a) + SumCounts(b)
  {
    if a == [] {
      assert a + b == b;
    } else {
      assert (a + b)[1..] == a[1..] + b;
      SumCountsAppend(a[1..], b);
    }
  }

  lemma {:induction false} ReasonCountsSum(xs: seq<Absence>)
    ensures CountReason(xs, Sickness) + CountReason(xs, Family) + CountReason(xs, Vacation)
      + CountReason(xs, OtherReason) == |xs|
  {
    if xs != [] {
      ReasonCountsSum(xs[1..]);
      CountReasonStep(xs, Sickness);
      CountReasonStep(xs, Family);
      CountReasonStep(xs, Vacation);
      CountReasonStep(xs, OtherReason);
    }
  }

  lemma CountReasonStep(xs: seq<Absence>, reason: Reason)
    requires xs != []
    ensures CountReason(xs, reason) == (if xs[0].reason == reason then 1 else 0) + CountReason(xs[1..], reason)
  {
  }

  /** The absence collection as `createAbsence`, `updateAbsence` and
      `deleteAbsence` change it. */
  class AbsenceStore {
    var absences: seq<Absence>
    var nextId: Id

    ghost predicate Valid()
      reads this
    {
      forall a :: a in absences ==> a.id < nextId
    }

    constructor()
      ensures Valid() && absences == [] && nextId == 0
    {
      absences := [];
      nextId := 0;
    }

    /** `createAbsence`: stores what `NewAbsence` builds, or nothing. */
    method Create(students: seq<StudentProfile>, css: seq<ClassSubject>, req: AbsenceRequest, caller: Id, now: int)
      returns (r: Outcome<Absence>)
      requires Valid()
      modifies this
      ensures Valid()
      ensures r == NewAbsence(students, css, old(absences), old(nextId), req, caller, now)
      ensures r.Ok? ==> absences == old(absences) + [r.value] && nextId == old(nextId) + 1
      ensures r.Err? ==> absences == old(absences) && nextId == old(nextId)
    {
      r := NewAbsence(students, css, absences, nextId, req, caller, now);
      if r.Ok? {
        absences := absences + [r.value];
        nextId := nextId + 1;
      }
    }

    /** The position `findById` finds. */
    function IndexOf(id: Id): (r: Option<nat>)
      reads this
      ensures r.Some? ==> (r.value < |absences| && absences[r.value].id == id)
      ensures r.None? <==> forall a :: a in absences ==> a.id != id
    {
      Find(absences, id)
    }

    /** `updateAbsence`: 404 for an unknown id; otherwise the fields are
        assigned in place, one request field at a time, and saved. */
    method Update(id: Id, status: Option<AbsenceStatus>, reason: Option<Reason>,
                  details: Option<string>, notes: Option<string>, caller: Id, now: int) returns (code: nat)
      requires Valid()
      modifies this`absences
      ensures Valid()
      ensures old(IndexOf(id)).None? ==> code == NotFound && absences == old(absences)
      ensures old(IndexOf(id)).Some? ==> code == 200 && var k := old(IndexOf(id)).value;
        absences == old(absences)[k := Updated(old(absences)[k], status, reason, details, notes, caller, now)]
    {
      var k := IndexOf(id);
      if k.None? {
        return NotFound;
      }
      var i := k.value;
      var a := absences[i];
      if status == Some(Approved) || status == Some(Rejected) {
        a := a.(status := status.value, approvedBy := Some(caller), approvedAt := Some(now));
      }
      if reason.Some? {
        a := a.(reason := reason.value);
      }
      if details.Some? {
        a := a.(reasonDetails := TrimField(details));
      }
      if notes.Some? {
        a := a.(notes := TrimField(notes));
      }
      ghost var before := absences;
      absences := absences[i := a];
      forall b | b in absences ensures b.id < nextId {
        var j :| 0 <= j < |absences| && absences[j] == b;
        if j != i { assert b == before[j]; } else { assert b.id == before[i].id; }
      }
      code := 200;
    }

    /** `deleteAbsence`: removes the found absence (200) or answers 404. */
    method Delete(id: Id) returns (code: nat)
      requires Valid()
      modifies this`absences
      ensures Valid()
      ensures old(IndexOf(id)).None? ==> code == NotFound && absences == old(absences)
      ensures old(IndexOf(id)).Some? ==> code == 200 && var k := old(IndexOf(id)).value;
        absences == old(absences[..k] + absences[k + 1..])
    {
      var k := IndexOf(id);
      if k.None? {
        return NotFound;
      }
      var i := k.value;
      ghost var before := absences;
      absences := absences[..i] + absences[i + 1..];
      forall b | b in absences ensures b.id < nextId {
        var j :| 0 <= j < |absences| && absences[j] == b;
        if j < i { assert b == before[j]; } else { assert b == before[j + 1]; }
      }
      code := 200;
    }
  }

  function Find(xs: seq<Absence>, id: Id): (r: Option<nat>)
    ensures r.Some? ==> (r.value < |xs| && xs[r.value].id == id)
    ensures r.None? <==> forall a :: a in xs ==> a.id != id
  {
    if xs == [] then None
    else if xs[0].id == id then Some(0)
    else
      var k := Find(xs[1..], id);
      if k.Some? then Some(k.value + 1) else None
  }
}
