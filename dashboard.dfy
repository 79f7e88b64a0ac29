/** The dashboard (dashboardController.js): the statistics panel with its
    financial summary, the recent-activity strip, the schedule-update flag, the
    attendance chart buckets and the paginated system-activity feed. Instants
    are integers (milliseconds for `createdAt`, day numbers for absence dates);
    the calendar that maps a day to its month and year is a parameter. */
module Dashboard {
  import opened Common
  import opened School
  import opened JsArray
  import opened Pagination
  import opened Fees
  import opened Students
  import opened Absences

  // ---------------------------------------------------------------------------
  // Student statistics

  /** The `$facet` counts over the students. */
  datatype StudentStats = StudentStats(total: nat, active: nat, paid: nat, pending: nat, overdue: nat, partial: nat)

  const ZeroStats := StudentStats(0, 0, 0, 0, 0, 0)

  function CountFee(docs: seq<StudentDoc>, s: StudentFeeStatus): nat {
    |Filter(docs, (d: StudentDoc) => d.feeStatus == s)|
  }

  /** What the `$facet`/`$project` pipeline reports: the number of students,
      of active ones, and of each fee status, `$ifNull` making an empty facet 0.
      Every student has exactly one of the four fee statuses, so those counts
      add up to the total. */
  function StudentStatsOf(docs: seq<StudentDoc>): (r: StudentStats)
    ensures r.total == |docs| && r.active <= r.total
    ensures r.paid + r.pending + r.overdue + r.partial == r.total
  {
    FeeStatusesPartition(docs);
    StudentStats(|docs|, |Filter(docs, (d: StudentDoc) => d.academicStatus == Active)|,
                 CountFee(docs, FeePaid), CountFee(docs, FeePending), CountFee(docs, FeeOverdue), CountFee(docs, FeePartial))
  }

  lemma {:induction false} FeeStatusesPartition(docs: seq<StudentDoc>)
    ensures CountFee(docs, FeePaid) + CountFee(docs, FeePending) + CountFee(docs, FeeOverdue)
      + CountFee(docs, FeePartial) == |docs|
  {
    if docs != [] {
      FeeStatusesPartition(docs[1..]);
    }
  }

  /** `studentStatsRaw[0] || { total: 0, ... }`. */
  function StatsOrZero(raw: seq<StudentStats>): StudentStats {
    if raw == [] then ZeroStats else raw[0]
  }

  /** The zero default is what the pipeline itself reports for no students, and
      the pipeline's one result is used as is. */
  lemma StatsDefault(docs: seq<StudentDoc>)
    ensures StatsOrZero([]) == StudentStatsOf([])
    ensures StatsOrZero([StudentStatsOf(docs)]) == StudentStatsOf(docs)
    ensures docs == [] ==> StatsOrZero([StudentStatsOf(docs)]) == ZeroStats
  {
    assert Filter([], (d: StudentDoc) => d.academicStatus == Active) == [];
  }

  // ---------------------------------------------------------------------------
  // Financial health

  /** What the `$group` by status reads of a fee. */
  datatype FeeRow = FeeRow(status: FeeStatus, amount: int, paidAmount: int)

  /** One `$group` result: a status with the sums of `amount` and `paid_amount`. */
  datatype FeeGroup = FeeGroup(status: FeeStatus, totalAmount: int, collectedAmount: int)

  datatype Health = Health(paid: int, pending: int, overdue: int, partial: int, totalExpected: int, totalCollected: int)

  /** The keys `financialHealth` starts with besides the two totals. */
  predicate Tracked(s: FeeStatus) {
    s == Paid || s == FeeStatus.Pending || s == Overdue || s == Partial
  }

  function SumTotals(gs: seq<FeeGroup>): int {
    if gs == [] then 0 else SumTotals(gs[..|gs| - 1]) + gs[|gs| - 1].totalAmount
  }

  function SumCollected(gs: seq<FeeGroup>): int {
    if gs == [] then 0 else SumCollected(gs[..|gs| - 1]) + gs[|gs| - 1].collectedAmount
  }

  /** The `totalAmount` of the last group with status `s`, or 0. */
  function LastTotal(gs: seq<FeeGroup>, s: FeeStatus): int {
    if gs == [] then 0
    else if gs[|gs| - 1].status == s then gs[|gs| - 1].totalAmount
    else LastTotal(gs[..|gs| - 1], s)
  }

  /** The `forEach` over the groups: a tracked status's field is set to the
      group's total, and every group, cancelled included, adds to both totals. */
  method FinancialHealth(groups: seq<FeeGroup>) returns (h: Health)
    ensures h.totalExpected == SumTotals(groups) && h.totalCollected == SumCollected(groups)
    ensures h.paid == LastTotal(groups, Paid) && h.pending == LastTotal(groups, FeeStatus.Pending)
    ensures h.overdue == LastTotal(groups, Overdue) && h.partial == LastTotal(groups, Partial)
  {
    h := Health(0, 0, 0, 0, 0, 0);
    for i := 0 to |groups|
      invariant h.totalExpected == SumTotals(groups[..i]) && h.totalCollected == SumCollected(groups[..i])
      invariant h.paid == LastTotal(groups[..i], Paid) && h.pending == LastTotal(groups[..i], FeeStatus.Pending)
      invariant h.overdue == LastTotal(groups[..i], Overdue) && h.partial == LastTotal(groups[..i], Partial)
    {
      var g := groups[i];
      assert groups[..i + 1][..i] == groups[..i];
      if g.status == Paid {
        h := h.(paid := g.totalAmount);
      } else if g.status == FeeStatus.Pending {
        h := h.(pending := g.totalAmount);
      } else if g.status == Overdue {
        h := h.(overdue := g.totalAmount);
      } else if g.status == Partial {
        h := h.(partial := g.totalAmount);
      }
      h := h.(totalExpected := h.totalExpected + g.totalAmount, totalCollected := h.totalCollected + g.collectedAmount);
    }
    assert groups[..|groups|] == groups;
  }

  function AmountSum(rows: seq<FeeRow>): int {
    if rows == [] then 0 else rows[0].amount + AmountSum(rows[1..])
  }

  function PaidSum(rows: seq<FeeRow>): int {
    if rows == [] then 0 else rows[0].paidAmount + PaidSum(rows[1..])
  }

  function OfStatus(rows: seq<FeeRow>, s: FeeStatus): seq<FeeRow> {
    Filter(rows, (f: FeeRow) => f.status == s)
  }

  /** The group of status `s`, present when some fee has it. */
  function GroupOf(rows: seq<FeeRow>, s: FeeStatus): seq<FeeGroup> {
    var xs := OfStatus(rows, s);
    if xs == [] then [] else [FeeGroup(s, AmountSum(xs), PaidSum(xs))]
  }

  const Statuses: seq<FeeStatus> := [Paid, FeeStatus.Pending, Overdue, Partial, Cancelled]

  /** The groups of the listed statuses, in that order. */
  function GroupsFor(rows: seq<FeeRow>, ss: seq<FeeStatus>): seq<FeeGroup> {
    if ss == [] then [] else GroupsFor(rows, ss[..|ss| - 1]) + GroupOf(rows, ss[|ss| - 1])
  }

  /** The `$group` stage: one group per status that occurs, with its sums. */
  function FeeGroups(rows: seq<FeeRow>): seq<FeeGroup> {
    GroupsFor(rows, Statuses)
  }

  /** The amounts of the fees of the listed statuses, added up. */
  function AmountOver(rows: seq<FeeRow>, ss: seq<FeeStatus>): int {
    if ss == [] then 0 else AmountOver(rows, ss[..|ss| - 1]) + AmountSum(OfStatus(rows, ss[|ss| - 1]))
  }

  function PaidOver(rows: seq<FeeRow>, ss: seq<FeeStatus>): int {
    if ss == [] then 0 else PaidOver(rows, ss[..|ss| - 1]) + PaidSum(OfStatus(rows, ss[|ss| - 1]))
  }

  /** Over the grouped fees, each tracked status's figure is the sum of the
      amounts of its fees; the expected total is the sum of all amounts, so it
      is the four tracked figures plus the cancelled amount; the collected
      total is the sum of all paid amounts. */
  lemma FeeGroupsHealth(rows: seq<FeeRow>)
    ensures var gs := FeeGroups(rows);
      (forall s :: Tracked(s) ==> LastTotal(gs, s) == AmountSum(OfStatus(rows, s)))
      && SumTotals(gs) == AmountSum(rows)
      && SumCollected(gs) == PaidSum(rows)
      && SumTotals(gs) == LastTotal(gs, Paid) + LastTotal(gs, FeeStatus.Pending) + LastTotal(gs, Overdue)
           + LastTotal(gs, Partial) + AmountSum(OfStatus(rows, Cancelled))
  {
    GroupsForSums(rows, Statuses);
    AmountPartition(rows);
    PaidPartition(rows);
    TrackedFigures(rows);
    AmountsUnfold(rows);
  }

  /** Each status's figure is the sum of the amounts of its fees. */
  lemma TrackedFigures(rows: seq<FeeRow>)
    ensures forall s :: LastTotal(FeeGroups(rows), s) == AmountSum(OfStatus(rows, s))
  {
    forall s ensures LastTotal(FeeGroups(rows), s) == AmountSum(OfStatus(rows, s)) {
      GroupsForLast(rows, Statuses, s);
      assert s in Statuses by {
        match s
        case Paid => assert Statuses[0] == s;
        case Pending => assert Statuses[1] == s;
        case Overdue => assert Statuses[2] == s;
        case Partial => assert Statuses[3] == s;
        case Cancelled => assert Statuses[4] == s;
      }
    }
  }

  lemma AmountsUnfold(rows: seq<FeeRow>)
    ensures AmountOver(rows, Statuses) == AmountSum(OfStatus(rows, Paid)) + AmountSum(OfStatus(rows, FeeStatus.Pending))
      + AmountSum(OfStatus(rows, Overdue)) + AmountSum(OfStatus(rows, Partial)) + AmountSum(OfStatus(rows, Cancelled))
  {
    var s4: seq<FeeStatus> := [Paid, FeeStatus.Pending, Overdue, Partial];
    var s3: seq<FeeStatus> := [Paid, FeeStatus.Pending, Overdue];
    var s2: seq<FeeStatus> := [Paid, FeeStatus.Pending];
    var s1: seq<FeeStatus> := [Paid];
    assert Statuses[..4] == s4 && Statuses[4] == Cancelled;
    assert s4[..3] == s3 && s4[3] == Partial;
    assert s3[..2] == s2 && s3[2] == Overdue;
    assert s2[..1] == s1 && s2[1] == FeeStatus.Pending;
    assert s1[..0] == [] && s1[0] == Paid;
    assert AmountOver(rows, s1) == AmountSum(OfStatus(rows, Paid));
    assert AmountOver(rows, s2) == AmountOver(rows, s1) + AmountSum(OfStatus(rows, FeeStatus.Pending));
    assert AmountOver(rows, s3) == AmountOver(rows, s2) + AmountSum(OfStatus(rows, Overdue));
    assert AmountOver(rows, s4) == AmountOver(rows, s3) + AmountSum(OfStatus(rows, Partial));
  }

  lemma PaidUnfold(rows: seq<FeeRow>)
    ensures PaidOver(rows, Statuses) == PaidSum(OfStatus(rows, Paid)) + PaidSum(OfStatus(rows, FeeStatus.Pending))
      + PaidSum(OfStatus(rows, Overdue)) + PaidSum(OfStatus(rows, Partial)) + PaidSum(OfStatus(rows, Cancelled))
  {
    var s4: seq<FeeStatus> := [Paid, FeeStatus.Pending, Overdue, Partial];
    var s3: seq<FeeStatus> := [Paid, FeeStatus.Pending, Overdue];
    var s2: seq<FeeStatus> := [Paid, FeeStatus.Pending];
    var s1: seq<FeeStatus> := [Paid];
    assert Statuses[..4] == s4 && Statuses[4] == Cancelled;
    assert s4[..3] == s3 && s4[3] == Partial;
    assert s3[..2] == s2 && s3[2] == Overdue;
    assert s2[..1] == s1 && s2[1] == FeeStatus.Pending;
    assert s1[..0] == [] && s1[0] == Paid;
    assert PaidOver(rows, s1) == PaidSum(OfStatus(rows, Paid));
    assert PaidOver(rows, s2) == PaidOver(rows, s1) + PaidSum(OfStatus(rows, FeeStatus.Pending));
    assert PaidOver(rows, s3) == PaidOver(rows, s2) + PaidSum(OfStatus(rows, Overdue));
    assert PaidOver(rows, s4) == PaidOver(rows, s3) + PaidSum(OfStatus(rows, Partial));
  }

  lemma {:induction false} GroupsForSums(rows: seq<FeeRow>, ss: seq<FeeStatus>)
    ensures SumTotals(GroupsFor(rows, ss)) == AmountOver(rows, ss)
    ensures SumCollected(GroupsFor(rows, ss)) == PaidOver(rows, ss)
  {
    if ss != [] {
      var s := ss[|ss| - 1];
      GroupsForSums(rows, ss[..|ss| - 1]);
      SumsAppend(GroupsFor(rows, ss[..|ss| - 1]), GroupOf(rows, s));
      var g := GroupOf(rows, s);
      if g != [] {
        assert g[..0] == [];
      }
    }
  }

  lemma {:induction false} GroupsForLast(rows: seq<FeeRow>, ss: seq<FeeStatus>, t: FeeStatus)
    ensures LastTotal(GroupsFor(rows, ss), t) == if t in ss then AmountSum(OfStatus(rows, t)) else 0
  {
    if ss != [] {
      var n := |ss| - 1;
      var init := ss[..n];
      assert ss == init + [ss[n]];
      GroupsForLast(rows, init, t);
      LastTotalGroupOf(GroupsFor(rows, init), rows, ss[n], t);
    }
  }

  /** Appending the group of status `s` sets `s`'s figure when some fee has
      that status, and changes no other status's figure. */
  lemma LastTotalGroupOf(a: seq<FeeGroup>, rows: seq<FeeRow>, s: FeeStatus, t: FeeStatus)
    ensures t != s ==> LastTotal(a + GroupOf(rows, s), t) == LastTotal(a, t)
    ensures t == s && OfStatus(rows, s) != [] ==> LastTotal(a + GroupOf(rows, s), t) == AmountSum(OfStatus(rows, s))
    ensures t == s && OfStatus(rows, s) == [] ==>
      LastTotal(a + GroupOf(rows, s), t) == LastTotal(a, t) && AmountSum(OfStatus(rows, s)) == 0
  {
    var g := GroupOf(rows, s);
    LastTotalAppend(a, g, t);
    if g != [] {
      assert g[..0] == [];
    }
  }

  lemma {:induction false} SumsAppend(a: seq<FeeGroup>, b: seq<FeeGroup>)
    ensures SumTotals(a + b) == SumTotals(a) + SumTotals(b)
    ensures SumCollected(a + b) == SumCollected(a) + SumCollected(b)
  {
    if b == [] {
      assert a + b == a;
    } else {
      assert (a + b)[..|a + b| - 1] == a + b[..|b| - 1];
      SumsAppend(a, b[..|b| - 1]);
    }
  }

  lemma {:induction false} LastTotalAppend(a: seq<FeeGroup>, b: seq<FeeGroup>, s: FeeStatus)
    ensures LastTotal(a + b, s) == if exists g :: g in b && g.status == s then LastTotal(b, s) else LastTotal(a, s)
  {
    if b == [] {
      assert a + b == a;
    } else {
      var b1 := b[..|b| - 1];
      assert (a + b)[..|a + b| - 1] == a + b1;
      LastTotalAppend(a, b1, s);
      if b[|b| - 1].status != s {
        if exists g :: g in b && g.status == s {
          var g :| g in b && g.status == s;
          assert g in b1;
        }
      }
    }
  }

  lemma AmountCons(rows: seq<FeeRow>, s: FeeStatus)
    requires rows != []
    ensures AmountSum(OfStatus(rows, s)) == (if rows[0].status == s then rows[0].amount else 0) + AmountSum(OfStatus(rows[1..], s))
  {
    var t := OfStatus(rows[1..], s);
    if rows[0].status == s {
      assert OfStatus(rows, s) == [rows[0]] + t;
      assert ([rows[0]] + t)[1..] == t;
    } else {
      assert OfStatus(rows, s) == t;
    }
  }

  lemma PaidCons(rows: seq<FeeRow>, s: FeeStatus)
    requires rows != []
    ensures PaidSum(OfStatus(rows, s)) == (if rows[0].status == s then rows[0].paidAmount else 0) + PaidSum(OfStatus(rows[1..], s))
  {
    var t := OfStatus(rows[1..], s);
    if rows[0].status == s {
      assert OfStatus(rows, s) == [rows[0]] + t;
      assert ([rows[0]] + t)[1..] == t;
    } else {
      assert OfStatus(rows, s) == t;
    }
  }

  /** Every fee has one of the five statuses, so its amount is counted once. */
  lemma {:induction false} AmountPartition(rows: seq<FeeRow>)
    ensures AmountSum(rows) == AmountOver(rows, Statuses)
  {
    AmountsUnfold(rows);
    if rows != [] {
      AmountPartition(rows[1..]);
      AmountsUnfold(rows[1..]);
      AmountCons(rows, Paid);
      AmountCons(rows, FeeStatus.Pending);
      AmountCons(rows, Overdue);
      AmountCons(rows, Partial);
      AmountCons(rows, Cancelled);
    }
  }

  /** Likewise for the paid amounts. */
  lemma {:induction false} PaidPartition(rows: seq<FeeRow>)
    ensures PaidSum(rows) == PaidOver(rows, Statuses)
  {
    PaidUnfold(rows);
    if rows != [] {
      PaidPartition(rows[1..]);
      PaidUnfold(rows[1..]);
      PaidCons(rows, Paid);
      PaidCons(rows, FeeStatus.Pending);
      PaidCons(rows, Overdue);
      PaidCons(rows, Partial);
      PaidCons(rows, Cancelled);
    }
  }

  // ---------------------------------------------------------------------------
  // Class capacity

  datatype ClassRow = ClassRow(id: Id, capacity: nat, currentStudents: nat)

  function CurrentStudents(c: ClassRow): int {
    c.currentStudents
  }

  /** The five fullest classes, fullest first: no class left out holds more
      students than one shown. */
  function ClassCapacity(classes: seq<ClassRow>): (r: seq<ClassRow>)
    ensures |r| == if |classes| < 5 then |classes| else 5
    ensures forall i, j :: 0 <= i < j < |r| ==> r[i].currentStudents >= r[j].currentStudents
    ensures forall c :: c in r ==> c in classes
    ensures forall c, d :: c in classes && c !in r && d in r ==> d.currentStudents >= c.currentStudents
  {
    FullestFirst(classes, 5);
    Top(classes, CurrentStudents, 5)
  }

  /** The `k` fullest classes are ordered by student count, and none left out
      holds more students than one kept. */
  lemma FullestFirst(classes: seq<ClassRow>, k: nat)
    ensures var r := Top(classes, CurrentStudents, k);
      (forall i, j :: 0 <= i < j < |r| ==> r[i].currentStudents >= r[j].currentStudents)
      && forall c, d :: c in classes && c !in r && d in r ==> d.currentStudents >= c.currentStudents
  {
    var r := Top(classes, CurrentStudents, k);
    TopNewestAll(classes, CurrentStudents, k);
    forall i, j | 0 <= i < j < |r| ensures r[i].currentStudents >= r[j].currentStudents {
      assert CurrentStudents(r[i]) >= CurrentStudents(r[j]);
    }
    forall c, d | c in classes && c !in r && d in r ensures d.currentStudents >= c.currentStudents {
      assert CurrentStudents(d) >= CurrentStudents(c);
    }
  }

  // ---------------------------------------------------------------------------
  // Recent activity

  datatype ActivityKind = StudentJoined | AbsenceReported

  /** One entry of the activity strip: its kind, the document's id and its
      creation time. */
  datatype Activity = Activity(kind: ActivityKind, id: Id, time: int)

  function StudentCreated(s: StudentDoc): int {
    s.createdAt
  }

  function AbsenceCreated(a: Absence): int {
    a.createdAt
  }

  function Time(a: Activity): int {
    a.time
  }

  function StudentActivities(ss: seq<StudentDoc>): (r: seq<Activity>)
    ensures |r| == |ss|
    ensures forall i :: 0 <= i < |ss| ==> r[i] == Activity(StudentJoined, ss[i].id, ss[i].createdAt)
  {
    if ss == [] then [] else [Activity(StudentJoined, ss[0].id, ss[0].createdAt)] + StudentActivities(ss[1..])
  }

  function AbsenceActivities(as_: seq<Absence>): (r: seq<Activity>)
    ensures |r| == |as_|
    ensures forall i :: 0 <= i < |as_| ==> r[i] == Activity(AbsenceReported, as_[i].id, as_[i].createdAt)
  {
    if as_ == [] then [] else [Activity(AbsenceReported, as_[0].id, as_[0].createdAt)] + AbsenceActivities(as_[1..])
  }

  const RecentEach := 3
  const RecentShown := 5

  /** The three newest students and the three newest absences, merged, sorted
      newest first and cut to five. */
  function RecentActivity(students: seq<StudentDoc>, absences: seq<Absence>): (r: seq<Activity>)
    ensures |r| <= RecentShown
    ensures forall i, j :: 0 <= i < j < |r| ==> r[i].time >= r[j].time
  {
    Top(StudentActivities(Top(students, StudentCreated, RecentEach))
        + AbsenceActivities(Top(absences, AbsenceCreated, RecentEach)), Time, RecentShown)
  }

  /** The strip holds min(5, min(3, students) + min(3, absences)) entries, newest
      first; each is a student joining or an absence reported, with that
      document's id and creation time. */
  lemma RecentActivityContents(students: seq<StudentDoc>, absences: seq<Absence>)
    ensures var r := RecentActivity(students, absences);
      var ns := if |students| < RecentEach then |students| else RecentEach;
      var na := if |absences| < RecentEach then |absences| else RecentEach;
      |r| == (if ns + na < RecentShown then ns + na else RecentShown)
      && (forall i, j :: 0 <= i < j < |r| ==> r[i].time >= r[j].time)
      && (forall e :: e in r && e.kind == StudentJoined ==>
            exists s :: s in students && e == Activity(StudentJoined, s.id, s.createdAt))
      && (forall e :: e in r && e.kind == AbsenceReported ==>
            exists a :: a in absences && e == Activity(AbsenceReported, a.id, a.createdAt))
  {
    var ts := Top(students, StudentCreated, RecentEach);
    var ta := Top(absences, AbsenceCreated, RecentEach);
    var r := Top(StudentActivities(ts) + AbsenceActivities(ta), Time, RecentShown);
    forall e | e in r
      ensures e.kind == StudentJoined ==> exists s :: s in students && e == Activity(StudentJoined, s.id, s.createdAt)
      ensures e.kind == AbsenceReported ==> exists a :: a in absences && e == Activity(AbsenceReported, a.id, a.createdAt)
    {
      MergedFrom(ts, ta, e);
    }
  }

  /** An entry of the merged activities comes from a document of its kind. */
  lemma MergedFrom(ts: seq<StudentDoc>, ta: seq<Absence>, e: Activity)
    requires e in StudentActivities(ts) + AbsenceActivities(ta)
    ensures e.kind == StudentJoined ==> exists s :: s in ts && e == Activity(StudentJoined, s.id, s.createdAt)
    ensures e.kind == AbsenceReported ==> exists a :: a in ta && e == Activity(AbsenceReported, a.id, a.createdAt)
  {
    var merged := StudentActivities(ts) + AbsenceActivities(ta);
    var k :| 0 <= k < |merged| && merged[k] == e;
    if k < |ts| {
      assert ts[k] in ts;
    } else {
      assert ta[k - |ts|] in ta;
    }
  }

  /** A student among the three newest that is not shown is no newer than any
      entry shown. */
  lemma RecentActivityNewest(students: seq<StudentDoc>, s: StudentDoc, absences: seq<Absence>)
    requires s in Top(students, StudentCreated, RecentEach)
    requires Activity(StudentJoined, s.id, s.createdAt) !in RecentActivity(students, absences)
    ensures forall e :: e in RecentActivity(students, absences) ==> e.time >= s.createdAt
  {
    var ts := Top(students, StudentCreated, RecentEach);
    var merged := StudentActivities(ts) + AbsenceActivities(Top(absences, AbsenceCreated, RecentEach));
    var k :| 0 <= k < |ts| && ts[k] == s;
    assert merged[k] == Activity(StudentJoined, s.id, s.createdAt);
    TopNewest(merged, Time, RecentShown, merged[k]);
  }
  /** An absence among the three newest that is not shown is no newer than any
      entry shown. */
  lemma RecentActivityNewestAbsence(students: seq<StudentDoc>, absences: seq<Absence>, a: Absence)
    requires a in Top(absences, AbsenceCreated, RecentEach)
    requires Activity(AbsenceReported, a.id, a.createdAt) !in RecentActivity(students, absences)
    ensures forall e :: e in RecentActivity(students, absences) ==> e.time >= a.createdAt
  {
    var ts := StudentActivities(Top(students, StudentCreated, RecentEach));
    var ta := Top(absences, AbsenceCreated, RecentEach);
    var merged := ts + AbsenceActivities(ta);
    var k :| 0 <= k < |ta| && ta[k] == a;
    assert merged[|ts| + k] == Activity(AbsenceReported, a.id, a.createdAt);
    TopNewest(merged, Time, RecentShown, merged[|ts| + k]);
  }


  // ---------------------------------------------------------------------------
  // Schedule-update flag

  /** The part of a class document the flag reads. */
  datatype ClassDoc = ClassDoc(id: Id, lastScheduleUpdate: Option<int>)

  /** `Class.findById(id)`. */
  function ClassById(classes: seq<ClassDoc>, id: Id): (r: Option<ClassDoc>)
    ensures r.Some? ==> r.value in classes && r.value.id == id
    ensures r.None? <==> forall c :: c in classes ==> c.id != id
  {
    if classes == [] then None
    else if classes[0].id == id then Some(classes[0])
    else ClassById(classes[1..], id)
  }

  /** The classes of the ClassSubjects whose `teachers` list the teacher. */
  function TeacherClassIds(css: seq<ClassSubject>, teacherId: Id): set<Id> {
    set cs | cs in css && Teaches(cs, teacherId) :: cs.classId
  }

  /** The classes among `ids` that carry a schedule update. */
  predicate UpdatedIn(c: ClassDoc, classes: seq<ClassDoc>, ids: set<Id>) {
    c in classes && c.id in ids && c.lastScheduleUpdate.Some?
  }

  /** The class query sorted by `last_schedule_update` descending, first hit:
      the latest update among the classes in `ids` that have one. */
  function LatestUpdate(classes: seq<ClassDoc>, ids: set<Id>): (r: Option<int>)
    ensures r.None? <==> !exists c :: UpdatedIn(c, classes, ids)
    ensures r.Some? ==> exists c :: UpdatedIn(c, classes, ids) && c.lastScheduleUpdate == r
    ensures r.Some? ==> forall c :: UpdatedIn(c, classes, ids) ==> c.lastScheduleUpdate.value <= r.value
  {
    if classes == [] then None
    else
      var rest := LatestUpdate(classes[1..], ids);
      var c := classes[0];
      assert classes == [c] + classes[1..];
      assert forall d :: UpdatedIn(d, classes, ids) <==> (d == c && UpdatedIn(c, classes, ids)) || UpdatedIn(d, classes[1..], ids);
      if c.id !in ids || c.lastScheduleUpdate.None? then rest
      else
        assert UpdatedIn(c, classes, ids);
        if rest.None? || rest.value < c.lastScheduleUpdate.value then c.lastScheduleUpdate else rest
  }

  /** The update the flag compares: a student's own class's; the latest of a
      teacher's classes'; nothing for a profile-less user or another role. */
  function LastScheduleUpdate(role: Role, userId: Id, students: seq<StudentProfile>, teachers: seq<TeacherProfile>,
                              css: seq<ClassSubject>, classes: seq<ClassDoc>): (r: Option<int>)
    ensures role != Student && role != Teacher ==> r.None?
    ensures r.Some? ==> exists c :: c in classes && c.lastScheduleUpdate == r
    ensures role == Teacher && TeacherOfUser(teachers, userId).Some? ==>
      forall c :: UpdatedIn(c, classes, TeacherClassIds(css, TeacherOfUser(teachers, userId).value.id)) ==>
        r.Some? && c.lastScheduleUpdate.value <= r.value
  {
    if role == Student then
      var s := StudentOfUser(students, userId);
      if s.Some? && s.value.classId.Some? then
        var c := ClassById(classes, s.value.classId.value);
        if c.Some? then c.value.lastScheduleUpdate else None
      else None
    else if role == Teacher then
      var t := TeacherOfUser(teachers, userId);
      if t.Some? then LatestUpdate(classes, TeacherClassIds(css, t.value.id)) else None
    else None
  }

  /** `hasScheduleUpdate`: an update exists and the user has never viewed the
      schedule or viewed it before that update. */
  function HasScheduleUpdate(role: Role, userId: Id, lastViewed: Option<int>, students: seq<StudentProfile>,
                             teachers: seq<TeacherProfile>, css: seq<ClassSubject>, classes: seq<ClassDoc>): (r: bool)
    ensures role != Student && role != Teacher ==> !r
  {
    var lu := LastScheduleUpdate(role, userId, students, teachers, css, classes);
    (role == Student || role == Teacher) && lu.Some? && (lastViewed.None? || lu.value > lastViewed.value)
  }

  /** An update newer than the user's last view. */
  predicate Unseen(update: Option<int>, lastViewed: Option<int>) {
    update.Some? && (lastViewed.None? || update.value > lastViewed.value)
  }

  /** A teacher sees the flag exactly when some class of a ClassSubject listing
      them has a schedule update they have not seen. */
  lemma TeacherScheduleFlag(userId: Id, lastViewed: Option<int>, students: seq<StudentProfile>,
                            teachers: seq<TeacherProfile>, css: seq<ClassSubject>, classes: seq<ClassDoc>)
    requires TeacherOfUser(teachers, userId).Some?
    ensures var t := TeacherOfUser(teachers, userId).value;
      HasScheduleUpdate(Teacher, userId, lastViewed, students, teachers, css, classes)
      <==> exists cs, c :: cs in css && Teaches(cs, t.id) && c in classes && c.id == cs.classId
                           && Unseen(c.lastScheduleUpdate, lastViewed)
  {
    var t := TeacherOfUser(teachers, userId).value;
    var ids := TeacherClassIds(css, t.id);
    var lu := LatestUpdate(classes, ids);
    if HasScheduleUpdate(Teacher, userId, lastViewed, students, teachers, css, classes) {
      var c :| UpdatedIn(c, classes, ids) && c.lastScheduleUpdate == lu;
      var cs :| cs in css && Teaches(cs, t.id) && cs.classId == c.id;
      assert Unseen(c.lastScheduleUpdate, lastViewed);
    }
    if exists cs, c :: cs in css && Teaches(cs, t.id) && c in classes && c.id == cs.classId
                       && Unseen(c.lastScheduleUpdate, lastViewed) {
      var cs, c :| cs in css && Teaches(cs, t.id) && c in classes && c.id == cs.classId
                   && Unseen(c.lastScheduleUpdate, lastViewed);
      assert c.id in ids;
      assert UpdatedIn(c, classes, ids);
    }
  }

  /** A student sees the flag exactly when their profile names a class whose
      stored update they have not seen. */
  lemma StudentScheduleFlag(userId: Id, lastViewed: Option<int>, students: seq<StudentProfile>,
                            teachers: seq<TeacherProfile>, css: seq<ClassSubject>, classes: seq<ClassDoc>)
    ensures HasScheduleUpdate(Student, userId, lastViewed, students, teachers, css, classes)
      <==> var s := StudentOfUser(students, userId);
        s.Some? && s.value.classId.Some? && ClassById(classes, s.value.classId.value).Some?
        && Unseen(ClassById(classes, s.value.classId.value).value.lastScheduleUpdate, lastViewed)
  {
  }

  // ---------------------------------------------------------------------------
  // Attendance chart

  /** One bar of the chart: its key (a day number, a month index or a year)
      and the number of approved absences that fall on it. */
  datatype Bucket = Bucket(key: int, absences: nat)

  /** The calendar of the server: the month index (counting months from a
      fixed epoch, so that consecutive months differ by one) and the year of a
      day number. */
  datatype Calendar = Calendar(monthOf: int -> int, yearOf: int -> int)

  /** The daily chart's key: the day itself. */
  function DayKey(d: int): int {
    d
  }

  predicate CountedOn(a: Absence, keyOf: int -> int, k: int) {
    a.status == Approved && keyOf(a.date) == k
  }

  /** The approved absences whose date has key `k`. */
  function CountKey(xs: seq<Absence>, keyOf: int -> int, k: int): nat {
    if xs == [] then 0
    else (if CountedOn(xs[0], keyOf, k) then 1 else 0) + CountKey(xs[1..], keyOf, k)
  }

  /** No approved absence has the key exactly when its count is zero. */
  lemma {:induction false} CountKeyZero(xs: seq<Absence>, keyOf: int -> int, k: int)
    ensures CountKey(xs, keyOf, k) == 0 <==> forall a :: a in xs ==> !CountedOn(a, keyOf, k)
  {
    if xs != [] {
      CountKeyZero(xs[1..], keyOf, k);
      assert forall a :: a in xs <==> a == xs[0] || a in xs[1..];
    }
  }

  /** The `$group` stage turned into the handler's `Map`: a key is present
      exactly when some approved absence has it, with that count. */
  function Aggregate(xs: seq<Absence>, keyOf: int -> int): (m: map<int, nat>)
    ensures forall k :: k in m <==> CountKey(xs, keyOf, k) > 0
    ensures forall k :: k in m ==> m[k] == CountKey(xs, keyOf, k)
  {
    if xs == [] then map[]
    else
      var m := Aggregate(xs[1..], keyOf);
      if xs[0].status == Approved then
        var k := keyOf(xs[0].date);
        m[k := (if k in m then m[k] else 0) + 1]
      else m
  }

  /** `n` consecutive buckets ending at key `last`, each holding the count of
      approved absences on its key. */
  predicate IsChart(stats: seq<Bucket>, xs: seq<Absence>, keyOf: int -> int, last: int, n: nat) {
    |stats| == n
    && forall i :: 0 <= i < n ==> stats[i].key == last - (n - 1) + i && stats[i].absences == CountKey(xs, keyOf, stats[i].key)
  }

  /** The loop `for (i = n - 1; i >= 0; i--)` that pushes one bucket per key,
      oldest first, reading `statsMap.get(key) || 0`. The `$match` lower bound
      of the query is the start of the first bucket, so it only removes
      absences that fall in no bucket; the grouping here counts them all. */
  method Chart(xs: seq<Absence>, keyOf: int -> int, last: int, n: nat) returns (stats: seq<Bucket>)
    ensures IsChart(stats, xs, keyOf, last, n)
  {
    var counts := Aggregate(xs, keyOf);
    stats := [];
    var i := n;
    while i > 0
      invariant 0 <= i <= n
      invariant |stats| == n - i
      invariant forall j :: 0 <= j < n - i ==>
        stats[j].key == last - (n - 1) + j && stats[j].absences == CountKey(xs, keyOf, stats[j].key)
    {
      i := i - 1;
      var key := last - i;
      var c := if key in counts then counts[key] else 0;
      stats := stats + [Bucket(key, c)];
    }
  }

  /** `getAttendanceStats`: the range defaults to monthly; daily gives the
      seven days ending today, monthly the twelve months ending this month,
      yearly the five years ending this year; any other range gives nothing. */
  method AttendanceStats(range: Option<string>, xs: seq<Absence>, today: int, cal: Calendar) returns (stats: seq<Bucket>)
    ensures var r := if range.None? then "monthly" else range.value;
      (r == "daily" ==> IsChart(stats, xs, DayKey, today, 7))
      && (r == "monthly" ==> IsChart(stats, xs, cal.monthOf, cal.monthOf(today), 12))
      && (r == "yearly" ==> IsChart(stats, xs, cal.yearOf, cal.yearOf(today), 5))
      && (r != "daily" && r != "monthly" && r != "yearly" ==> stats == [])
  {
    var r := if range.None? then "monthly" else range.value;
    if r == "daily" {
      stats := Chart(xs, DayKey, today, 7);
    } else if r == "monthly" {
      stats := Chart(xs, cal.monthOf, cal.monthOf(today), 12);
    } else if r == "yearly" {
      stats := Chart(xs, cal.yearOf, cal.yearOf(today), 5);
    } else {
      stats := [];
    }
  }

  function Total(stats: seq<Bucket>): nat {
    if stats == [] then 0 else Total(stats[..|stats| - 1]) + stats[|stats| - 1].absences
  }

  /** The approved absences whose key lies in `[lo, hi)`. */
  function CountIn(xs: seq<Absence>, keyOf: int -> int, lo: int, hi: int): nat {
    if xs == [] then 0
    else (if xs[0].status == Approved && lo <= keyOf(xs[0].date) < hi then 1 else 0) + CountIn(xs[1..], keyOf, lo, hi)
  }

  lemma {:induction false} CountInStep(xs: seq<Absence>, keyOf: int -> int, lo: int, hi: int)
    requires lo <= hi
    ensures CountIn(xs, keyOf, lo, hi + 1) == CountIn(xs, keyOf, lo, hi) + CountKey(xs, keyOf, hi)
  {
    if xs != [] {
      CountInStep(xs[1..], keyOf, lo, hi);
    }
  }

  /** A chart's bars add up to the approved absences in its key range: every
      such absence is counted once and no other is. */
  lemma {:induction false} ChartTotal(stats: seq<Bucket>, xs: seq<Absence>, keyOf: int -> int, last: int, n: nat)
    requires IsChart(stats, xs, keyOf, last, n)
    ensures Total(stats) == CountIn(xs, keyOf, last - n + 1, last + 1)
  {
    if n == 0 {
      CountInEmpty(xs, keyOf, last + 1);
    } else {
      var pre := stats[..n - 1];
      assert IsChart(pre, xs, keyOf, last - 1, n - 1) by {
        forall i | 0 <= i < n - 1 ensures pre[i].key == (last - 1) - (n - 2) + i {
        }
      }
      ChartTotal(pre, xs, keyOf, last - 1, n - 1);
      CountInStep(xs, keyOf, last - n + 1, last);
    }
  }

  lemma {:induction false} CountInEmpty(xs: seq<Absence>, keyOf: int -> int, k: int)
    ensures CountIn(xs, keyOf, k, k) == 0
  {
    if xs != [] {
      CountInEmpty(xs[1..], keyOf, k);
    }
  }

  // ---------------------------------------------------------------------------
  // System activities

  /** A `startDate`/`endDate` query value: missing or empty, blank, not a date,
      or an instant. */
  datatype DateArg = Absent | Blank | Unparsable | At(ms: int)

  /** A `createdAt` condition: its `$gte` and `$lte` bounds. */
  datatype DateRange = DateRange(gte: Option<int>, lte: Option<int>)

  const DayMs: int := 86_400_000

  /** `setHours(23, 59, 59, 999)`: the last millisecond of the day of `t`. */
  function EndOfDay(t: int): (r: int)
    ensures t <= r < t + DayMs
    ensures (r + 1) % DayMs == 0
  {
    t - t % DayMs + DayMs - 1
  }

  predicate InRange(f: Option<DateRange>, t: int) {
    f.None? || ((f.value.gte.None? || t >= f.value.gte.value) && (f.value.lte.None? || t <= f.value.lte.value))
  }

  /** The `createdAt` filter: a bound only from a date that parses; with no
      bound the filter is dropped altogether. */
  function DateFilter(start: DateArg, end: DateArg): (r: Option<DateRange>)
    ensures r.None? <==> !start.At? && !end.At?
    ensures forall t :: InRange(r, t) <==> (start.At? ==> t >= start.ms) && (end.At? ==> t <= EndOfDay(end.ms))
  {
    var gte := if start.At? then Some(start.ms) else None;
    var lte := if end.At? then Some(EndOfDay(end.ms)) else None;
    if gte.None? && lte.None? then None else Some(DateRange(gte, lte))
  }

  /** `!type || type === 'new_student'`. */
  predicate WantsStudents(kind: Option<string>) {
    kind.None? || kind.value == "" || kind.value == "new_student"
  }

  /** `!type || type === 'absence_report'`. */
  predicate WantsAbsences(kind: Option<string>) {
    kind.None? || kind.value == "" || kind.value == "absence_report"
  }

  const FeedPage := 1
  const FeedLimit := 20
  const FetchFloor := 200

  /** `Math.max(skip + limit + 100, 200)`. */
  function FetchLimit(skip: int, limit: int): (r: nat)
    ensures r >= skip + limit + 100 && r >= FetchFloor
    ensures r == skip + limit + 100 || r == FetchFloor
  {
    if skip + limit + 100 > FetchFloor then skip + limit + 100 else FetchFloor
  }

  /** The students the feed fetches: those the date filter admits, newest
      first, at most `fetch`; none when the type excludes them. */
  function FeedStudents(students: seq<StudentDoc>, kind: Option<string>, f: Option<DateRange>, fetch: nat): (r: seq<StudentDoc>)
    ensures |r| <= fetch
    ensures !WantsStudents(kind) ==> r == []
    ensures forall s :: s in r ==> s in students && InRange(f, s.createdAt)
  {
    if WantsStudents(kind) then Top(Filter(students, (s: StudentDoc) => InRange(f, s.createdAt)), StudentCreated, fetch) else []
  }

  function FeedAbsences(absences: seq<Absence>, kind: Option<string>, f: Option<DateRange>, fetch: nat): (r: seq<Absence>)
    ensures |r| <= fetch
    ensures !WantsAbsences(kind) ==> r == []
    ensures forall a :: a in r ==> a in absences && InRange(f, a.createdAt)
  {
    if WantsAbsences(kind) then Top(Filter(absences, (a: Absence) => InRange(f, a.createdAt)), AbsenceCreated, fetch) else []
  }

  /** Every student the feed admits: those whose creation passes the date
      filter, and none when the type excludes students. */
  function AdmittedStudents(students: seq<StudentDoc>, kind: Option<string>, f: Option<DateRange>): seq<StudentDoc> {
    if WantsStudents(kind) then Filter(students, (s: StudentDoc) => InRange(f, s.createdAt)) else []
  }

  function AdmittedAbsences(absences: seq<Absence>, kind: Option<string>, f: Option<DateRange>): seq<Absence> {
    if WantsAbsences(kind) then Filter(absences, (a: Absence) => InRange(f, a.createdAt)) else []
  }

  /** Every admitted document as an activity, newest first: the list the feed
      would page through if it fetched each source whole. */
  function AllActivities(students: seq<StudentDoc>, absences: seq<Absence>, kind: Option<string>,
                         f: Option<DateRange>): (r: seq<Activity>)
    ensures SortedDesc(r, Time)
  {
    SortDesc(StudentActivities(AdmittedStudents(students, kind, f)) + AbsenceActivities(AdmittedAbsences(absences, kind, f)), Time)
  }

  /** `c` and `d` agree on their `fetch` newest: for every instant `x`, they
      hold as many activities no older than `x`, up to `fetch`, and as many
      activities, up to `fetch`. */
  ghost predicate AgreeUpTo(c: seq<Activity>, d: seq<Activity>, fetch: nat) {
    (forall x :: AtMost(CountAtLeast(c, Time, x), fetch) == AtMost(CountAtLeast(d, Time, x), fetch))
    && AtMost(|c|, fetch) == AtMost(|d|, fetch)
  }

  /** Both sources as activities, sorted newest first. */
  function Candidates(students: seq<StudentDoc>, absences: seq<Absence>, kind: Option<string>,
                      f: Option<DateRange>, fetch: nat): (r: seq<Activity>)
    ensures SortedDesc(r, Time)
  {
    SortDesc(StudentActivities(FeedStudents(students, kind, f, fetch))
             + AbsenceActivities(FeedAbsences(absences, kind, f, fetch)), Time)
  }

  lemma FeedStudentsTop(students: seq<StudentDoc>, kind: Option<string>, f: Option<DateRange>, fetch: nat)
    ensures FeedStudents(students, kind, f, fetch) == Top(AdmittedStudents(students, kind, f), StudentCreated, fetch)
  {
  }

  lemma FeedAbsencesTop(absences: seq<Absence>, kind: Option<string>, f: Option<DateRange>, fetch: nat)
    ensures FeedAbsences(absences, kind, f, fetch) == Top(AdmittedAbsences(absences, kind, f), AbsenceCreated, fetch)
  {
  }

  lemma {:induction false} StudentActivitiesCount(ss: seq<StudentDoc>, x: int)
    ensures CountAtLeast(StudentActivities(ss), Time, x) == CountAtLeast(ss, StudentCreated, x)
  {
    if ss != [] {
      assert StudentActivities(ss)[1..] == StudentActivities(ss[1..]);
      StudentActivitiesCount(ss[1..], x);
    }
  }

  lemma {:induction false} AbsenceActivitiesCount(xs: seq<Absence>, x: int)
    ensures CountAtLeast(AbsenceActivities(xs), Time, x) == CountAtLeast(xs, AbsenceCreated, x)
  {
    if xs != [] {
      assert AbsenceActivities(xs)[1..] == AbsenceActivities(xs[1..]);
      AbsenceActivitiesCount(xs[1..], x);
    }
  }

  /** The newest `fetch` of each source, merged, hold as many activities no
      older than `x` as both sources whole, up to `fetch`. */
  lemma MergedTopCount(ss: seq<StudentDoc>, xs: seq<Absence>, fetch: nat, x: int)
    ensures var m := StudentActivities(Top(ss, StudentCreated, fetch)) + AbsenceActivities(Top(xs, AbsenceCreated, fetch));
      var all := StudentActivities(ss) + AbsenceActivities(xs);
      AtMost(CountAtLeast(SortDesc(m, Time), Time, x), fetch) == AtMost(CountAtLeast(SortDesc(all, Time), Time, x), fetch)
  {
    var ts, ta := Top(ss, StudentCreated, fetch), Top(xs, AbsenceCreated, fetch);
    var m := StudentActivities(ts) + AbsenceActivities(ta);
    var all := StudentActivities(ss) + AbsenceActivities(xs);
    CountPerm(SortDesc(m, Time), m, Time, x);
    CountPerm(SortDesc(all, Time), all, Time, x);
    CountAppend(StudentActivities(ts), AbsenceActivities(ta), Time, x);
    CountAppend(StudentActivities(ss), AbsenceActivities(xs), Time, x);
    StudentActivitiesCount(ts, x);
    StudentActivitiesCount(ss, x);
    AbsenceActivitiesCount(ta, x);
    AbsenceActivitiesCount(xs, x);
    TopCount(ss, StudentCreated, fetch, x);
    TopCount(xs, AbsenceCreated, fetch, x);
  }

  /** Merging the newest `fetch` of each source loses nothing among the
      `fetch` newest of both sources whole. */
  lemma MergedTopAll(ss: seq<StudentDoc>, xs: seq<Absence>, fetch: nat)
    ensures AgreeUpTo(SortDesc(StudentActivities(Top(ss, StudentCreated, fetch))
                               + AbsenceActivities(Top(xs, AbsenceCreated, fetch)), Time),
                      SortDesc(StudentActivities(ss) + AbsenceActivities(xs), Time), fetch)
  {
    var m := StudentActivities(Top(ss, StudentCreated, fetch)) + AbsenceActivities(Top(xs, AbsenceCreated, fetch));
    var all := StudentActivities(ss) + AbsenceActivities(xs);
    forall x ensures AtMost(CountAtLeast(SortDesc(m, Time), Time, x), fetch)
                  == AtMost(CountAtLeast(SortDesc(all, Time), Time, x), fetch) {
      MergedTopCount(ss, xs, fetch, x);
    }
    MergedTopLength(ss, xs, fetch);
  }

  lemma MergedTopLength(ss: seq<StudentDoc>, xs: seq<Absence>, fetch: nat)
    ensures AtMost(|SortDesc(StudentActivities(Top(ss, StudentCreated, fetch))
                             + AbsenceActivities(Top(xs, AbsenceCreated, fetch)), Time)|, fetch)
         == AtMost(|SortDesc(StudentActivities(ss) + AbsenceActivities(xs), Time)|, fetch)
  {
    var m := StudentActivities(Top(ss, StudentCreated, fetch)) + AbsenceActivities(Top(xs, AbsenceCreated, fetch));
    var all := StudentActivities(ss) + AbsenceActivities(xs);
    SortDescLength(m, Time);
    SortDescLength(all, Time);
  }

  /** Capping each source at `fetch` loses nothing among the `fetch` newest
      of every admitted document. */
  lemma CandidatesComplete(students: seq<StudentDoc>, absences: seq<Absence>, kind: Option<string>,
                           f: Option<DateRange>, fetch: nat)
    ensures AgreeUpTo(Candidates(students, absences, kind, f, fetch), AllActivities(students, absences, kind, f), fetch)
  {
    FeedStudentsTop(students, kind, f, fetch);
    FeedAbsencesTop(absences, kind, f, fetch);
    MergedTopAll(AdmittedStudents(students, kind, f), AdmittedAbsences(absences, kind, f), fetch);
  }

  datatype Feed = Feed(activities: seq<Activity>, page: int, limit: int)

  /** `getSystemActivities` with no search text: page and limit default to 1
      and 20 (no upper cap), each source is fetched up to
      `max(skip + limit + 100, 200)` and the merged candidates are sliced to
      `[skip, skip + limit)`. */
  function SystemActivities(students: seq<StudentDoc>, absences: seq<Absence>, pageArg: Option<int>,
                            limitArg: Option<int>, kind: Option<string>, start: DateArg, end: DateArg): (r: Feed)
    ensures r.page == OrDefault(pageArg, FeedPage) && r.limit == OrDefault(limitArg, FeedLimit)
    ensures r == PageOf(Candidates(students, absences, kind, DateFilter(start, end), FetchLimit(Skip(r.page, r.limit), r.limit)),
                        r.page, r.limit)
  {
    var page := OrDefault(pageArg, FeedPage);
    var limit := OrDefault(limitArg, FeedLimit);
    PageOf(Candidates(students, absences, kind, DateFilter(start, end), FetchLimit(Skip(page, limit), limit)), page, limit)
  }

  /** For every page and limit of at least one: when the candidates `c` agree
      with the full list `all` on their newest `max(skip + limit + 100, 200)`,
      the page cut from `c` holds the activities at the same positions, by
      creation time, as the same run of `all`. `CandidatesComplete` gives that
      agreement for the candidates `SystemActivities` pages through, so
      fetching only the newest of each source loses nothing on any page. */
  lemma PageExact(c: seq<Activity>, all: seq<Activity>, page: int, limit: int)
    requires SortedDesc(c, Time) && SortedDesc(all, Time)
    requires AgreeUpTo(c, all, FetchLimit(Skip(page, limit), limit))
    ensures page >= 1 && limit >= 1 ==>
      SameTimes(PageOf(c, page, limit).activities, Slice(all, Skip(page, limit), Skip(page, limit) + limit))
  {
    if page >= 1 && limit >= 1 {
      CappedPage(c, all, Skip(page, limit), limit, FetchLimit(Skip(page, limit), limit));
    }
  }

  /** Page `page` of `limit` activities out of the sorted candidates `c`. */
  function PageOf(c: seq<Activity>, page: int, limit: int): (r: Feed)
    requires SortedDesc(c, Time)
    ensures r.page == page && r.limit == limit && SortedDesc(r.activities, Time)
    ensures r.activities == Slice(c, Skip(page, limit), Skip(page, limit) + limit)
  {
    var skip := Skip(page, limit);
    SlicePage(c, skip, limit);
    Feed(Slice(c, skip, skip + limit), page, limit)
  }

  /** The creation times of a run of activities, in order. */
  function Times(p: seq<Activity>): (r: seq<int>)
    ensures |r| == |p| && forall i :: 0 <= i < |p| ==> r[i] == p[i].time
  {
    seq(|p|, i requires 0 <= i < |p| => p[i].time)
  }

  /** `p` and `q` hold the same creation times, position by position. */
  ghost predicate SameTimes(p: seq<Activity>, q: seq<Activity>)
    decreases |p|
  {
    |p| == |q| && (p == [] || (p[0].time == q[0].time && SameTimes(p[1..], q[1..])))
  }

  /** Equal lists of creation times make `SameTimes` hold. */
  lemma {:induction false} SameTimesOfTimes(p: seq<Activity>, q: seq<Activity>)
    requires Times(p) == Times(q)
    ensures SameTimes(p, q)
    decreases |p|
  {
    if p != [] {
      assert Times(p)[0] == Times(q)[0];
      assert Times(p[1..]) == Times(p)[1..] && Times(q[1..]) == Times(q)[1..];
      SameTimesOfTimes(p[1..], q[1..]);
    }
  }

  /** The fetch limit reaches past the page, so the page after `skip`
      activities cut from the capped candidates has the same creation times,
      position by position, as the page cut from every admitted document
      sorted newest first. */
  lemma FeedPageExact(students: seq<StudentDoc>, absences: seq<Absence>, kind: Option<string>,
                      f: Option<DateRange>, skip: int, limit: int)
    ensures skip >= 0 && limit >= 0 ==>
      SameTimes(Slice(Candidates(students, absences, kind, f, FetchLimit(skip, limit)), skip, skip + limit),
                Slice(AllActivities(students, absences, kind, f), skip, skip + limit))
  {
    if skip >= 0 && limit >= 0 {
      var fetch := FetchLimit(skip, limit);
      CandidatesComplete(students, absences, kind, f, fetch);
      CappedPage(Candidates(students, absences, kind, f, fetch), AllActivities(students, absences, kind, f),
                 skip, limit, fetch);
    }
  }

  /** A page ending before `fetch` is the same, time by time, in two sorted
      lists that agree on every count up to `fetch`. */
  lemma CappedPage(c: seq<Activity>, d: seq<Activity>, skip: nat, limit: nat, fetch: nat)
    requires SortedDesc(c, Time) && SortedDesc(d, Time)
    requires AgreeUpTo(c, d, fetch)
    requires skip + limit <= fetch
    ensures SameTimes(Slice(c, skip, skip + limit), Slice(d, skip, skip + limit))
  {
    SortedAgree(c, d, Time, fetch);
    SameSlices(c, d, skip, limit, fetch);
    SameTimesOfTimes(Slice(c, skip, skip + limit), Slice(d, skip, skip + limit));
  }

  /** Sorted lists agreeing in length and key up to `fetch` give pages with the
      same times for any page ending before `fetch`. */
  lemma SameSlices(c: seq<Activity>, d: seq<Activity>, skip: nat, limit: nat, fetch: nat)
    requires skip + limit <= fetch
    requires AtMost(|c|, fetch) == AtMost(|d|, fetch)
    requires forall i :: 0 <= i < fetch && i < |c| ==> i < |d| && Time(c[i]) == Time(d[i])
    ensures Times(Slice(c, skip, skip + limit)) == Times(Slice(d, skip, skip + limit))
  {
    var a, b := RelativeIndex(skip, |c|), RelativeIndex(skip + limit, |c|);
    assert a == RelativeIndex(skip, |d|) && b == RelativeIndex(skip + limit, |d|);
    if a < b {
      var p, q := c[a..b], d[a..b];
      forall i | 0 <= i < |p| ensures Times(p)[i] == Times(q)[i] {
        assert p[i] == c[a + i] && q[i] == d[a + i];
      }
    }
  }

  /** Every candidate is a student (only when the type allows students) or an
      absence (only when it allows absences) whose creation time passes the
      date filter. */
  lemma CandidatesFrom(students: seq<StudentDoc>, absences: seq<Absence>, kind: Option<string>,
                       f: Option<DateRange>, fetch: nat, e: Activity)
    requires e in Candidates(students, absences, kind, f, fetch)
    ensures e.kind == StudentJoined ==>
      WantsStudents(kind) && exists s :: s in students && e == Activity(StudentJoined, s.id, s.createdAt) && InRange(f, s.createdAt)
    ensures e.kind == AbsenceReported ==>
      WantsAbsences(kind) && exists a :: a in absences && e == Activity(AbsenceReported, a.id, a.createdAt) && InRange(f, a.createdAt)
  {
    var ss := FeedStudents(students, kind, f, fetch);
    var as_ := FeedAbsences(absences, kind, f, fetch);
    var sa, aa := StudentActivities(ss), AbsenceActivities(as_);
    SortedFrom(sa + aa, e);
    if e in sa {
      var k :| 0 <= k < |sa| && sa[k] == e;
      FeedStudentFrom(students, kind, f, fetch, ss[k]);
    } else {
      assert e in aa;
      var k :| 0 <= k < |aa| && aa[k] == e;
      FeedAbsenceFrom(absences, kind, f, fetch, as_[k]);
    }
  }

  lemma SortedFrom(m: seq<Activity>, e: Activity)
    requires e in SortDesc(m, Time)
    ensures e in m
  {
    assert e in multiset(SortDesc(m, Time));
  }

  lemma FeedStudentFrom(students: seq<StudentDoc>, kind: Option<string>, f: Option<DateRange>, fetch: nat, s: StudentDoc)
    requires s in FeedStudents(students, kind, f, fetch)
    ensures WantsStudents(kind) && s in students && InRange(f, s.createdAt)
  {
    var fl := Filter(students, (x: StudentDoc) => InRange(f, x.createdAt));
    assert s in fl;
    var i :| 0 <= i < |fl| && fl[i] == s;
  }

  lemma FeedAbsenceFrom(absences: seq<Absence>, kind: Option<string>, f: Option<DateRange>, fetch: nat, a: Absence)
    requires a in FeedAbsences(absences, kind, f, fetch)
    ensures WantsAbsences(kind) && a in absences && InRange(f, a.createdAt)
  {
    var fl := Filter(absences, (x: Absence) => InRange(f, x.createdAt));
    assert a in fl;
    var i :| 0 <= i < |fl| && fl[i] == a;
  }

  /** `p` is the run of `c` from `skip` to `skip + limit`, cut at the end of `c`. */
  predicate Window(p: seq<Activity>, c: seq<Activity>, skip: int, limit: int)
    requires 0 <= skip && 0 <= limit
  {
    p == c[(if skip < |c| then skip else |c|)..(if skip + limit < |c| then skip + limit else |c|)]
  }

  /** With a positive page and limit the page is the run of at most `limit`
      candidates starting at `(page - 1) * limit`, and the fetch limit of each
      source reaches past the end of that run. */
  lemma SystemActivitiesWindow(students: seq<StudentDoc>, absences: seq<Absence>, pageArg: Option<int>,
                               limitArg: Option<int>, kind: Option<string>, start: DateArg, end: DateArg)
    ensures var r := SystemActivities(students, absences, pageArg, limitArg, kind, start, end);
      var skip := Skip(r.page, r.limit);
      r.page >= 1 && r.limit >= 1 ==>
        0 <= skip && skip + r.limit <= FetchLimit(skip, r.limit) && |r.activities| <= r.limit
        && Window(r.activities, Candidates(students, absences, kind, DateFilter(start, end), FetchLimit(Skip(r.page, r.limit), r.limit)), skip, r.limit)
  {
    var r := SystemActivities(students, absences, pageArg, limitArg, kind, start, end);
    if r.page >= 1 && r.limit >= 1 {
      var c := Candidates(students, absences, kind, DateFilter(start, end), FetchLimit(Skip(r.page, r.limit), r.limit));
      assert r == PageOf(c, r.page, r.limit);
      PageWindow(c, r.page, r.limit);
    }
  }

  /** Page `page` of `limit` is the run of at most `limit` entries starting at
      `(page - 1) * limit`. */
  lemma PageWindow(c: seq<Activity>, page: int, limit: int)
    requires SortedDesc(c, Time) && page >= 1 && limit >= 1
    ensures var r, skip := PageOf(c, page, limit), Skip(page, limit);
      0 <= skip && |r.activities| <= limit && Window(r.activities, c, skip, limit)
  {
    SlicePage(c, Skip(page, limit), limit);
  }

  /** A page of a list sorted newest first is a run of it, sorted the same way. */
  lemma SlicePage(c: seq<Activity>, skip: int, limit: int)
    requires SortedDesc(c, Time)
    ensures var p := Slice(c, skip, skip + limit);
      SortedDesc(p, Time)
      && (forall e :: e in p ==> e in c)
      && (skip >= 0 && limit >= 1 ==>
            |p| <= limit && p == c[(if skip < |c| then skip else |c|)..(if skip + limit < |c| then skip + limit else |c|)])
  {
    var p := Slice(c, skip, skip + limit);
    var a, b := RelativeIndex(skip, |c|), RelativeIndex(skip + limit, |c|);
    if a < b {
      forall i, j | 0 <= i < j < |p| ensures p[i].time >= p[j].time {
        assert p[i] == c[a + i] && p[j] == c[a + j];
        assert Time(c[a + i]) >= Time(c[a + j]);
      }
    }
  }

  /** Each entry of the page is a document the type and the date filter admit. */
  lemma SystemActivitiesSources(students: seq<StudentDoc>, absences: seq<Absence>, pageArg: Option<int>,
                                limitArg: Option<int>, kind: Option<string>, start: DateArg, end: DateArg, e: Activity)
    requires e in SystemActivities(students, absences, pageArg, limitArg, kind, start, end).activities
    ensures e.kind == StudentJoined ==>
      WantsStudents(kind) && exists s :: s in students && e == Activity(StudentJoined, s.id, s.createdAt)
                                        && (start.At? ==> s.createdAt >= start.ms) && (end.At? ==> s.createdAt <= EndOfDay(end.ms))
    ensures e.kind == AbsenceReported ==>
      WantsAbsences(kind) && exists a :: a in absences && e == Activity(AbsenceReported, a.id, a.createdAt)
                                         && (start.At? ==> a.createdAt >= start.ms) && (end.At? ==> a.createdAt <= EndOfDay(end.ms))
  {
    var r := SystemActivities(students, absences, pageArg, limitArg, kind, start, end);
    var fetch := FetchLimit(Skip(r.page, r.limit), r.limit);
    SlicePage(Candidates(students, absences, kind, DateFilter(start, end), FetchLimit(Skip(r.page, r.limit), r.limit)), Skip(r.page, r.limit), r.limit);
    CandidatesFrom(students, absences, kind, DateFilter(start, end), fetch, e);
  }
}
