/** Chat authorisation, history and contact lists (chatController.js).

    Who may chat: admins with anyone; a teacher and a student only when a
    ClassSubject of the student's class lists the teacher. The contact list is
    chosen by the caller's role, freed of duplicate users, decorated with each
    conversation's last message and unread count, and ordered by recency. */
module Chat {
  import opened Common
  import opened School
  import opened Messages
  import opened JsArray
  import opened JsMap
  import opened Pagination

  // ---------------------------------------------------------------------------
  // Permission

  /** `checkTeacherStudentRelation(teacherUserId, studentUserId)`: both profiles
      must exist and a ClassSubject of the student's class must list the teacher.
      A student without a class matches no ClassSubject, whose `class_id` is
      required. */
  function Related(dir: Directory, teacherUserId: Id, studentUserId: Id): (r: bool)
    ensures TeacherOfUser(dir.teachers, teacherUserId).None? ==> !r
    ensures StudentOfUser(dir.students, studentUserId).None? ==> !r
    ensures r ==> RelationHolds(dir, teacherUserId, studentUserId)
  {
    var t := TeacherOfUser(dir.teachers, teacherUserId);
    var s := StudentOfUser(dir.students, studentUserId);
    t.Some? && s.Some? && s.value.classId.Some?
    && TeachesClass(dir.classSubjects, t.value.id, s.value.classId.value)
  }

  /** The relation stated over the stored records, without lookups. */
  ghost predicate RelationHolds(dir: Directory, teacherUserId: Id, studentUserId: Id) {
    exists t, s :: t in dir.teachers && s in dir.students
      && t.userId == teacherUserId && s.userId == studentUserId
      && s.classId.Some? && TeachesClass(dir.classSubjects, t.id, s.classId.value)
  }

  /** With unique `user_id` indexes the lookups find the only candidates, so the
      handler decides exactly the stored relation. */
  lemma RelatedExact(dir: Directory, teacherUserId: Id, studentUserId: Id)
    requires WellFormed(dir)
    ensures Related(dir, teacherUserId, studentUserId) <==> RelationHolds(dir, teacherUserId, studentUserId)
  {
    if RelationHolds(dir, teacherUserId, studentUserId) {
      var t, s :| t in dir.teachers && s in dir.students
        && t.userId == teacherUserId && s.userId == studentUserId
        && s.classId.Some? && TeachesClass(dir.classSubjects, t.id, s.classId.value);
      TeacherOfUserUnique(dir.teachers, t);
      StudentOfUserUnique(dir.students, s);
    }
  }

  /** `checkChatPermission(sender, recipientId)`. */
  function CheckChatPermission(dir: Directory, sender: User, recipientId: Id): (r: bool)
    ensures FindUser(dir.users, recipientId).None? ==> !r
    ensures FindUser(dir.users, recipientId).Some? ==>
      var rec := FindUser(dir.users, recipientId).value;
      (IsAdmin(sender.role) || IsAdmin(rec.role) ==> r)
      && (sender.role == Teacher && rec.role == Student ==> r == Related(dir, sender.id, recipientId))
      && (sender.role == Student && rec.role == Teacher ==> r == Related(dir, recipientId, sender.id))
      && (r ==> IsAdmin(sender.role) || IsAdmin(rec.role)
                || (sender.role == Teacher && rec.role == Student)
                || (sender.role == Student && rec.role == Teacher))
  {
    match FindUser(dir.users, recipientId)
    case None => false
    case Some(rec) =>
      if IsAdmin(sender.role) || IsAdmin(rec.role) then true
      else if sender.role == Teacher && rec.role == Student then Related(dir, sender.id, recipientId)
      else if sender.role == Student && rec.role == Teacher then Related(dir, recipientId, sender.id)
      else false
  }

  /** Between two stored users, permission does not depend on who writes first. */
  lemma PermissionSymmetric(dir: Directory, a: User, b: User)
    requires UniqueUserIds(dir.users)
    requires a in dir.users && b in dir.users
    ensures CheckChatPermission(dir, a, b.id) == CheckChatPermission(dir, b, a.id)
  {
    FindUserUnique(dir.users, a);
    FindUserUnique(dir.users, b);
  }

  /** The whole decision over the stored records: the recipient exists, and either
      side is an admin or the two are a teacher and a student sharing a class. The
      recipient's `is_active` flag plays no part. */
  lemma PermissionExact(dir: Directory, sender: User, recipient: User)
    requires WellFormed(dir) && recipient in dir.users
    ensures CheckChatPermission(dir, sender, recipient.id) <==>
      IsAdmin(sender.role) || IsAdmin(recipient.role)
      || (sender.role == Teacher && recipient.role == Student && RelationHolds(dir, sender.id, recipient.id))
      || (sender.role == Student && recipient.role == Teacher && RelationHolds(dir, recipient.id, sender.id))
  {
    FindUserUnique(dir.users, recipient);
    RelatedExact(dir, sender.id, recipient.id);
    RelatedExact(dir, recipient.id, sender.id);
  }

  // ---------------------------------------------------------------------------
  // History

  /** The message was sent from one of the two users to the other. */
  predicate Between(m: Message, a: Id, b: Id) {
    (m.sender == a && m.recipient == b) || (m.sender == b && m.recipient == a)
  }

  function InConversation(a: Id, b: Id): Message -> bool {
    (m: Message) => Between(m, a, b)
  }

  /** Sort key making the descending sort an ascending one by `createdAt`. */
  function Older(m: Message): int {
    -m.createdAt
  }

  /** `getChatHistory`: 403 without permission (no message is read); otherwise the
      requested page of the pair's messages in both directions, oldest first. */
  function ChatHistory(dir: Directory, ms: seq<Message>, me: User, other: Id, page: int, limit: int): (r: Outcome<seq<Message>>)
    ensures !CheckChatPermission(dir, me, other) ==> r == Err(Forbidden)
    ensures CheckChatPermission(dir, me, other) ==> (r.Err? <==> Skip(page, limit) < 0)
    ensures r.Ok? ==> (forall i :: 0 <= i < |r.value| ==> r.value[i] in ms && Between(r.value[i], me.id, other))
    ensures r.Ok? ==> forall i, j :: 0 <= i < j < |r.value| ==> r.value[i].createdAt <= r.value[j].createdAt
    ensures r.Ok? ==> IsWindowOf(SortDesc(Filter(ms, InConversation(me.id, other)), Older), Skip(page, limit), limit, r.value)
  {
    if !CheckChatPermission(dir, me, other) then Err(Forbidden)
    else
      var sorted := SortDesc(Filter(ms, InConversation(me.id, other)), Older);
      HistoryPage(ms, me.id, other, Skip(page, limit), limit);
      Window(sorted, Skip(page, limit), limit)
  }

  const HistoryDefaultPage: int := 1
  const HistoryDefaultLimit: int := 50

  /** The query of `getChatHistory`: `page` and `limit` default to 1 and 50 when the
      query leaves them out; a value that is given is used as it parses. */
  function ChatHistoryQuery(dir: Directory, ms: seq<Message>, me: User, other: Id, pageArg: Option<int>, limitArg: Option<int>): (r: Outcome<seq<Message>>)
    ensures pageArg.None? && limitArg.None? && CheckChatPermission(dir, me, other) ==>
      r.Ok? && IsWindowOf(SortDesc(Filter(ms, InConversation(me.id, other)), Older), 0, HistoryDefaultLimit, r.value)
    ensures pageArg.Some? && limitArg.Some? ==> r == ChatHistory(dir, ms, me, other, pageArg.value, limitArg.value)
    ensures pageArg.None? ==> r == ChatHistory(dir, ms, me, other, HistoryDefaultPage, if limitArg.Some? then limitArg.value else HistoryDefaultLimit)
    ensures limitArg.None? ==> r == ChatHistory(dir, ms, me, other, if pageArg.Some? then pageArg.value else HistoryDefaultPage, HistoryDefaultLimit)
  {
    var page := if pageArg.Some? then pageArg.value else HistoryDefaultPage;
    var limit := if limitArg.Some? then limitArg.value else HistoryDefaultLimit;
    assert Skip(HistoryDefaultPage, HistoryDefaultLimit) == 0;
    ChatHistory(dir, ms, me, other, page, limit)
  }

  /** A window of the sorted conversation holds messages of the pair, oldest first. */
  lemma HistoryPage(ms: seq<Message>, a: Id, b: Id, skip: int, limit: int)
    ensures var w := Window(SortDesc(Filter(ms, InConversation(a, b)), Older), skip, limit);
      w.Ok? ==> ((forall i :: 0 <= i < |w.value| ==> w.value[i] in ms && Between(w.value[i], a, b))
        && (forall i, j :: 0 <= i < j < |w.value| ==> w.value[i].createdAt <= w.value[j].createdAt))
  {
    var conv := Filter(ms, InConversation(a, b));
    var sorted := SortDesc(conv, Older);
    var w := Window(sorted, skip, limit);
    if w.Ok? {
      WindowSlice(sorted, skip, limit);
      forall i | 0 <= i < |w.value| ensures w.value[i] in ms && Between(w.value[i], a, b) {
        var m := sorted[skip + i];
        assert m in multiset(sorted);
        assert m in conv;
      }
      forall i, j | 0 <= i < j < |w.value| ensures w.value[i].createdAt <= w.value[j].createdAt {
        assert Older(sorted[skip + i]) >= Older(sorted[skip + j]);
      }
    }
  }

  /** The first page with no limit (`limit(0)`) is the whole conversation. */
  lemma HistoryWhole(dir: Directory, ms: seq<Message>, me: User, other: Id)
    requires CheckChatPermission(dir, me, other)
    ensures ChatHistory(dir, ms, me, other, 1, 0).Ok?
    ensures multiset(ChatHistory(dir, ms, me, other, 1, 0).value) == multiset(Filter(ms, InConversation(me.id, other)))
  {
    var sorted := SortDesc(Filter(ms, InConversation(me.id, other)), Older);
    assert sorted[0..] == sorted;
  }

  // ---------------------------------------------------------------------------
  // Contacts

  /** A contact-list entry: the user and the statistics of the conversation. */
  datatype Contact = Contact(user: User, lastMessage: Option<Message>, lastMessageTime: int, unreadCount: nat)

  function UserId(u: User): Id {
    u.id
  }

  function LastTime(c: Contact): int {
    c.lastMessageTime
  }

  function CreatedAt(m: Message): int {
    m.createdAt
  }

  function IsActiveAdmin(): User -> bool {
    (u: User) => u.isActive && IsAdmin(u.role)
  }

  /** Active users other than the caller. */
  function IsActiveOther(me: Id): User -> bool {
    (u: User) => u.isActive && u.id != me
  }

  /** Active administrators other than the caller. */
  function IsActiveAdminOther(me: Id): User -> bool {
    (u: User) => u.isActive && IsAdmin(u.role) && u.id != me
  }

  /** The users a `$lookup` by id followed by `$unwind` yields for one profile. */
  function UsersWithId(users: seq<User>, id: Id): (r: seq<User>)
    ensures forall i :: 0 <= i < |r| ==> r[i] in users && r[i].id == id
    ensures forall u :: u in users && u.id == id ==> u in r
  {
    Filter(users, (u: User) => u.id == id)
  }

  /** The teacher branch's aggregation: for every student profile (in collection
      order) whose class has a ClassSubject listing the teacher profile, the user
      behind it. `is_active` is not consulted. */
  function RelatedStudentUsers(dir: Directory, teacherId: Id, students: seq<StudentProfile>): (r: seq<User>)
    ensures forall u :: u in r <==> u in dir.users && exists s :: (s in students && s.userId == u.id
      && s.classId.Some? && TeachesClass(dir.classSubjects, teacherId, s.classId.value))
  {
    if students == [] then []
    else
      var s := students[0];
      var rest := RelatedStudentUsers(dir, teacherId, students[1..]);
      assert forall x :: x in students <==> x == s || x in students[1..];
      if s.classId.Some? && TeachesClass(dir.classSubjects, teacherId, s.classId.value) then
        UsersWithId(dir.users, s.userId) + rest
      else rest
  }

  /** The student branch's aggregation: for every teacher profile listed by a
      ClassSubject of the class, the user behind it. */
  function RelatedTeacherUsers(dir: Directory, classId: Id, teachers: seq<TeacherProfile>): (r: seq<User>)
    ensures forall u :: u in r <==> u in dir.users && exists t :: (t in teachers && t.userId == u.id
      && TeachesClass(dir.classSubjects, t.id, classId))
  {
    if teachers == [] then []
    else
      var t := teachers[0];
      var rest := RelatedTeacherUsers(dir, classId, teachers[1..]);
      assert forall x :: x in teachers <==> x == t || x in teachers[1..];
      if TeachesClass(dir.classSubjects, t.id, classId) then UsersWithId(dir.users, t.userId) + rest
      else rest
  }

  /** The candidates each role's query returns, before duplicates are removed. */
  function Pool(dir: Directory, me: User): seq<User> {
    match me.role
    case SuperAdmin => Filter(dir.users, IsActiveOther(me.id))
    case Admin => Filter(dir.users, IsActiveOther(me.id))
    case Teacher =>
      var admins := Filter(dir.users, IsActiveAdmin());
      var tp := TeacherOfUser(dir.teachers, me.id);
      admins + (if tp.Some? then RelatedStudentUsers(dir, tp.value.id, dir.students) else [])
    case Student =>
      var admins := Filter(dir.users, IsActiveAdmin());
      var sp := StudentOfUser(dir.students, me.id);
      admins + (if sp.Some? && sp.value.classId.Some?
                then RelatedTeacherUsers(dir, sp.value.classId.value, dir.teachers) else [])
    case OtherRole => Filter(dir.users, IsActiveAdminOther(me.id))
  }

  /** Teachers and students merge two lists through a `Map` keyed by user id. */
  predicate Deduplicates(r: Role) {
    r == Teacher || r == Student
  }

  function Candidates(dir: Directory, me: User): seq<User> {
    if Deduplicates(me.role) then Values(Index(Pool(dir, me), UserId)) else Pool(dir, me)
  }

  /** The reference statement of who is a contact, by role. */
  ghost predicate ContactRule(dir: Directory, me: User, u: User) {
    match me.role
    case SuperAdmin => u.isActive && u.id != me.id
    case Admin => u.isActive && u.id != me.id
    case Teacher => (u.isActive && IsAdmin(u.role)) || RelationHolds(dir, me.id, u.id)
    case Student => (u.isActive && IsAdmin(u.role)) || RelationHolds(dir, u.id, me.id)
    case OtherRole => u.isActive && IsAdmin(u.role) && u.id != me.id
  }

  /** Filtering keeps distinct ids distinct. */
  lemma {:induction false} FilterUnique(users: seq<User>, p: User -> bool)
    requires UniqueUserIds(users)
    ensures UniqueUserIds(Filter(users, p))
  {
    if users != [] {
      var rest := users[1..];
      assert UniqueUserIds(rest) by {
        forall i, j | 0 <= i < j < |rest| ensures rest[i].id != rest[j].id {
          assert rest[i] == users[i + 1] && rest[j] == users[j + 1];
        }
      }
      FilterUnique(rest, p);
      var fr := Filter(rest, p);
      forall v | v in fr ensures v.id != users[0].id {
        var k :| 0 <= k < |rest| && rest[k] == v;
        assert users[k + 1] == v;
      }
      if p(users[0]) {
        var r := [users[0]] + fr;
        forall i, j | 0 <= i < j < |r| ensures r[i].id != r[j].id {
          if i == 0 { assert r[j] in fr; } else { assert r[i] == fr[i - 1] && r[j] == fr[j - 1]; }
        }
      } else {
        assert [] + fr == fr;
      }
    }
  }

  /** After de-duplication by id, a list of stored users (whose ids are unique)
      holds exactly the users it held before, each once. */
  lemma DedupedUsers(users: seq<User>, pool: seq<User>)
    requires UniqueUserIds(users)
    requires forall u :: u in pool ==> u in users
    ensures UniqueUserIds(Values(Index(pool, UserId)))
    ensures forall u :: u in Values(Index(pool, UserId)) <==> u in pool
  {
    var cs := Values(Index(pool, UserId));
    DedupedKeys(pool, UserId);
    DedupedLast(pool, UserId);
    forall u | u in pool ensures u in cs {
      var i :| 0 <= i < |cs| && cs[i].id == u.id;
      FindUserUnique(users, cs[i]);
      FindUserUnique(users, u);
    }
  }

  /** The teacher's related students, stated with the teacher's profile lookup. */
  lemma TeacherRelation(dir: Directory, me: User, u: User)
    requires WellFormed(dir)
    ensures RelationHolds(dir, me.id, u.id) <==>
      TeacherOfUser(dir.teachers, me.id).Some?
      && exists s :: s in dir.students && s.userId == u.id && s.classId.Some?
           && TeachesClass(dir.classSubjects, TeacherOfUser(dir.teachers, me.id).value.id, s.classId.value)
  {
    if RelationHolds(dir, me.id, u.id) {
      var t, s :| t in dir.teachers && s in dir.students && t.userId == me.id && s.userId == u.id
        && s.classId.Some? && TeachesClass(dir.classSubjects, t.id, s.classId.value);
      TeacherOfUserUnique(dir.teachers, t);
    }
  }

  /** The student's related teachers, stated with the student's profile lookup. */
  lemma StudentRelation(dir: Directory, me: User, u: User)
    requires WellFormed(dir)
    ensures RelationHolds(dir, u.id, me.id) <==>
      var sp := StudentOfUser(dir.students, me.id);
      sp.Some? && sp.value.classId.Some?
      && exists t :: t in dir.teachers && t.userId == u.id
           && TeachesClass(dir.classSubjects, t.id, sp.value.classId.value)
  {
    if RelationHolds(dir, u.id, me.id) {
      var t, s :| t in dir.teachers && s in dir.students && t.userId == u.id && s.userId == me.id
        && s.classId.Some? && TeachesClass(dir.classSubjects, t.id, s.classId.value);
      StudentOfUserUnique(dir.students, s);
    }
  }

  /** A user is a contact exactly when the role table says so, and no user is
      listed twice. */
  lemma CandidatesExact(dir: Directory, me: User)
    requires WellFormed(dir)
    ensures UniqueUserIds(Candidates(dir, me))
    ensures forall u :: u in Candidates(dir, me) <==> u in dir.users && ContactRule(dir, me, u)
  {
    match me.role
    case Teacher => CandidatesOfTeacher(dir, me);
    case Student => CandidatesOfStudent(dir, me);
    case SuperAdmin => CandidatesOfAdmin(dir, me);
    case Admin => CandidatesOfAdmin(dir, me);
    case OtherRole => CandidatesOfOther(dir, me);
  }

  lemma CandidatesOfAdmin(dir: Directory, me: User)
    requires WellFormed(dir) && IsAdmin(me.role)
    ensures UniqueUserIds(Candidates(dir, me))
    ensures forall u :: u in Candidates(dir, me) <==> u in dir.users && ContactRule(dir, me, u)
  {
    assert Candidates(dir, me) == Filter(dir.users, IsActiveOther(me.id));
    FilterUnique(dir.users, IsActiveOther(me.id));
  }

  lemma CandidatesOfOther(dir: Directory, me: User)
    requires WellFormed(dir) && me.role == OtherRole
    ensures UniqueUserIds(Candidates(dir, me))
    ensures forall u :: u in Candidates(dir, me) <==> u in dir.users && ContactRule(dir, me, u)
  {
    assert Candidates(dir, me) == Filter(dir.users, IsActiveAdminOther(me.id));
    FilterUnique(dir.users, IsActiveAdminOther(me.id));
  }

  lemma CandidatesOfTeacher(dir: Directory, me: User)
    requires WellFormed(dir) && me.role == Teacher
    ensures UniqueUserIds(Candidates(dir, me))
    ensures forall u :: u in Candidates(dir, me) <==> u in dir.users && ContactRule(dir, me, u)
  {
    DedupedUsers(dir.users, Pool(dir, me));
    forall u: User ensures RelationHolds(dir, me.id, u.id) <==>
      TeacherOfUser(dir.teachers, me.id).Some?
      && exists s :: s in dir.students && s.userId == u.id && s.classId.Some?
           && TeachesClass(dir.classSubjects, TeacherOfUser(dir.teachers, me.id).value.id, s.classId.value)
    {
      TeacherRelation(dir, me, u);
    }
  }

  lemma CandidatesOfStudent(dir: Directory, me: User)
    requires WellFormed(dir) && me.role == Student
    ensures UniqueUserIds(Candidates(dir, me))
    ensures forall u :: u in Candidates(dir, me) <==> u in dir.users && ContactRule(dir, me, u)
  {
    DedupedUsers(dir.users, Pool(dir, me));
    forall u: User ensures RelationHolds(dir, u.id, me.id) <==>
      var sp := StudentOfUser(dir.students, me.id);
      sp.Some? && sp.value.classId.Some?
      && exists t :: t in dir.teachers && t.userId == u.id
           && TeachesClass(dir.classSubjects, t.id, sp.value.classId.value)
    {
      StudentRelation(dir, me, u);
    }
  }

  /** The aggregation's `$match`: a message from me to a contact or back. */
  predicate InStats(m: Message, me: Id, ids: seq<Id>) {
    (m.sender == me && m.recipient in ids) || (m.sender in ids && m.recipient == me)
  }

  /** The aggregation's `$group` key: the other party. */
  function GroupKey(m: Message, me: Id): Id {
    if m.sender == me then m.recipient else m.sender
  }

  function InGroup(me: Id, ids: seq<Id>, c: Id): Message -> bool {
    (m: Message) => InStats(m, me, ids) && GroupKey(m, me) == c
  }

  function UnreadBy(me: Id): Message -> bool {
    (m: Message) => m.recipient == me && !m.read
  }

  /** `$first` after `$sort: { createdAt: -1 }`: a latest message of the group. */
  function LastMessage(g: seq<Message>): (r: Option<Message>)
    ensures r.Some? <==> g != []
    ensures r.Some? ==> r.value in g && forall m :: m in g ==> m.createdAt <= r.value.createdAt
  {
    if g == [] then None
    else
      var sorted := SortDesc(g, CreatedAt);
      assert sorted[0] in multiset(g);
      assert forall m :: m in g ==> m in sorted by {
        forall m | m in g ensures m in sorted { assert m in multiset(sorted); }
      }
      Some(sorted[0])
  }

  /** The merge step for one candidate: a contact without messages gets no last
      message, time 0 (`new Date(0)`) and no unread messages. */
  function Entry(ms: seq<Message>, me: Id, ids: seq<Id>, u: User): Contact {
    var g := Filter(ms, InGroup(me, ids, u.id));
    match LastMessage(g)
    case None => Contact(u, None, 0, 0)
    case Some(last) => Contact(u, Some(last), last.createdAt, |Filter(g, UnreadBy(me))|)
  }

  function Ids(us: seq<User>): (r: seq<Id>)
    ensures |r| == |us| && forall i :: 0 <= i < |us| ==> r[i] == us[i].id
  {
    seq(|us|, i requires 0 <= i < |us| => us[i].id)
  }

  /** The merge step over all candidates, in candidate order. */
  function Entries(ms: seq<Message>, me: Id, cs: seq<User>): (r: seq<Contact>)
    ensures |r| == |cs| && forall i :: 0 <= i < |cs| ==> r[i] == Entry(ms, me, Ids(cs), cs[i])
  {
    var ids := Ids(cs);
    seq(|cs|, i requires 0 <= i < |cs| => Entry(ms, me, ids, cs[i]))
  }

  /** `getContactsForUser(me)` as a value: no candidates give `[]`; otherwise the
      candidates' entries, most recent conversation first. */
  function Contacts(dir: Directory, ms: seq<Message>, me: User): (r: seq<Contact>)
    ensures SortedDesc(r, LastTime)
    ensures multiset(r) == multiset(Entries(ms, me.id, Candidates(dir, me)))
  {
    var cs := Candidates(dir, me);
    if cs == [] then [] else SortDesc(Entries(ms, me.id, cs), LastTime)
  }

  /** One entry per candidate, each carrying that candidate's statistics; entries
      with the same time keep the candidates' order (the sort is stable). */
  lemma ContactsShape(dir: Directory, ms: seq<Message>, me: User)
    ensures var r, cs := Contacts(dir, ms, me), Candidates(dir, me);
      |r| == |cs|
      && (forall e :: e in r ==> e.user in cs && e == Entry(ms, me.id, Ids(cs), e.user))
      && (forall u :: u in cs ==> exists e :: e in r && e.user == u)
      && (forall t :: WithKey(r, LastTime, t) == WithKey(Entries(ms, me.id, cs), LastTime, t))
  {
    var cs := Candidates(dir, me);
    var r := Contacts(dir, ms, me);
    PermutedEntries(ms, me.id, cs, r);
    forall t ensures WithKey(r, LastTime, t) == WithKey(Entries(ms, me.id, cs), LastTime, t) {
      if cs != [] { SortStable(Entries(ms, me.id, cs), LastTime, t); }
    }
  }

  /** Any reordering of the entries has one entry per candidate. */
  lemma PermutedEntries(ms: seq<Message>, me: Id, cs: seq<User>, r: seq<Contact>)
    requires multiset(r) == multiset(Entries(ms, me, cs))
    ensures |r| == |cs|
    ensures forall e :: e in r ==> e.user in cs && e == Entry(ms, me, Ids(cs), e.user)
    ensures forall u :: u in cs ==> exists e :: e in r && e.user == u
  {
    var entries := Entries(ms, me, cs);
    assert |r| == |entries| by { assert |multiset(r)| == |multiset(entries)|; }
    forall e | e in r ensures e.user in cs && e == Entry(ms, me, Ids(cs), e.user) {
      assert e in multiset(entries);
    }
    forall u | u in cs ensures exists e :: e in r && e.user == u {
      var i :| 0 <= i < |cs| && cs[i] == u;
      assert entries[i] in multiset(r);
    }
  }

  /** The statistics of one contact other than the caller: the last message is a
      latest message exchanged between the two, and the unread count is the number
      of unread messages the contact sent the caller. */
  lemma EntryStats(ms: seq<Message>, me: Id, ids: seq<Id>, u: User)
    requires u.id in ids && u.id != me
    ensures var e := Entry(ms, me, ids, u);
      (e.lastMessage.None? <==> forall m :: m in ms ==> !Between(m, me, u.id))
      && (e.lastMessage.None? ==> e.lastMessageTime == 0)
      && (e.lastMessage.Some? ==>
            e.lastMessage.value in ms && Between(e.lastMessage.value, me, u.id)
            && e.lastMessageTime == e.lastMessage.value.createdAt
            && forall m :: m in ms && Between(m, me, u.id) ==> m.createdAt <= e.lastMessageTime)
      && e.unreadCount == |Filter(ms, UnreadFrom(u.id, me))|
  {
    var g := Filter(ms, InGroup(me, ids, u.id));
    assert forall m :: InGroup(me, ids, u.id)(m) <==> Between(m, me, u.id);
    assert forall m :: m in g <==> m in ms && Between(m, me, u.id);
    FilterFilter(ms, InGroup(me, ids, u.id), UnreadBy(me), UnreadFrom(u.id, me));
    if g == [] {
      assert forall m :: m in ms ==> !UnreadFrom(u.id, me)(m);
    }
  }

  /** Unread messages the contact sent to the caller. */
  function UnreadFrom(c: Id, me: Id): Message -> bool {
    (m: Message) => m.sender == c && m.recipient == me && !m.read
  }

  /** Without candidates the result is `[]` whatever the message store holds. */
  lemma NoCandidatesNoStats(dir: Directory, ms1: seq<Message>, ms2: seq<Message>, me: User)
    requires Candidates(dir, me) == []
    ensures Contacts(dir, ms1, me) == [] && Contacts(dir, ms2, me) == []
  {
  }

  /** The handler: the role's queries, the `forEach`/`set` de-duplication for
      teachers and students, the early return, the merge and the sort. */
  method GetContactsForUser(dir: Directory, ms: seq<Message>, me: User) returns (r: seq<Contact>)
    ensures r == Contacts(dir, ms, me)
  {
    var contacts := Pool(dir, me);
    if Deduplicates(me.role) {
      contacts := DedupeBy(contacts, UserId);
    }
    if |contacts| == 0 {
      return [];
    }
    r := SortDesc(Entries(ms, me.id, contacts), LastTime);
  }
}
