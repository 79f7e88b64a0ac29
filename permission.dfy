/** The Permission collection (Permission.js): one document per role holding a
    create/read/update/delete flag set for each of ten resources, the built-in
    default table, and `initializePermissions`, which upserts that table keyed by
    role. */
module Permissions {
  import opened Common

  datatype Resource =
    | Users | Students | Teachers | Classes | Subjects | ClassSubjects
    | Absences | Fees | PermissionsResource | Reports

  datatype Action = Create | Read | Update | Delete

  /** One `resourcePermissionSchema` sub-document; every flag defaults to false. */
  datatype Flags = Flags(create: bool, read: bool, update: bool, delete: bool)

  const NoFlags := Flags(false, false, false, false)

  /** `resourcePermissions[action]` */
  predicate Allows(f: Flags, a: Action) {
    match a
    case Create => f.create
    case Read => f.read
    case Update => f.update
    case Delete => f.delete
  }

  /** Every action `f` allows, `g` allows too. */
  predicate Below(f: Flags, g: Flags) {
    forall a: Action :: Allows(f, a) ==> Allows(g, a)
  }

  /** The `permissions` object: one optional sub-document per resource, since a
      stored document may lack any of them (it is then `undefined`). */
  datatype Table = Table(
    users: Option<Flags>, students: Option<Flags>, teachers: Option<Flags>,
    classes: Option<Flags>, subjects: Option<Flags>, classSubjects: Option<Flags>,
    absences: Option<Flags>, fees: Option<Flags>, permissions: Option<Flags>,
    reports: Option<Flags>)

  /** `permission.permissions[resource]` */
  function Entry(t: Table, res: Resource): Option<Flags> {
    match res
    case Users => t.users
    case Students => t.students
    case Teachers => t.teachers
    case Classes => t.classes
    case Subjects => t.subjects
    case ClassSubjects => t.classSubjects
    case Absences => t.absences
    case Fees => t.fees
    case PermissionsResource => t.permissions
    case Reports => t.reports
  }

  /** A stored Permission document. */
  datatype PermissionDoc = PermissionDoc(role: Role, description: string, permissions: Table)

  // ---------------------------------------------------------------------------
  // The default table, one role at a time, each row below the next one up.

  /** `super_admin`: every action on every resource. */
  function SuperAdminFlags(res: Resource): (f: Flags)
    ensures forall a: Action :: Allows(f, a)
  {
    Flags(true, true, true, true)
  }

  /** `admin`: never delete; `permissions` is read-only; `reports` may not be
      updated; everything else may be created, read and updated. */
  function AdminFlags(res: Resource): (f: Flags)
    ensures !f.delete && f.read
    ensures res == PermissionsResource ==> f == Flags(false, true, false, false)
    ensures f.update <==> res != PermissionsResource && res != Reports
    ensures f.create <==> res != PermissionsResource
    ensures Below(f, SuperAdminFlags(res))
  {
    match res
    case PermissionsResource => Flags(false, true, false, false)
    case Reports => Flags(true, true, false, false)
    case _ => Flags(true, true, true, false)
  }

  /** `teacher`: creates and updates only absences, deletes nothing, and reads
      everything except the permission table. */
  function TeacherFlags(res: Resource): (f: Flags)
    ensures !f.delete
    ensures f.create || f.update ==> res == Absences
    ensures f.read <==> res != PermissionsResource
    ensures Below(f, AdminFlags(res))
  {
    match res
    case Absences => Flags(true, true, true, false)
    case PermissionsResource => NoFlags
    case _ => Flags(false, true, false, false)
  }

  /** `student`: no create, update or delete anywhere; reads only students,
      teachers, classes, subjects and class subjects. */
  function StudentFlags(res: Resource): (f: Flags)
    ensures !f.create && !f.update && !f.delete
    ensures f.read <==> res in {Students, Teachers, Classes, Subjects, ClassSubjects}
    ensures Below(f, TeacherFlags(res))
  {
    match res
    case Students => Flags(false, true, false, false)
    case Teachers => Flags(false, true, false, false)
    case Classes => Flags(false, true, false, false)
    case Subjects => Flags(false, true, false, false)
    case ClassSubjects => Flags(false, true, false, false)
    case _ => NoFlags
  }

  /** The roles the Permission schema's enum admits, lowest first. */
  function Rank(role: Role): nat {
    match role
    case Student => 0
    case Teacher => 1
    case Admin => 2
    case SuperAdmin => 3
    case OtherRole => 0
  }

  /** The default flags of an enum role for one resource. */
  function DefaultFlags(role: Role, res: Resource): Flags
    requires role != OtherRole
  {
    match role
    case SuperAdmin => SuperAdminFlags(res)
    case Admin => AdminFlags(res)
    case Teacher => TeacherFlags(res)
    case Student => StudentFlags(res)
  }

  /** The table is a hierarchy: whatever a role may do, every role above it may
      do too. */
  lemma DefaultMonotone(lo: Role, hi: Role, res: Resource, a: Action)
    requires lo != OtherRole && hi != OtherRole && Rank(lo) <= Rank(hi)
    requires Allows(DefaultFlags(lo, res), a)
    ensures Allows(DefaultFlags(hi, res), a)
  {
    var s, t, ad, su := StudentFlags(res), TeacherFlags(res), AdminFlags(res), SuperAdminFlags(res);
    assert Allows(s, a) ==> Allows(t, a);
    assert Allows(t, a) ==> Allows(ad, a);
    assert Allows(ad, a) ==> Allows(su, a);
  }

  function DefaultDoc(role: Role, description: string): (d: PermissionDoc)
    requires role != OtherRole
    ensures d.role == role && d.description == description
    ensures forall res :: Entry(d.permissions, res) == Some(DefaultFlags(role, res))
  {
    PermissionDoc(role, description, Table(
      Some(DefaultFlags(role, Users)), Some(DefaultFlags(role, Students)), Some(DefaultFlags(role, Teachers)),
      Some(DefaultFlags(role, Classes)), Some(DefaultFlags(role, Subjects)), Some(DefaultFlags(role, ClassSubjects)),
      Some(DefaultFlags(role, Absences)), Some(DefaultFlags(role, Fees)), Some(DefaultFlags(role, PermissionsResource)),
      Some(DefaultFlags(role, Reports))))
  }

  function Description(role: Role): string {
    match role
    case SuperAdmin => "Full system access"
    case Admin => "Content management without delete"
    case Teacher => "Attendance recording and reports"
    case Student => "View own data only"
    case OtherRole => ""
  }

  /** The default document of an enum role, with its description. */
  function RoleDoc(role: Role): (d: PermissionDoc)
    requires role != OtherRole
    ensures d.role == role
  {
    DefaultDoc(role, Description(role))
  }

  /** The `k`-th role of the default table: the enum roles, highest first. */
  function EnumRole(k: nat): (role: Role)
    requires k < 4
    ensures role != OtherRole && Rank(role) == 3 - k
  {
    if k == 0 then SuperAdmin else if k == 1 then Admin else if k == 2 then Teacher else Student
  }

  /** `getDefaultPermissions()`: one document per enum role, in this order. */
  function DefaultPermissions(): (r: seq<PermissionDoc>)
    ensures |r| == 4
    ensures forall k :: 0 <= k < 4 ==> r[k] == RoleDoc(EnumRole(k))
  {
    seq(4, k requires 0 <= k < 4 => RoleDoc(EnumRole(k)))
  }

  // ---------------------------------------------------------------------------
  // The collection, keyed by role.

  /** Position of the first document with that role, as `findOne({ role })` sees it. */
  function RoleIndex(docs: seq<PermissionDoc>, role: Role): (r: Option<nat>)
    ensures r.Some? ==> (r.value < |docs| && docs[r.value].role == role
      && forall j :: 0 <= j < r.value ==> docs[j].role != role)
    ensures r.None? ==> forall j :: 0 <= j < |docs| ==> docs[j].role != role
  {
    if docs == [] then None
    else if docs[0].role == role then Some(0)
    else match RoleIndex(docs[1..], role)
      case None => None
      case Some(i) => Some(i + 1)
  }

  /** `Permission.findOne({ role })` */
  function FindByRole(docs: seq<PermissionDoc>, role: Role): (r: Option<PermissionDoc>)
    ensures r.None? <==> forall j :: 0 <= j < |docs| ==> docs[j].role != role
    ensures r.Some? ==> r.value.role == role && r.value in docs
  {
    match RoleIndex(docs, role)
    case None => None
    case Some(i) => Some(docs[i])
  }

  /** `findOneAndUpdate({ role: p.role }, p, { upsert: true })`: the first document
      with that role takes every field of `p`; with none, `p` is inserted. */
  function Upsert(docs: seq<PermissionDoc>, p: PermissionDoc): (r: seq<PermissionDoc>)
    ensures FindByRole(r, p.role) == Some(p)
    ensures |r| == |docs| || r == docs + [p]
  {
    match RoleIndex(docs, p.role)
    case None =>
      assert RoleIndex(docs + [p], p.role) == Some(|docs|) by {
        RoleIndexAppend(docs, p);
      }
      docs + [p]
    case Some(i) =>
      assert RoleIndex(docs[i := p], p.role) == Some(i) by {
        RoleIndexUpdate(docs, i, p);
      }
      docs[i := p]
  }

  lemma {:induction false} RoleIndexAppend(docs: seq<PermissionDoc>, p: PermissionDoc)
    requires forall j :: 0 <= j < |docs| ==> docs[j].role != p.role
    ensures RoleIndex(docs + [p], p.role) == Some(|docs|)
  {
    if docs != [] {
      assert (docs + [p])[1..] == docs[1..] + [p];
      RoleIndexAppend(docs[1..], p);
    }
  }

  lemma {:induction false} RoleIndexUpdate(docs: seq<PermissionDoc>, i: nat, p: PermissionDoc)
    requires i < |docs| && forall j :: 0 <= j < i ==> docs[j].role != p.role
    ensures RoleIndex(docs[i := p], p.role) == Some(i)
  {
    if i > 0 {
      assert docs[i := p][1..] == docs[1..][i - 1 := p];
      RoleIndexUpdate(docs[1..], i - 1, p);
    }
  }

  /** Upserting one role leaves the lookup of every other role as it was. */
  lemma UpsertOther(docs: seq<PermissionDoc>, p: PermissionDoc, role: Role)
    requires role != p.role
    ensures FindByRole(Upsert(docs, p), role) == FindByRole(docs, role)
  {
    var r := Upsert(docs, p);
    var k := RoleIndex(docs, role);
    if k.Some? {
      RoleIndexPrefix(r, docs, k.value, role);
    } else {
      assert forall j :: 0 <= j < |r| ==> r[j].role != role;
    }
  }

  lemma {:induction false} RoleIndexPrefix(r: seq<PermissionDoc>, docs: seq<PermissionDoc>, k: nat, role: Role)
    requires k < |docs| && k < |r| && r[k] == docs[k] && docs[k].role == role
    requires forall j :: 0 <= j < k ==> r[j].role != role
    ensures RoleIndex(r, role) == Some(k)
  {
    if k > 0 {
      RoleIndexPrefix(r[1..], docs[1..], k - 1, role);
    }
  }

  /** Upserting a document that is already what the lookup finds changes nothing. */
  lemma UpsertPresent(docs: seq<PermissionDoc>, p: PermissionDoc)
    requires FindByRole(docs, p.role) == Some(p)
    ensures Upsert(docs, p) == docs
  {
  }

  /** The first `k` upserts of the default table, in order. */
  function InitPrefix(docs: seq<PermissionDoc>, k: nat): seq<PermissionDoc>
    requires k <= 4
  {
    if k == 0 then docs else Upsert(InitPrefix(docs, k - 1), DefaultPermissions()[k - 1])
  }

  /** `initializePermissions()` over the stored collection. */
  function Initialized(docs: seq<PermissionDoc>): seq<PermissionDoc> {
    InitPrefix(docs, 4)
  }

  /** After initialisation each enum role finds exactly its default document,
      whatever the collection held before. */
  lemma InitializedDefaults(docs: seq<PermissionDoc>)
    ensures forall k :: 0 <= k < 4 ==> FindByRole(Initialized(docs), DefaultPermissions()[k].role) == Some(DefaultPermissions()[k])
  {
    forall k | 0 <= k < 4
      ensures FindByRole(Initialized(docs), DefaultPermissions()[k].role) == Some(DefaultPermissions()[k])
    {
      InitializedFinds(docs, k);
    }
  }

  /** The `k`-th default document is found after its own upsert and stays
      found through the later ones, which are for other roles. */
  lemma InitializedFinds(docs: seq<PermissionDoc>, k: nat)
    requires k < 4
    ensures FindByRole(Initialized(docs), DefaultPermissions()[k].role) == Some(DefaultPermissions()[k])
  {
    var d := DefaultPermissions();
    var j := k + 1;
    while j < 4
      invariant k + 1 <= j <= 4
      invariant FindByRole(InitPrefix(docs, j), d[k].role) == Some(d[k])
    {
      assert Rank(d[j].role) != Rank(d[k].role);
      UpsertOther(InitPrefix(docs, j), d[j], d[k].role);
      j := j + 1;
    }
  }

  /** Running `initializePermissions` twice yields the same collection as once. */
  lemma InitializeIdempotent(docs: seq<PermissionDoc>)
    ensures Initialized(Initialized(docs)) == Initialized(docs)
  {
    var x := Initialized(docs);
    var d := DefaultPermissions();
    InitializedDefaults(docs);
    UpsertPresent(x, d[0]);
    assert InitPrefix(x, 1) == x;
    UpsertPresent(x, d[1]);
    assert InitPrefix(x, 2) == x;
    UpsertPresent(x, d[2]);
    assert InitPrefix(x, 3) == x;
    UpsertPresent(x, d[3]);
  }

  /** The role index is unique: no two documents share a role. */
  ghost predicate UniqueRoles(docs: seq<PermissionDoc>) {
    forall i, j :: 0 <= i < j < |docs| ==> docs[i].role != docs[j].role
  }

  /** The upsert never breaks the unique role index. */
  lemma UpsertUnique(docs: seq<PermissionDoc>, p: PermissionDoc)
    requires UniqueRoles(docs)
    ensures UniqueRoles(Upsert(docs, p))
  {
  }

  class PermissionStore {
    var docs: seq<PermissionDoc>

    ghost predicate Valid()
      reads this
    {
      UniqueRoles(docs)
    }

    constructor()
      ensures Valid() && docs == []
    {
      docs := [];
    }

    /** The `for … of` loop over the default table, one upsert per role. */
    method InitializePermissions()
      requires Valid()
      modifies this
      ensures Valid()
      ensures docs == Initialized(old(docs))
    {
      var defaults := DefaultPermissions();
      for k := 0 to 4
        invariant Valid()
        invariant docs == InitPrefix(old(docs), k)
      {
        UpsertUnique(docs, defaults[k]);
        docs := Upsert(docs, defaults[k]);
      }
    }
  }
}
