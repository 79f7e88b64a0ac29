/** General learning materials (materialController.js): uploading one with its
    URL and reference-field normalisation, the list a student may see, and who
    may delete one. The rule choosing a material's URL is shared with the
    course materials of courseController.js. */
module Materials {
  import opened Common
  import opened Text
  import opened School
  import opened JsArray

  /** The directory the upload middleware stores material files under. */
  const UploadDir: string := "/uploads/materials/"

  /** The `type` enum of a material. */
  const MaterialKinds: set<string> := {"video", "file", "link"}

  const LinkKind: string := "link"

  /** `req.file ? '/uploads/materials/' + filename : null`. */
  function FilePath(file: Option<string>): (r: Option<string>)
    ensures r.Some? <==> file.Some?
    ensures r.Some? ==> r.value == UploadDir + file.value
  {
    if file.Some? then Some(UploadDir + file.value) else None
  }

  /** The stored URL: an uploaded file's path unless the type is `link`;
      otherwise (a link, or no file) the URL the request supplied. */
  function FinalUrl(kind: Option<string>, url: Option<string>, file: Option<string>): (r: Option<string>)
    ensures file.Some? && kind != Some(LinkKind) ==> r == Some(UploadDir + file.value)
    ensures file.None? || kind == Some(LinkKind) ==> r == url
  {
    if kind != Some(LinkKind) && FilePath(file).Some? then FilePath(file) else url
  }

  /** JavaScript truthiness of an optional string: present and not empty. */
  predicate Truthy(s: Option<string>) {
    s.Some? && s.value != []
  }

  /** `class_id`/`subject_id` as sent: missing or empty, the word "none", or an id. */
  datatype RefArg = Blank | NoneWord | Ref(id: Id)

  /** `x && x !== 'none' ? x : null`. */
  function RefOf(a: RefArg): (r: Option<Id>)
    ensures r.None? <==> (a == Blank || a == NoneWord)
    ensures a.Ref? ==> r == Some(a.id)
  {
    if a.Ref? then Some(a.id) else None
  }

  /** `allow_download` as sent: missing, a JSON boolean, or a form string. */
  datatype FlagArg = FlagAbsent | FlagBool(b: bool) | FlagText(s: string)

  /** `allow_download === 'true' || allow_download === true`. */
  function AllowDownload(a: FlagArg): (r: bool)
    ensures r <==> (a == FlagBool(true) || a == FlagText("true"))
  {
    match a
    case FlagBool(b) => b
    case FlagText(s) => s == "true"
    case FlagAbsent => false
  }

  datatype MaterialDoc = MaterialDoc(
    id: Id,
    title: string,
    kind: string,
    url: string,
    filePath: Option<string>,
    description: Option<string>,
    grade: int,
    classId: Option<Id>,
    subjectId: Option<Id>,
    uploadedBy: Id,
    allowDownload: bool,
    createdAt: int)

  /** The body of an upload; `grade` is `Number(grade)`, `None` when that is `NaN`. */
  datatype UploadRequest = UploadRequest(
    title: Option<string>,
    kind: Option<string>,
    url: Option<string>,
    description: Option<string>,
    grade: Option<int>,
    classId: RefArg,
    subjectId: RefArg,
    allowDownload: FlagArg)

  /** The handler's own check: a URL (or file) is required unless the type is `link`. */
  predicate UrlPresent(kind: Option<string>, finalUrl: Option<string>) {
    Truthy(finalUrl) || kind == Some(LinkKind)
  }

  /** The schema's validation: a title that is not blank once trimmed, a type
      from the enum, a non-empty URL and a grade from 1 to 12. */
  predicate SchemaAccepts(req: UploadRequest, finalUrl: Option<string>) {
    req.title.Some? && Trim(req.title.value) != []
    && req.kind.Some? && req.kind.value in MaterialKinds
    && Truthy(finalUrl)
    && req.grade.Some? && 1 <= req.grade.value <= 12
  }

  /** `uploadMaterial`: 400 from the handler's URL check, then 400 from the
      schema; otherwise the stored material, with empty or "none" references
      stored as null and `allow_download` set only by a literal true. */
  function UploadMaterial(id: Id, req: UploadRequest, file: Option<string>, caller: Id, now: int): (r: Outcome<MaterialDoc>)
    ensures var u := FinalUrl(req.kind, req.url, file);
      r.Ok? <==> UrlPresent(req.kind, u) && SchemaAccepts(req, u)
    ensures r.Err? ==> r.code == BadRequest
    ensures r.Ok? ==> var m := r.value;
      Some(m.url) == FinalUrl(req.kind, req.url, file) && m.filePath == FilePath(file)
      && m.title == Trim(req.title.value) && Some(m.kind) == req.kind && Some(m.grade) == req.grade
      && m.classId == RefOf(req.classId) && m.subjectId == RefOf(req.subjectId)
      && (m.allowDownload <==> (req.allowDownload == FlagBool(true) || req.allowDownload == FlagText("true")))
      && m.description == TrimField(req.description)
      && m.uploadedBy == caller && m.id == id && m.createdAt == now
  {
    var u := FinalUrl(req.kind, req.url, file);
    if !UrlPresent(req.kind, u) then Err(BadRequest)
    else if !SchemaAccepts(req, u) then Err(BadRequest)
    else Ok(MaterialDoc(id, Trim(req.title.value), req.kind.value, u.value, FilePath(file),
                        TrimField(req.description),
                        req.grade.value, RefOf(req.classId), RefOf(req.subjectId), caller,
                        AllowDownload(req.allowDownload), now))
  }

  /** A link with no URL gets through the handler's own check, and is then
      refused by the schema's required `url`. */
  lemma LinkWithoutUrl(id: Id, req: UploadRequest, file: Option<string>, caller: Id, now: int)
    requires req.kind == Some(LinkKind) && !Truthy(req.url)
    ensures UrlPresent(req.kind, FinalUrl(req.kind, req.url, file))
    ensures UploadMaterial(id, req, file, caller, now) == Err(BadRequest)
  {
  }

  /** An uploaded file wins over a supplied URL for every type but `link`; a
      stored material without a file keeps the URL it was sent. */
  lemma UploadUrl(id: Id, req: UploadRequest, file: Option<string>, caller: Id, now: int)
    requires UploadMaterial(id, req, file, caller, now).Ok?
    ensures var m := UploadMaterial(id, req, file, caller, now).value;
      (file.Some? && req.kind != Some(LinkKind) ==> m.url == UploadDir + file.value && m.filePath == Some(m.url))
      && (file.None? || req.kind == Some(LinkKind) ==> Some(m.url) == req.url)
  {
  }

  /** The class a student's `class_id` populates to: its id and grade. */
  datatype ClassGrade = ClassGrade(id: Id, grade: int)

  function ClassGradeById(classes: seq<ClassGrade>, id: Id): (r: Option<ClassGrade>)
    ensures r.Some? ==> r.value in classes && r.value.id == id
    ensures r.None? <==> forall c :: c in classes ==> c.id != id
  {
    if classes == [] then None
    else if classes[0].id == id then Some(classes[0])
    else ClassGradeById(classes[1..], id)
  }

  function MaterialCreated(m: MaterialDoc): int {
    m.createdAt
  }

  /** The class a student user may see materials for: none without a profile,
      without a class, or when the class reference does not resolve. */
  function StudentClass(students: seq<StudentProfile>, classes: seq<ClassGrade>, userId: Id): (r: Option<ClassGrade>)
    ensures r.Some? ==> (r.value in classes
      && exists s :: s in students && s.userId == userId && s.classId == Some(r.value.id))
  {
    var s := StudentOfUser(students, userId);
    if s.None? || s.value.classId.None? then None
    else ClassGradeById(classes, s.value.classId.value)
  }

  /** For a student, a material of their class or of their class's grade. */
  predicate ForClass(m: MaterialDoc, c: ClassGrade) {
    m.classId == Some(c.id) || m.grade == c.grade
  }

  /** `getMaterials`: newest first; a student sees the materials of their class
      or grade (none without a resolvable class), everybody else sees all. */
  function GetMaterials(caller: User, students: seq<StudentProfile>, classes: seq<ClassGrade>,
                        ms: seq<MaterialDoc>): (r: seq<MaterialDoc>)
    ensures SortedDesc(r, MaterialCreated)
  {
    if caller.role == Student then
      var c := StudentClass(students, classes, caller.id);
      if c.None? then []
      else SortDesc(Filter(ms, (m: MaterialDoc) => ForClass(m, c.value)), MaterialCreated)
    else SortDesc(ms, MaterialCreated)
  }

  /** A material is listed exactly when it is stored and, for a student, is
      for their class or grade; a student without a resolvable class sees none.
      Non-students get every stored material. */
  lemma GetMaterialsContents(caller: User, students: seq<StudentProfile>, classes: seq<ClassGrade>,
                             ms: seq<MaterialDoc>, m: MaterialDoc)
    ensures var r := GetMaterials(caller, students, classes, ms);
      var c := StudentClass(students, classes, caller.id);
      (caller.role == Student && c.None? ==> r == [])
      && (m in r <==> m in ms && (caller.role == Student ==> c.Some? && ForClass(m, c.value)))
      && (caller.role != Student ==> multiset(r) == multiset(ms))
  {
    var r := GetMaterials(caller, students, classes, ms);
    var c := StudentClass(students, classes, caller.id);
    if caller.role == Student && c.Some? {
      var f := Filter(ms, (x: MaterialDoc) => ForClass(x, c.value));
      assert m in r <==> m in multiset(f);
      if m in ms && ForClass(m, c.value) {
        var i :| 0 <= i < |ms| && ms[i] == m;
      }
    } else if caller.role != Student {
      assert m in r <==> m in multiset(ms);
    }
  }

  /** `deleteMaterial`'s rule: an admin or super admin, or the uploader. */
  predicate MayDeleteMaterial(m: MaterialDoc, caller: User) {
    IsAdmin(caller.role) || m.uploadedBy == caller.id
  }

  function MaterialIndex(ms: seq<MaterialDoc>, id: Id): (r: Option<nat>)
    ensures r.Some? ==> (r.value < |ms| && ms[r.value].id == id
      && forall k :: 0 <= k < r.value ==> ms[k].id != id)
    ensures r.None? <==> forall m :: m in ms ==> m.id != id
  {
    if ms == [] then None
    else if ms[0].id == id then Some(0)
    else
      var k := MaterialIndex(ms[1..], id);
      if k.Some? then Some(k.value + 1) else None
  }

  /** `deleteMaterial`: 404 for an unknown id, 403 for a caller who is neither
      an admin nor the uploader, otherwise the collection without it. */
  function DeleteMaterial(ms: seq<MaterialDoc>, id: Id, caller: User): (r: Outcome<seq<MaterialDoc>>)
    ensures var k := MaterialIndex(ms, id);
      (r == Err(NotFound) <==> k.None?)
      && (r == Err(Forbidden) <==> k.Some? && !MayDeleteMaterial(ms[k.value], caller))
      && (r.Ok? ==> k.Some? && r.value == ms[..k.value] + ms[k.value + 1..])
  {
    var k := MaterialIndex(ms, id);
    if k.None? then Err(NotFound)
    else if !MayDeleteMaterial(ms[k.value], caller) then Err(Forbidden)
    else Ok(ms[..k.value] + ms[k.value + 1..])
  }

  /** With unique ids a deletion removes exactly the material asked for:
      every other material stays. */
  lemma DeleteMaterialRemoves(ms: seq<MaterialDoc>, id: Id, caller: User)
    requires forall i, j :: 0 <= i < j < |ms| ==> ms[i].id != ms[j].id
    requires DeleteMaterial(ms, id, caller).Ok?
    ensures var r := DeleteMaterial(ms, id, caller).value;
      |r| == |ms| - 1 && (forall m :: m in r ==> m.id != id)
      && forall m :: m in ms && m.id != id ==> m in r
  {
    var k := MaterialIndex(ms, id).value;
    var r := DeleteMaterial(ms, id, caller).value;
    forall m | m in r ensures m.id != id {
      var j :| 0 <= j < |r| && r[j] == m;
      if j < k { assert m == ms[j]; } else { assert m == ms[j + 1]; }
    }
    forall m | m in ms && m.id != id ensures m in r {
      var j :| 0 <= j < |ms| && ms[j] == m;
      if j < k { assert r[j] == m; } else { assert j != k; assert r[j - 1] == m; }
    }
  }
}
