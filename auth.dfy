/** The request middleware (auth.js): `protect` authenticates a bearer token,
    `authorize` admits a list of roles, `checkPermission` consults the stored
    Permission document of the caller's role, and `isOwnerOrAdmin` admits admins
    and the owner of a resource. Token verification is a partial map from token
    to user id; a token outside it is one `jwt.verify` rejects. */
module Auth {
  import opened Common
  import opened Text
  import opened Permissions

  /** `authorization.startsWith('Bearer')` */
  predicate StartsWithBearer(header: string) {
    |header| >= 6 && header[..6] == "Bearer"
  }

  /** The token `protect` reads: the second space-separated word of a header that
      starts with "Bearer"; `None` when there is no usable (truthy) token. */
  function BearerToken(header: Option<string>): (r: Option<string>)
    ensures r.Some? ==> r.value != [] && ' ' !in r.value
    ensures r.Some? <==> (header.Some? && StartsWithBearer(header.value)
      && SecondWord(header.value).Some? && SecondWord(header.value).value != [])
  {
    if header.Some? && StartsWithBearer(header.value) then
      var w := SecondWord(header.value);
      if w.Some? && w.value != [] then w else None
    else None
  }

  /** `protect`: 401 without a token, for a token that does not verify, for an
      unknown user and for an inactive one; otherwise the request carries the
      user. */
  function Protect(header: Option<string>, verify: map<string, Id>, users: seq<User>): (r: Outcome<User>)
    ensures r.Err? ==> r.code == Unauthorized
    ensures r.Ok? <==> (BearerToken(header).Some? && BearerToken(header).value in verify
      && FindUser(users, verify[BearerToken(header).value]).Some?
      && FindUser(users, verify[BearerToken(header).value]).value.isActive)
    ensures r.Ok? ==> (r.value.isActive && r.value in users
      && r.value.id == verify[BearerToken(header).value])
  {
    var token := BearerToken(header);
    if token.None? then Err(Unauthorized)
    else if token.value !in verify then Err(Unauthorized)
    else
      var user := FindUser(users, verify[token.value]);
      if user.None? then Err(Unauthorized)
      else if !user.value.isActive then Err(Unauthorized)
      else Ok(user.value)
  }

  /** A well-formed "Bearer <token>" header authenticates exactly the active
      stored user the token names. */
  lemma ProtectBearer(token: string, verify: map<string, Id>, users: seq<User>, u: User)
    requires token != [] && ' ' !in token && token in verify
    requires UniqueUserIds(users) && u in users && u.id == verify[token]
    ensures Protect(Some("Bearer " + token), verify, users) == if u.isActive then Ok(u) else Err(Unauthorized)
  {
    SecondWordOfPair("Bearer", token, []);
    assert "Bearer" + " " + token + [] == "Bearer " + token;
    assert ("Bearer " + token)[..6] == "Bearer";
    FindUserUnique(users, u);
  }

  /** `authorize(...roles)`: 403 unless the caller's role is listed. */
  function Authorize(user: User, roles: seq<Role>): (r: Outcome<User>)
    ensures r.Ok? <==> user.role in roles
    ensures r.Ok? ==> r.value == user
    ensures r.Err? ==> r.code == Forbidden
  {
    if user.role in roles then Ok(user) else Err(Forbidden)
  }

  /** `checkPermission(resource, action)`: 403 when the role has no Permission
      document, when the document has no entry for the resource, or when the
      action's flag is false. */
  function CheckPermission(docs: seq<PermissionDoc>, role: Role, res: Resource, a: Action): (r: Outcome<()>)
    ensures r.Err? ==> r.code == Forbidden
    ensures r.Ok? <==> (FindByRole(docs, role).Some?
      && Entry(FindByRole(docs, role).value.permissions, res).Some?
      && Allows(Entry(FindByRole(docs, role).value.permissions, res).value, a))
  {
    match FindByRole(docs, role)
    case None => Err(Forbidden)
    case Some(doc) =>
      match Entry(doc.permissions, res)
      case None => Err(Forbidden)
      case Some(f) => if Allows(f, a) then Ok(()) else Err(Forbidden)
  }

  /** Once the defaults are installed, `checkPermission` follows the default
      table for every enum role, whatever the collection held before. */
  lemma CheckPermissionAfterInit(docs: seq<PermissionDoc>, role: Role, res: Resource, a: Action)
    requires role != OtherRole
    ensures CheckPermission(Initialized(docs), role, res, a).Ok? <==> Allows(DefaultFlags(role, res), a)
  {
    var k := 3 - Rank(role);
    assert EnumRole(k) == role;
    InitializedFinds(docs, k);
  }

  /** `isOwnerOrAdmin(getResourceUserId)`: admins pass whatever the owner lookup
      would answer; anyone else passes iff the resource's owner is the caller. */
  function IsOwnerOrAdmin(user: User, owner: Option<Id>): (r: Outcome<()>)
    ensures IsAdmin(user.role) ==> r.Ok?
    ensures !IsAdmin(user.role) ==> (r.Ok? <==> owner == Some(user.id))
    ensures r.Err? ==> r.code == Forbidden
  {
    if IsAdmin(user.role) then Ok(())
    else if owner.Some? && owner.value == user.id then Ok(())
    else Err(Forbidden)
  }
}
