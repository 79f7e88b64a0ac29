/** Vocabulary shared by every part of the school backend model: optional values,
    the four user roles, and the HTTP-style outcome a handler answers with. */
module Common {

  /** A value that may be absent (a JavaScript `null`/`undefined`). */
  datatype Option<T> = None | Some(value: T)

  /** Identifiers of stored documents (MongoDB ObjectIds). */
  type Id = nat

  /** The roles of the User schema; `OtherRole` stands for any role string outside
      the enum (documents written before a migration), which several handlers treat
      in an explicit `else` branch. */
  datatype Role = SuperAdmin | Admin | Teacher | Student | OtherRole

  /** `[ROLES.SUPER_ADMIN, ROLES.ADMIN].includes(role)` */
  predicate IsAdmin(r: Role) {
    r == SuperAdmin || r == Admin
  }

  /** What a REST handler answers: a success payload, or an error status code. */
  datatype Outcome<T> = Ok(value: T) | Err(code: nat)

  const BadRequest: nat := 400
  const Unauthorized: nat := 401
  const Forbidden: nat := 403
  const NotFound: nat := 404
  const ServerError: nat := 500

  /** A directory user as the handlers see it. */
  datatype User = User(id: Id, role: Role, isActive: bool)

  /** `User.findById(id)`: the first stored user with that id. */
  function FindUser(users: seq<User>, id: Id): (r: Option<User>)
    ensures r.Some? <==> exists i :: 0 <= i < |users| && users[i].id == id
    ensures r.Some? ==> r.value in users && r.value.id == id
  {
    if |users| == 0 then None
    else if users[0].id == id then Some(users[0])
    else FindUser(users[1..], id)
  }

  /** The user collection's unique `_id` index. */
  predicate UniqueUserIds(users: seq<User>) {
    forall i, j :: 0 <= i < j < |users| ==> users[i].id != users[j].id
  }

  /** With unique ids, the lookup returns the one stored user with that id. */
  lemma {:induction false} FindUserUnique(users: seq<User>, u: User)
    requires UniqueUserIds(users)
    requires u in users
    ensures FindUser(users, u.id) == Some(u)
  {
    if users[0] != u {
      assert users[0].id != u.id by {
        var k :| 0 <= k < |users| && users[k] == u;
        assert k != 0;
      }
      assert UniqueUserIds(users[1..]) by {
        forall i, j | 0 <= i < j < |users[1..]|
          ensures users[1..][i].id != users[1..][j].id
        {
          assert users[1..][i] == users[i + 1] && users[1..][j] == users[j + 1];
        }
      }
      FindUserUnique(users[1..], u);
    }
  }
}
