/** The Users and Roles tables: row shapes, the closed role enumeration and
    the `findOne` lookups the controllers make. */
module UsersModel {
  import opened Wrappers

  /** The closed role enumeration of the Roles table. */
  datatype Role = Viewer | Editor | Admin

  /** The name a role is stored under. */
  function RoleName(r: Role): string
  {
    match r
    case Viewer => "viewer"
    case Editor => "editor"
    case Admin => "admin"
  }

  /** One row of the Users table. `password` holds the bcrypt hash;
      `failedAttemptCount` may be null. */
  datatype User = User(
    id: nat,
    username: string,
    password: string,
    roleId: int,
    isActive: bool,
    failedAttemptCount: Option<nat>)

  /** The index of the first row satisfying `p`, as a `findOne` scan returns it. */
  function FirstIndex(users: seq<User>, p: User -> bool): (r: Option<nat>)
    ensures r.Some? ==> r.value < |users| && p(users[r.value])
    ensures r.Some? ==> forall j :: 0 <= j < r.value ==> !p(users[j])
    ensures r.None? <==> forall j :: 0 <= j < |users| ==> !p(users[j])
  {
    if users == [] then None
    else if p(users[0]) then Some(0)
    else match FirstIndex(users[1..], p)
      case None => None
      case Some(k) => Some(k + 1)
  }

  /** `Users.findOne({ where: { username } })`. */
  function FindByUsername(users: seq<User>, name: string): (r: Option<nat>)
    ensures r.Some? ==> r.value < |users| && users[r.value].username == name
    ensures r.None? <==> forall j :: 0 <= j < |users| ==> users[j].username != name
  {
    FirstIndex(users, (u: User) => u.username == name)
  }

  /** The row with primary key `id`, as the `include` join of the audit listing finds it. */
  function FindById(users: seq<User>, id: nat): (r: Option<nat>)
    ensures r.Some? ==> r.value < |users| && users[r.value].id == id
    ensures r.None? <==> forall j :: 0 <= j < |users| ==> users[j].id != id
  {
    FirstIndex(users, (u: User) => u.id == id)
  }

  /** The `unique: true` constraint on `username`. */
  ghost predicate UniqueUsernames(users: seq<User>)
  {
    forall i, j :: 0 <= i < j < |users| ==> users[i].username != users[j].username
  }

  /** `id` is the primary key. */
  ghost predicate UniqueIds(users: seq<User>)
  {
    forall i, j :: 0 <= i < j < |users| ==> users[i].id != users[j].id
  }
}
