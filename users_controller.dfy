/** `postUsers` (validate, check the username, insert) and the projection `getAllUsers` returns. */
module UsersController {
  import opened Wrappers
  import opened Http
  import opened UsersModel
  import opened Store

  /** The request body; every field may be missing. */
  datatype NewUserBody = NewUserBody(
    username: Option<string>, password: Option<string>, roleId: Option<int>, isActive: Option<bool>)

  /** The success payload: the new row without its password. */
  datatype CreatedUser = CreatedUser(id: nat, username: string, roleId: int, isActive: bool)

  const MISSING_FIELDS := "Mohon isi username, password, role"
  const USERNAME_TAKEN := "Username sudah digunakan. Silakan pilih yang lain."
  const USER_CREATED := "Pengguna berhasil dibuat."

  /** None of `!username || !password || !roleId || !isActive` holds: the strings are
      present and non-empty, the role id is present and nonzero, and `isActive` is `true`. */
  predicate HasRequiredFields(b: NewUserBody): (r: bool)
    ensures b.username.None? || b.username == Some("") ==> !r
    ensures b.password.None? || b.password == Some("") ==> !r
    ensures b.roleId.None? || b.roleId == Some(0) ==> !r
    ensures b.isActive != Some(true) ==> !r
    ensures r ==> b.username.value != "" && b.password.value != "" && b.roleId.value != 0
    ensures (&& b.username.Some? && b.username.value != "" && b.password.Some? && b.password.value != ""
             && b.roleId.Some? && b.roleId.value != 0 && b.isActive == Some(true)) ==> r
  {
    && b.username.Some? && b.username.value != ""
    && b.password.Some? && b.password.value != ""
    && b.roleId.Some? && b.roleId.value != 0
    && b.isActive == Some(true)
  }

  /** `postUsers`; `hash` stands for `bcrypt.hash(password, 12)`. */
  method PostUsers(db: Database, body: NewUserBody, hash: string -> string) returns (resp: Response<CreatedUser>)
    requires db.Valid()
    modifies db`users, db`nextUserId
    ensures db.Valid()
    ensures !HasRequiredFields(body) ==>
      resp == Response(400, MISSING_FIELDS, None) && db.users == old(db.users) && db.nextUserId == old(db.nextUserId)
    ensures HasRequiredFields(body) && FindByUsername(old(db.users), body.username.value).Some? ==>
      resp == Response(409, USERNAME_TAKEN, None) && db.users == old(db.users) && db.nextUserId == old(db.nextUserId)
    ensures HasRequiredFields(body) && FindByUsername(old(db.users), body.username.value).None? ==>
      var row := User(old(db.nextUserId), body.username.value, hash(body.password.value),
                      body.roleId.value, body.isActive.value, None);
      && db.users == old(db.users) + [row]
      && resp == Response(200, USER_CREATED, Some(CreatedUser(row.id, row.username, row.roleId, row.isActive)))
  {
    if !HasRequiredFields(body) {
      return Response(400, MISSING_FIELDS, None);
    }
    var username, password, roleId, isActive := body.username.value, body.password.value, body.roleId.value, body.isActive.value;
    var existing := FindByUsername(db.users, username);
    if existing.Some? {
      return Response(409, USERNAME_TAKEN, None);
    }
    var passwordHash := hash(password);
    var newUser := db.Create(username, passwordHash, roleId, isActive);
    resp := Response(200, USER_CREATED, Some(CreatedUser(newUser.id, newUser.username, newUser.roleId, newUser.isActive)));
  }

  /** A column value in a JSON row. */
  datatype Value = IntValue(i: int) | TextValue(s: string) | BoolValue(b: bool) | NullValue

  /** The attributes of the Users model that this model keeps (the row timestamps
      `createdAt` and `updatedAt` are not modelled). */
  const USER_ATTRIBUTES: seq<string> := ["id", "username", "password", "roleId", "isActive"]

  function AttributeValue(u: User, name: string): Value
  {
    match name
    case "id" => IntValue(u.id)
    case "username" => TextValue(u.username)
    case "password" => TextValue(u.password)
    case "roleId" => IntValue(u.roleId)
    case "isActive" => BoolValue(u.isActive)
    case _ => NullValue
  }

  /** A listed user: the selected columns and the joined role name (`null` without a role). */
  datatype UserListing = UserListing(columns: map<string, Value>, role: Option<string>)

  /** `attributes: { exclude }`: every model attribute not named in `exclude`; a name
      that is not an attribute excludes nothing. */
  function Listing(u: User, roles: map<int, Role>, exclude: set<string>): (r: UserListing)
    ensures r.columns.Keys == (set a | a in USER_ATTRIBUTES && a !in exclude)
    ensures forall a :: a in r.columns ==> r.columns[a] == AttributeValue(u, a)
    ensures r.role == if u.roleId in roles then Some(RoleName(roles[u.roleId])) else None
  {
    UserListing(
      map a | a in USER_ATTRIBUTES && a !in exclude :: AttributeValue(u, a),
      if u.roleId in roles then Some(RoleName(roles[u.roleId])) else None)
  }

  /** The names that are attributes of the model. */
  const ATTRIBUTE_NAMES: set<string> := set a | a in USER_ATTRIBUTES

  /** A name that is not an attribute excludes nothing: only the attributes among the
      excluded names matter. */
  lemma ListingIgnoresNonAttributes(u: User, roles: map<int, Role>, exclude: set<string>)
    ensures Listing(u, roles, exclude) == Listing(u, roles, exclude * ATTRIBUTE_NAMES)
  {
    var l, m := Listing(u, roles, exclude), Listing(u, roles, exclude * ATTRIBUTE_NAMES);
    assert l.columns.Keys == m.columns.Keys;
  }

  /** A listed row has a `password` column exactly when `password` is excluded by name. */
  lemma ListingHasPasswordIff(u: User, roles: map<int, Role>, exclude: set<string>)
    ensures "password" in Listing(u, roles, exclude).columns <==> "password" !in exclude
  {
    assert "password" in USER_ATTRIBUTES;
  }

  /** The exclusion list `getAllUsers` is written with. */
  const EXCLUDE_AS_WRITTEN: set<string> := {"passwordHash", "updatedAt"}

  /** The exclusion list that names the hash column. */
  const EXCLUDE_PASSWORD: set<string> := {"password", "updatedAt"}

  /** `getAllUsers` as written. */
  function GetAllUsersAsWritten(users: seq<User>, roles: map<int, Role>): (r: seq<UserListing>)
    ensures |r| == |users|
  {
    seq(|users|, k requires 0 <= k < |users| => Listing(users[k], roles, EXCLUDE_AS_WRITTEN))
  }

  /** As written, every listed user carries its password hash. */
  lemma AsWrittenListingExposesHash(users: seq<User>, roles: map<int, Role>, k: nat)
    requires k < |users|
    ensures "password" in GetAllUsersAsWritten(users, roles)[k].columns
    ensures GetAllUsersAsWritten(users, roles)[k].columns["password"] == TextValue(users[k].password)
  {
    assert "password" in USER_ATTRIBUTES && "password" !in EXCLUDE_AS_WRITTEN;
  }

  /** `getAllUsers` with the hash column excluded: each user keeps id, username,
      roleId and isActive, and no listed row has a password. */
  function GetAllUsers(users: seq<User>, roles: map<int, Role>): (r: seq<UserListing>)
    ensures |r| == |users|
    ensures forall k :: 0 <= k < |r| ==> r[k].columns.Keys == {"id", "username", "roleId", "isActive"}
    ensures forall k, a :: 0 <= k < |r| && a in r[k].columns ==> r[k].columns[a] == AttributeValue(users[k], a)
    ensures forall k :: 0 <= k < |r| ==> r[k].columns["username"] == TextValue(users[k].username)
    ensures forall k :: 0 <= k < |r| ==>
      r[k].role == if users[k].roleId in roles then Some(RoleName(roles[users[k].roleId])) else None
    ensures forall k :: 0 <= k < |r| ==> "password" !in r[k].columns
  {
    seq(|users|, k requires 0 <= k < |users| => Listing(users[k], roles, EXCLUDE_PASSWORD))
  }
}
