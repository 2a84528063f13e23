/** The database the controllers share: the Users and Roles tables and the append-only
    AuditLogs table, with the three writes the core makes (`AuditLog.create`,
    `user.save()` and `Users.create`). */
module Store {
  import opened Wrappers
  import opened UsersModel
  import opened AuditModel

  class Database {
    var users: seq<User>
    var roles: map<int, Role>
    var log: seq<AuditEntry>
    var nextUserId: nat

    /** Primary keys and usernames are unique, every user id is below the next
        auto-increment value, and the audit log has only ever been appended to. */
    ghost predicate Valid()
      reads this
    {
      && 0 < nextUserId
      && UniqueIds(users)
      && UniqueUsernames(users)
      && (forall i :: 0 <= i < |users| ==> 0 < users[i].id < nextUserId)
      && SequentialIds(log)
    }

    constructor (roles: map<int, Role>)
      ensures Valid()
      ensures this.roles == roles && users == [] && log == [] && nextUserId == 1
    {
      this.roles := roles;
      users := [];
      log := [];
      nextUserId := 1;
    }

    /** `AuditLog.create(...)`: appends one row and touches nothing else. */
    method CreateAuditLog(
      userId: Option<nat>, actionType: ActionKind, tableName: Option<string>,
      recordId: Option<nat>, ipAddress: Option<string>, details: Details, now: int)
      requires Valid()
      modifies this`log
      ensures Valid()
      ensures log == old(log) + [NextEntry(old(log), userId, actionType, tableName, recordId, ipAddress, details, now)]
    {
      NextEntryKeepsSequentialIds(log, userId, actionType, tableName, recordId, ipAddress, details, now);
      log := log + [NextEntry(log, userId, actionType, tableName, recordId, ipAddress, details, now)];
    }

    /** `user.save()` on the row fetched from position `i`: writes it back. */
    method Save(i: nat, u: User)
      requires Valid()
      requires i < |users| && u.id == users[i].id && u.username == users[i].username
      modifies this`users
      ensures Valid()
      ensures users == old(users)[i := u]
    {
      users := users[i := u];
    }

    /** `Users.create(...)`: a new row under the next auto-increment id. The unique
        constraint on `username` is the caller's to respect. */
    method Create(username: string, password: string, roleId: int, isActive: bool) returns (u: User)
      requires Valid()
      requires FindByUsername(users, username).None?
      modifies this`users, this`nextUserId
      ensures Valid()
      ensures u == User(old(nextUserId), username, password, roleId, isActive, None)
      ensures users == old(users) + [u] && nextUserId == old(nextUserId) + 1
    {
      u := User(nextUserId, username, password, roleId, isActive, None);
      users := users + [u];
      nextUserId := nextUserId + 1;
    }
  }
}
