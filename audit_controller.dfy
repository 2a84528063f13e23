/** `getAllAuditLogs`: the query for the newest audit rows, the join with their
    users, and the `VIEW_AUDIT_LOGS` event recording how many rows were read. */
module AuditController {
  import opened Wrappers
  import opened Http
  import opened UsersModel
  import opened AuditModel
  import opened Store

  /** `limit: 100`. */
  const AUDIT_PAGE_LIMIT: nat := 100
  const AUDIT_TABLE := "AuditLogs"
  const AUDIT_ENDPOINT := "/api/audit/all"
  const LIST_OK := "Daftar log audit berhasil diambil."

  /** `order: [["createdAt", "DESC"]]`: no later row is newer than an earlier one. */
  ghost predicate NewestFirst(s: seq<AuditEntry>)
  {
    forall i, j :: 0 <= i < j < |s| ==> s[j].createdAt <= s[i].createdAt
  }

  /** Puts `e` in front of the first row that is not newer than it. */
  function InsertByCreatedAt(e: AuditEntry, s: seq<AuditEntry>): (r: seq<AuditEntry>)
    requires NewestFirst(s)
    ensures NewestFirst(r)
    ensures multiset(r) == multiset(s) + multiset{e}
    ensures |r| == |s| + 1
    ensures r[0] == e || (s != [] && r[0] == s[0])
  {
    if s == [] || s[0].createdAt <= e.createdAt then
      [e] + s
    else
      var rest := InsertByCreatedAt(e, s[1..]);
      assert rest[0].createdAt <= s[0].createdAt;
      assert s == [s[0]] + s[1..];
      [s[0]] + rest
  }

  /** The rows newest first; rows with the same `createdAt` keep their log order. */
  function SortByNewest(s: seq<AuditEntry>): (r: seq<AuditEntry>)
    ensures NewestFirst(r)
    ensures multiset(r) == multiset(s)
  {
    if s == [] then []
    else
      assert s == [s[0]] + s[1..];
      InsertByCreatedAt(s[0], SortByNewest(s[1..]))
  }

  /** A newest-first sequence cut at `k`: every row after the cut is no newer than
      every row before it. */
  lemma SplitNewestFirst(s: seq<AuditEntry>, k: nat)
    requires NewestFirst(s) && k <= |s|
    ensures NewestFirst(s[..k])
    ensures multiset(s[..k]) <= multiset(s)
    ensures multiset(s) - multiset(s[..k]) == multiset(s[k..])
    ensures forall i, e :: 0 <= i < k && e in multiset(s) - multiset(s[..k]) ==> e.createdAt <= s[i].createdAt
  {
    assert s == s[..k] + s[k..];
    assert multiset(s) == multiset(s[..k]) + multiset(s[k..]);
    forall i, e | 0 <= i < k && e in multiset(s[k..])
      ensures e.createdAt <= s[i].createdAt
    {
      var j :| 0 <= j < |s[k..]| && s[k..][j] == e;
      assert s[k + j] == e;
    }
  }

  /** The `findAll` query: the `limit` newest rows of the log, newest first. */
  function SelectNewest(log: seq<AuditEntry>, limit: nat): (r: seq<AuditEntry>)
    ensures |r| == if |log| < limit then |log| else limit
    ensures NewestFirst(r)
    ensures multiset(r) <= multiset(log)
    ensures forall i, e :: 0 <= i < |r| && e in multiset(log) - multiset(r) ==> e.createdAt <= r[i].createdAt
  {
    var sorted := SortByNewest(log);
    var k := if |log| < limit then |log| else limit;
    SplitNewestFirst(sorted, k);
    var r := sorted[..k];
    assert multiset(log) - multiset(r) == multiset(sorted) - multiset(r);
    r
  }

  /** The `include` of the acting user: `id`, `username` and `roleId` only. */
  datatype UserRef = UserRef(id: nat, username: string, roleId: int)

  /** A returned row: every column but `updatedAt`, plus the joined user. */
  datatype AuditView = AuditView(
    id: nat,
    userId: Option<nat>,
    actionType: ActionKind,
    tableName: Option<string>,
    recordId: Option<nat>,
    ipAddress: Option<string>,
    details: Option<Details>,
    createdAt: int,
    user: Option<UserRef>)

  /** The row a view was cut from, given back its `updatedAt`. */
  function WithUpdatedAt(v: AuditView, updatedAt: int): AuditEntry
  {
    AuditEntry(v.id, v.userId, v.actionType, v.tableName, v.recordId, v.ipAddress, v.details, v.createdAt, updatedAt)
  }

  /** One row as the query returns it: `updatedAt` dropped, the user left-joined. */
  function ToView(users: seq<User>, e: AuditEntry): (v: AuditView)
    ensures WithUpdatedAt(v, e.updatedAt) == e
    ensures v.user.Some? <==> e.userId.Some? && FindById(users, e.userId.value).Some?
    ensures v.user.Some? ==>
      var u := users[FindById(users, e.userId.value).value];
      v.user.value == UserRef(u.id, u.username, u.roleId)
  {
    var user :=
      if e.userId.None? then None
      else match FindById(users, e.userId.value)
        case None => None
        case Some(k) => Some(UserRef(users[k].id, users[k].username, users[k].roleId));
    AuditView(e.id, e.userId, e.actionType, e.tableName, e.recordId, e.ipAddress, e.details, e.createdAt, user)
  }

  /** The result of the query, row by row. */
  function AuditListing(users: seq<User>, log: seq<AuditEntry>): (r: seq<AuditView>)
    ensures |r| == if |log| < AUDIT_PAGE_LIMIT then |log| else AUDIT_PAGE_LIMIT
    ensures forall i, j :: 0 <= i < j < |r| ==> r[j].createdAt <= r[i].createdAt
  {
    var rows := SelectNewest(log, AUDIT_PAGE_LIMIT);
    seq(|rows|, k requires 0 <= k < |rows| => ToView(users, rows[k]))
  }

  /** Every listed row is the view of a row of the log. */
  lemma ListedRowsComeFromLog(users: seq<User>, log: seq<AuditEntry>, k: nat)
    requires k < |AuditListing(users, log)|
    ensures exists j :: 0 <= j < |log| && AuditListing(users, log)[k] == ToView(users, log[j])
  {
    var rows := SelectNewest(log, AUDIT_PAGE_LIMIT);
    assert rows[k] in multiset(rows);
    assert rows[k] in multiset(log);
    var j :| 0 <= j < |log| && log[j] == rows[k];
    assert AuditListing(users, log)[k] == ToView(users, log[j]);
  }

  /** Every listed row is a row of the log, so its id is at most the log's length. */
  lemma ListedRowsAreLogged(log: seq<AuditEntry>, users: seq<User>)
    requires SequentialIds(log)
    ensures forall k :: 0 <= k < |AuditListing(users, log)| ==> 1 <= AuditListing(users, log)[k].id <= |log|
  {
    forall k | 0 <= k < |AuditListing(users, log)|
      ensures 1 <= AuditListing(users, log)[k].id <= |log|
    {
      ListedRowsComeFromLog(users, log, k);
      var j :| 0 <= j < |log| && AuditListing(users, log)[k] == ToView(users, log[j]);
      assert WithUpdatedAt(AuditListing(users, log)[k], log[j].updatedAt) == log[j];
    }
  }

  datatype AuditPage = AuditPage(logs: seq<AuditView>, total: nat)

  /** `getAllAuditLogs` for the acting admin `caller`. */
  method GetAllAuditLogs(db: Database, caller: Claims, ip: Option<string>, now: int)
    returns (resp: Response<AuditPage>)
    requires db.Valid()
    modifies db`log
    ensures db.Valid()
    ensures resp.status == 200 && resp.message == LIST_OK && resp.data.Some?
    ensures var page := resp.data.value;
      && page.logs == AuditListing(db.users, old(db.log))
      && page.total == |page.logs| <= AUDIT_PAGE_LIMIT
      && db.log == old(db.log) + [NextEntry(old(db.log), Some(caller.id), ViewAuditLogs, Some(AUDIT_TABLE), None, ip,
                                            ViewDetails(AUDIT_ENDPOINT, |page.logs|), now)]
      && forall k :: 0 <= k < |page.logs| ==> page.logs[k].id != db.log[|old(db.log)|].id
  {
    var auditLogs := AuditListing(db.users, db.log);
    ListedRowsAreLogged(db.log, db.users);
    db.CreateAuditLog(Some(caller.id), ViewAuditLogs, Some(AUDIT_TABLE), None, ip,
                      ViewDetails(AUDIT_ENDPOINT, |auditLogs|), now);
    resp := Response(200, LIST_OK, Some(AuditPage(auditLogs, |auditLogs|)));
  }
}
