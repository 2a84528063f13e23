/** The AuditLogs table: the action taxonomy, the per-action details and the row shape. */
module AuditModel {
  import opened Wrappers

  /** `actionType`. The core writes the first seven; other subsystems write others. */
  datatype ActionKind =
    | UserLogin
    | LoginFailed
    | LoginBlockedInactive
    | AccountLocked
    | UserLogout
    | SessionCheck
    | ViewAuditLogs
    | OtherAction(name: string)

  /** The JSON `details` column, one shape per action of the core. */
  datatype Details =
    | BlockedDetails(username: string, reason: string)
    | LockedDetails(username: string, attempts: nat, status: string)
    | FailedDetails(reason: string, attemptCount: nat)
    | LoginDetails(username: string, role: string)
    | LogoutDetails(detail: string)
    | EndpointDetails(endpoint: string)
    | ViewDetails(endpoint: string, recordsViewed: nat)
    | OtherDetails(json: string)

  /** One row; `userId`, `tableName`, `recordId`, `ipAddress` and `details` are nullable. */
  datatype AuditEntry = AuditEntry(
    id: nat,
    userId: Option<nat>,
    actionType: ActionKind,
    tableName: Option<string>,
    recordId: Option<nat>,
    ipAddress: Option<string>,
    details: Option<Details>,
    createdAt: int,
    updatedAt: int)

  /** The row `AuditLog.create` adds to `log` at time `now`: the next auto-increment
      id, and both timestamps set to the time of the insert. */
  function NextEntry(
    log: seq<AuditEntry>, userId: Option<nat>, actionType: ActionKind, tableName: Option<string>,
    recordId: Option<nat>, ipAddress: Option<string>, details: Details, now: int): AuditEntry
  {
    AuditEntry(|log| + 1, userId, actionType, tableName, recordId, ipAddress, Some(details), now, now)
  }

  /** The audit log has never lost a row: ids run 1, 2, 3, ... in insertion order. */
  ghost predicate SequentialIds(log: seq<AuditEntry>)
  {
    forall i :: 0 <= i < |log| ==> log[i].id == i + 1
  }

  /** Appending the next entry keeps the ids sequential, and the new id is larger
      than every id already in the log. */
  lemma NextEntryKeepsSequentialIds(
    log: seq<AuditEntry>, userId: Option<nat>, actionType: ActionKind, tableName: Option<string>,
    recordId: Option<nat>, ipAddress: Option<string>, details: Details, now: int)
    requires SequentialIds(log)
    ensures var e := NextEntry(log, userId, actionType, tableName, recordId, ipAddress, details, now);
      && SequentialIds(log + [e])
      && forall k :: 0 <= k < |log| ==> log[k].id < e.id
  {
  }
}
