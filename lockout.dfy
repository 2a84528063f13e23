/** The lockout policy of `postLogin`: what one login attempt on a found account does
    to that account's row. The controller applies it step by step; this is the
    same decision stated as a function of the row and the password check. */
module Lockout {
  import opened Wrappers
  import opened UsersModel

  /** `MAX_FAILED_ATTEMPTS`. */
  const MAX_FAILED_ATTEMPTS: nat := 3

  /** `user.failedAttemptCount || 0`: a null count reads as zero. */
  function FailedCount(u: User): (r: nat)
    ensures u.failedAttemptCount.None? ==> r == 0
    ensures u.failedAttemptCount.Some? ==> r == u.failedAttemptCount.value
  {
    u.failedAttemptCount.GetOr(0)
  }

  /** What the caller of one attempt is told. */
  datatype Outcome =
    | Blocked               // the account was already inactive
    | Locked(attempts: nat) // this wrong password reached the threshold
    | Rejected(attempts: nat) // a wrong password below the threshold
    | Accepted              // the password matched

  /** One attempt on an account whose password check gave `passwordMatches`. */
  function Attempt(u: User, passwordMatches: bool): (r: (User, Outcome))
    ensures r.0.id == u.id && r.0.username == u.username
    ensures r.0.password == u.password && r.0.roleId == u.roleId
  {
    if !u.isActive then (u, Blocked)
    else if !passwordMatches then
      var n := FailedCount(u) + 1;
      if n >= MAX_FAILED_ATTEMPTS then (u.(failedAttemptCount := Some(n), isActive := false), Locked(n))
      else (u.(failedAttemptCount := Some(n)), Rejected(n))
    else if FailedCount(u) > 0 then (u.(failedAttemptCount := Some(0)), Accepted)
    else (u, Accepted)
  }

  /** The account invariant: an active account has fewer failures than the threshold. */
  ghost predicate BelowThreshold(u: User)
  {
    u.isActive ==> FailedCount(u) < MAX_FAILED_ATTEMPTS
  }

  ghost predicate AllBelowThreshold(users: seq<User>)
  {
    forall i :: 0 <= i < |users| ==> BelowThreshold(users[i])
  }

  /** Every attempt keeps the account invariant. */
  lemma AttemptKeepsBelowThreshold(u: User, passwordMatches: bool)
    requires BelowThreshold(u)
    ensures BelowThreshold(Attempt(u, passwordMatches).0)
  {
  }

  /** An inactive account is left exactly as it was, whatever the password. */
  lemma InactiveIsUntouched(u: User, passwordMatches: bool)
    requires !u.isActive
    ensures Attempt(u, passwordMatches) == (u, Blocked)
  {
  }

  /** A wrong password on an active account adds one failure, and the account is
      locked exactly when the new count reaches the threshold. */
  lemma WrongPasswordCounts(u: User)
    requires u.isActive
    ensures var (v, o) := Attempt(u, false);
      && FailedCount(v) == FailedCount(u) + 1
      && v.failedAttemptCount == Some(FailedCount(u) + 1)
      && (v.isActive <==> FailedCount(u) + 1 < MAX_FAILED_ATTEMPTS)
      && (if v.isActive then o == Rejected(FailedCount(v)) else o == Locked(FailedCount(v)))
  {
  }

  /** A correct password on an active account leaves it active with no failures, and
      writes the row only when the count was positive. */
  lemma CorrectPasswordResets(u: User)
    requires u.isActive
    ensures var (v, o) := Attempt(u, true);
      && o == Accepted && v.isActive && FailedCount(v) == 0
      && (FailedCount(u) == 0 <==> v == u)
  {
  }

  /** The row after `n` wrong passwords in a row. */
  function WrongTimes(u: User, n: nat): User
  {
    if n == 0 then u else Attempt(WrongTimes(u, n - 1), false).0
  }

  /** From an active account with `c` failures, `n` wrong passwords leave it active
      with `c + n` failures while that stays below the threshold, and otherwise
      inactive with exactly the threshold counted. */
  lemma {:induction false} RepeatedWrongPasswords(u: User, n: nat)
    requires u.isActive && FailedCount(u) < MAX_FAILED_ATTEMPTS
    ensures var v := WrongTimes(u, n);
      && (v.isActive <==> FailedCount(u) + n < MAX_FAILED_ATTEMPTS)
      && FailedCount(v) == if FailedCount(u) + n < MAX_FAILED_ATTEMPTS then FailedCount(u) + n else MAX_FAILED_ATTEMPTS
  {
    if n > 0 {
      RepeatedWrongPasswords(u, n - 1);
    }
  }
}
