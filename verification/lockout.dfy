/**
 * The account-lockout component: per-username failure counting with a
 * timed lock. Instants are integer milliseconds supplied by the caller.
 */
module Lockout {
  import opened Js

  const MaxLoginAttempts: nat := 5
  const LockoutDurationMinutes: nat := 30
  const MillisPerMinute: nat := 60000
  const LockoutDurationMillis: nat := LockoutDurationMinutes * MillisPerMinute

  /**
   * The lockout columns of one users row: `failed_login_attempts` and
   * `account_locked_until`, both nullable.
   */
  datatype Account = Account(attempts: Option<nat>, lockedUntil: Option<int>)

  /** The users table as seen by this component, keyed by username. */
  type Accounts = map<string, Account>

  /** The row written by a reset: no failures, no lock. */
  const Cleared: Account := Account(Some(0), None)

  /** `failed_login_attempts || 0`. */
  function AttemptCount(a: Account): nat
  {
    if a.attempts.Some? then a.attempts.value else 0
  }

  /** What `checkAccountLockout` resolves with. */
  datatype LockCheck =
    | NotLocked                          // { isLocked: false }
    | Locked(remainingMinutes: int)      // { isLocked: true, remainingMinutes }
    | Open(attempts: Option<nat>)        // { isLocked: false, attempts }
  {
    predicate IsLocked() { Locked? }
  }

  datatype CheckStep = CheckStep(result: LockCheck, accounts: Accounts)

  /** What `recordFailedLogin` resolves with. */
  datatype FailureResult =
    | NotRecorded                        // unknown user: resolves with nothing
    | AccountLocked                      // { accountLocked: true }
    | AttemptsRemaining(remaining: int)  // { attemptsRemaining }

  datatype FailureStep = FailureStep(result: FailureResult, accounts: Accounts)

  /** `Math.ceil(ms / 60000)` for a positive duration. */
  function RemainingMinutes(ms: int): (m: int)
    requires ms > 0
    ensures 1 <= m
    ensures (m - 1) * MillisPerMinute < ms <= m * MillisPerMinute
  {
    (ms + MillisPerMinute - 1) / MillisPerMinute
  }

  /** `checkAccountLockout(username)` at instant `now`. */
  function Check(accounts: Accounts, username: string, now: int): (r: CheckStep)
    ensures username !in accounts ==> r == CheckStep(NotLocked, accounts)
    ensures r.result.IsLocked() <==>
              username in accounts && accounts[username].lockedUntil.Some?
              && now < accounts[username].lockedUntil.value
    ensures r.result.IsLocked() ==>
              && r.accounts == accounts
              && r.result.remainingMinutes >= 1
              && (r.result.remainingMinutes - 1) * MillisPerMinute
                   < accounts[username].lockedUntil.value - now
                   <= r.result.remainingMinutes * MillisPerMinute
    // an expired lock is cleared as a side effect
    ensures username in accounts && accounts[username].lockedUntil.Some?
              && now >= accounts[username].lockedUntil.value ==>
              r == CheckStep(NotLocked, accounts[username := Cleared])
    // no lock at all: the stored count is reported and nothing is written
    ensures username in accounts && accounts[username].lockedUntil.None? ==>
              r == CheckStep(Open(accounts[username].attempts), accounts)
  {
    if username !in accounts then CheckStep(NotLocked, accounts)
    else
      var a := accounts[username];
      if a.lockedUntil.Some? then
        if now < a.lockedUntil.value then
          CheckStep(Locked(RemainingMinutes(a.lockedUntil.value - now)), accounts)
        else
          CheckStep(NotLocked, accounts[username := Cleared])
      else
        CheckStep(Open(a.attempts), accounts)
  }

  /** `recordFailedLogin(username)` at instant `now`. */
  function RecordFailure(accounts: Accounts, username: string, now: int): (r: FailureStep)
    ensures username !in accounts ==> r == FailureStep(NotRecorded, accounts)
    ensures username in accounts ==>
              username in r.accounts
              && r.accounts.Keys == accounts.Keys
              && AttemptCount(r.accounts[username]) == AttemptCount(accounts[username]) + 1
              && r.accounts[username].attempts.Some?
    ensures forall u :: u in accounts && u != username ==> r.accounts[u] == accounts[u]
    // reaching the threshold locks for the full window
    ensures r.result == AccountLocked <==>
              username in accounts && AttemptCount(accounts[username]) + 1 >= MaxLoginAttempts
    ensures r.result == AccountLocked ==>
              r.accounts[username].lockedUntil == Some(now + LockoutDurationMillis)
    // below it, the lock column is left as it was and the remaining tries are reported
    ensures r.result.AttemptsRemaining? ==>
              1 <= r.result.remaining <= MaxLoginAttempts - 1
              && r.result.remaining == MaxLoginAttempts - AttemptCount(r.accounts[username])
              && r.accounts[username].lockedUntil == accounts[username].lockedUntil
    ensures username in accounts && AttemptCount(accounts[username]) + 1 < MaxLoginAttempts ==>
              r.result == AttemptsRemaining(MaxLoginAttempts - AttemptCount(accounts[username]) - 1)
  {
    if username !in accounts then FailureStep(NotRecorded, accounts)
    else
      var a := accounts[username];
      var newAttempts := AttemptCount(a) + 1;
      if newAttempts >= MaxLoginAttempts then
        FailureStep(AccountLocked,
                    accounts[username := Account(Some(newAttempts), Some(now + LockoutDurationMillis))])
      else
        FailureStep(AttemptsRemaining(MaxLoginAttempts - newAttempts),
                    accounts[username := a.(attempts := Some(newAttempts))])
  }

  /** `resetFailedLogins(username)`: clears the row if there is one. */
  function Reset(accounts: Accounts, username: string): (r: Accounts)
    ensures r.Keys == accounts.Keys
    ensures username in accounts ==> r[username] == Cleared
    ensures forall u :: u in accounts && u != username ==> r[u] == accounts[u]
  {
    if username in accounts then accounts[username := Cleared] else accounts
  }

  /** Resetting twice is resetting once. */
  lemma ResetIdempotent(accounts: Accounts, username: string)
    ensures Reset(Reset(accounts, username), username) == Reset(accounts, username)
  {
  }

  /** A reset user is reported open with zero attempts, at any instant. */
  lemma ResetThenCheck(accounts: Accounts, username: string, now: int)
    requires username in accounts
    ensures Check(Reset(accounts, username), username, now).result == Open(Some(0))
  {
  }

  /**
   * The row invariant the three operations keep: a lock is only ever set
   * together with a count at the threshold, and no lock reaches further than
   * one window past `now`.
   */
  predicate Consistent(a: Account, now: int)
  {
    a.lockedUntil.Some? ==>
      AttemptCount(a) >= MaxLoginAttempts && a.lockedUntil.value <= now + LockoutDurationMillis
  }

  predicate AllConsistent(accounts: Accounts, now: int)
  {
    forall u :: u in accounts ==> Consistent(accounts[u], now)
  }

  /** Time passing keeps the invariant. */
  lemma ConsistentLater(accounts: Accounts, now: int, later: int)
    requires AllConsistent(accounts, now) && now <= later
    ensures AllConsistent(accounts, later)
  {
  }

  /** Each operation keeps the invariant. */
  lemma OperationsKeepConsistent(accounts: Accounts, username: string, now: int)
    requires AllConsistent(accounts, now)
    ensures AllConsistent(Check(accounts, username, now).accounts, now)
    ensures AllConsistent(RecordFailure(accounts, username, now).accounts, now)
    ensures AllConsistent(Reset(accounts, username), now)
  {
    var r := RecordFailure(accounts, username, now);
    if username in accounts {
      var a := accounts[username];
      if AttemptCount(a) + 1 < MaxLoginAttempts {
        assert a.lockedUntil.None?;
      }
      assert Consistent(r.accounts[username], now);
    }
  }

  /** Under the invariant, a reported lock never has more than the full window left. */
  lemma LockedAtMostWindow(accounts: Accounts, username: string, now: int)
    requires AllConsistent(accounts, now)
    requires Check(accounts, username, now).result.IsLocked()
    ensures 1 <= Check(accounts, username, now).result.remainingMinutes <= LockoutDurationMinutes
  {
    var m := Check(accounts, username, now).result.remainingMinutes;
    assert (m - 1) * MillisPerMinute < LockoutDurationMillis;
  }

  /**
   * The lockout story from a clean row: four failures report 4, 3, 2 and 1
   * tries left, the fifth locks, a check any time within the next 30 minutes
   * reports the lock with 1 to 30 minutes left, and a check once the window
   * has passed clears the row.
   */
  lemma {:induction false} FiveFailuresLock(accounts: Accounts, username: string,
                                            t1: int, t2: int, t3: int, t4: int, t5: int, later: int)
    requires username in accounts && accounts[username] == Cleared
    ensures var s1 := RecordFailure(accounts, username, t1);
            var s2 := RecordFailure(s1.accounts, username, t2);
            var s3 := RecordFailure(s2.accounts, username, t3);
            var s4 := RecordFailure(s3.accounts, username, t4);
            var s5 := RecordFailure(s4.accounts, username, t5);
            && s1.result == AttemptsRemaining(4)
            && s2.result == AttemptsRemaining(3)
            && s3.result == AttemptsRemaining(2)
            && s4.result == AttemptsRemaining(1)
            && s5.result == AccountLocked
            && (t5 <= later < t5 + LockoutDurationMillis ==>
                  var c := Check(s5.accounts, username, later).result;
                  c.IsLocked() && 1 <= c.remainingMinutes <= LockoutDurationMinutes)
            && (later >= t5 + LockoutDurationMillis ==>
                  Check(s5.accounts, username, later)
                    == CheckStep(NotLocked, s5.accounts[username := Cleared]))
  {
    var s1 := RecordFailure(accounts, username, t1);
    var s2 := RecordFailure(s1.accounts, username, t2);
    var s3 := RecordFailure(s2.accounts, username, t3);
    var s4 := RecordFailure(s3.accounts, username, t4);
    var s5 := RecordFailure(s4.accounts, username, t5);
    assert s5.accounts[username] == Account(Some(5), Some(t5 + LockoutDurationMillis));
    if t5 <= later < t5 + LockoutDurationMillis {
      var m := Check(s5.accounts, username, later).result.remainingMinutes;
      assert (m - 1) * MillisPerMinute < LockoutDurationMillis;
    }
  }

  /** Checking an unknown user changes nothing and records nothing for it. */
  lemma UnknownUserUntouched(accounts: Accounts, username: string, now: int)
    requires username !in accounts
    ensures Check(accounts, username, now).accounts == accounts
    ensures RecordFailure(accounts, username, now).accounts == accounts
    ensures Reset(accounts, username) == accounts
  {
  }
}
