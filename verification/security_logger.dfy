/**
 The account-lockout part of the security logger (`SecurityLogger`): per-user
 failure counters and lockout times kept in the secure preferences, the
 five-failure threshold and the fifteen-minute lockout window, and the text
 of each log entry. The clock and the formatted timestamp are parameters;
 the log file is the sequence of entries written, without rotation.
 */
module SecurityLogger {
  import opened Wrappers
  import opened Text

  const MaxFailedAttempts := 5
  const LockoutDurationMinutes := 15
  /** `LOCKOUT_DURATION_MINUTES * 60 * 1000`. */
  const LockoutMillis := LockoutDurationMinutes * 60 * 1000
  const MinuteMillis := 60 * 1000

  datatype SecurityEvent =
    | LoginSuccess | LoginFailed | LoginLocked | Logout | PasswordChanged
    | BiometricEnabled | BiometricDisabled | BiometricFailed
    | AccountCreated | AccountDeleted | SuspiciousActivity
    | CertificatePinningFailed | UnauthorizedAccess
  {
    /** The enum constant's name, as string templates print it. */
    function Name(): string {
      match this
      case LoginSuccess => "LOGIN_SUCCESS"
      case LoginFailed => "LOGIN_FAILED"
      case LoginLocked => "LOGIN_LOCKED"
      case Logout => "LOGOUT"
      case PasswordChanged => "PASSWORD_CHANGED"
      case BiometricEnabled => "BIOMETRIC_ENABLED"
      case BiometricDisabled => "BIOMETRIC_DISABLED"
      case BiometricFailed => "BIOMETRIC_FAILED"
      case AccountCreated => "ACCOUNT_CREATED"
      case AccountDeleted => "ACCOUNT_DELETED"
      case SuspiciousActivity => "SUSPICIOUS_ACTIVITY"
      case CertificatePinningFailed => "CERTIFICATE_PINNING_FAILED"
      case UnauthorizedAccess => "UNAUTHORIZED_ACCESS"
    }
  }

  /**
   What the logger keeps: the `failed_attempts_<user>` and
   `lockout_time_<user>` preferences (absent keys read as 0) and the
   entries written to the log file.
   */
  datatype LoggerState = LoggerState(
    failedAttempts: map<string, nat>,
    lockoutTimes: map<string, int>,
    log: seq<string>)

  function FailedAttempts(st: LoggerState, username: string): nat {
    if username in st.failedAttempts then st.failedAttempts[username] else 0
  }

  function LockoutTime(st: LoggerState, username: string): int {
    if username in st.lockoutTimes then st.lockoutTimes[username] else 0
  }

  /** The end of the lockout window that started at the recorded lockout time. */
  function LockoutExpiry(st: LoggerState, username: string): int {
    LockoutTime(st, username) + LockoutMillis
  }

  // ---------------------------------------------------------------------
  // Log entries
  // ---------------------------------------------------------------------

  /** `buildLogEntry`: "[ts] EVENT | User: u | d", with UNKNOWN for no user and "" for no details. */
  function BuildLogEntry(timestamp: string, event: SecurityEvent, username: Option<string>, details: Option<string>): (r: string)
    ensures IsPrefix("[" + timestamp + "] " + event.Name() + " | User: ", r)
    ensures var user := username.GetOr("UNKNOWN");
      r[|timestamp| + |event.Name()| + 12..] == user + " | " + details.GetOr("")
  {
    "[" + timestamp + "] " + event.Name() + " | User: " + username.GetOr("UNKNOWN") + " | " + details.GetOr("")
  }

  /** Appends one entry to the log file. */
  function Write(st: LoggerState, entry: string): LoggerState {
    st.(log := st.log + [entry])
  }

  /** The details of the LOGIN_LOCKED entry. */
  function LockedDetails(attempts: nat): string {
    "Account locked for " + IntToString(LockoutDurationMinutes) + " minutes due to "
      + IntToString(attempts) + " failed attempts"
  }

  // ---------------------------------------------------------------------
  // Counters
  // ---------------------------------------------------------------------

  /**
   `checkAndHandleLockout`: count one more failure; from the fifth on, start
   the lockout window now and log LOGIN_LOCKED. That nested `logEvent` call
   only writes its entry (LOGIN_LOCKED is not LOGIN_FAILED), which
   `LockedEntryOnlyWrites` states.
   */
  function CheckAndHandleLockout(st: LoggerState, username: string, stamp: string, now: int): (r: LoggerState)
    ensures FailedAttempts(r, username) == FailedAttempts(st, username) + 1
    ensures forall u :: u != username ==> FailedAttempts(r, u) == FailedAttempts(st, u)
    ensures forall u :: u != username ==> LockoutTime(r, u) == LockoutTime(st, u)
    ensures FailedAttempts(r, username) >= MaxFailedAttempts ==> LockoutTime(r, username) == now
    ensures FailedAttempts(r, username) < MaxFailedAttempts ==> LockoutTime(r, username) == LockoutTime(st, username)
  {
    var attempts := FailedAttempts(st, username) + 1;
    var counted := st.(failedAttempts := st.failedAttempts[username := attempts]);
    if attempts >= MaxFailedAttempts then
      var locked := counted.(lockoutTimes := counted.lockoutTimes[username := now]);
      Write(locked, BuildLogEntry(stamp, LoginLocked, Some(username), Some(LockedDetails(attempts))))
    else counted
  }

  /**
   `logEvent`: write the entry; a LOGIN_FAILED event with a user also runs
   the lockout check. `stamp` is the formatted local time, `now` the
   millisecond clock.
   */
  function LogEvent(st: LoggerState, event: SecurityEvent, username: Option<string>, details: Option<string>,
                    stamp: string, now: int): (r: LoggerState)
    ensures |r.log| > |st.log| && r.log[..|st.log| + 1] == st.log + [BuildLogEntry(stamp, event, username, details)]
    ensures event == LoginFailed && username.Some? ==>
      FailedAttempts(r, username.value) == FailedAttempts(st, username.value) + 1
    ensures forall u :: !(event == LoginFailed && username == Some(u)) ==>
      FailedAttempts(r, u) == FailedAttempts(st, u) && LockoutTime(r, u) == LockoutTime(st, u)
    ensures !(event == LoginFailed && username.Some?) ==> r == Write(st, BuildLogEntry(stamp, event, username, details))
  {
    var written := Write(st, BuildLogEntry(stamp, event, username, details));
    if event == LoginFailed && username.Some? then
      CheckAndHandleLockout(written, username.value, stamp, now)
    else written
  }

  /** The LOGIN_LOCKED entry `checkAndHandleLockout` writes is exactly what `logEvent` does for it. */
  lemma {:induction false} LockedEntryOnlyWrites(st: LoggerState, username: string, stamp: string, now: int)
    requires FailedAttempts(st, username) + 1 >= MaxFailedAttempts
    ensures var attempts := FailedAttempts(st, username) + 1;
      var locked := st.(failedAttempts := st.failedAttempts[username := attempts],
                        lockoutTimes := st.lockoutTimes[username := now]);
      CheckAndHandleLockout(st, username, stamp, now)
        == LogEvent(locked, LoginLocked, Some(username), Some(LockedDetails(attempts)), stamp, now)
  {
  }

  /** `logFailedLogin`, with its default reason. */
  function LogFailedLogin(st: LoggerState, username: string, reason: string, stamp: string, now: int): (r: LoggerState)
    ensures FailedAttempts(r, username) == FailedAttempts(st, username) + 1
    ensures FailedAttempts(r, username) >= MaxFailedAttempts ==> LockoutTime(r, username) == now
  {
    LogEvent(st, LoginFailed, Some(username), Some(reason), stamp, now)
  }

  const DefaultFailureReason := "Invalid credentials"

  /** `clearFailedAttempts`: removes both preferences of the user. */
  function ClearFailedAttempts(st: LoggerState, username: string): (r: LoggerState)
    ensures FailedAttempts(r, username) == 0 && LockoutTime(r, username) == 0
    ensures forall u :: u != username ==> FailedAttempts(r, u) == FailedAttempts(st, u) && LockoutTime(r, u) == LockoutTime(st, u)
    ensures r.log == st.log
  {
    st.(failedAttempts := st.failedAttempts - {username}, lockoutTimes := st.lockoutTimes - {username})
  }

  /** `logSuccessfulLogin`: clear the user's counters, then log the success. */
  function LogSuccessfulLogin(st: LoggerState, username: string, stamp: string, now: int): (r: LoggerState)
    ensures FailedAttempts(r, username) == 0 && LockoutTime(r, username) == 0
    ensures forall u :: u != username ==> FailedAttempts(r, u) == FailedAttempts(st, u) && LockoutTime(r, u) == LockoutTime(st, u)
  {
    LogEvent(ClearFailedAttempts(st, username), LoginSuccess, Some(username), None, stamp, now)
  }

  // ---------------------------------------------------------------------
  // Queries
  // ---------------------------------------------------------------------

  /**
   `isAccountLocked`: locked while the user has five or more failures and
   the window has not ended; an ended window clears both preferences.
   */
  function IsAccountLocked(st: LoggerState, username: string, now: int): (r: (bool, LoggerState))
    ensures r.0 <==> FailedAttempts(st, username) >= MaxFailedAttempts && now < LockoutExpiry(st, username)
    ensures FailedAttempts(st, username) >= MaxFailedAttempts && now >= LockoutExpiry(st, username) ==>
      r.1 == ClearFailedAttempts(st, username)
    ensures !(FailedAttempts(st, username) >= MaxFailedAttempts && now >= LockoutExpiry(st, username)) ==> r.1 == st
  {
    if FailedAttempts(st, username) >= MaxFailedAttempts then
      if now < LockoutExpiry(st, username) then (true, st)
      else (false, ClearFailedAttempts(st, username))
    else (false, st)
  }

  /** `getRemainingLockoutTime`: whole minutes left in the window, 0 once it has ended. */
  function RemainingLockoutTime(st: LoggerState, username: string, now: int): (minutes: int)
    ensures minutes >= 0
    ensures now >= LockoutExpiry(st, username) ==> minutes == 0
    ensures now >= LockoutTime(st, username) ==> minutes <= LockoutDurationMinutes
    ensures now < LockoutExpiry(st, username) ==>
      minutes * MinuteMillis <= LockoutExpiry(st, username) - now < (minutes + 1) * MinuteMillis
  {
    var expiry := LockoutExpiry(st, username);
    if now < expiry then (expiry - now) / MinuteMillis else 0
  }

  /** Applies `logFailedLogin` for the user once per clock reading in `times`. */
  function FailuresAt(st: LoggerState, username: string, times: seq<int>): LoggerState
    decreases |times|
  {
    if |times| == 0 then st
    else LogFailedLogin(FailuresAt(st, username, times[..|times| - 1]), username, DefaultFailureReason, "", times[|times| - 1])
  }

  /** Every failure counts once, and from the fifth on the window starts at the latest one. */
  lemma {:induction false} FailuresAccumulate(st: LoggerState, username: string, times: seq<int>)
    ensures FailedAttempts(FailuresAt(st, username, times), username) == FailedAttempts(st, username) + |times|
    ensures |times| > 0 && FailedAttempts(st, username) + |times| >= MaxFailedAttempts ==>
      LockoutTime(FailuresAt(st, username, times), username) == times[|times| - 1]
    decreases |times|
  {
    if |times| > 0 {
      FailuresAccumulate(st, username, times[..|times| - 1]);
    }
  }

  /**
   Five failures in a row lock the account for fifteen minutes after the
   last one; a later failure restarts the window.
   */
  lemma {:induction false} FiveFailuresLock(st: LoggerState, username: string, times: seq<int>, now: int)
    requires |times| >= MaxFailedAttempts
    ensures var after := FailuresAt(st, username, times);
      IsAccountLocked(after, username, now).0 <==> now < times[|times| - 1] + LockoutMillis
  {
    FailuresAccumulate(st, username, times);
  }

  /** After a successful login the account is not locked, whatever the clock says. */
  lemma {:induction false} SuccessUnlocks(st: LoggerState, username: string, stamp: string, now: int, later: int)
    ensures !IsAccountLocked(LogSuccessfulLogin(st, username, stamp, now), username, later).0
  {
  }

  /** A lock can have less than a minute left, when the remaining time reads 0. */
  lemma {:induction false} LockedWithZeroMinutesLeft(st: LoggerState, username: string, now: int)
    requires FailedAttempts(st, username) >= MaxFailedAttempts
    requires LockoutExpiry(st, username) - MinuteMillis < now < LockoutExpiry(st, username)
    ensures IsAccountLocked(st, username, now).0
    ensures RemainingLockoutTime(st, username, now) == 0
  {
  }
}
