/** The authentication service of app/core/auth/AuthService.ts: PIN setup
    and verification with input validation, a per-account rate limiter and
    the lockout columns, sessions with a sliding 30-minute expiry, and the
    in-memory current session the vault checks. Its module-level
    `currentSession` and `pinRateLimiter` are the fields of one
    `AuthService` object; the database is the one it opens. */
module AppAuth {
  import opened Base
  import opened Crypto
  import opened Storage
  import opened InputValidation
  import Security
  import PinLockout
  import LocalAccount
  import WebAuthn

  /** The in-memory session; `expiresAt` is always set. */
  datatype Session = Session(id: string, accountId: string, createdAt: int, expiresAt: int)

  const RATE_LIMITED := "Too many PIN attempts. Please try again later."
  const WEBAUTHN_FAILED := "WebAuthn authentication failed"
  /** The message of a failed session INSERT (a repeated id); its exact
      SQLite wording is not part of this model. */
  const SESSION_INSERT_FAILED := "UNIQUE constraint failed"

  function InvalidAccountId(error: string): string {
    "Invalid account ID: " + error
  }

  /** `row.expires_at && now > row.expires_at`: a NULL or zero expiry never
      expires. */
  predicate RowExpired(row: SessionRow, now: int) {
    row.expiresAt.Some? && row.expiresAt.value != 0 && now > row.expiresAt.value
  }

  /** The rows `DELETE FROM sessions WHERE expires_at < ?` keeps. */
  predicate KeptByCleanup(row: SessionRow, now: int) {
    !(row.expiresAt.Some? && row.expiresAt.value < now)
  }

  /** The sessions table after `DELETE FROM sessions WHERE expires_at < now`. */
  function CleanupSessions(sessions: map<string, SessionRow>, now: int): (r: map<string, SessionRow>)
    ensures forall id :: id in r <==> id in sessions && KeptByCleanup(sessions[id], now)
    ensures forall id :: id in r ==> r[id] == sessions[id]
  {
    map id | id in sessions && KeptByCleanup(sessions[id], now) :: sessions[id]
  }

  /** Cleaning up twice at the same time removes nothing more. */
  lemma CleanupIdempotent(sessions: map<string, SessionRow>, now: int)
    ensures CleanupSessions(CleanupSessions(sessions, now), now) == CleanupSessions(sessions, now)
  {
  }

  /** A row inserted without `expires_at` (a WebAuthn login) survives every
      cleanup and is never found expired by a refresh. */
  lemma RowWithoutExpiryNeverExpires(sessions: map<string, SessionRow>, id: string, now: int)
    requires id in sessions && sessions[id].expiresAt.None?
    ensures id in CleanupSessions(sessions, now) && !RowExpired(sessions[id], now)
  {
  }

  /** The in-memory check of currentSession: strictly past its expiry. */
  predicate HolderExpired(s: Session, now: int) {
    now > s.expiresAt
  }

  /** A session made at `t` stays current up to and including
      `t + SESSION_TIMEOUT_MS`, and not a millisecond longer. */
  lemma SessionLifetime(id: string, accountId: string, t: int, now: int)
    ensures !HolderExpired(Session(id, accountId, t, t + Security.SESSION_TIMEOUT_MS), now)
      <==> now <= t + 1800000
  {
  }

  class AuthService {
    var current: Option<Session>
    const db: Database
    const limiter: RateLimiter

    ghost predicate Valid()
      reads this, limiter
    {
      && limiter.Valid()
      && limiter.maxAttempts == Security.PIN_MAX_ATTEMPTS
      && limiter.windowMs == Security.PIN_WINDOW_MS
    }

    constructor (db: Database)
      ensures this.db == db && current == None
      ensures fresh(limiter) && limiter.attempts == map[]
      ensures Valid()
    {
      this.db := db;
      current := None;
      limiter := new RateLimiter(Security.PIN_MAX_ATTEMPTS, Security.PIN_WINDOW_MS);
    }

    /** setPin with the random salt `salt`: both inputs are validated, and
        the account's row is replaced by one holding the new hash, with the
        lockout columns back at their defaults. */
    method SetPin(accountId: string, pin: string, kdf: Kdf, salt: Bytes, now: int) returns (r: Result<(), string>)
      modifies db
      ensures var v := ValidateUlid(Str(accountId)); var p := ValidatePin(Str(pin));
        && (v.Invalid? ==> r == Failure(InvalidAccountId(v.error)) && db.pins == old(db.pins))
        && (v.Valid? && p.Invalid? ==> r == Failure(p.error) && db.pins == old(db.pins))
        && (v.Valid? && p.Valid? ==>
              && r == Success(())
              && db.pins == old(db.pins)[v.sanitized := PinLockout.NewPinRow(salt, kdf.derive(p.sanitized, salt), now)])
      ensures db.schema == old(db.schema) && db.accounts == old(db.accounts)
      ensures db.sessions == old(db.sessions) && db.credentials == old(db.credentials)
    {
      var v := ValidateUlid(Str(accountId));
      if v.Invalid? {
        return Failure(InvalidAccountId(v.error));
      }
      var p := ValidatePin(Str(pin));
      if p.Invalid? {
        return Failure(p.error);
      }
      var hash := kdf.derive(p.sanitized, salt);
      db.pins := db.pins[v.sanitized := PinLockout.NewPinRow(salt, hash, now)];
      r := Success(());
    }

    /** verifyPin at time `now`; `sessionId` is the `ulid()` the new
        session gets. The checks come in the source's order: the account id,
        the PIN, the rate limiter, the stored row, the lock, the hash. */
    method VerifyPin(accountId: string, pin: string, kdf: Kdf, now: int, sessionId: string)
      returns (r: Result<Session, string>)
      requires Valid()
      modifies this, limiter, db
      ensures Valid()
      ensures db.schema == old(db.schema) && db.accounts == old(db.accounts) && db.credentials == old(db.credentials)
      ensures var v := ValidateUlid(Str(accountId)); var p := ValidatePin(Str(pin));
        && (v.Invalid? ==> r == Failure(InvalidAccountId(v.error)))
        && (v.Valid? && p.Invalid? ==> r == Failure(p.error))
        && (v.Invalid? || p.Invalid? ==>
              limiter.attempts == old(limiter.attempts) && db.pins == old(db.pins)
              && db.sessions == old(db.sessions) && current == old(current))
      ensures var v := ValidateUlid(Str(accountId)); var p := ValidatePin(Str(pin));
        v.Valid? && p.Valid? ==>
        var key := v.sanitized;
        var d := Decide(Lookup(old(limiter.attempts), key), now, Security.PIN_MAX_ATTEMPTS, Security.PIN_WINDOW_MS);
        && (!d.0 ==> r == Failure(RATE_LIMITED))
        && (!d.0 || key !in old(db.pins) ==>
              limiter.attempts == old(limiter.attempts)[key := d.1] && db.pins == old(db.pins)
              && db.sessions == old(db.sessions) && current == old(current))
        && (d.0 && key !in old(db.pins) ==> r == Failure(PinLockout.PIN_NOT_SET))
        && (d.0 && key in old(db.pins) ==>
              var a := PinLockout.Attempt(old(db.pins)[key], kdf, p.sanitized, now);
              && db.pins == old(db.pins)[key := a.1]
              && (a.0.Refused? ==>
                    r == Failure(a.0.message) && limiter.attempts == old(limiter.attempts)[key := d.1]
                    && db.sessions == old(db.sessions) && current == old(current))
              && (a.0.Accepted? ==>
                    var s := Session(sessionId, key, now, now + Security.SESSION_TIMEOUT_MS);
                    && limiter.attempts == old(limiter.attempts) - {key}
                    && (sessionId in old(db.sessions) ==>
                          r == Failure(SESSION_INSERT_FAILED) && db.sessions == old(db.sessions) && current == old(current))
                    && (sessionId !in old(db.sessions) ==>
                          r == Success(s) && current == Some(s)
                          && db.sessions == old(db.sessions)[sessionId := SessionRow(key, now, Some(s.expiresAt))])))
    {
      var v := ValidateUlid(Str(accountId));
      if v.Invalid? {
        return Failure(InvalidAccountId(v.error));
      }
      var p := ValidatePin(Str(pin));
      if p.Invalid? {
        return Failure(p.error);
      }
      var key := v.sanitized;
      var allowed := limiter.IsAllowed(key, now);
      if !allowed {
        return Failure(RATE_LIMITED);
      }
      if key !in db.pins {
        return Failure(PinLockout.PIN_NOT_SET);
      }
      var row := db.pins[key];
      if PinLockout.IsLocked(row, now) {
        return Failure(PinLockout.LockedMessage(row, now));
      }
      var candidate := kdf.derive(p.sanitized, row.salt);
      var equal, _ := TimingSafeEqual(row.hash, candidate);
      if !equal {
        var fails := row.failedAttempts + 1;
        db.pins := db.pins[key := PinLockout.AfterMismatch(row, now)];
        return Failure(PinLockout.MismatchMessage(fails));
      }
      db.pins := db.pins[key := PinLockout.AfterMatch(row)];
      limiter.Reset(key);
      var s := Session(sessionId, key, now, now + Security.SESSION_TIMEOUT_MS);
      if sessionId in db.sessions {
        return Failure(SESSION_INSERT_FAILED);
      }
      db.sessions := db.sessions[sessionId := SessionRow(key, now, Some(s.expiresAt))];
      current := Some(s);
      r := Success(s);
    }

    /** authenticateWebAuthn: the WebAuthn check, then a session that is
        inserted without `expires_at` although the in-memory copy has one.
        The account id is not validated. */
    method AuthenticateWebAuthn(accountId: string, supported: bool, challenge: Bytes,
                                got: WebAuthn.Reply<Option<WebAuthn.Assertion>>, v: WebAuthn.Verifier,
                                now: int, sessionId: string)
      returns (r: Result<Session, string>)
      modifies this, db
      ensures db.schema == old(db.schema) && db.accounts == old(db.accounts) && db.pins == old(db.pins)
      ensures limiter.attempts == old(limiter.attempts)
      ensures r.Success? ==>
        && r.value == Session(sessionId, accountId, now, now + Security.SESSION_TIMEOUT_MS)
        && sessionId !in old(db.sessions)
        && db.sessions == old(db.sessions)[sessionId := SessionRow(accountId, now, None)]
        && current == Some(r.value)
      ensures r.Failure? ==> db.sessions == old(db.sessions) && current == old(current)
      ensures var verdict := WebAuthn.Verdict(old(db.credentials), accountId, supported, challenge, got, v);
        && (verdict.Failure? ==> r == Failure(verdict.error))
        && (verdict == Success(false) ==> r == Failure(WEBAUTHN_FAILED))
        && (verdict == Success(true) ==> (r.Success? <==> sessionId !in old(db.sessions)))
        && (verdict == Success(true) && sessionId in old(db.sessions) ==> r == Failure(SESSION_INSERT_FAILED))
        && db.credentials == if verdict == Success(true)
             then WebAuthn.Touch(old(db.credentials), WebAuthn.MatchedCredential(old(db.credentials), accountId, got).value.id, now)
             else old(db.credentials)
    {
      var valid := WebAuthn.Authenticate(db, accountId, supported, challenge, got, v, now);
      if valid.Failure? {
        return Failure(valid.error);
      }
      if !valid.value {
        return Failure(WEBAUTHN_FAILED);
      }
      var s := Session(sessionId, accountId, now, now + Security.SESSION_TIMEOUT_MS);
      if sessionId in db.sessions {
        return Failure(SESSION_INSERT_FAILED);
      }
      db.sessions := db.sessions[sessionId := SessionRow(accountId, now, None)];
      current := Some(s);
      r := Success(s);
    }

    /** currentSession(): an expired holder is cleared and reported absent;
        otherwise the holder is returned unchanged. */
    method CurrentSession(now: int) returns (s: Option<Session>)
      modifies this
      ensures old(current).Some? && HolderExpired(old(current).value, now) ==> s == None && current == None
      ensures !(old(current).Some? && HolderExpired(old(current).value, now)) ==> s == old(current) && current == old(current)
    {
      if current.Some? && HolderExpired(current.value, now) {
        Lock();
        return None;
      }
      s := current;
    }

    /** validateAndRefreshSession: an unknown or malformed id gives nothing;
        an expired row is deleted; otherwise its expiry slides to thirty
        minutes from now and it becomes the current session. */
    method ValidateAndRefreshSession(sessionId: string, now: int) returns (s: Option<Session>)
      modifies this, db
      ensures db.schema == old(db.schema) && db.accounts == old(db.accounts)
      ensures db.pins == old(db.pins) && db.credentials == old(db.credentials)
      ensures var v := ValidateUlid(Str(sessionId));
        && (v.Invalid? || v.sanitized !in old(db.sessions) ==>
              s == None && db.sessions == old(db.sessions) && current == old(current))
        && (v.Valid? && v.sanitized in old(db.sessions) && RowExpired(old(db.sessions)[v.sanitized], now) ==>
              s == None && db.sessions == old(db.sessions) - {v.sanitized} && current == old(current))
        && (v.Valid? && v.sanitized in old(db.sessions) && !RowExpired(old(db.sessions)[v.sanitized], now) ==>
              var row := old(db.sessions)[v.sanitized];
              var refreshed := Session(v.sanitized, row.accountId, row.createdAt, now + Security.SESSION_TIMEOUT_MS);
              && s == Some(refreshed) && current == s
              && db.sessions == old(db.sessions)[v.sanitized := row.(expiresAt := Some(refreshed.expiresAt))])
    {
      var v := ValidateUlid(Str(sessionId));
      if v.Invalid? {
        return None;
      }
      var id := v.sanitized;
      if id !in db.sessions {
        return None;
      }
      var row := db.sessions[id];
      if RowExpired(row, now) {
        db.sessions := db.sessions - {id};
        return None;
      }
      var newExpiresAt := now + Security.SESSION_TIMEOUT_MS;
      db.sessions := db.sessions[id := row.(expiresAt := Some(newExpiresAt))];
      var session := Session(id, row.accountId, row.createdAt, newExpiresAt);
      current := Some(session);
      s := Some(session);
    }

    /** cleanupExpiredSessions: deletes exactly the rows whose expiry is
        before now. */
    method CleanupExpiredSessions(now: int)
      modifies db
      ensures db.sessions == CleanupSessions(old(db.sessions), now)
      ensures db.schema == old(db.schema) && db.accounts == old(db.accounts)
      ensures db.pins == old(db.pins) && db.credentials == old(db.credentials)
    {
      db.sessions := CleanupSessions(db.sessions, now);
    }

    /** lock(): clears the in-memory session only. */
    method Lock()
      modifies this
      ensures current == None
    {
      current := None;
    }

    /** logout(): deletes the current session's row when the database can
        be reached (`dbReachable`; a failure is swallowed), then always
        clears the in-memory session. */
    method Logout(dbReachable: bool)
      modifies this, db
      ensures current == None
      ensures old(current).Some? && dbReachable ==> db.sessions == old(db.sessions) - {old(current).value.id}
      ensures old(current).None? || !dbReachable ==> db.sessions == old(db.sessions)
      ensures db.schema == old(db.schema) && db.accounts == old(db.accounts)
      ensures db.pins == old(db.pins) && db.credentials == old(db.credentials)
    {
      if current.Some? && dbReachable {
        db.sessions := db.sessions - {current.value.id};
      }
      Lock();
    }

    /** unlockWithSession(session): installs the session without any check. */
    method UnlockWithSession(session: Session)
      modifies this
      ensures current == Some(session)
    {
      current := Some(session);
    }
  }
}
