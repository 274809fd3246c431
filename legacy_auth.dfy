/** The older authentication service of core/auth/AuthService.ts, which
    the lock screen, the onboarding pages and the route guard use. It
    shares the PIN lockout with the newer service, but validates nothing,
    has no rate limiter, gives its sessions no expiry, and keeps its own
    in-memory current session, independent of the newer service's. */
module LegacyAuth {
  import opened Base
  import opened Crypto
  import opened Storage
  import PinLockout

  /** The in-memory session; `expiresAt` is optional and never set here. */
  datatype Session = Session(id: string, accountId: string, createdAt: int, expiresAt: Option<int>)

  const REGISTRATION_NOT_IMPLEMENTED := "WebAuthn registration not implemented yet"
  const AUTHENTICATION_NOT_IMPLEMENTED := "WebAuthn authentication not implemented yet"
  /** The message of a failed session INSERT (a repeated id); its exact
      SQLite wording is not part of this model. */
  const SESSION_INSERT_FAILED := "UNIQUE constraint failed"

  class AuthService {
    var current: Option<Session>
    const db: Database

    constructor (db: Database)
      ensures this.db == db && current == None
    {
      this.db := db;
      current := None;
    }

    /** setPin: the row is replaced for whatever account id and PIN come. */
    method SetPin(accountId: string, pin: string, kdf: Kdf, salt: Bytes, now: int)
      modifies db
      ensures db.pins == old(db.pins)[accountId := PinLockout.NewPinRow(salt, kdf.derive(pin, salt), now)]
      ensures db.schema == old(db.schema) && db.accounts == old(db.accounts)
      ensures db.sessions == old(db.sessions) && db.credentials == old(db.credentials)
    {
      var hash := kdf.derive(pin, salt);
      db.pins := db.pins[accountId := PinLockout.NewPinRow(salt, hash, now)];
    }

    /** verifyPin: the stored row, the lock, the hash. The iteration count
        read from the row's `params` is discarded, so the derivation is
        always the fixed one. */
    method VerifyPin(accountId: string, pin: string, kdf: Kdf, now: int, sessionId: string)
      returns (r: Result<Session, string>)
      modifies this, db
      ensures db.schema == old(db.schema) && db.accounts == old(db.accounts) && db.credentials == old(db.credentials)
      ensures accountId !in old(db.pins) ==>
        r == Failure(PinLockout.PIN_NOT_SET) && db.pins == old(db.pins)
        && db.sessions == old(db.sessions) && current == old(current)
      ensures accountId in old(db.pins) ==>
        var a := PinLockout.Attempt(old(db.pins)[accountId], kdf, pin, now);
        && db.pins == old(db.pins)[accountId := a.1]
        && (a.0.Refused? ==>
              r == Failure(a.0.message) && db.sessions == old(db.sessions) && current == old(current))
        && (a.0.Accepted? ==>
              var s := Session(sessionId, accountId, now, None);
              && (sessionId in old(db.sessions) ==>
                    r == Failure(SESSION_INSERT_FAILED) && db.sessions == old(db.sessions) && current == old(current))
              && (sessionId !in old(db.sessions) ==>
                    r == Success(s) && current == Some(s)
                    && db.sessions == old(db.sessions)[sessionId := SessionRow(accountId, now, None)]))
    {
      if accountId !in db.pins {
        return Failure(PinLockout.PIN_NOT_SET);
      }
      var row := db.pins[accountId];
      if PinLockout.IsLocked(row, now) {
        return Failure(PinLockout.LockedMessage(row, now));
      }
      var candidate := kdf.derive(pin, row.salt);
      var equal, _ := TimingSafeEqual(row.hash, candidate);
      if !equal {
        var fails := row.failedAttempts + 1;
        db.pins := db.pins[accountId := PinLockout.AfterMismatch(row, now)];
        return Failure(PinLockout.MismatchMessage(fails));
      }
      db.pins := db.pins[accountId := PinLockout.AfterMatch(row)];
      var s := Session(sessionId, accountId, now, None);
      if sessionId in db.sessions {
        return Failure(SESSION_INSERT_FAILED);
      }
      db.sessions := db.sessions[sessionId := SessionRow(accountId, now, None)];
      current := Some(s);
      r := Success(s);
    }

    /** registerWebAuthn: always rejects. */
    method RegisterWebAuthn(accountId: string) returns (r: Result<(), string>)
      ensures r == Failure(REGISTRATION_NOT_IMPLEMENTED)
    {
      r := Failure(REGISTRATION_NOT_IMPLEMENTED);
    }

    /** authenticateWebAuthn: always rejects. */
    method AuthenticateWebAuthn(accountId: string) returns (r: Result<Session, string>)
      ensures r == Failure(AUTHENTICATION_NOT_IMPLEMENTED)
    {
      r := Failure(AUTHENTICATION_NOT_IMPLEMENTED);
    }

    /** currentSession(): whatever is held, with no expiry check. */
    method CurrentSession() returns (s: Option<Session>)
      ensures s == current
    {
      s := current;
    }

    /** lock(): clears the in-memory session only. */
    method Lock()
      modifies this
      ensures current == None
    {
      current := None;
    }

    /** unlockWithSession(session): installs the session without any check. */
    method UnlockWithSession(session: Session)
      modifies this
      ensures current == Some(session)
    {
      current := Some(session);
    }
  }
}
