/** The per-account PIN lockout both authentication services implement on
    the `pins` row (app/core/auth/AuthService.ts and core/auth/AuthService.ts,
    which agree on it): a lock check against `next_allowed_at`, then the
    hash comparison, then the update of `failed_attempts` and
    `next_allowed_at`. Five failures lock the account for five minutes. */
module PinLockout {
  import opened Base
  import opened Crypto
  import opened Storage
  import Security

  const MAX_FAILURES := 5
  /** RATE_LIMIT_CONFIG.PIN_ATTEMPTS.LOCKOUT_MS, written `5 * 60_000` in the
      older service. */
  const LOCKOUT_MS := Security.PIN_LOCKOUT_MS

  const PIN_NOT_SET := "PIN not set"
  const INCORRECT_PIN := "Incorrect PIN"
  const TOO_MANY_ATTEMPTS := "Too many attempts. Try later."

  /** The `params` text setPin stores: the JSON serialization of the KDF
      settings. */
  const PIN_PARAMS := "{\"kdf\":\"pbkdf2\",\"iters\":200000,\"hash\":\"SHA-256\",\"len\":32}"

  predicate IsLocked(row: PinRow, now: int) {
    row.nextAllowedAt.Some? && now < row.nextAllowedAt.value
  }

  /** The whole seconds left on a lock, rounded up. */
  function LockedSeconds(row: PinRow, now: int): (secs: int)
    requires IsLocked(row, now)
    ensures secs >= 1
    ensures (secs - 1) * 1000 < row.nextAllowedAt.value - now <= secs * 1000
  {
    CeilDiv(row.nextAllowedAt.value - now, 1000)
  }

  function LockedMessage(row: PinRow, now: int): string
    requires IsLocked(row, now)
  {
    "Locked. Try again in " + IntToString(LockedSeconds(row, now)) + "s"
  }

  /** The row `INSERT OR REPLACE INTO pins(account_id,salt,hash,params,
      updated_at)` leaves: the lockout columns take their defaults. */
  function NewPinRow(salt: Bytes, hash: Bytes, now: int): PinRow {
    PinRow(salt, hash, PIN_PARAMS, now, 0, None)
  }

  /** `UPDATE pins SET failed_attempts=?, next_allowed_at=?` after a wrong
      PIN. */
  function AfterMismatch(row: PinRow, now: int): PinRow {
    var fails := row.failedAttempts + 1;
    row.(failedAttempts := fails, nextAllowedAt := if fails >= MAX_FAILURES then Some(now + LOCKOUT_MS) else None)
  }

  function MismatchMessage(fails: int): string {
    if fails >= MAX_FAILURES then TOO_MANY_ATTEMPTS else INCORRECT_PIN
  }

  /** `UPDATE pins SET failed_attempts=0, next_allowed_at=NULL`. */
  function AfterMatch(row: PinRow): PinRow {
    row.(failedAttempts := 0, nextAllowedAt := None)
  }

  datatype Outcome = Refused(message: string) | Accepted

  /** One verification against an existing row at time `now`: the outcome
      and the row afterwards. */
  function Attempt(row: PinRow, kdf: Kdf, pin: string, now: int): (Outcome, PinRow) {
    if IsLocked(row, now) then (Refused(LockedMessage(row, now)), row)
    else if kdf.derive(pin, row.salt) == row.hash then (Accepted, AfterMatch(row))
    else (Refused(MismatchMessage(row.failedAttempts + 1)), AfterMismatch(row, now))
  }

  /** A sequence of verifications, each a PIN and the time it is made. */
  function Attempts(row: PinRow, kdf: Kdf, tries: seq<(string, int)>): (r: (seq<Outcome>, PinRow))
    ensures |r.0| == |tries|
    decreases |tries|
  {
    if tries == [] then ([], row)
    else
      var step := Attempt(row, kdf, tries[0].0, tries[0].1);
      var rest := Attempts(step.1, kdf, tries[1..]);
      ([step.0] + rest.0, rest.1)
  }

  /** No PIN of `tries` is the one the row's hash was derived from. */
  predicate AllWrong(row: PinRow, kdf: Kdf, tries: seq<(string, int)>) {
    forall i :: 0 <= i < |tries| ==> kdf.derive(tries[i].0, row.salt) != row.hash
  }

  /** While a lock is in force every verification is refused, the right
      PIN included, and nothing about the row changes. */
  lemma LockedRefusesAll(row: PinRow, kdf: Kdf, pin: string, now: int)
    requires IsLocked(row, now)
    ensures Attempt(row, kdf, pin, now).0 == Refused(LockedMessage(row, now))
    ensures Attempt(row, kdf, pin, now).1 == row
  {
  }

  /** Wrong PINs on an unlocked row below the limit: each adds one to the
      counter and answers "Incorrect PIN", until the failure that reaches
      the limit answers "Too many attempts" and locks the row for five
      minutes from the time it is made. */
  lemma {:induction false} WrongAttemptsCount(row: PinRow, kdf: Kdf, tries: seq<(string, int)>)
    requires row.nextAllowedAt.None? && 0 <= row.failedAttempts
    requires row.failedAttempts + |tries| <= MAX_FAILURES
    requires AllWrong(row, kdf, tries)
    ensures var r := Attempts(row, kdf, tries);
      && r.1.salt == row.salt && r.1.hash == row.hash
      && r.1.failedAttempts == row.failedAttempts + |tries|
      && (r.1.failedAttempts < MAX_FAILURES ==> r.1.nextAllowedAt.None?)
      && (|tries| > 0 && r.1.failedAttempts == MAX_FAILURES ==>
            r.1.nextAllowedAt == Some(tries[|tries| - 1].1 + LOCKOUT_MS))
      && forall i :: 0 <= i < |tries| ==>
            r.0[i] == Refused(MismatchMessage(row.failedAttempts + i + 1))
    decreases |tries|
  {
    if tries != [] {
      var step := Attempt(row, kdf, tries[0].0, tries[0].1);
      assert step.1 == AfterMismatch(row, tries[0].1);
      var rest := tries[1..];
      assert AllWrong(step.1, kdf, rest) by {
        forall i | 0 <= i < |rest| ensures kdf.derive(rest[i].0, step.1.salt) != step.1.hash {
          assert rest[i] == tries[i + 1];
        }
      }
      if step.1.failedAttempts == MAX_FAILURES {
        assert rest == [];
      } else {
        WrongAttemptsCount(step.1, kdf, rest);
        if rest != [] {
          assert rest[|rest| - 1] == tries[|tries| - 1];
        }
      }
    }
  }

  /** Five wrong PINs on a fresh row: four "Incorrect PIN" answers, then
      "Too many attempts. Try later.", and the row locked for the five
      minutes after the fifth. */
  lemma FiveWrongAttemptsLock(salt: Bytes, hash: Bytes, setAt: int, kdf: Kdf, tries: seq<(string, int)>)
    requires |tries| == MAX_FAILURES
    requires AllWrong(NewPinRow(salt, hash, setAt), kdf, tries)
    ensures var r := Attempts(NewPinRow(salt, hash, setAt), kdf, tries);
      && (forall i :: 0 <= i < 4 ==> r.0[i] == Refused(INCORRECT_PIN))
      && r.0[4] == Refused(TOO_MANY_ATTEMPTS)
      && r.1.failedAttempts == MAX_FAILURES
      && forall t :: tries[4].1 <= t < tries[4].1 + LOCKOUT_MS ==> IsLocked(r.1, t)
  {
    WrongAttemptsCount(NewPinRow(salt, hash, setAt), kdf, tries);
  }

  /** Once a lock has run out, the counter is still at or past the limit,
      so the next wrong PIN locks again at once. */
  lemma WrongAfterLockRelocks(row: PinRow, kdf: Kdf, pin: string, now: int)
    requires row.failedAttempts >= MAX_FAILURES - 1 && !IsLocked(row, now)
    requires kdf.derive(pin, row.salt) != row.hash
    ensures Attempt(row, kdf, pin, now).0 == Refused(TOO_MANY_ATTEMPTS)
    ensures forall t :: now <= t < now + LOCKOUT_MS ==> IsLocked(Attempt(row, kdf, pin, now).1, t)
  {
  }

  /** The seconds a fresh lock reports lie between 1 and 300. */
  lemma LockedSecondsBounded(row: PinRow, now: int)
    requires IsLocked(row, now) && row.nextAllowedAt.value - now <= LOCKOUT_MS
    ensures 1 <= LockedSeconds(row, now) <= LOCKOUT_MS / 1000
  {
  }

  /** The right PIN on an unlocked row is accepted and clears the counter
      and the lock, keeping the credential. */
  lemma RightPinResets(row: PinRow, kdf: Kdf, pin: string, now: int)
    requires !IsLocked(row, now) && kdf.derive(pin, row.salt) == row.hash
    ensures var r := Attempt(row, kdf, pin, now);
      r.0 == Accepted && r.1.failedAttempts == 0 && r.1.nextAllowedAt.None?
      && r.1.salt == row.salt && r.1.hash == row.hash
  {
  }

  /** After setPin, the PIN that was set is accepted, and, for a KDF without
      collisions on the salt, every other PIN is refused as incorrect. */
  lemma SetThenVerify(salt: Bytes, pin: string, other: string, kdf: Kdf, setAt: int, now: int)
    requires CollisionFree(kdf, salt) && other != pin
    ensures Attempt(NewPinRow(salt, kdf.derive(pin, salt), setAt), kdf, pin, now).0 == Accepted
    ensures Attempt(NewPinRow(salt, kdf.derive(pin, salt), setAt), kdf, other, now).0 == Refused(INCORRECT_PIN)
  {
    assert kdf.derive(other, salt) != kdf.derive(pin, salt);
  }
}
