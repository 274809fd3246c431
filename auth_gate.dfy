/** The route guard (app/auth/AuthGate.tsx). On every page load it asks the
    older authentication service for its session, restores the newest
    stored session row when memory is empty and an account exists, and
    then redirects to onboarding, to the lock screen, or starts the idle
    lock. */
module AuthGate {
  import opened Base
  import opened Storage
  import LegacyAuth

  const ONBOARDING_PATH := "/auth/onboarding"
  const LOCK_PATH := "/lock"
  const AUTH_PREFIX := "/auth"

  datatype Action = RedirectToOnboarding | RedirectToLock | StartIdleLock | NoAction

  predicate IsAuthRoute(path: string) {
    StartsWith(path, AUTH_PREFIX) || path == LOCK_PATH
  }

  /** The session the guard goes on with: the held one, or else, with an
      account, the newest stored row, taken without looking at its expiry. */
  function Restored(held: Option<LegacyAuth.Session>, hasAccount: bool, newest: Option<LegacyAuth.Session>)
    : (r: Option<LegacyAuth.Session>)
    ensures held.Some? ==> r == held
    ensures held.None? && hasAccount ==> r == newest
    ensures !hasAccount ==> r == held
  {
    if held.None? && hasAccount && newest.Some? then newest else held
  }

  /** The redirect decision over the account flag, the session and the
      path. Exactly one of the four outcomes; each is named by when it
      happens. */
  function Decide(hasAccount: bool, session: Option<LegacyAuth.Session>, path: string): (r: Action)
    ensures r == RedirectToOnboarding <==> !hasAccount && !StartsWith(path, ONBOARDING_PATH)
    ensures r == RedirectToLock <==> hasAccount && session.None? && !IsAuthRoute(path)
    ensures r == StartIdleLock <==> hasAccount && (session.Some? || IsAuthRoute(path))
    ensures r == NoAction <==> !hasAccount && StartsWith(path, ONBOARDING_PATH)
  {
    if !hasAccount && !StartsWith(path, ONBOARDING_PATH) then RedirectToOnboarding
    else if hasAccount && session.None? && !IsAuthRoute(path) then RedirectToLock
    else if hasAccount && (session.Some? || IsAuthRoute(path)) then StartIdleLock
    else NoAction
  }

  /** Neither redirect target redirects again to itself: the onboarding
      page is never sent to onboarding, and the lock screen is never sent
      to the lock screen. */
  lemma RedirectTargetsAreStable(hasAccount: bool, session: Option<LegacyAuth.Session>, path: string)
    ensures StartsWith(path, ONBOARDING_PATH) ==> Decide(hasAccount, session, path) != RedirectToOnboarding
    ensures IsAuthRoute(path) ==> Decide(hasAccount, session, path) != RedirectToLock
    ensures Decide(hasAccount, session, ONBOARDING_PATH + path) != RedirectToOnboarding
  {
    assert StartsWith(ONBOARDING_PATH + path, ONBOARDING_PATH) by {
      assert (ONBOARDING_PATH + path)[..|ONBOARDING_PATH|] == ONBOARDING_PATH;
    }
  }

  /** Any expiry on the newest row is ignored: with an account and nothing
      held, the guard never sends that page to the lock screen. */
  lemma StaleRowStillUnlocks(newest: LegacyAuth.Session, path: string)
    ensures Decide(true, Restored(None, true, Some(newest)), path) == StartIdleLock
  {
  }

  /** One run of the guard. `dbOpens` false stands for any exception on the
      way (which the guard swallows); `newest` is the first row of the
      sessions query ordered by `created_at` descending. */
  method Run(auth: LegacyAuth.AuthService, db: Database, dbOpens: bool,
             newest: Option<LegacyAuth.Session>, path: string)
    returns (action: Action)
    modifies auth
    ensures !dbOpens ==> action == NoAction && auth.current == old(auth.current)
    ensures dbOpens ==>
      var hasAccount := |db.accounts| > 0;
      && auth.current == Restored(old(auth.current), hasAccount, newest)
      && action == Decide(hasAccount, auth.current, path)
  {
    var session := auth.CurrentSession();
    if !dbOpens {
      return NoAction;
    }
    var hasAccount := |db.accounts| > 0;
    if session.None? && hasAccount && newest.Some? {
      auth.UnlockWithSession(newest.value);
      session := newest;
    }
    if !hasAccount && !StartsWith(path, ONBOARDING_PATH) {
      return RedirectToOnboarding;
    }
    if hasAccount && session.None? && !IsAuthRoute(path) {
      return RedirectToLock;
    }
    if hasAccount && (session.Some? || IsAuthRoute(path)) {
      return StartIdleLock;
    }
    action := NoAction;
  }
}
