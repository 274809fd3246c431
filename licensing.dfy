/** Offline licensing (lib/licensing.ts): a fourteen-day trial that drops
    to the free tier when it runs out or when the clock is seen to go back
    by more than a day. The record lives under `sw_license` in
    localStorage; a missing, empty or unreadable record reads as none. */
module Licensing {
  import opened Base

  const DAY_MS := 86400000
  const TRIAL_DAYS := 14

  datatype Edition = Trial | Free | Licensed

  /** The tiers' limits; only the free tier's are defined. */
  datatype Limits = Limits(maxProjects: nat, maxEdgesPerProject: nat)

  const FREE_LIMITS := Limits(2, 150)

  /** The stored record. `trialEndsAt` is `None` where the field is absent. */
  datatype License = License(edition: Edition, installAt: int, trialEndsAt: Option<int>, lastRunAt: int)

  /** The record of a first run. */
  function FirstRun(now: int): License {
    License(Trial, now, Some(now + TRIAL_DAYS * DAY_MS), now)
  }

  /** The clock reads more than a day before the last run. */
  predicate ClockWentBack(cur: License, now: int) {
    now + DAY_MS < cur.lastRunAt
  }

  predicate TrialOver(cur: License, now: int) {
    cur.edition == Trial && cur.trialEndsAt.Some? && now > cur.trialEndsAt.value
  }

  /** The record bootstrapLicense leaves: a first run starts the trial;
      otherwise the run time is recorded and the edition drops to free
      when the clock went back or the trial is over. */
  function Bootstrapped(cur: Option<License>, now: int): (r: License)
    ensures cur.None? ==> r == FirstRun(now)
    ensures r.lastRunAt == now
    ensures cur.Some? ==> r.installAt == cur.value.installAt && r.trialEndsAt == cur.value.trialEndsAt
    ensures cur.Some? ==>
      (r.edition == Free <==> ClockWentBack(cur.value, now) || TrialOver(cur.value, now) || cur.value.edition == Free)
    ensures cur.Some? && !ClockWentBack(cur.value, now) && !TrialOver(cur.value, now) ==> r.edition == cur.value.edition
  {
    match cur
    case None => FirstRun(now)
    case Some(c) =>
      c.(edition := if ClockWentBack(c, now) || TrialOver(c, now) then Free else c.edition, lastRunAt := now)
  }

  /** An existing record never becomes a trial: only a trial stays one. */
  lemma OnlyTrialStaysTrial(c: License, now: int)
    requires Bootstrapped(Some(c), now).edition == Trial
    ensures c.edition == Trial && !ClockWentBack(c, now) && !TrialOver(c, now)
  {
  }

  /** The record after bootstrapping once per run time in `nows`. */
  function Runs(cur: Option<License>, nows: seq<int>): (r: Option<License>)
    ensures nows != [] ==> r.Some?
    ensures nows == [] ==> r == cur
    decreases |nows|
  {
    if nows == [] then cur else Runs(Some(Bootstrapped(cur, nows[0])), nows[1..])
  }

  /** Once free, always free, however the clock moves. */
  lemma {:induction false} FreeIsAbsorbing(c: License, nows: seq<int>)
    requires c.edition == Free
    ensures Runs(Some(c), nows).value.edition == Free
    decreases |nows|
  {
    if nows != [] {
      FreeIsAbsorbing(Bootstrapped(Some(c), nows[0]), nows[1..]);
    }
  }

  /** A trial that saw a run after its end is over for good. */
  lemma {:induction false} ExpiredTrialStaysFree(cur: Option<License>, nows: seq<int>, k: nat)
    requires k < |nows|
    requires var before := Runs(cur, nows[..k]);
      before.Some? && TrialOver(before.value, nows[k])
    ensures Runs(cur, nows).value.edition == Free
  {
    var before := Runs(cur, nows[..k]);
    var after := Bootstrapped(before, nows[k]);
    RunsSplit(cur, nows, k);
    FreeIsAbsorbing(after, nows[k + 1..]);
  }

  lemma {:induction false} RunsSplit(cur: Option<License>, nows: seq<int>, k: nat)
    requires k < |nows|
    ensures Runs(cur, nows) == Runs(Some(Bootstrapped(Runs(cur, nows[..k]), nows[k])), nows[k + 1..])
    decreases k
  {
    if k > 0 {
      RunsSplit(Some(Bootstrapped(cur, nows[0])), nows[1..], k - 1);
      assert nows[1..][..k - 1] == nows[1..k];
      assert nows[1..][k - 1] == nows[k];
      assert nows[1..][k..] == nows[k + 1..];
      assert nows[..k][1..] == nows[1..k];
    }
  }

  /** getEdition: the stored edition, or trial when there is no record. */
  function GetEdition(stored: Option<License>): Edition {
    if stored.Some? then stored.value.edition else Trial
  }

  /** Only a trial stays a trial: a record that is not one never becomes
      one, however many runs follow. */
  lemma {:induction false} NonTrialStaysNonTrial(c: License, nows: seq<int>)
    requires c.edition != Trial
    ensures Runs(Some(c), nows).value.edition != Trial
    decreases |nows|
  {
    if nows != [] {
      NonTrialStaysNonTrial(Bootstrapped(Some(c), nows[0]), nows[1..]);
    }
  }

  /** What getEdition reports after a sequence of runs: while it still says
      trial, no run so far found the clock gone back by more than a day or
      the trial over. */
  lemma TrialEditionMeansNoDrop(cur: Option<License>, nows: seq<int>, k: nat)
    requires k < |nows|
    requires GetEdition(Runs(cur, nows)) == Trial
    ensures var before := Runs(cur, nows[..k]);
      before.None? || (before.value.edition == Trial && !ClockWentBack(before.value, nows[k]) && !TrialOver(before.value, nows[k]))
  {
    var before := Runs(cur, nows[..k]);
    var after := Bootstrapped(before, nows[k]);
    RunsSplit(cur, nows, k);
    if after.edition != Trial {
      NonTrialStaysNonTrial(after, nows[k + 1..]);
    }
    if before.Some? {
      OnlyTrialStaysTrial(before.value, nows[k]);
    }
  }

  /** getTrialInfo's `daysLeft`: whole days to the trial's end, rounded up
      and never negative; 0 when the end is absent or zero. */
  function DaysLeft(stored: Option<License>, now: int): (days: int)
    ensures days >= 0
    ensures stored.None? || stored.value.trialEndsAt.None? || stored.value.trialEndsAt == Some(0) ==> days == 0
    ensures stored.Some? && stored.value.trialEndsAt.Some? && stored.value.trialEndsAt.value != 0 ==>
      var remaining := stored.value.trialEndsAt.value - now;
      && (days == 0 <==> remaining <= 0)
      && (days > 0 ==> (days - 1) * DAY_MS < remaining <= days * DAY_MS)
  {
    if stored.Some? && stored.value.trialEndsAt.Some? && stored.value.trialEndsAt.value != 0 then
      var d := CeilDiv(stored.value.trialEndsAt.value - now, DAY_MS);
      if d > 0 then d else 0
    else 0
  }

  /** A fresh install reports the full fourteen days. */
  lemma FreshInstallHasFourteenDays(now: int)
    requires now >= 0
    ensures DaysLeft(Some(Bootstrapped(None, now)), now) == TRIAL_DAYS
    ensures GetEdition(Some(Bootstrapped(None, now))) == Trial
  {
    var q := DaysLeft(Some(Bootstrapped(None, now)), now);
    assert (q - 1) * DAY_MS < TRIAL_DAYS * DAY_MS <= q * DAY_MS;
  }

  /** The `sw_license` entry of localStorage. */
  class LicenseStore {
    var stored: Option<License>

    constructor (stored: Option<License>)
      ensures this.stored == stored
    {
      this.stored := stored;
    }

    /** bootstrapLicense: the record is updated field by field and written
        back; a write that fails (`writeOk` false) is swallowed, and the
        record is returned either way. */
    method Bootstrap(now: int, writeOk: bool) returns (r: License)
      modifies this
      ensures r == Bootstrapped(old(stored), now)
      ensures stored == if writeOk then Some(r) else old(stored)
    {
      if stored.None? {
        r := FirstRun(now);
      } else {
        var cur := stored.value;
        if now + DAY_MS < cur.lastRunAt {
          cur := cur.(edition := Free);
        }
        cur := cur.(lastRunAt := now);
        if cur.edition == Trial && cur.trialEndsAt.Some? && now > cur.trialEndsAt.value {
          cur := cur.(edition := Free);
        }
        r := cur;
      }
      if writeOk {
        stored := Some(r);
      }
    }
  }
}
