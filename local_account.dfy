/** `ensureLocalAccount`, which both authentication services define alike
    (app/core/auth/AuthService.ts and core/auth/AuthService.ts): run the
    migrations, return the first account's id if there is one, and
    otherwise create the single local account. The new id (`ulid()`) and
    the clock are parameters. */
module LocalAccount {
  import opened Base
  import opened Storage
  import Migrations

  const LOCAL_DISPLAY_NAME := "Local User"

  datatype AccountError =
    | MigrationFailed(id: MigrationId)
      /** The INSERT hits the primary key of an existing row. */
    | DuplicateAccountId

  /** `SELECT id FROM accounts LIMIT 1`, kept only when truthy. */
  function FirstAccountId(accounts: seq<AccountRow>): Option<string> {
    if |accounts| > 0 && accounts[0].id != "" then Some(accounts[0].id) else None
  }

  predicate HasId(accounts: seq<AccountRow>, id: string) {
    exists i :: 0 <= i < |accounts| && accounts[i].id == id
  }

  /** The account step after a successful migration: the returned id and
      the `accounts` table afterwards. */
  function Provision(accounts: seq<AccountRow>, newId: string, now: int): (r: (Result<string, AccountError>, seq<AccountRow>))
    ensures r.0.Success? ==> HasId(r.1, r.0.value)
    ensures r.1 == accounts || r.1 == accounts + [AccountRow(newId, LOCAL_DISPLAY_NAME, now)]
    ensures FirstAccountId(accounts).Some? ==> r == (Success(accounts[0].id), accounts)
    ensures FirstAccountId(accounts).None? && HasId(accounts, newId) ==> r == (Failure(DuplicateAccountId), accounts)
    ensures FirstAccountId(accounts).None? && !HasId(accounts, newId) ==>
      r == (Success(newId), accounts + [AccountRow(newId, LOCAL_DISPLAY_NAME, now)])
  {
    if FirstAccountId(accounts).Some? then
      assert accounts[0].id == FirstAccountId(accounts).value;
      (Success(accounts[0].id), accounts)
    else if HasId(accounts, newId) then (Failure(DuplicateAccountId), accounts)
    else
      var r := accounts + [AccountRow(newId, LOCAL_DISPLAY_NAME, now)];
      assert r[|accounts|].id == newId;
      (Success(newId), r)
  }

  /** A second call finds the account the first one returned: it returns
      the same id and inserts nothing, whatever id and time it is given. */
  lemma ProvisionIdempotent(accounts: seq<AccountRow>, id1: string, t1: int, id2: string, t2: int)
    requires accounts == [] || accounts[0].id != ""
    requires id1 != ""
    ensures var first := Provision(accounts, id1, t1);
      var second := Provision(first.1, id2, t2);
      first.0.Success? && second == (first.0, first.1)
  {
  }

  /** On an empty table exactly one account is created, with the given id,
      the local display name and the current time. */
  lemma ProvisionFresh(newId: string, now: int)
    ensures Provision([], newId, now) == (Success(newId), [AccountRow(newId, LOCAL_DISPLAY_NAME, now)])
  {
    assert [] + [AccountRow(newId, LOCAL_DISPLAY_NAME, now)] == [AccountRow(newId, LOCAL_DISPLAY_NAME, now)];
  }

  /** ensureLocalAccount on the database. */
  method EnsureLocalAccount(db: Database, fails: MigrationId -> bool, newId: string, now: int)
    returns (r: Result<string, AccountError>)
    modifies db
    ensures var m := Migrations.MigrateSchema(old(db.schema), fails);
      && db.schema == m.0
      && (m.1.Some? ==> r == Failure(MigrationFailed(m.1.value)) && db.accounts == old(db.accounts))
      && (m.1.None? ==> (r, db.accounts) == Provision(old(db.accounts), newId, now))
    ensures db.pins == old(db.pins) && db.sessions == old(db.sessions) && db.credentials == old(db.credentials)
  {
    var failed := Migrations.Migrate(db, fails);
    if failed.Some? {
      return Failure(MigrationFailed(failed.value));
    }
    if |db.accounts| > 0 && db.accounts[0].id != "" {
      return Success(db.accounts[0].id);
    }
    if HasId(db.accounts, newId) {
      return Failure(DuplicateAccountId);
    }
    db.accounts := db.accounts + [AccountRow(newId, LOCAL_DISPLAY_NAME, now)];
    r := Success(newId);
  }
}
