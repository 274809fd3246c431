/** The schema migration runner (db/migrations.ts). It creates the
    `migrations` tracking table, then applies seven migrations in a fixed
    order; a migration already recorded is skipped, and a migration is
    recorded only after its action has completed. The SQL engine's
    failures are an oracle: `fails(id)` says that the action of migration
    `id` throws. */
module Migrations {
  import opened Base
  import opened Storage

  const TRACKING_TABLE := "migrations"

  const MIGRATION_IDS: seq<MigrationId> := [
    Core001, RenameLegacyTables002, AdditionalTables003, Auth004,
    AuthLockout005, Licenses004, WebAuthn005]

  const CORE_TABLES: set<string> := {"projects", "junctions", "segments", "results", "results_latest"}
  const LEGACY_TABLES: set<string> := {"nodes", "edges"}
  const ADDITIONAL_TABLES: set<string> := {"junction_pressures_latest", "project_payloads", "project_heads", "device_info"}
  const AUTH_TABLES: set<string> := {"accounts", "credentials", "pins", "sessions"}
  const LICENSE_TABLES: set<string> := {"licenses"}
  const WEBAUTHN_TABLES: set<string> := {"webauthn_credentials"}

  const PIN_BASE_COLUMNS: set<string> := {"account_id", "salt", "hash", "params", "updated_at"}
  const LOCKOUT_COLUMNS: set<string> := {"failed_attempts", "next_allowed_at"}

  /** Every table a complete migration leaves in place. */
  const ALL_TABLES: set<string> :=
    {TRACKING_TABLE} + CORE_TABLES + ADDITIONAL_TABLES + AUTH_TABLES + LICENSE_TABLES + WEBAUTHN_TABLES

  /** 005_auth_lockout inside its transaction: the columns the table lacks
      are added; if a statement throws (the table is missing, or the engine
      fails) the transaction is rolled back, so nothing changes, and the
      error is rethrown. */
  function AddLockoutColumns(s: Schema, failing: bool): (r: Option<Schema>)
    ensures r.None? <==> failing || "pins" !in s.tables
    ensures r.Some? ==> r.value == s.(pinColumns := s.pinColumns + LOCKOUT_COLUMNS)
  {
    var names := if "pins" in s.tables then s.pinColumns else {};
    var missing := LOCKOUT_COLUMNS - names;
    if "pins" !in s.tables || failing then None
    else Some(s.(pinColumns := s.pinColumns + missing))
  }

  /** The action of migration `id`: the tables it creates or drops, or
      `None` when it throws. `CREATE TABLE IF NOT EXISTS` leaves an existing
      table, and so an existing `pins` table's columns, as they were. */
  function Action(id: MigrationId, s: Schema, fails: MigrationId -> bool): Option<Schema> {
    if id == AuthLockout005 then AddLockoutColumns(s, fails(id))
    else if fails(id) then None
    else match id
      case Core001 => Some(s.(tables := s.tables + CORE_TABLES))
      case RenameLegacyTables002 => Some(s.(tables := s.tables - LEGACY_TABLES))
      case AdditionalTables003 => Some(s.(tables := s.tables + ADDITIONAL_TABLES))
      case Auth004 =>
        Some(s.(tables := s.tables + AUTH_TABLES,
                pinColumns := if "pins" in s.tables then s.pinColumns else PIN_BASE_COLUMNS + LOCKOUT_COLUMNS))
      case Licenses004 => Some(s.(tables := s.tables + LICENSE_TABLES))
      case WebAuthn005 => Some(s.(tables := s.tables + WEBAUTHN_TABLES))
      case AuthLockout005 => Some(s)
  }

  /** `apply(id, action)`: the schema afterwards and whether it completed. */
  function Apply(s: Schema, id: MigrationId, fails: MigrationId -> bool): (Schema, bool) {
    if id in s.applied then (s, true)
    else
      var started := s.(executed := s.executed + [id]);
      match Action(id, started, fails)
      case None => (started, false)
      case Some(after) => (after.(applied := after.applied + [id]), true)
  }

  /** Applying `ids` in order, stopping at the first that throws; the
      second component names it. */
  function RunAll(s: Schema, ids: seq<MigrationId>, fails: MigrationId -> bool): (Schema, Option<MigrationId>)
    decreases |ids|
  {
    if ids == [] then (s, None)
    else
      var (next, ok) := Apply(s, ids[0], fails);
      if !ok then (next, Some(ids[0])) else RunAll(next, ids[1..], fails)
  }

  /** migrate(): the tracking table first, then the seven migrations. */
  function MigrateSchema(s: Schema, fails: MigrationId -> bool): (Schema, Option<MigrationId>) {
    RunAll(s.(tables := s.tables + {TRACKING_TABLE}), MIGRATION_IDS, fails)
  }

  predicate NoDuplicates(ids: seq<MigrationId>) {
    forall i, j :: 0 <= i < j < |ids| ==> ids[i] != ids[j]
  }

  /** What a run adds to the record of started actions. */
  ghost predicate StartsOnlyUnapplied(before: Schema, after: Schema, ids: seq<MigrationId>) {
    && |before.executed| <= |after.executed|
    && after.executed[..|before.executed|] == before.executed
    && forall j :: |before.executed| <= j < |after.executed| ==>
         after.executed[j] !in before.applied && after.executed[j] in ids
  }

  /** A run records each migration at most once, only ever appends to the
      record, starts only actions of migrations not yet recorded, and stops
      exactly at a migration it could not record, having recorded every
      one before it. */
  lemma {:induction false} RunAllSound(s: Schema, ids: seq<MigrationId>, fails: MigrationId -> bool)
    requires NoDuplicates(s.applied)
    ensures var (r, failed) := RunAll(s, ids, fails);
      && NoDuplicates(r.applied)
      && |s.applied| <= |r.applied| && r.applied[..|s.applied|] == s.applied
      && StartsOnlyUnapplied(s, r, ids)
      && (failed.None? ==> forall id :: id in ids ==> id in r.applied)
      && (failed.Some? ==> failed.value in ids && failed.value !in r.applied)
    decreases |ids|
  {
    if ids != [] {
      var (next, ok) := Apply(s, ids[0], fails);
      assert NoDuplicates(next.applied);
      if ok {
        RunAllSound(next, ids[1..], fails);
        var (r, failed) := RunAll(next, ids[1..], fails);
        assert r.applied[..|s.applied|] == r.applied[..|next.applied|][..|s.applied|];
        assert r.executed[..|s.executed|] == r.executed[..|next.executed|][..|s.executed|];
        forall j | |s.executed| <= j < |r.executed|
          ensures r.executed[j] !in s.applied && r.executed[j] in ids
        {
          if j >= |next.executed| {
            assert r.executed[j] in ids[1..];
          } else {
            assert r.executed[j] == next.executed[j];
          }
        }
        if failed.None? {
          forall id | id in ids ensures id in r.applied {
            if id == ids[0] {
              assert next.applied[|next.applied| - 1] == id || id in s.applied;
              assert id in next.applied;
              assert r.applied[..|next.applied|] == next.applied;
              assert id in r.applied[..|next.applied|];
            } else {
              assert id in ids[1..];
            }
          }
        }
      }
    }
  }

  /** A successful migration records every one of the seven. */
  lemma MigrateRecordsAll(s: Schema, fails: MigrationId -> bool)
    requires NoDuplicates(s.applied)
    requires MigrateSchema(s, fails).1.None?
    ensures forall id :: id in MIGRATION_IDS ==> id in MigrateSchema(s, fails).0.applied
    ensures NoDuplicates(MigrateSchema(s, fails).0.applied)
  {
    RunAllSound(s.(tables := s.tables + {TRACKING_TABLE}), MIGRATION_IDS, fails);
  }

  lemma {:induction false} RunAllWhenAllApplied(s: Schema, ids: seq<MigrationId>, fails: MigrationId -> bool)
    requires forall id :: id in ids ==> id in s.applied
    ensures RunAll(s, ids, fails) == (s, None)
    decreases |ids|
  {
    if ids != [] {
      assert ids[0] in ids;
      RunAllWhenAllApplied(s, ids[1..], fails);
    }
  }

  /** Idempotence: once every migration is recorded, a further run starts
      no action, records nothing and succeeds whatever the engine does. */
  lemma MigrateAgainChangesNothing(s: Schema, fails: MigrationId -> bool)
    requires forall id :: id in MIGRATION_IDS ==> id in s.applied
    ensures MigrateSchema(s, fails) == (s.(tables := s.tables + {TRACKING_TABLE}), None)
  {
    RunAllWhenAllApplied(s.(tables := s.tables + {TRACKING_TABLE}), MIGRATION_IDS, fails);
  }

  function NoFailures(id: MigrationId): bool { false }

  /** One migration not yet recorded whose action succeeds is started and
      recorded. */
  lemma ApplyUnrecorded(s: Schema, id: MigrationId, fails: MigrationId -> bool)
    requires id !in s.applied && !fails(id)
    requires id == AuthLockout005 ==> "pins" in s.tables
    ensures var (r, ok) := Apply(s, id, fails);
      && ok && r.applied == s.applied + [id] && r.executed == s.executed + [id]
      && (id == AuthLockout005 ==> r.pinColumns == s.pinColumns + LOCKOUT_COLUMNS)
      && (id == Auth004 ==> r.pinColumns == (if "pins" in s.tables then s.pinColumns else PIN_BASE_COLUMNS + LOCKOUT_COLUMNS))
      && (id != AuthLockout005 && id != Auth004 ==> r.pinColumns == s.pinColumns)
      && (id == Auth004 ==> "pins" in r.tables)
      && (id != RenameLegacyTables002 ==> s.tables <= r.tables)
  {
  }

  lemma RunAllStep(s: Schema, ids: seq<MigrationId>, fails: MigrationId -> bool)
    requires ids != [] && Apply(s, ids[0], fails).1
    ensures RunAll(s, ids, fails) == RunAll(Apply(s, ids[0], fails).0, ids[1..], fails)
  {
  }

  /** When the engine never fails, a run over migrations none of which is
      recorded starts and records each of them, in order, provided
      005_auth_lockout finds a `pins` table (because it exists, or 004_auth
      comes earlier). */
  lemma {:induction false} RunAllUnrecorded(s: Schema, ids: seq<MigrationId>, fails: MigrationId -> bool)
    requires forall id :: !fails(id)
    requires NoDuplicates(ids)
    requires forall i :: 0 <= i < |ids| ==> ids[i] !in s.applied
    requires forall i :: 0 <= i < |ids| && ids[i] == AuthLockout005 ==> "pins" in s.tables || Auth004 in ids[..i]
    ensures var (r, failed) := RunAll(s, ids, fails);
      failed.None? && r.applied == s.applied + ids && r.executed == s.executed + ids
    decreases |ids|
  {
    if ids != [] {
      ApplyUnrecorded(s, ids[0], fails);
      var next := Apply(s, ids[0], fails).0;
      forall i | 0 <= i < |ids[1..]| && ids[1..][i] == AuthLockout005
        ensures "pins" in next.tables || Auth004 in ids[1..][..i]
      {
        assert ids[..i + 1] == [ids[0]] + ids[1..][..i];
      }
      forall i | 0 <= i < |ids[1..]| ensures ids[1..][i] !in next.applied {
        assert ids[1..][i] == ids[i + 1] != ids[0];
      }
      RunAllUnrecorded(next, ids[1..], fails);
      assert s.applied + ids == next.applied + ids[1..];
      assert s.executed + ids == next.executed + ids[1..];
    }
  }

  /** On a database with no migration recorded, when the engine never
      fails, every migration runs once, in the fixed order, and is recorded
      in that order. */
  lemma FreshDatabase(s: Schema, fails: MigrationId -> bool)
    requires s.applied == [] && s.executed == []
    requires forall id :: !fails(id)
    ensures var (r, failed) := MigrateSchema(s, fails);
      failed.None? && r.applied == MIGRATION_IDS && r.executed == MIGRATION_IDS
  {
    var ids := MIGRATION_IDS;
    assert ids[..4][3] == Auth004;
    assert Auth004 in ids[..4];
    RunAllUnrecorded(s.(tables := s.tables + {TRACKING_TABLE}), ids, fails);
  }

  /** The tables each migration creates or drops. */
  function TablesAfter(id: MigrationId, tables: set<string>): set<string> {
    match id
    case Core001 => tables + CORE_TABLES
    case RenameLegacyTables002 => tables - LEGACY_TABLES
    case AdditionalTables003 => tables + ADDITIONAL_TABLES
    case Auth004 => tables + AUTH_TABLES
    case AuthLockout005 => tables
    case Licenses004 => tables + LICENSE_TABLES
    case WebAuthn005 => tables + WEBAUTHN_TABLES
  }

  /** The tables after the migrations `ids`, one after another. */
  function TablesAfterAll(ids: seq<MigrationId>, tables: set<string>): set<string>
    decreases |ids|
  {
    if ids == [] then tables else TablesAfterAll(ids[1..], TablesAfter(ids[0], tables))
  }

  /** A run over unrecorded migrations that all succeed leaves the tables
      that each migration in turn creates or drops, and, once
      005_auth_lockout has run, a `pins` table with the lockout columns. */
  lemma {:induction false} RunAllTables(s: Schema, ids: seq<MigrationId>, fails: MigrationId -> bool)
    requires forall id :: !fails(id)
    requires NoDuplicates(ids)
    requires forall i :: 0 <= i < |ids| ==> ids[i] !in s.applied
    requires forall i :: 0 <= i < |ids| && ids[i] == AuthLockout005 ==> "pins" in s.tables || Auth004 in ids[..i]
    ensures var (r, failed) := RunAll(s, ids, fails);
      && r.tables == TablesAfterAll(ids, s.tables)
      && ((AuthLockout005 in ids || (LOCKOUT_COLUMNS <= s.pinColumns && "pins" in s.tables)) ==>
            LOCKOUT_COLUMNS <= r.pinColumns && "pins" in r.tables)
    decreases |ids|
  {
    if ids != [] {
      ApplyUnrecorded(s, ids[0], fails);
      var next := Apply(s, ids[0], fails).0;
      assert next.tables == TablesAfter(ids[0], s.tables);
      forall i | 0 <= i < |ids[1..]| && ids[1..][i] == AuthLockout005
        ensures "pins" in next.tables || Auth004 in ids[1..][..i]
      {
        assert ids[..i + 1] == [ids[0]] + ids[1..][..i];
      }
      forall i | 0 <= i < |ids[1..]| ensures ids[1..][i] !in next.applied {
        assert ids[1..][i] == ids[i + 1] != ids[0];
      }
      RunAllTables(next, ids[1..], fails);
      if AuthLockout005 in ids && ids[0] != AuthLockout005 {
        assert AuthLockout005 in ids[1..];
      }
    }
  }

  /** On a database with no migration recorded, when the engine never
      fails, the run drops the legacy tables and nothing else, leaves every
      table of `ALL_TABLES` in place, and the `pins` table has the lockout
      columns. */
  lemma FreshDatabaseSchema(s: Schema, fails: MigrationId -> bool)
    requires s.applied == []
    requires forall id :: !fails(id)
    ensures var (r, failed) := MigrateSchema(s, fails);
      && failed.None?
      && r.tables == (s.tables - LEGACY_TABLES) + ALL_TABLES
      && LOCKOUT_COLUMNS <= r.pinColumns
  {
    var ids := MIGRATION_IDS;
    var s0 := s.(tables := s.tables + {TRACKING_TABLE});
    assert ids[..4][3] == Auth004;
    assert Auth004 in ids[..4];
    assert AuthLockout005 == ids[4] && AuthLockout005 in ids;
    RunAllUnrecorded(s0, ids, fails);
    RunAllTables(s0, ids, fails);
    assert TablesAfterAll(ids, s0.tables) == TablesAfterAll(ids[1..], s0.tables + CORE_TABLES);
    assert TablesAfterAll(ids[1..], s0.tables + CORE_TABLES)
        == TablesAfterAll(ids[2..], s0.tables + CORE_TABLES - LEGACY_TABLES);
    assert TablesAfterAll(ids[2..], s0.tables + CORE_TABLES - LEGACY_TABLES)
        == s0.tables + CORE_TABLES - LEGACY_TABLES + ADDITIONAL_TABLES + AUTH_TABLES + LICENSE_TABLES + WEBAUTHN_TABLES;
    LegacyDropLeavesTheRest(s.tables);
  }

  lemma LegacyDropLeavesTheRest(t: set<string>)
    ensures t + {TRACKING_TABLE} + CORE_TABLES - LEGACY_TABLES + ADDITIONAL_TABLES + AUTH_TABLES
            + LICENSE_TABLES + WEBAUTHN_TABLES == (t - LEGACY_TABLES) + ALL_TABLES
  {
    assert TRACKING_TABLE !in LEGACY_TABLES;
    assert forall x :: x in CORE_TABLES ==> x !in LEGACY_TABLES;
  }

  /** An older database whose `pins` table predates the lockout columns
      gains exactly those columns, and keeps every column it had. */
  lemma LockoutColumnsAddedToOldPinsTable(s: Schema)
    requires "pins" in s.tables
    requires s.applied == [Core001, RenameLegacyTables002, AdditionalTables003]
    ensures var (r, failed) := MigrateSchema(s, NoFailures);
      failed.None? && r.pinColumns == s.pinColumns + LOCKOUT_COLUMNS
  {
    var s0 := s.(tables := s.tables + {TRACKING_TABLE});
    var s3 := s0;
    var s4 := Apply(s3, MIGRATION_IDS[3], NoFailures).0;
    var s5 := Apply(s4, MIGRATION_IDS[4], NoFailures).0;
    var s6 := Apply(s5, MIGRATION_IDS[5], NoFailures).0;
    var s7 := Apply(s6, MIGRATION_IDS[6], NoFailures).0;
    assert MIGRATION_IDS[0] in s0.applied && MIGRATION_IDS[1] in s0.applied && MIGRATION_IDS[2] in s0.applied;
    assert RunAll(s0, MIGRATION_IDS, NoFailures) == RunAll(s0, MIGRATION_IDS[1..], NoFailures);
    assert RunAll(s0, MIGRATION_IDS[1..], NoFailures) == RunAll(s0, MIGRATION_IDS[2..], NoFailures);
    assert RunAll(s0, MIGRATION_IDS[2..], NoFailures) == RunAll(s3, MIGRATION_IDS[3..], NoFailures);
    assert s4.pinColumns == s.pinColumns;
    assert s5.pinColumns == s.pinColumns + LOCKOUT_COLUMNS;
    assert RunAll(s3, MIGRATION_IDS[3..], NoFailures) == RunAll(s4, MIGRATION_IDS[4..], NoFailures);
    assert RunAll(s4, MIGRATION_IDS[4..], NoFailures) == RunAll(s5, MIGRATION_IDS[5..], NoFailures);
    assert RunAll(s5, MIGRATION_IDS[5..], NoFailures) == RunAll(s6, MIGRATION_IDS[6..], NoFailures);
    assert RunAll(s6, MIGRATION_IDS[6..], NoFailures) == RunAll(s7, [], NoFailures);
  }

  /** `apply(id, action)` on the database. */
  method ApplyMigration(db: Database, id: MigrationId, fails: MigrationId -> bool) returns (ok: bool)
    modifies db
    ensures (db.schema, ok) == Apply(old(db.schema), id, fails)
    ensures db.accounts == old(db.accounts) && db.pins == old(db.pins)
    ensures db.sessions == old(db.sessions) && db.credentials == old(db.credentials)
  {
    if id in db.schema.applied {
      return true;
    }
    db.schema := db.schema.(executed := db.schema.executed + [id]);
    if id == AuthLockout005 {
      ok := AuthLockout(db, fails(id));
    } else {
      var after := Action(id, db.schema, fails);
      if after.None? {
        return false;
      }
      db.schema := after.value;
      ok := true;
    }
    if ok {
      db.schema := db.schema.(applied := db.schema.applied + [id]);
    }
  }

  /** The action of 005_auth_lockout: read the column names, then add the
      missing ones inside a transaction that is rolled back on error. */
  method AuthLockout(db: Database, failing: bool) returns (ok: bool)
    modifies db
    ensures var r := AddLockoutColumns(old(db.schema), failing);
      ok == r.Some? && db.schema == (if r.Some? then r.value else old(db.schema))
    ensures db.accounts == old(db.accounts) && db.pins == old(db.pins)
    ensures db.sessions == old(db.sessions) && db.credentials == old(db.credentials)
  {
    var names := if "pins" in db.schema.tables then db.schema.pinColumns else {};
    var before := db.schema;
    var working := db.schema;
    var thrown := false;
    if "failed_attempts" !in names {
      if "pins" !in working.tables || failing {
        thrown := true;
      } else {
        working := working.(pinColumns := working.pinColumns + {"failed_attempts"});
      }
    }
    if !thrown && "next_allowed_at" !in names {
      if "pins" !in working.tables || failing {
        thrown := true;
      } else {
        working := working.(pinColumns := working.pinColumns + {"next_allowed_at"});
      }
    }
    if !thrown && failing {
      thrown := true;
    }
    if thrown {
      db.schema := before;
      return false;
    }
    db.schema := working;
    return true;
  }

  /** migrate(): returns the id of the migration that threw, if any. */
  method Migrate(db: Database, fails: MigrationId -> bool) returns (failed: Option<MigrationId>)
    modifies db
    ensures (db.schema, failed) == MigrateSchema(old(db.schema), fails)
    ensures db.accounts == old(db.accounts) && db.pins == old(db.pins)
    ensures db.sessions == old(db.sessions) && db.credentials == old(db.credentials)
  {
    db.schema := db.schema.(tables := db.schema.tables + {TRACKING_TABLE});
    ghost var s0 := db.schema;
    var ok := ApplyMigration(db, Core001, fails);
    if !ok { return Some(Core001); }
    ghost var s1 := db.schema;
    assert RunAll(s0, MIGRATION_IDS, fails) == RunAll(s1, MIGRATION_IDS[1..], fails);
    ok := ApplyMigration(db, RenameLegacyTables002, fails);
    if !ok { return Some(RenameLegacyTables002); }
    ghost var s2 := db.schema;
    assert RunAll(s1, MIGRATION_IDS[1..], fails) == RunAll(s2, MIGRATION_IDS[2..], fails);
    ok := ApplyMigration(db, AdditionalTables003, fails);
    if !ok { return Some(AdditionalTables003); }
    ghost var s3 := db.schema;
    assert RunAll(s2, MIGRATION_IDS[2..], fails) == RunAll(s3, MIGRATION_IDS[3..], fails);
    ok := ApplyMigration(db, Auth004, fails);
    if !ok { return Some(Auth004); }
    ghost var s4 := db.schema;
    assert RunAll(s3, MIGRATION_IDS[3..], fails) == RunAll(s4, MIGRATION_IDS[4..], fails);
    ok := ApplyMigration(db, AuthLockout005, fails);
    if !ok { return Some(AuthLockout005); }
    ghost var s5 := db.schema;
    assert RunAll(s4, MIGRATION_IDS[4..], fails) == RunAll(s5, MIGRATION_IDS[5..], fails);
    ok := ApplyMigration(db, Licenses004, fails);
    if !ok { return Some(Licenses004); }
    ghost var s6 := db.schema;
    assert RunAll(s5, MIGRATION_IDS[5..], fails) == RunAll(s6, MIGRATION_IDS[6..], fails);
    ok := ApplyMigration(db, WebAuthn005, fails);
    if !ok { return Some(WebAuthn005); }
    assert RunAll(s6, MIGRATION_IDS[6..], fails) == RunAll(db.schema, [], fails);
    return None;
  }
}
