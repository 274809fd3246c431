/** The application's SQLite database (the `sizewise.db` file), as the
    core sees it: the schema state the migration runner manages and the
    rows of the four tables the authentication code reads and writes. */
module Storage {
  import opened Base
  import opened Crypto

  /** The seven schema migrations, in the order the runner applies them. */
  datatype MigrationId =
    | Core001 | RenameLegacyTables002 | AdditionalTables003 | Auth004
    | AuthLockout005 | Licenses004 | WebAuthn005
  {
    /** The id recorded in the `migrations` table. */
    function Name(): string {
      match this
      case Core001 => "001_core"
      case RenameLegacyTables002 => "002_rename_legacy_tables"
      case AdditionalTables003 => "003_additional_tables"
      case Auth004 => "004_auth"
      case AuthLockout005 => "005_auth_lockout"
      case Licenses004 => "004_licenses"
      case WebAuthn005 => "005_webauthn"
    }
  }

  /** Which tables exist, the columns of `pins`, the migrations recorded in
      the `migrations` table (in insertion order), and the migrations whose
      action the runner has started, in order. */
  datatype Schema = Schema(
    tables: set<string>,
    pinColumns: set<string>,
    applied: seq<MigrationId>,
    executed: seq<MigrationId>)

  /** A row of `accounts`. */
  datatype AccountRow = AccountRow(id: string, displayName: string, createdAt: int)

  /** A row of `pins`, keyed by account id; `nextAllowedAt` is NULL when
      the account is not locked out. */
  datatype PinRow = PinRow(
    salt: Bytes,
    hash: Bytes,
    params: string,
    updatedAt: int,
    failedAttempts: int,
    nextAllowedAt: Option<int>)

  /** A row of `sessions`, keyed by session id; `expiresAt` is NULL when the
      inserting statement gave no expiry. */
  datatype SessionRow = SessionRow(accountId: string, createdAt: int, expiresAt: Option<int>)

  /** A row of `webauthn_credentials`. */
  datatype CredentialRow = CredentialRow(
    id: string,
    accountId: string,
    credentialId: string,
    publicKeyJwk: string,
    createdAt: int,
    lastUsedAt: int)

  class Database {
    var schema: Schema
    /** `accounts` in scan order. */
    var accounts: seq<AccountRow>
    var pins: map<string, PinRow>
    var sessions: map<string, SessionRow>
    /** `webauthn_credentials` in scan order. */
    var credentials: seq<CredentialRow>

    constructor (schema: Schema)
      ensures this.schema == schema
      ensures accounts == [] && pins == map[] && sessions == map[] && credentials == []
    {
      this.schema := schema;
      accounts := [];
      pins := map[];
      sessions := map[];
      credentials := [];
    }
  }
}
