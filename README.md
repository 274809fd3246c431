# SizeWise local trust layer in Dafny

SizeWise is an offline-first HVAC design app, shipped for the browser and as an Electron desktop app. Everything that decides who may use it on a device is local:

- a PIN with lockout and a rate limiter;
- sessions with a sliding expiry;
- WebAuthn platform credentials;
- an encrypted snapshot vault keyed by a per-device key;
- an offline trial that drops to a free tier;
- a schema migration runner;
- the input validators;
- the path, file-name, URL and header rules of the web middleware and the Electron shell.

This project models that layer and proves what each piece promises. It has one Dafny module per source file, plus a few shared modules:

- `Base`: options, results, string and integer helpers;
- `Crypto`: bytes and the cryptographic oracles;
- `Storage`: the SQLite tables as records;
- `Sorting`: newest-first ordering;
- `PinLockout`: the lockout both authentication services share;
- `LocalAccount`: `ensureLocalAccount`, which both services define alike.

Stateful code is modelled as classes with `modifies` clauses and methods:

- the two authentication services;
- the rate limiter;
- the vault;
- the license store;
- session storage;
- the database.

Each method is specified against pure functions, and lemmas state the properties of those functions.

Inputs from outside the code are parameters of the model:

- the clock (`now`), one reading per operation;
- random draws and random bytes;
- the ids `ulid()` would return;
- the feature flags `vault_encryption` and `auth_gate_vault`;
- whether WebAuthn is supported, and the platform's replies;
- the outcome of `JSON.stringify`;
- the HTML sanitizer;
- whether I/O succeeds.

The cryptographic primitives are datatypes of functions, and their axioms are hypotheses of the lemmas that need them:

- PBKDF2 (section 5.2 of RFC 8018);
- AES-GCM;
- ECDSA/SHA-256 assertion verification (section 7.2 of Web Authentication Level 2).

There are two `AuthService` modules in the source, and they are kept apart:

- The lock screen, the onboarding pages and the route guard use `core/auth/AuthService.ts`. It is modelled as `LegacyAuth`.
- The vault imports `app/core/auth/AuthService.ts`. It is modelled as `AppAuth`.
- Each has its own in-memory session, so unlocking through one does not open the other.

## Model

| member | source | states |
|---|---|---|
| Crypto.TimingSafeEqual | app/core/auth/AuthService.ts:44-49 | the result is true iff the two byte strings are equal. With equal lengths every index is visited, with no early exit; unequal lengths are refused at once. The same function is at core/auth/AuthService.ts:41-46 |
| PinLockout.LockedSeconds | app/core/auth/AuthService.ts:116-120 | the reported seconds are the remaining lock time divided by 1000, rounded up, and at least 1 |
| PinLockout.LockedRefusesAll | app/core/auth/AuthService.ts:116-120 | while `now < next_allowed_at`, every PIN, the right one included, is refused with the Locked message, and the row is unchanged |
| PinLockout.Attempts | app/core/auth/AuthService.ts:116-133 | successive verifications on one row give one outcome per attempt |
| PinLockout.WrongAttemptsCount | app/core/auth/AuthService.ts:123-132 | each wrong PIN on an unlocked row adds exactly one to `failed_attempts`. It answers 'Incorrect PIN' below five and 'Too many attempts' at five. `next_allowed_at` stays NULL below the limit and is set to the fifth attempt's time + 300000 at it. Salt and hash are kept |
| PinLockout.FiveWrongAttemptsLock | app/core/auth/AuthService.ts:123-132 | on a freshly set PIN, five wrong PINs give four 'Incorrect PIN' answers and then 'Too many attempts. Try later.', and leave the account locked for the 5 minutes after the fifth |
| PinLockout.WrongAfterLockRelocks | app/core/auth/AuthService.ts:124-125 | after a lock runs out the counter is not reset, so the next wrong PIN locks again at once for 5 minutes |
| PinLockout.LockedSecondsBounded | app/core/auth/AuthService.ts:118-119 | a lock set by a mismatch reports between 1 and 300 seconds |
| PinLockout.RightPinResets | app/core/auth/AuthService.ts:135-136 | the right PIN on an unlocked row is accepted, and afterwards `failed_attempts` is 0 and `next_allowed_at` is NULL, with the credential kept |
| PinLockout.SetThenVerify | app/core/auth/AuthService.ts:76-80 | after setPin, the PIN that was set is accepted. For a collision-free KDF every other PIN is refused as 'Incorrect PIN' |
| LocalAccount.Provision | app/core/auth/AuthService.ts:55-60 | when the first row has a non-empty id, that id is returned and nothing is inserted. Otherwise a new id already in the table is a duplicate-key failure with the table unchanged, and a free one is inserted as exactly one 'Local User' row with the time, and returned. The returned id always names a row |
| LocalAccount.ProvisionIdempotent | app/core/auth/AuthService.ts:55-56 | a second call returns the first call's id and inserts nothing, whatever id and time it is given |
| LocalAccount.ProvisionFresh | app/core/auth/AuthService.ts:57-60 | on an empty table exactly one account is created, and its id is returned |
| LocalAccount.EnsureLocalAccount | app/core/auth/AuthService.ts:52-61 | the migrations run first. A failed migration is returned with the accounts untouched; otherwise the result and the accounts table are those of `Provision`. No other table changes (the same code is at core/auth/AuthService.ts:49-58) |
| AppAuth.CleanupSessions | app/core/auth/AuthService.ts:242-251 | a row is kept iff it has no expiry or its expiry is not before `now`, and kept rows are unchanged |
| AppAuth.CleanupIdempotent | app/core/auth/AuthService.ts:251 | a second cleanup at the same time removes nothing more |
| AppAuth.RowWithoutExpiryNeverExpires | app/core/auth/AuthService.ts:175 | a session row inserted without `expires_at` (a WebAuthn login) survives every cleanup and is never found expired by a refresh |
| AppAuth.SessionLifetime | app/core/auth/AuthService.ts:180-188 | a session created at t stays current exactly while now <= t + 1800000 |
| AppAuth.AuthService.SetPin | app/core/auth/AuthService.ts:63-81 | an invalid account id, then an invalid PIN, is rejected with its message and the pins table unchanged. Otherwise the row under the lower-cased id is replaced by one holding the derived hash, with the lockout columns at their defaults. No other table or the current session changes |
| AppAuth.AuthService.VerifyPin | app/core/auth/AuthService.ts:83-151 | the checks run in the source's order: id, PIN, rate limiter, stored row, lock, hash. Malformed input touches neither the limiter nor storage. A denial by the limiter returns before the credential is read. A missing row gives 'PIN not set'. Otherwise the row changes as `Attempt` says. On a match the limiter key is reset, and a session with expiry now + 1800000 is inserted and becomes current; on a refusal the sessions and the current session are unchanged |
| AppAuth.AuthService.AuthenticateWebAuthn | app/core/auth/AuthService.ts:159-178 | follows `WebAuthn.Verdict` on the old credentials. A verdict error is passed on. A false verdict is 'WebAuthn authentication failed'. A true verdict succeeds iff the session id is new; a repeated id is the insert failure. The credentials are touched only on a true verdict. On success the session is inserted without `expires_at`, although the in-memory copy has one, and becomes current. Any failure leaves the sessions and the current session unchanged |
| AppAuth.AuthService.CurrentSession | app/core/auth/AuthService.ts:180-188 | the holder is cleared and null returned iff it is strictly past its expiry; otherwise it is returned unchanged |
| AppAuth.AuthService.ValidateAndRefreshSession | app/core/auth/AuthService.ts:191-232 | a malformed or unknown id gives null and changes nothing. An expired row (non-null expiry, strictly past) is deleted and null returned, with memory untouched. Otherwise the expiry becomes now + 1800000 and the session becomes current |
| AppAuth.AuthService.CleanupExpiredSessions | app/core/auth/AuthService.ts:235-256 | the sessions table becomes `CleanupSessions` of the old one, and no other table changes |
| AppAuth.AuthService.Lock | app/core/auth/AuthService.ts:258-261 | the current session is cleared |
| AppAuth.AuthService.Logout | app/core/auth/AuthService.ts:263-280 | the current session's row is deleted when the database is reachable (failures are swallowed), and the current session is then always cleared |
| AppAuth.AuthService.UnlockWithSession | app/core/auth/AuthService.ts:282-286 | any session is installed unchecked |
| LegacyAuth.AuthService.SetPin | core/auth/AuthService.ts:60-67 | the row for whatever id and PIN are given is replaced, with no validation and the lockout columns at their defaults |
| LegacyAuth.AuthService.VerifyPin | core/auth/AuthService.ts:69-106 | there is no validation and no rate limiter. A missing row gives 'PIN not set' with nothing changed. Otherwise the row changes as `Attempt` says (the iteration count parsed from `params` plays no part). On a match a session with no expiry is inserted and becomes current |
| LegacyAuth.AuthService.RegisterWebAuthn | core/auth/AuthService.ts:108-114 | always rejects with 'not implemented yet' |
| LegacyAuth.AuthService.AuthenticateWebAuthn | core/auth/AuthService.ts:116-122 | always rejects with 'not implemented yet' |
| LegacyAuth.AuthService.CurrentSession | core/auth/AuthService.ts:124-126 | returns whatever is held, with no expiry check |
| LegacyAuth.AuthService.Lock | core/auth/AuthService.ts:128-131 | the current session is cleared |
| LegacyAuth.AuthService.UnlockWithSession | core/auth/AuthService.ts:133-137 | any session is installed unchecked |
| WebAuthn.ArraysEqual | app/core/auth/WebAuthnService.ts:248-254 | true iff the lengths are equal and the arrays agree at every index |
| WebAuthn.VerifyWebAuthnSignature | app/core/auth/WebAuthnService.ts:198-245 | true iff the key imports, the client data carries the expected challenge, and the signature verifies over authenticatorData followed by SHA-256(clientDataJSON). Every failure is false; it never throws |
| WebAuthn.ChallengeMismatchRefused | app/core/auth/WebAuthnService.ts:224-226 | a challenge other than the one the client data carries is refused, whatever the signature |
| WebAuthn.CredentialsOf | app/core/auth/WebAuthnService.ts:117-122 | exactly the account's rows |
| WebAuthn.FindCredential | app/core/auth/WebAuthnService.ts:154-157 | a row is found iff one has the credential id, and the row found has it |
| WebAuthn.Touch | app/core/auth/WebAuthnService.ts:169-173 | only rows with the given id get `last_used_at := now`; every other row is unchanged |
| WebAuthn.TouchChangesOnlyThatRow | app/core/auth/WebAuthnService.ts:169-173 | the update changes no field other than `last_used_at`, and only on the matched row |
| WebAuthn.Register | app/core/auth/WebAuthnService.ts:28-104 | without support it fails with 'not supported'. A rejected or null credential fails with the 'registration failed: ' prefix. Otherwise exactly one row is appended: the fresh id, the platform credential id, the placeholder JWK, and created_at == last_used_at == now. A duplicate key fails with the table unchanged; other tables are untouched |
| WebAuthn.Authenticate | app/core/auth/WebAuthnService.ts:107-180 | without support it fails with 'not supported'. No stored credential, a rejected or null assertion, an unknown credential or an unparsable key fails with the 'authentication failed: ' prefix and the table unchanged. Otherwise the result is the verification verdict. In every case the result is `Verdict` of the old table, and the table changes only on a true verdict, by touching the matched row |
| WebAuthn.MatchedCredential | app/core/auth/WebAuthnService.ts:117-157 | the row found is one of the account's own rows, and carries the assertion's credential id |
| WebAuthn.Verdict | app/core/auth/WebAuthnService.ts:107-165 | without support it is 'not supported'. A verdict of true means the assertion names one of the account's stored credentials, whose key parses, and the signature check of that key accepts it |
| WebAuthn.OwnValidAssertionAccepted | app/core/auth/WebAuthnService.ts:117-165 | the converse: with unique credential ids, an assertion that the account's own stored credential validly signs gets a verdict of true |
| WebAuthn.ForeignCredentialRefused | app/core/auth/WebAuthnService.ts:153-157 | an assertion by a credential the account does not own is not found, even when it is stored for another account |
| WebAuthn.GetWebAuthnCredentials | app/core/auth/WebAuthnService.ts:257-276 | the account's rows ordered by `created_at` descending, as a permutation (multiset) of them |
| WebAuthn.ListingIsTheAccountsRows | app/core/auth/WebAuthnService.ts:262 | the listing holds a row iff it is one of the account's rows |
| Sorting.InsertDesc | lib/vault.ts:310 | inserting into a newest-first list keeps it sorted and adds exactly the element |
| Sorting.SortDesc | lib/vault.ts:310 | the result is sorted newest first and is a permutation of the input |
| Sorting.SortDescSameElements | lib/vault.ts:310 | the sorted list has the input's length and elements |
| InputValidation.ValidateProjectName | lib/inputValidation.ts:35-63 | the checks run in order: not a string; blank after trim; trimmed length over 100; one of `< > ' " & ; :`. Each gives its own message. Otherwise the result is the sanitized trimmed name |
| InputValidation.ValidateProjectDescription | lib/inputValidation.ts:66-90 | the empty string is accepted. The checks are: not a string; over 500 after trim; a forbidden character. Otherwise the result is the sanitized trimmed text |
| InputValidation.Digits | lib/inputValidation.ts:99 | the result holds only digits and is no longer than the input |
| InputValidation.DigitsOfConcat | lib/inputValidation.ts:99 | removing non-digits distributes over concatenation, so the digits are kept in order |
| InputValidation.ValidatePin | lib/inputValidation.ts:93-116 | the PIN is accepted iff its digit string has length 6..10, and the sanitized PIN is exactly that digit string. Each rejection has its own message |
| InputValidation.ValidatePinIdempotent | lib/inputValidation.ts:99-115 | the sanitized PIN is accepted again, unchanged |
| InputValidation.ValidatePinIgnoresSeparators | lib/inputValidation.ts:99 | a non-digit typed anywhere leaves the outcome unchanged |
| InputValidation.ValidateCategory | lib/inputValidation.ts:119-130 | accepts exactly residential, commercial and industrial, echoing the input |
| InputValidation.ValidateUnitSystem | lib/inputValidation.ts:133-144 | accepts exactly imperial and si, echoing the input |
| InputValidation.ValidateUlid | lib/inputValidation.ts:175-188 | accepts iff the id is 24 ASCII letters or digits, and the sanitized id is its lower-case form, which is canonical |
| InputValidation.ValidateUlidCanonical | lib/inputValidation.ts:181-187 | a canonical id is accepted unchanged, so validation is idempotent |
| InputValidation.CaseVariantKeepsShape | lib/inputValidation.ts:181 | changing letter case keeps the id's shape |
| InputValidation.ValidateUlidCaseInsensitive | lib/inputValidation.ts:181-187 | two ids that differ only in letter case validate alike, to the same account key |
| InputValidation.ValidateGeneralText | lib/inputValidation.ts:191-207 | accepts iff the trimmed length is at most the limit, and the result is the sanitized trimmed text. The message names the limit |
| InputValidation.ValidateJsonData | lib/inputValidation.ts:210-223 | a failed serialization gives 'Invalid JSON data'. Otherwise the data is accepted iff its serialization is at most 10000 characters, and the sanitized data is that serialization |
| InputValidation.Decide | lib/inputValidation.ts:236-260 | a fresh key, or one more than windowMs past its last allowed attempt, is allowed with count 1. An allowed call inside the window adds one to the count and records `now`. A call is refused iff the key is inside the window at or above the maximum, and a refusal leaves the record unchanged. The count never exceeds max(maxAttempts, 1) |
| InputValidation.Run | lib/inputValidation.ts:236-260 | successive calls for one key give one decision per call |
| InputValidation.RunInsideWindow | lib/inputValidation.ts:252-258 | inside one window, call i on a record counting c is allowed iff c + i < maxAttempts |
| InputValidation.FirstAttemptsAllowedThenRefused | lib/inputValidation.ts:240-259 | for a fresh key inside one window, exactly the first max(maxAttempts, 1) calls are allowed, and the rest are refused |
| InputValidation.AllowedAgainAfterWindow | lib/inputValidation.ts:246-249 | once more than windowMs has passed since the last allowed attempt, the call is allowed and the count restarts at 1 |
| InputValidation.RateLimiter.IsAllowed | lib/inputValidation.ts:236-260 | the answer and the key's new record are those of `Decide`, and no other key's record changes |
| InputValidation.RateLimiter.Reset | lib/inputValidation.ts:262-264 | deletes key k's record and no other |
| InputValidation.AllowedAfterReset | lib/inputValidation.ts:262-264 | after `reset(k)` the next attempt for k is allowed |
| Ids.Base36DigitValue | lib/ids.ts:5 | a base-36 digit reads back as its value |
| Ids.Base36DigitStrictlyMonotone | lib/ids.ts:3-5 | greater values have greater digit characters |
| Ids.Base36 | lib/ids.ts:3 | the numeral is never empty |
| Ids.PadStart | lib/ids.ts:3 | the padded length is the larger of the length and the width |
| Ids.Fixed | lib/ids.ts:3 | a fixed-width numeral has exactly k characters, all in [0-9a-z] |
| Ids.Base36Length | lib/ids.ts:3 | a number below 36^k has at most k base-36 digits |
| Ids.PaddedIsFixed | lib/ids.ts:3 | left-padding the numeral of a time below 36^8 to 8 digits gives the fixed-width numeral |
| Ids.ZeroFixed | lib/ids.ts:3 | the fixed-width form of 0 is all '0' |
| Ids.ParseFixed | lib/ids.ts:3 | the fixed-width numeral reads back as the number |
| Ids.LexLessAppend | lib/ids.ts:3 | string order is kept when one character is appended to each side |
| Ids.FixedStrictlyMonotone | lib/ids.ts:3 | t1 < t2 < 36^8 gives a strictly smaller prefix in JavaScript string order |
| Ids.LexLessExtend | lib/ids.ts:3-6 | a strict order between equal-length strings is kept whatever suffixes follow them |
| Ids.LaterIdSortsAfter | lib/ids.ts:2-7 | two 24-character ids whose prefixes are the padded times t1 < t2 < 36^8, as `Ulid` makes them, compare in that order whatever their random digits, so whole ids sort by time |
| Ids.Base36Chars | lib/ids.ts:3 | `toString(36)` yields only [0-9a-z] |
| Ids.Ulid | lib/ids.ts:2-7 | the id has length 24, is canonical, and is accepted unchanged by `validateUlid`. Below 36^8, the first 8 characters are the padded base-36 time and read back as it, and suffix character i is the digit of draw i |
| Security.RenderAll | lib/security.ts:26-27 | one rendered directive per policy entry, in order |
| Security.CspHeaderHasEveryDirective | lib/security.ts:25-29 | every directive name appears in the header followed by a space |
| Security.JoinEndsWithLast | lib/security.ts:28 | a join ends with its last part |
| Security.CspHeaderEndsWithBareDirective | lib/security.ts:25-29 | a last directive without sources renders with a trailing space at the end of the header |
| Security.CspHeaderEndsWithUpgrade | lib/security.ts:6-29 | the application's header ends with 'upgrade-insecure-requests ' |
| Security.IsAllowedUrlCharacterized | lib/security.ts:43-73 | a parse failure is false. Outside development exactly the file:, app: and devtools: protocols pass; in development localhost port 3000 passes as well |
| Security.ValidateProtocolScheme | lib/security.ts:128-131 | true iff the scheme is app, file or devtools |
| Security.SchemeAgreesWithUrlCheck | lib/security.ts:128-131 | a scheme is accepted iff a URL with that protocol is allowed outside development |
| Security.NormalizeKeepsOccurrence | lib/security.ts:80 | mapping `\` to `/` maps every occurrence of a pattern accordingly |
| Security.BackslashTraversalTestIsDead | lib/security.ts:80-83 | after normalisation no `..\` can occur, so that half of the test never fires |
| Security.ValidateFilePathCharacterized | lib/security.ts:76-98 | a path is accepted iff its normalised form has no `../`, no leading `/`, no drive letter and no NUL |
| Security.ValidateFilePathRejects | lib/security.ts:76-98 | traversal with either separator, a NUL, a root of either kind, a drive letter, or a non-string is rejected |
| Security.NumberedDeviceName | lib/security.ts:160 | every name COM1-COM9 or LPT1-LPT9 the pattern's `[1-9]` admits is one of the listed device names |
| Security.ReservedUpperIsDeviceName | lib/security.ts:160 | the reserved-name pattern matches exactly the 22 device names, listed one by one |
| Security.DangerousCharsListed | lib/security.ts:153-154 | the dangerous-character pattern finds a character iff some character is one of `< > : " \| ? *` or below 0x20 |
| Security.ValidateFileNameCharacterized | lib/security.ts:150-171 | stated against the explicit lists: a name is accepted iff every character is at or above 0x20 and none of `< > : " \| ? *`, its upper-case form is none of the 22 device names, and it has at most 255 characters. A non-string is refused |
| Security.UpperCharKeepsNonLetters | lib/security.ts:154 | case folding changes no dangerous character |
| Security.ValidateFileNameIgnoresCase | lib/security.ts:150-171 | names differing only in letter case are judged alike |
| Security.ReservedNameRefused | lib/security.ts:160-163 | CON, PRN, AUX, NUL, COM1-9 and LPT1-9 are refused in any case |
| Security.LowerCaseDeviceNameReserved | lib/security.ts:160 | 'con' is a reserved name |
| Security.DeviceNameWithExtensionAccepted | lib/security.ts:160-170 | the reserved test matches the whole name, so 'CON.txt' passes |
| Security.DangerousCharRejected | lib/security.ts:154-157 | any dangerous character, anywhere, rejects the name |
| Security.GenerateSecureToken | lib/security.ts:101-105 | n bytes give 2n lower-case hex characters |
| Security.TokenDigits | lib/security.ts:104 | characters 2i and 2i+1 are byte i in two hex digits |
| Security.ByteHexRoundTrip | lib/security.ts:104 | two hex digits read back as their byte |
| Security.TokenRoundTrip | lib/security.ts:101-105 | decoding the token gives back the bytes, so distinct draws give distinct tokens |
| Migrations.AddLockoutColumns | db/migrations.ts:155-167 | 005_auth_lockout fails (rolled back, nothing changed) iff a statement throws or `pins` is missing; otherwise `pins` gains exactly the missing lockout columns |
| Migrations.RunAllSound | db/migrations.ts:6-15 | a run records each migration at most once and only appends to the record. It starts only actions of unrecorded migrations. It either records every given migration, or stops at one that threw, which stays unrecorded |
| Migrations.MigrateRecordsAll | db/migrations.ts:3-198 | a successful migrate records all seven migrations, each once |
| Migrations.RunAllWhenAllApplied | db/migrations.ts:7-8 | a run over recorded migrations changes nothing |
| Migrations.MigrateAgainChangesNothing | db/migrations.ts:7-8 | once everything is recorded, migrate starts no action and succeeds whatever the engine would do |
| Migrations.ApplyUnrecorded | db/migrations.ts:9-14 | an unrecorded migration whose action succeeds is started, then recorded. Only 004_auth (on a new table) and 005_auth_lockout touch the columns of `pins` |
| Migrations.RunAllStep | db/migrations.ts:6-15 | a completed apply passes on to the next migration |
| Migrations.RunAllUnrecorded | db/migrations.ts:6-15 | with no failures, unrecorded migrations each run once and are recorded in order |
| Migrations.FreshDatabase | db/migrations.ts:17-198 | on a fresh database the seven run and are recorded in the fixed order 001_core … 005_webauthn |
| Migrations.RunAllTables | db/migrations.ts:6-15 | with no failures, a run over unrecorded migrations leaves the tables that each migration in turn creates or drops; once 005_auth_lockout has run, `pins` exists with the lockout columns |
| Migrations.FreshDatabaseSchema | db/migrations.ts:17-198 | on a fresh database with no failures the run succeeds, drops only the legacy `nodes` and `edges` tables, leaves every table the migrations create (`ALL_TABLES`, the tracking table included) and gives `pins` the lockout columns |
| Migrations.LockoutColumnsAddedToOldPinsTable | db/migrations.ts:133-167 | an old `pins` table gains exactly `failed_attempts` and `next_allowed_at` and keeps its columns |
| Migrations.ApplyMigration | db/migrations.ts:6-15 | the schema and the outcome are those of `Apply`, and the data tables are untouched |
| Migrations.AuthLockout | db/migrations.ts:155-167 | the result is that of `AddLockoutColumns`, rolled back to the old schema on failure |
| Migrations.Migrate | db/migrations.ts:3-198 | the tracking table comes first, then the seven applies in order. The schema and the failed id are those of `MigrateSchema` |
| Vault.IndexOf | lib/vault.ts:262 | the index found holds the id; none is found iff no snapshot has it |
| Vault.Find | lib/vault.ts:262 | `store.get(id)`: the snapshot found has the id; none is found iff none has it |
| Vault.Put | lib/vault.ts:234 | `store.put` upsert: ids stay distinct, the new snapshot is found under its id, and exactly the snapshots with other ids are kept |
| Vault.ProjectSnapshots | lib/vault.ts:297-300 | exactly the project's snapshots |
| Vault.Infos | lib/vault.ts:303-307 | one `{id, created_at, type}` per snapshot, in order |
| Vault.Listing | lib/vault.ts:300-311 | sorted by `created_at` descending, and a permutation of the project's infos |
| Vault.ListingExactlyTheProject | lib/vault.ts:300-311 | every snapshot of the project is listed, and every listed entry is of a snapshot of the project |
| Vault.InfosMembers | lib/vault.ts:303-307 | an info is listed iff a snapshot has it |
| Vault.SliceFrom | lib/vault.ts:334 | `Array.prototype.slice(start)`: the elements from index c on, in order, where c is the start clamped to 0..n, counting from the end of the n elements for a negative start |
| Vault.RemoveIds | lib/vault.ts:339-341 | exactly the snapshots whose id is not deleted are kept, and ids stay distinct |
| Vault.RemoveOneMore | lib/vault.ts:339-341 | deleting one more id after a set is deleting the larger set |
| Vault.RemoveNothing | lib/vault.ts:334-341 | deleting no id changes nothing |
| Vault.CleanupKeepsOtherProjects | lib/vault.ts:323-341 | cleanup leaves every other project's snapshots as they were |
| Vault.ProjectSnapshotsDistinct | lib/vault.ts:300 | a project's snapshots keep the store's distinct ids |
| Vault.InfosOnce | lib/vault.ts:303-307 | with distinct ids each info appears at most once in the listing's input |
| Vault.KeptSurvives | lib/vault.ts:323-341 | each of the first k listed entries describes a snapshot of the project that the cleanup keeps |
| Vault.CleanupKeepsTheNewest | lib/vault.ts:323-341 | with 0 <= k below the count, the project's survivors are exactly the first k listed. Each of them survives, every survivor is one of them, and no survivor is older than a deleted snapshot |
| Vault.KeyStep | lib/vault.ts:82-115 | disabled encryption is refused with the store unchanged. A stored key is returned as it is, with the store unchanged. Otherwise the generated key is stored under `device_key` and returned; a failed generation is KEY_GENERATION_ERROR |
| Vault.KeyIsStable | lib/vault.ts:93-103 | once a key is handed out, later calls hand out the same key and store nothing new |
| Vault.GateAfter | lib/vault.ts:139-141 | the gate's `currentSession()` call drops an expired held session and otherwise keeps it |
| Vault.Seal | lib/vault.ts:137-164 | the IV must be the 12 random bytes encryptData draws. A closed gate is VAULT_LOCKED. Otherwise the key step runs, and its error is passed on. With a key, the result is the AES-GCM ciphertext of the data under that key, returned with that 12-byte IV, or ENCRYPTION_ERROR when the cipher fails |
| Vault.Unseal | lib/vault.ts:167-190 | a closed gate is VAULT_LOCKED. Otherwise the key step runs, and its error is passed on. With a key, the result is the AES-GCM plaintext under that key, or DECRYPTION_ERROR when decryption fails |
| Vault.SealThenUnseal | lib/vault.ts:137-190 | under the AES-GCM axiom, what was sealed unseals to the same text under the key store sealing left |
| Vault.SnapshotIdNotBlank | lib/vault.ts:221 | a snapshot id never trims to blank, so getSnapshot accepts every id createSnapshot returns |
| Vault.CreatedSnapshotReadsBack | lib/vault.ts:217-277 | the stored snapshot is found under the returned id and decrypts to the serialized data |
| Vault.DeviceVault.GetDeviceKey | lib/vault.ts:82-133 | the result and the new key store are those of `KeyStep`, and no snapshot changes |
| Vault.DeviceVault.CheckAuthGate | lib/vault.ts:139-141 | open iff the gate is off or the newer service holds a session that has not expired; the held session becomes `GateAfter` |
| Vault.DeviceVault.EncryptData | lib/vault.ts:137-164 | the result and the key store are those of `Seal` at the gate's verdict, and no snapshot changes |
| Vault.DeviceVault.DecryptData | lib/vault.ts:167-190 | the result and the key store are those of `Unseal` at the gate's verdict, and no snapshot changes |
| Vault.DeviceVault.CreateSnapshot | lib/vault.ts:195-242 | disabled gives '' with nothing touched. INVALID_PROJECT_ID, then INVALID_DATA, come before any key access. Any encryption failure (locked gate, key, cipher) gives '' with the store unchanged. Otherwise the snapshot `${projectId}_${now}_${type}` is upserted and its id returned |
| Vault.DeviceVault.GetSnapshot | lib/vault.ts:245-285 | disabled gives null. A non-string or blank id is INVALID_SNAPSHOT_ID, and an unknown id null. Otherwise the result is the decrypted text, and decryption errors reach the caller. No snapshot changes |
| Vault.DeviceVault.ListSnapshots | lib/vault.ts:288-320 | disabled gives []; otherwise the project's infos, newest first, as a permutation |
| Vault.DeviceVault.CleanupSnapshots | lib/vault.ts:323-341 | nothing changes when disabled or when there are at most k snapshots; otherwise exactly the ids of `listing.slice(k)` are deleted |
| Licensing.Bootstrapped | lib/licensing.ts:14-29 | a missing record becomes the trial `{install_at: now, trial_ends_at: now + 14 days, last_run_at: now}`. An existing record gets `last_run_at := now`, keeps its install and trial end, and becomes free iff the clock went back by more than a day, its trial ended, or it was already free |
| Licensing.OnlyTrialStaysTrial | lib/licensing.ts:24-26 | bootstrapping never makes an existing record a trial |
| Licensing.Runs | lib/licensing.ts:14-29 | successive runs always leave a record |
| Licensing.FreeIsAbsorbing | lib/licensing.ts:24-26 | once free, every later run, however the clock moves, stays free |
| Licensing.ExpiredTrialStaysFree | lib/licensing.ts:26 | a trial that saw a run after its end is free for good |
| Licensing.RunsSplit | lib/licensing.ts:14-29 | a sequence of runs composes at any split point |
| Licensing.NonTrialStaysNonTrial | lib/licensing.ts:24-26 | a record that is not a trial never becomes one, over any number of runs |
| Licensing.TrialEditionMeansNoDrop | lib/licensing.ts:14-34 | while getEdition still reports trial after a sequence of runs, no run so far found the clock gone back by more than a day or the trial over |
| Licensing.DaysLeft | lib/licensing.ts:36-41 | never negative; 0 without a trial end. Otherwise it is the remaining time in days rounded up, and 0 iff no time remains |
| Licensing.FreshInstallHasFourteenDays | lib/licensing.ts:17-22 | a fresh install reports 14 days and the trial edition |
| Licensing.LicenseStore.Bootstrap | lib/licensing.ts:14-29 | the field-by-field updates give `Bootstrapped`. The record is written back when the write succeeds and is returned either way |
| FeatureFlags.FlagValue | lib/featureFlags.ts:2-7 | a failing storage, or an absent or empty value, gives the default; otherwise the flag is true iff the value is '1' |
| FeatureFlags.FlagKeyInjective | lib/featureFlags.ts:4 | distinct names have distinct keys |
| FeatureFlags.FlagReadsBackWritten | lib/featureFlags.ts:8-10 | what setFlag writes, flag reads back, whatever the default |
| FeatureFlags.SetFlagLeavesOthers | lib/featureFlags.ts:9 | writing one flag leaves every other flag's reading unchanged |
| FeatureFlags.SessionStorage.SetFlag | lib/featureFlags.ts:8-10 | writes '1' or '0' under `ff_<name>`, after which the flag reads back the value written. A failing storage is left unchanged |
| AuthGate.Restored | app/auth/AuthGate.tsx:10-24 | a held session is kept. With none held and an account present, the newest row is taken without any expiry check |
| AuthGate.Decide | app/auth/AuthGate.tsx:26-35 | exactly one outcome holds. Onboarding iff there is no account and the path is not under /auth/onboarding. Lock iff there is an account, no session and a non-auth route. The idle lock iff there is an account and (a session or an auth route). Nothing otherwise |
| AuthGate.RedirectTargetsAreStable | app/auth/AuthGate.tsx:26-33 | the onboarding page is never sent to onboarding, and an auth route is never sent to /lock |
| AuthGate.StaleRowStillUnlocks | app/auth/AuthGate.tsx:18-24 | with an account and nothing held, a stored row, however stale, starts the idle lock instead of redirecting to /lock |
| AuthGate.Run | app/auth/AuthGate.tsx:5-38 | any failure (the database does not open) means no action. Otherwise the older service's session becomes `Restored` and the action is `Decide` |
| LicenseFormat.Alnums | app/license/activate/page.tsx:17 | keeps only ASCII letters and digits |
| LicenseFormat.AlnumsAppend | app/license/activate/page.tsx:17 | filtering distributes over concatenation |
| LicenseFormat.AlnumsOfAlnums | app/license/activate/page.tsx:17 | an all-alphanumeric string filters to itself |
| LicenseFormat.Clean | app/license/activate/page.tsx:17 | the cleaned text holds only [A-Z0-9] |
| LicenseFormat.UpperOfUpperAlnum | app/license/activate/page.tsx:17 | upper-casing [A-Z0-9] text changes nothing |
| LicenseFormat.ChunksSnoc | app/license/activate/page.tsx:23-26 | appending a character adds a '-' first after every fourth |
| LicenseFormat.ChunksShape | app/license/activate/page.tsx:23-26 | every fifth character is '-', and the rest are the text in order |
| LicenseFormat.AlnumsOfChunks | app/license/activate/page.tsx:23-26 | removing the dashes gives the grouped text back |
| LicenseFormat.FormatLicenseKey | app/license/activate/page.tsx:15-29 | '' without letters or digits; otherwise 'SW-' and the first ≤ 20 upper-cased letters and digits in dash-separated groups of four |
| LicenseFormat.FormattedKeyMatchesIffTwenty | app/license/activate/page.tsx:23-43 | the formatted key passes the activation pattern iff the input has at least 20 letters and digits |
| LicenseFormat.CheckFormat | app/license/activate/page.tsx:43-45 | a key off the pattern throws the format message before any license call; a key on it goes on unchanged |
| LicenseFormat.TypingRepeatsThePrefix | app/license/activate/page.tsx:31-33 | reformatting the field's own text keeps the S and W of the prefix: typing "A" then "B" shows "SW-SWAB" |
| LicenseFormat.FixedFormatIsIdempotent | app/license/activate/page.tsx:15-33 | the corrected formatter is idempotent |
| LicenseFormat.FixedKeyMatchesIffTwenty | app/license/activate/page.tsx:23-43 | the corrected field passes the pattern iff at least 20 letters and digits follow any prefix |
| LicenseFormat.FixedTypingKeepsOnePrefix | app/license/activate/page.tsx:31-33 | with the correction, typing "A" then "B" shows "SW-AB" |
| Middleware.HeaderMap | middleware.ts:9-11 | the header names are exactly the entries' names |
| Middleware.HeaderMapHasEvery | middleware.ts:9-11 | with distinct names every entry keeps its own value |
| Middleware.SecurityHeaderNamesDistinct | lib/security.ts:32-40 | the seven security header names are distinct |
| Middleware.SetHeaders | middleware.ts:9-11 | the `forEach` of `headers.set` gives `HeaderMap` of the entries |
| Middleware.Handle | middleware.ts:4-20 | a path containing '..', '.env' or 'config' gets a fresh 403 'Forbidden' without the security headers. Every other path is passed on with the security headers |
| Middleware.PassedResponseHeaders | middleware.ts:9-11 | a passed response carries exactly the seven headers, each with its value |
| Middleware.DistinctNamesCount | middleware.ts:9-11 | distinct names set one header each |
| Middleware.TraversalAlwaysRefused | middleware.ts:17-19 | a '..' anywhere in the path is refused |
| ElectronMain.CancelRequest | electron/main.ts:13-21 | a request is cancelled iff `allowUrl` refuses it, so the inline predicate agrees with `allowUrl` |
| ElectronMain.PackagedAllowsOnlyAppSchemes | electron/main.ts:7-11 | a packaged build allows exactly the file:, app: and devtools: prefixes |
| ElectronMain.LowerIsIdempotent | electron/main.ts:9 | lower-casing twice is lower-casing once |
| ElectronMain.DevServerAllowedInAnyCase | electron/main.ts:9 | in development, the dev server URL is allowed in any letter case |
| ElectronMain.PreventNavigation | electron/main.ts:119-128 | a navigation is prevented iff the URL parses, its origin is not http://localhost:3000, and it does not start with file: |
| ElectronMain.FileUrlsAlwaysPass | electron/main.ts:7-21 | file: URLs are loaded and navigated to in every build |
| ElectronMain.PackagedDevServerNavigatesButLoadsNothing | electron/main.ts:17-123 | in a packaged build the dev server may be navigated to, but every request to it is cancelled |
| ElectronPreload.GetSqlitePath | electron/preload.ts:15-23 | 'Invalid SQLite filename' iff the name is not one of the three allowed files. In development the path is '/sqlite/' + name; packaged, it is the file under the resources path |
| ElectronPreload.DevPathsAreTheThree | electron/preload.ts:5-22 | in development exactly the three names resolve, to the three '/sqlite/…' paths |
| ElectronPreload.NonStringRefused | electron/preload.ts:6 | a non-string argument is refused |

## Left out

- I/O plumbing is not modelled: SQLite WASM and OPFS, IndexedDB transactions and request callbacks, and the localStorage and sessionStorage APIs. Tables and stores are records, maps and sequences; SQL text is not modelled.
- IndexedDB request errors are left out (`onerror` on get, put and delete, and a failing `storeDeviceKey`). A generated key is always stored.
- Concurrency is not modelled: async interleavings of `verifyPin`, first-run key creation and migrations. Operations run one at a time.
- `Date.now()` is one `now` per operation. createSnapshot reads the clock twice and verifyPin several times; the model takes them all as equal.
- Cryptographic algorithms are not implemented: PBKDF2, AES-GCM, ECDSA, SHA-256, base64 and random number generation. They are oracles; their axioms are `CollisionFree` and `AeadSound`.
- The placeholder JWK stored at registration almost certainly makes `importKey` reject, so real authentication would always answer false. The model leaves `importKey` as an oracle.
- `Vault.DeviceVault.GetSnapshot`: the decrypted text is returned as it is. `JSON.parse` of it, and its error, are not modelled.
- `InputValidation.ValidateJsonData` takes the outcome of `JSON.stringify` as input; serialization itself is not modelled.
- `sanitizeHtml` is a function parameter. Its regular expressions are not modelled.
- `validateNumeric` is left out: it works on floating point (parseFloat, NaN, Infinity).
- WHATWG URL parsing is left out. `isAllowedUrl` and `will-navigate` take the parsed parts, or a failure, as input.
- Strings are sequences of Unicode characters, and lengths count characters. The source counts UTF-16 code units, so text outside the Basic Multilingual Plane is measured shorter than the source measures it (51 emoji are 51 characters here and 102 units there, so a 100 limit accepts them here and refuses them there). Only ASCII case folding is modelled, which is what the source's ASCII-only regexes need. `toLowerCase` on non-ASCII letters is not modelled.
- `Licensing.DaysLeft`: uses exact integer division. Floating-point rounding of `Math.ceil` on very large times is not modelled.
- `Licensing.Bootstrapped`: a malformed or non-object `sw_license` value reads as no record. The edition is limited to the three named values, and other field types are not modelled.
- `Licensing.FREE_LIMITS` is a constant with no operation using it. `canCreateProject` and related limit checks are not part of this model.
- `clock_tamper_detected`, `getLicenseStatus`, `validateLicenseKey` and `activateLicense` are used by tests or pages, but their code is not part of this model.
- `isVaultEncryptionEnabled` and `isAuthGateVaultEnabled` are not part of this model; they are the boolean inputs `encryptionEnabled` and `authGateEnabled`.
- `LegacyAuth.AuthService.VerifyPin`: the iteration count parsed from `params` is discarded by the source, so it has no effect in the model.
- The onboarding and manage pages require `/^\d{6,10}$/`, which is stricter than `validatePin`. UI pages are not modelled.
- The PIN button has a test-environment bypass that stores the raw PIN in localStorage. UI code is not modelled.
- `logSecurityEvent`, `console` output, idle-lock timers, the service worker, and Electron window, protocol and permission registration are left out.
- The database's failure messages are abstracted as 'UNIQUE constraint failed'. Foreign keys and cascades are not modelled.
- Migrations are modelled with the actions of `001`–`005` as changes to table and column sets, and each is atomic. A string action that fails part-way through is not modelled.
- `WebAuthn.GetWebAuthnCredentials`: SQLite's `ORDER BY created_at DESC` leaves the order of equal `created_at` rows undefined. The model fixes one order; its properties hold for any order with the same keys.
- Vault.Listing: ties on `created_at` come out in a different order. In the source they come out in ascending id order: `index.getAll(projectId)` yields records in primary-key order, and `Array.prototype.sort` is stable. The model keeps the store in insertion order. Its sort is also stable, so ties come out in insertion order. Vault.CleanupKeepsTheNewest and `CleanupSnapshots` inherit this. Example: two snapshots of one project made in the same millisecond, with keepCount 1. The source keeps the `…_close` one, whose id is smaller; the model keeps the one stored first.
- `AuthGate.Run`: the row returned by `ORDER BY created_at DESC LIMIT 1` is the input `newest`.
- `ElectronPreload.GetSqlitePath`: in a packaged build, the path is the pair (resources path, file name). `path.join` is not modelled.
- `ElectronMain.PreventNavigation`: a URL that does not parse makes the listener throw, so nothing is prevented.
- `Ids.Ulid`: the prefix and ordering properties hold for times below 36^8 ms (about 89 years after 1970). Above that the clock prefix is 9 characters and the id is still cut to 24.

## Findings

| source | as written | input that shows it | evidently intended | confidence | as-written member | corrected member |
|---|---|---|---|---|---|---|
| app/license/activate/page.tsx:15-35 | every change reformats the field's whole text. That text already starts with 'SW-', and its S and W count as key characters | typing "A" then "B": KeyOf(KeyOf("A") + "B") == "SW-SWAB" | strip an existing 'SW-' before cleaning, so reformatting is idempotent and typing "A" then "B" shows "SW-AB" | not executed | LicenseFormat.TypingRepeatsThePrefix | LicenseFormat.FixedFormatIsIdempotent |
