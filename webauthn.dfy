/** Offline WebAuthn (app/core/auth/WebAuthnService.ts): registering a
    platform credential into `webauthn_credentials`, authenticating with
    one, the local assertion check, and listing an account's credentials.
    What the browser and the crypto library answer is given to the model:
    whether WebAuthn is present, the reply of `navigator.credentials`, and
    the primitives the assertion check calls. */
module WebAuthn {
  import opened Base
  import opened Crypto
  import opened Storage
  import Sorting

  /** The outcome of a platform promise: its value, or a rejection with the
      message of the error. */
  datatype Reply<T> = Resolved(value: T) | Rejected(message: string)

  const NOT_SUPPORTED := "WebAuthn is not supported on this device"
  const REGISTRATION_FAILED := "WebAuthn registration failed: "
  const AUTHENTICATION_FAILED := "WebAuthn authentication failed: "
  const NO_CREDENTIAL_CREATED := "Failed to create WebAuthn credential"
  const NO_CREDENTIALS := "No WebAuthn credentials found for this account"
  const NO_ASSERTION := "WebAuthn authentication failed"
  const UNKNOWN_CREDENTIAL := "Credential not found in database"
  /** The message of a failed INSERT (a repeated `id` or `credential_id`);
      its exact SQLite wording is not part of this model. */
  const INSERT_FAILED := "UNIQUE constraint failed"

  /** `JSON.stringify` of the placeholder key the attestation parser
      returns for every credential. */
  const PLACEHOLDER_JWK := "{\"kty\":\"EC\",\"crv\":\"P-256\",\"x\":\"placeholder_x\",\"y\":\"placeholder_y\",\"use\":\"sig\",\"alg\":\"ES256\"}"

  /** The parts of an `AuthenticatorAssertionResponse` the check reads, and
      the id of the credential that produced it. */
  datatype Assertion = Assertion(
    credentialId: string,
    clientDataJson: Bytes,
    authenticatorData: Bytes,
    signature: Bytes)

  /** The primitives the assertion check calls:
      - `parseJwk`: `JSON.parse` of the stored key text;
      - `importKey`: `crypto.subtle.importKey('jwk', …)` for ECDSA P-256, `None` when it rejects;
      - `clientChallenge`: decoding the client data, parsing it as JSON and base64url-decoding its
        `challenge` (section 5.8.1 of Web Authentication Level 2), `None` when any step throws;
      - `sha256`: `crypto.subtle.digest('SHA-256', …)`;
      - `verify`: ECDSA verification with SHA-256 of a signature over some data, `None` when it rejects. */
  datatype Verifier = Verifier(
    parseJwk: string -> Reply<string>,
    importKey: string -> Option<KeyHandle>,
    clientChallenge: Bytes -> Option<Bytes>,
    sha256: Bytes -> Bytes,
    verify: (KeyHandle, Bytes, Bytes) -> Option<bool>)

  /** The relying party's check of an assertion (section 7.2 of Web
      Authentication Level 2, steps on the challenge and the signature): the
      stored key imports, the client data carries the expected challenge, and
      the signature verifies over authenticatorData ‖ SHA-256(clientDataJSON). */
  predicate AssertionValid(v: Verifier, a: Assertion, jwk: string, challenge: Bytes) {
    && v.importKey(jwk).Some?
    && v.clientChallenge(a.clientDataJson) == Some(challenge)
    && v.verify(v.importKey(jwk).value, a.signature, a.authenticatorData + v.sha256(a.clientDataJson)) == Some(true)
  }

  /** arraysEqual: stops at the first differing byte. */
  method ArraysEqual(a: Bytes, b: Bytes) returns (equal: bool)
    ensures equal <==> a == b
  {
    if |a| != |b| {
      return false;
    }
    for i := 0 to |a|
      invariant forall j :: 0 <= j < i ==> a[j] == b[j]
    {
      if a[i] != b[i] {
        return false;
      }
    }
    assert a == b;
    return true;
  }

  /** verifyWebAuthnSignature: every failure inside becomes `false`; it
      never throws. */
  method VerifyWebAuthnSignature(v: Verifier, a: Assertion, jwk: string, challenge: Bytes) returns (valid: bool)
    ensures valid <==> AssertionValid(v, a, jwk, challenge)
  {
    var key := v.importKey(jwk);
    if key.None? {
      return false;
    }
    var received := v.clientChallenge(a.clientDataJson);
    if received.None? {
      return false;
    }
    var same := ArraysEqual(challenge, received.value);
    if !same {
      return false;
    }
    var signedData := a.authenticatorData + v.sha256(a.clientDataJson);
    var ok := v.verify(key.value, a.signature, signedData);
    valid := ok == Some(true);
  }

  /** A challenge that differs from the one the client data carries is
      refused whatever the signature. */
  lemma ChallengeMismatchRefused(v: Verifier, a: Assertion, jwk: string, challenge: Bytes)
    requires v.clientChallenge(a.clientDataJson) != Some(challenge)
    ensures !AssertionValid(v, a, jwk, challenge)
  {
  }

  /** The account's rows, in scan order. */
  function CredentialsOf(rows: seq<CredentialRow>, accountId: string): (r: seq<CredentialRow>)
    ensures forall c :: c in r <==> c in rows && c.accountId == accountId
    ensures |r| <= |rows|
  {
    if rows == [] then []
    else if rows[0].accountId == accountId then [rows[0]] + CredentialsOf(rows[1..], accountId)
    else CredentialsOf(rows[1..], accountId)
  }

  /** `rows.find(row => row.credential_id === credentialId)`; the column is
      UNIQUE, so there is at most one such row. */
  function FindCredential(rows: seq<CredentialRow>, credentialId: string): (r: Option<CredentialRow>)
    ensures r.Some? <==> exists c :: c in rows && c.credentialId == credentialId
    ensures r.Some? ==> r.value in rows && r.value.credentialId == credentialId
  {
    if rows == [] then None
    else if rows[0].credentialId == credentialId then Some(rows[0])
    else
      var r := FindCredential(rows[1..], credentialId);
      assert forall c :: c in rows[1..] ==> c in rows;
      assert forall c :: c in rows && c != rows[0] ==> c in rows[1..];
      r
  }

  /** `UPDATE webauthn_credentials SET last_used_at = ? WHERE id = ?`. */
  function Touch(rows: seq<CredentialRow>, id: string, now: int): (r: seq<CredentialRow>)
    ensures |r| == |rows|
    ensures forall i :: 0 <= i < |rows| ==>
      r[i] == if rows[i].id == id then rows[i].(lastUsedAt := now) else rows[i]
  {
    if rows == [] then [] else [if rows[0].id == id then rows[0].(lastUsedAt := now) else rows[0]] + Touch(rows[1..], id, now)
  }

  predicate InsertAllowed(rows: seq<CredentialRow>, id: string, credentialId: string) {
    forall i :: 0 <= i < |rows| ==> rows[i].id != id && rows[i].credentialId != credentialId
  }

  /** registerWebAuthnCredential. `created` is what
      `navigator.credentials.create` gives: the new credential's id, or
      `None` for a null credential. */
  method Register(db: Database, accountId: string, supported: bool, created: Reply<Option<string>>, newId: string, now: int)
    returns (r: Result<CredentialRow, string>)
    modifies db
    ensures !supported ==> r == Failure(NOT_SUPPORTED) && db.credentials == old(db.credentials)
    ensures supported && created.Rejected? ==>
      r == Failure(REGISTRATION_FAILED + created.message) && db.credentials == old(db.credentials)
    ensures supported && created == Resolved(None) ==>
      r == Failure(REGISTRATION_FAILED + NO_CREDENTIAL_CREATED) && db.credentials == old(db.credentials)
    ensures supported && created.Resolved? && created.value.Some? ==>
      var row := CredentialRow(newId, accountId, created.value.value, PLACEHOLDER_JWK, now, now);
      if InsertAllowed(old(db.credentials), newId, created.value.value) then
        r == Success(row) && db.credentials == old(db.credentials) + [row]
      else
        r == Failure(REGISTRATION_FAILED + INSERT_FAILED) && db.credentials == old(db.credentials)
    ensures db.schema == old(db.schema) && db.accounts == old(db.accounts)
    ensures db.pins == old(db.pins) && db.sessions == old(db.sessions)
  {
    if !supported {
      return Failure(NOT_SUPPORTED);
    }
    match created
    case Rejected(message) =>
      r := Failure(REGISTRATION_FAILED + message);
    case Resolved(None) =>
      r := Failure(REGISTRATION_FAILED + NO_CREDENTIAL_CREATED);
    case Resolved(Some(credentialId)) =>
      var row := CredentialRow(newId, accountId, credentialId, PLACEHOLDER_JWK, now, now);
      if InsertAllowed(db.credentials, newId, credentialId) {
        db.credentials := db.credentials + [row];
        r := Success(row);
      } else {
        r := Failure(REGISTRATION_FAILED + INSERT_FAILED);
      }
  }

  /** The stored row an assertion names, looked up among the account's own
      rows; `None` when there is no assertion or no such row. */
  function MatchedCredential(rows: seq<CredentialRow>, accountId: string, got: Reply<Option<Assertion>>)
    : (r: Option<CredentialRow>)
    ensures r.Some? ==> got.Resolved? && got.value.Some?
    ensures r.Some? ==>
      && r.value in rows && r.value.accountId == accountId
      && r.value.credentialId == got.value.value.credentialId
  {
    if got.Resolved? && got.value.Some? then FindCredential(CredentialsOf(rows, accountId), got.value.value.credentialId)
    else None
  }

  /** authenticateWebAuthn's verdict on a credentials table: an error
      message, or whether the assertion verified. */
  function Verdict(rows: seq<CredentialRow>, accountId: string, supported: bool, challenge: Bytes,
                   got: Reply<Option<Assertion>>, v: Verifier): (r: Result<bool, string>)
    ensures !supported ==> r == Failure(NOT_SUPPORTED)
    ensures r.Success? ==>
      && supported && MatchedCredential(rows, accountId, got).Some?
      && v.parseJwk(MatchedCredential(rows, accountId, got).value.publicKeyJwk).Resolved?
    ensures r == Success(true) ==>
      var c := MatchedCredential(rows, accountId, got).value;
      AssertionValid(v, got.value.value, v.parseJwk(c.publicKeyJwk).value, challenge)
  {
    if !supported then Failure(NOT_SUPPORTED)
    else if CredentialsOf(rows, accountId) == [] then Failure(AUTHENTICATION_FAILED + NO_CREDENTIALS)
    else match got
      case Rejected(message) => Failure(AUTHENTICATION_FAILED + message)
      case Resolved(None) => Failure(AUTHENTICATION_FAILED + NO_ASSERTION)
      case Resolved(Some(a)) =>
        match MatchedCredential(rows, accountId, got)
        case None => Failure(AUTHENTICATION_FAILED + UNKNOWN_CREDENTIAL)
        case Some(c) =>
          match v.parseJwk(c.publicKeyJwk)
          case Rejected(message) => Failure(AUTHENTICATION_FAILED + message)
          case Resolved(jwk) => Success(AssertionValid(v, a, jwk, challenge))
  }

  /** The converse: an assertion the account's own stored credential signs
      validly is accepted, provided credential ids are unique, as the
      column's UNIQUE constraint keeps them. */
  lemma OwnValidAssertionAccepted(rows: seq<CredentialRow>, accountId: string, supported: bool, challenge: Bytes,
                                  a: Assertion, v: Verifier, c: CredentialRow, jwk: string)
    requires supported && c in rows && c.accountId == accountId && c.credentialId == a.credentialId
    requires forall d :: d in rows && d.credentialId == a.credentialId ==> d == c
    requires v.parseJwk(c.publicKeyJwk) == Resolved(jwk) && AssertionValid(v, a, jwk, challenge)
    ensures Verdict(rows, accountId, supported, challenge, Resolved(Some(a)), v) == Success(true)
  {
    assert c in CredentialsOf(rows, accountId);
    var m := MatchedCredential(rows, accountId, Resolved(Some(a)));
    assert m.Some?;
    assert m.value == c;
  }

  /** authenticateWebAuthn. `got` is what `navigator.credentials.get`
      gives for the random `challenge`: an assertion, or `None` for a null
      credential. The result is the verification's verdict; every failure
      after the support check carries the common prefix. */
  method Authenticate(db: Database, accountId: string, supported: bool, challenge: Bytes,
                      got: Reply<Option<Assertion>>, v: Verifier, now: int)
    returns (r: Result<bool, string>)
    modifies db
    ensures !supported ==> r == Failure(NOT_SUPPORTED) && db.credentials == old(db.credentials)
    ensures supported ==>
      var rows := CredentialsOf(old(db.credentials), accountId);
      && (rows == [] ==> r == Failure(AUTHENTICATION_FAILED + NO_CREDENTIALS))
      && (rows != [] && got.Rejected? ==> r == Failure(AUTHENTICATION_FAILED + got.message))
      && (rows != [] && got == Resolved(None) ==> r == Failure(AUTHENTICATION_FAILED + NO_ASSERTION))
      && (rows != [] && got.Resolved? && got.value.Some? ==>
            var a := got.value.value;
            var stored := FindCredential(rows, a.credentialId);
            && (stored.None? ==> r == Failure(AUTHENTICATION_FAILED + UNKNOWN_CREDENTIAL))
            && (stored.Some? && v.parseJwk(stored.value.publicKeyJwk).Rejected? ==>
                  r == Failure(AUTHENTICATION_FAILED + v.parseJwk(stored.value.publicKeyJwk).message))
            && (stored.Some? && v.parseJwk(stored.value.publicKeyJwk).Resolved? ==>
                  var valid := AssertionValid(v, a, v.parseJwk(stored.value.publicKeyJwk).value, challenge);
                  r == Success(valid)
                  && db.credentials == if valid then Touch(old(db.credentials), stored.value.id, now) else old(db.credentials)))
    ensures r.Failure? ==> db.credentials == old(db.credentials)
    ensures r == Verdict(old(db.credentials), accountId, supported, challenge, got, v)
    ensures db.credentials == if r == Success(true)
      then Touch(old(db.credentials), MatchedCredential(old(db.credentials), accountId, got).value.id, now)
      else old(db.credentials)
    ensures db.schema == old(db.schema) && db.accounts == old(db.accounts)
    ensures db.pins == old(db.pins) && db.sessions == old(db.sessions)
  {
    if !supported {
      return Failure(NOT_SUPPORTED);
    }
    var rows := CredentialsOf(db.credentials, accountId);
    if rows == [] {
      return Failure(AUTHENTICATION_FAILED + NO_CREDENTIALS);
    }
    match got
    case Rejected(message) =>
      r := Failure(AUTHENTICATION_FAILED + message);
    case Resolved(None) =>
      r := Failure(AUTHENTICATION_FAILED + NO_ASSERTION);
    case Resolved(Some(a)) =>
      var stored := FindCredential(rows, a.credentialId);
      if stored.None? {
        return Failure(AUTHENTICATION_FAILED + UNKNOWN_CREDENTIAL);
      }
      match v.parseJwk(stored.value.publicKeyJwk)
      case Rejected(message) =>
        r := Failure(AUTHENTICATION_FAILED + message);
      case Resolved(jwk) =>
        var valid := VerifyWebAuthnSignature(v, a, jwk, challenge);
        if valid {
          db.credentials := Touch(db.credentials, stored.value.id, now);
        }
        r := Success(valid);
  }

  /** An assertion made by a credential the account does not own fails,
      even when the credential is stored for another account. */
  lemma ForeignCredentialRefused(rows: seq<CredentialRow>, accountId: string, credentialId: string)
    requires forall c :: c in rows && c.credentialId == credentialId ==> c.accountId != accountId
    ensures FindCredential(CredentialsOf(rows, accountId), credentialId).None?
  {
  }

  /** Only the matched row's `last_used_at` changes, and only to `now`. */
  lemma TouchChangesOnlyThatRow(rows: seq<CredentialRow>, id: string, now: int, i: nat)
    requires i < |rows|
    ensures Touch(rows, id, now)[i].lastUsedAt == if rows[i].id == id then now else rows[i].lastUsedAt
    ensures Touch(rows, id, now)[i].(lastUsedAt := rows[i].lastUsedAt) == rows[i]
  {
  }

  function CreatedAt(c: CredentialRow): int { c.createdAt }

  /** getWebAuthnCredentials: the account's rows, newest first. */
  function GetWebAuthnCredentials(rows: seq<CredentialRow>, accountId: string): (r: seq<CredentialRow>)
    ensures Sorting.SortedDesc(r, CreatedAt)
    ensures multiset(r) == multiset(CredentialsOf(rows, accountId))
  {
    Sorting.SortDesc(CredentialsOf(rows, accountId), CreatedAt)
  }

  /** The listing holds exactly the account's rows. */
  lemma ListingIsTheAccountsRows(rows: seq<CredentialRow>, accountId: string)
    ensures forall c :: c in GetWebAuthnCredentials(rows, accountId) <==> c in rows && c.accountId == accountId
  {
    Sorting.SortDescSameElements(CredentialsOf(rows, accountId), CreatedAt);
  }
}
