/** The input validators and the in-memory rate limiter of the application
    (lib/inputValidation.ts). A validator either accepts its input, giving
    the sanitized form the caller stores, or rejects it with a message. */
module InputValidation {
  import opened Base

  datatype ValidationResult = Valid(sanitized: string) | Invalid(error: string)

  const PROJECT_NAME_MAX := 100
  const PROJECT_DESCRIPTION_MAX := 500
  const PIN_MIN := 6
  const PIN_MAX := 10
  const GENERAL_TEXT_MAX := 255
  const JSON_DATA_MAX := 10000
  const ULID_LENGTH := 24

  const INVALID_ID_FORMAT := "Invalid ID format"

  /** The characters of the class `[<>'"&;:]`. */
  predicate IsForbiddenChar(c: char) {
    c == '<' || c == '>' || c == '\'' || c == '"' || c == '&' || c == ';' || c == ':'
  }

  predicate HasForbiddenChar(s: string) {
    AnyChar(s, IsForbiddenChar)
  }

  lemma ForbiddenIsNotSpace()
    ensures forall c :: IsForbiddenChar(c) ==> !IsJsSpace(c)
  {
  }

  /** validateProjectName: a name is accepted when it is not blank, at most
      100 characters once trimmed, and free of the forbidden characters;
      the stored form is the trimmed name passed through `sanitize`
      (sanitizeHtml, a parameter of the model). */
  function ValidateProjectName(name: JsValue, sanitize: string -> string): (r: ValidationResult)
    ensures name.NonString? ==> r == Invalid("Project name must be a string")
    ensures name.Str? && AllSpace(name.s) ==> r == Invalid("Project name is required")
    ensures name.Str? && !AllSpace(name.s) && |Trim(name.s)| > PROJECT_NAME_MAX ==>
      r == Invalid("Project name must be 100 characters or less")
    ensures name.Str? && !AllSpace(name.s) && |Trim(name.s)| <= PROJECT_NAME_MAX && HasForbiddenChar(name.s) ==>
      r == Invalid("Project name contains invalid characters")
    ensures name.Str? && !AllSpace(name.s) && |Trim(name.s)| <= PROJECT_NAME_MAX && !HasForbiddenChar(name.s) ==>
      r == Valid(sanitize(Trim(name.s)))
  {
    match name
    case NonString => Invalid("Project name must be a string")
    case Str(s) =>
      var trimmed := Trim(s);
      TrimEmptyIffAllSpace(s);
      ForbiddenIsNotSpace();
      TrimKeepsNonSpace(s, IsForbiddenChar);
      if trimmed == "" then Invalid("Project name is required")
      else if |trimmed| > PROJECT_NAME_MAX then Invalid("Project name must be 100 characters or less")
      else if HasForbiddenChar(trimmed) then Invalid("Project name contains invalid characters")
      else Valid(sanitize(trimmed))
  }

  /** validateProjectDescription: like a project name but may be empty and
      may be up to 500 characters. */
  function ValidateProjectDescription(description: JsValue, sanitize: string -> string): (r: ValidationResult)
    ensures description.NonString? ==> r == Invalid("Description must be a string")
    ensures description.Str? && |Trim(description.s)| > PROJECT_DESCRIPTION_MAX ==>
      r == Invalid("Description must be 500 characters or less")
    ensures description.Str? && |Trim(description.s)| <= PROJECT_DESCRIPTION_MAX && HasForbiddenChar(description.s) ==>
      r == Invalid("Description contains invalid characters")
    ensures description.Str? && |Trim(description.s)| <= PROJECT_DESCRIPTION_MAX && !HasForbiddenChar(description.s) ==>
      r == Valid(sanitize(Trim(description.s)))
  {
    match description
    case NonString => Invalid("Description must be a string")
    case Str(s) =>
      var trimmed := Trim(s);
      ForbiddenIsNotSpace();
      TrimKeepsNonSpace(s, IsForbiddenChar);
      if |trimmed| > PROJECT_DESCRIPTION_MAX then Invalid("Description must be 500 characters or less")
      else if HasForbiddenChar(trimmed) then Invalid("Description contains invalid characters")
      else Valid(sanitize(trimmed))
  }

  /** `pin.replace(/\D/g, '')`: the digits of `pin`, in order. */
  function Digits(pin: string): (r: string)
    ensures |r| <= |pin|
    ensures forall i :: 0 <= i < |r| ==> IsDigit(r[i])
  {
    if pin == [] then []
    else (if IsDigit(pin[0]) then [pin[0]] else []) + Digits(pin[1..])
  }

  /** Removing the non-digits distributes over concatenation, so every digit
      of the PIN is kept, in its order. */
  lemma {:induction false} DigitsOfConcat(a: string, b: string)
    ensures Digits(a + b) == Digits(a) + Digits(b)
    decreases |a|
  {
    if a != [] {
      var head := if IsDigit(a[0]) then [a[0]] else [];
      assert (a + b)[0] == a[0];
      assert (a + b)[1..] == a[1..] + b;
      DigitsOfConcat(a[1..], b);
      calc {
        Digits(a + b);
        head + Digits(a[1..] + b);
        head + (Digits(a[1..]) + Digits(b));
        (head + Digits(a[1..])) + Digits(b);
        Digits(a) + Digits(b);
      }
    } else {
      assert a + b == b;
    }
  }

  /** A string of digits only is its own digit string. */
  lemma {:induction false} DigitsOfDigits(s: string)
    requires forall i :: 0 <= i < |s| ==> IsDigit(s[i])
    ensures Digits(s) == s
    decreases |s|
  {
    if s != [] {
      DigitsOfDigits(s[1..]);
    }
  }

  /** validatePin: accepted when the input holds 6 to 10 digits, whatever
      else it holds; the stored form is the digits alone. */
  function ValidatePin(pin: JsValue): (r: ValidationResult)
    ensures pin.NonString? ==> r == Invalid("PIN must be a string")
    ensures pin.Str? && |Digits(pin.s)| < PIN_MIN ==> r == Invalid("PIN must be at least 6 digits")
    ensures pin.Str? && |Digits(pin.s)| > PIN_MAX ==> r == Invalid("PIN must be 10 digits or less")
    ensures pin.Str? && PIN_MIN <= |Digits(pin.s)| <= PIN_MAX ==> r == Valid(Digits(pin.s))
  {
    match pin
    case NonString => Invalid("PIN must be a string")
    case Str(s) =>
      var numericOnly := Digits(s);
      if |numericOnly| < PIN_MIN then Invalid("PIN must be at least 6 digits")
      else if |numericOnly| > PIN_MAX then Invalid("PIN must be 10 digits or less")
      else Valid(numericOnly)
  }

  /** The sanitized PIN is accepted again, unchanged. */
  lemma ValidatePinIdempotent(pin: JsValue)
    requires ValidatePin(pin).Valid?
    ensures ValidatePin(Str(ValidatePin(pin).sanitized)) == ValidatePin(pin)
  {
    DigitsOfDigits(Digits(pin.s));
  }

  /** Separators typed between the digits do not change the accepted PIN. */
  lemma ValidatePinIgnoresSeparators(a: string, sep: char, b: string)
    requires !IsDigit(sep)
    ensures ValidatePin(Str(a + [sep] + b)) == ValidatePin(Str(a + b))
  {
    DigitsOfConcat(a + [sep], b);
    DigitsOfConcat(a, [sep]);
    DigitsOfConcat(a, b);
    assert Digits([sep]) == [];
  }

  const CATEGORIES: set<string> := {"residential", "commercial", "industrial"}
  const UNIT_SYSTEMS: set<string> := {"imperial", "si"}

  /** validateCategory: exactly the three categories pass, unchanged. */
  function ValidateCategory(category: string): (r: ValidationResult)
    ensures r.Valid? <==> category in CATEGORIES
    ensures r.Valid? ==> r.sanitized == category
    ensures r.Invalid? ==> r.error == "Invalid category selection"
  {
    if category in ["residential", "commercial", "industrial"] then Valid(category)
    else Invalid("Invalid category selection")
  }

  /** validateUnitSystem: exactly the two unit systems pass, unchanged. */
  function ValidateUnitSystem(unitSystem: string): (r: ValidationResult)
    ensures r.Valid? <==> unitSystem in UNIT_SYSTEMS
    ensures r.Valid? ==> r.sanitized == unitSystem
    ensures r.Invalid? ==> r.error == "Invalid unit system selection"
  {
    if unitSystem in ["imperial", "si"] then Valid(unitSystem)
    else Invalid("Invalid unit system selection")
  }

  /** `/^[0-9a-z]{24}$/i`: 24 ASCII letters or digits, either case. */
  predicate IsUlidShape(id: string) {
    |id| == ULID_LENGTH && forall i :: 0 <= i < |id| ==> IsAsciiAlnum(id[i])
  }

  /** The identifiers the application generates: 24 lower-case base-36 digits. */
  predicate IsCanonicalUlid(id: string) {
    |id| == ULID_LENGTH && forall i :: 0 <= i < |id| ==> IsDigit(id[i]) || IsLowerAlpha(id[i])
  }

  /** validateUlid: accepted exactly when the id has the shape, and then
      stored lower-cased, which is canonical. */
  function ValidateUlid(id: JsValue): (r: ValidationResult)
    ensures id.NonString? ==> r == Invalid("ID must be a string")
    ensures id.Str? ==> (r.Valid? <==> IsUlidShape(id.s))
    ensures id.Str? && !IsUlidShape(id.s) ==> r == Invalid(INVALID_ID_FORMAT)
    ensures r.Valid? ==> IsCanonicalUlid(r.sanitized) && r.sanitized == Lower(id.s)
  {
    match id
    case NonString => Invalid("ID must be a string")
    case Str(s) =>
      if |s| == ULID_LENGTH && forall i :: 0 <= i < |s| ==> IsAsciiAlnum(s[i]) then Valid(Lower(s))
      else Invalid(INVALID_ID_FORMAT)
  }

  /** A canonical id is accepted unchanged, so validation is idempotent. */
  lemma ValidateUlidCanonical(id: string)
    requires IsCanonicalUlid(id)
    ensures ValidateUlid(Str(id)) == Valid(id)
  {
    assert Lower(id) == id;
  }

  lemma CaseVariantKeepsShape(a: string, b: string)
    requires |a| == |b|
    requires forall i :: 0 <= i < |a| ==> LowerChar(a[i]) == LowerChar(b[i])
    requires IsUlidShape(a)
    ensures IsUlidShape(b)
  {
    forall i | 0 <= i < |b| ensures IsAsciiAlnum(b[i]) {
      assert LowerChar(a[i]) == LowerChar(b[i]);
    }
  }

  /** Two ids that differ only in letter case are the same account. */
  lemma ValidateUlidCaseInsensitive(a: string, b: string)
    requires |a| == |b|
    requires forall i :: 0 <= i < |a| ==> LowerChar(a[i]) == LowerChar(b[i])
    ensures ValidateUlid(Str(a)) == ValidateUlid(Str(b))
  {
    assert Lower(a) == Lower(b);
    if IsUlidShape(a) {
      CaseVariantKeepsShape(a, b);
    }
    if IsUlidShape(b) {
      CaseVariantKeepsShape(b, a);
    }
  }

  /** validateGeneralText with limit `maxLength` (255 when omitted). */
  function ValidateGeneralText(text: JsValue, sanitize: string -> string, maxLength: int := GENERAL_TEXT_MAX)
    : (r: ValidationResult)
    ensures text.NonString? ==> r == Invalid("Text must be a string")
    ensures text.Str? ==> (r.Valid? <==> |Trim(text.s)| <= maxLength)
    ensures text.Str? && |Trim(text.s)| > maxLength ==>
      r == Invalid("Text must be " + IntToString(maxLength) + " characters or less")
    ensures r.Valid? ==> r.sanitized == sanitize(Trim(text.s))
  {
    match text
    case NonString => Invalid("Text must be a string")
    case Str(s) =>
      var trimmed := Trim(s);
      if |trimmed| > maxLength then Invalid("Text must be " + IntToString(maxLength) + " characters or less")
      else Valid(sanitize(trimmed))
  }

  /** validateJsonData, given the outcome of `JSON.stringify(data)`: `None`
      when serializing throws or yields no string. */
  function ValidateJsonData(serialized: Option<string>): (r: ValidationResult)
    ensures serialized.None? ==> r == Invalid("Invalid JSON data")
    ensures serialized.Some? ==> (r.Valid? <==> |serialized.value| <= JSON_DATA_MAX)
    ensures serialized.Some? && |serialized.value| > JSON_DATA_MAX ==> r == Invalid("Data too large")
    ensures r.Valid? ==> serialized == Some(r.sanitized)
  {
    match serialized
    case None => Invalid("Invalid JSON data")
    case Some(json) => if |json| > JSON_DATA_MAX then Invalid("Data too large") else Valid(json)
  }

  // ---------------------------------------------------------------------
  // Rate limiting

  const DEFAULT_MAX_ATTEMPTS := 5
  const DEFAULT_WINDOW_MS := 15 * 60 * 1000

  datatype AttemptRecord = AttemptRecord(count: int, lastAttempt: int)

  /** The most records a key can reach: `maxAttempts`, but the first
      attempt is always allowed. */
  function Cap(maxAttempts: int): int {
    if maxAttempts < 1 then 1 else maxAttempts
  }

  /** isAllowed for one key at time `now`, given the record held for the
      key: whether the attempt is allowed, and the record held afterwards. */
  function Decide(rec: Option<AttemptRecord>, now: int, maxAttempts: int, windowMs: int): (d: (bool, AttemptRecord))
    ensures rec.None? ==> d == (true, AttemptRecord(1, now))
    ensures rec.Some? && now - rec.value.lastAttempt > windowMs ==> d == (true, AttemptRecord(1, now))
    ensures !d.0 <==> rec.Some? && now - rec.value.lastAttempt <= windowMs && rec.value.count >= maxAttempts
    ensures !d.0 ==> d.1 == rec.value
    ensures d.0 && rec.Some? && now - rec.value.lastAttempt <= windowMs ==>
      d.1 == AttemptRecord(rec.value.count + 1, now)
    ensures d.0 ==> d.1.lastAttempt == now
    ensures (rec.None? || rec.value.count >= 1) ==> d.1.count >= 1
    ensures (rec.None? || rec.value.count <= Cap(maxAttempts)) ==> d.1.count <= Cap(maxAttempts)
  {
    match rec
    case None => (true, AttemptRecord(1, now))
    case Some(r) =>
      if now - r.lastAttempt > windowMs then (true, AttemptRecord(1, now))
      else if r.count >= maxAttempts then (false, r)
      else (true, r.(count := r.count + 1, lastAttempt := now))
  }

  function Lookup(attempts: map<string, AttemptRecord>, key: string): Option<AttemptRecord> {
    if key in attempts then Some(attempts[key]) else None
  }

  /** The decisions of successive isAllowed calls for one key at `times`. */
  function Run(rec: Option<AttemptRecord>, times: seq<int>, maxAttempts: int, windowMs: int): (results: seq<bool>)
    ensures |results| == |times|
    decreases |times|
  {
    if times == [] then []
    else
      var d := Decide(rec, times[0], maxAttempts, windowMs);
      [d.0] + Run(Some(d.1), times[1..], maxAttempts, windowMs)
  }

  lemma {:induction false} RunInsideWindow(r: AttemptRecord, times: seq<int>, maxAttempts: int, windowMs: int, t0: int)
    requires 1 <= r.count && t0 <= r.lastAttempt
    requires forall i :: 0 <= i < |times| ==> t0 <= times[i] <= t0 + windowMs
    ensures forall i :: 0 <= i < |times| ==>
      Run(Some(r), times, maxAttempts, windowMs)[i] == (r.count + i < maxAttempts)
    decreases |times|
  {
    if times != [] {
      var d := Decide(Some(r), times[0], maxAttempts, windowMs);
      var next := d.1;
      RunInsideWindow(next, times[1..], maxAttempts, windowMs, t0);
      var results := Run(Some(r), times, maxAttempts, windowMs);
      forall i | 0 <= i < |times| ensures results[i] == (r.count + i < maxAttempts) {
        if i > 0 {
          assert results[i] == Run(Some(next), times[1..], maxAttempts, windowMs)[i - 1];
        }
      }
    }
  }

  /** A fresh key whose attempts all fall within one window of the first is
      allowed exactly its first `maxAttempts` attempts (at least one); every
      later attempt in that window is refused. */
  lemma FirstAttemptsAllowedThenRefused(times: seq<int>, maxAttempts: int, windowMs: int)
    requires |times| > 0
    requires forall i :: 0 <= i < |times| ==> times[0] <= times[i] <= times[0] + windowMs
    ensures forall i :: 0 <= i < |times| ==>
      Run(None, times, maxAttempts, windowMs)[i] == (i < Cap(maxAttempts))
  {
    var first := AttemptRecord(1, times[0]);
    RunInsideWindow(first, times[1..], maxAttempts, windowMs, times[0]);
    var results := Run(None, times, maxAttempts, windowMs);
    forall i | 0 <= i < |times| ensures results[i] == (i < Cap(maxAttempts)) {
      if i > 0 {
        assert results[i] == Run(Some(first), times[1..], maxAttempts, windowMs)[i - 1];
      }
    }
  }

  /** Once more than `windowMs` has passed since a key's last recorded
      attempt, the key is allowed again with a record counting one. */
  lemma AllowedAgainAfterWindow(rec: AttemptRecord, now: int, maxAttempts: int, windowMs: int)
    requires now > rec.lastAttempt + windowMs
    ensures Decide(Some(rec), now, maxAttempts, windowMs) == (true, AttemptRecord(1, now))
  {
  }

  /** All keys are bounded by `Cap(maxAttempts)` and count at least one. */
  ghost predicate RecordsBounded(attempts: map<string, AttemptRecord>, maxAttempts: int) {
    forall k :: k in attempts ==> 1 <= attempts[k].count <= Cap(maxAttempts)
  }

  /** The in-memory rate limiter; one record per key. */
  class RateLimiter {
    var attempts: map<string, AttemptRecord>
    const maxAttempts: int
    const windowMs: int

    ghost predicate Valid()
      reads this
    {
      RecordsBounded(attempts, maxAttempts)
    }

    constructor (maxAttempts: int := DEFAULT_MAX_ATTEMPTS, windowMs: int := DEFAULT_WINDOW_MS)
      ensures this.maxAttempts == maxAttempts && this.windowMs == windowMs
      ensures attempts == map[]
      ensures Valid()
    {
      this.maxAttempts := maxAttempts;
      this.windowMs := windowMs;
      attempts := map[];
    }

    /** isAllowed(key) at time `now`: the decision of `Decide` on the key's
        record, which is replaced by the record `Decide` yields; no other
        key's record changes. */
    method IsAllowed(key: string, now: int) returns (allowed: bool)
      requires Valid()
      modifies this
      ensures Valid()
      ensures var d := Decide(Lookup(old(attempts), key), now, maxAttempts, windowMs);
        allowed == d.0 && attempts == old(attempts)[key := d.1]
    {
      if key !in attempts {
        attempts := attempts[key := AttemptRecord(1, now)];
        return true;
      }
      var record := attempts[key];
      if now - record.lastAttempt > windowMs {
        attempts := attempts[key := AttemptRecord(1, now)];
        return true;
      }
      if record.count >= maxAttempts {
        return false;
      }
      attempts := attempts[key := record.(count := record.count + 1, lastAttempt := now)];
      return true;
    }

    /** reset(key): forgets the key's record and no other. */
    method Reset(key: string)
      requires Valid()
      modifies this
      ensures Valid()
      ensures attempts == old(attempts) - {key}
    {
      attempts := attempts - {key};
    }
  }

  /** After a reset the key starts afresh: its next attempt is allowed. */
  lemma AllowedAfterReset(attempts: map<string, AttemptRecord>, key: string, now: int, maxAttempts: int, windowMs: int)
    ensures Decide(Lookup(attempts - {key}, key), now, maxAttempts, windowMs).0
  {
  }
}
