/** Security utilities (lib/security.ts): the Content-Security-Policy
    header builder, the response headers, URL, path, file-name and scheme
    validators, hex tokens, and the session and rate-limit settings the
    authentication code uses. */
module Security {
  import opened Base
  import opened Crypto

  // ---------------------------------------------------------------------
  // Settings

  /** SESSION_CONFIG, the entry the core reads. */
  const SESSION_TIMEOUT_MS := 30 * 60 * 1000

  /** RATE_LIMIT_CONFIG, the PIN entries. */
  const PIN_MAX_ATTEMPTS := 5
  const PIN_WINDOW_MS := 15 * 60 * 1000
  const PIN_LOCKOUT_MS := 5 * 60 * 1000

  // ---------------------------------------------------------------------
  // Content Security Policy

  type Directive = (string, seq<string>)

  /** CSP_POLICY, in declaration order (the order `Object.entries` yields). */
  const CSP_POLICY: seq<Directive> := [
    ("default-src", ["'self'"]),
    ("script-src", ["'self'", "'unsafe-inline'"]),
    ("style-src", ["'self'", "'unsafe-inline'"]),
    ("img-src", ["'self'", "data:", "blob:"]),
    ("font-src", ["'self'"]),
    ("connect-src", ["'self'"]),
    ("media-src", ["'self'"]),
    ("object-src", ["'none'"]),
    ("child-src", ["'none'"]),
    ("worker-src", ["'self'"]),
    ("frame-src", ["'none'"]),
    ("base-uri", ["'self'"]),
    ("form-action", ["'self'"]),
    ("frame-ancestors", ["'none'"]),
    ("upgrade-insecure-requests", [])]

  /** `${directive} ${sources.join(' ')}`. */
  function RenderDirective(d: Directive): string {
    d.0 + " " + Join(d.1, " ")
  }

  function RenderAll(policy: seq<Directive>): (r: seq<string>)
    ensures |r| == |policy|
    ensures forall i :: 0 <= i < |policy| ==> r[i] == RenderDirective(policy[i])
  {
    if policy == [] then [] else [RenderDirective(policy[0])] + RenderAll(policy[1..])
  }

  /** generateCSPHeader, for a policy given as its entries. */
  function CspHeader(policy: seq<Directive>): string {
    Join(RenderAll(policy), "; ")
  }

  function GenerateCspHeader(): string {
    CspHeader(CSP_POLICY)
  }

  /** Every directive of the policy appears in the header, followed by the
      space that separates it from its sources. */
  lemma CspHeaderHasEveryDirective(policy: seq<Directive>, i: nat)
    requires i < |policy|
    ensures Contains(CspHeader(policy), policy[i].0 + " ")
  {
    var parts := RenderAll(policy);
    JoinContainsParts(parts, "; ", i);
    assert StartsWith(parts[i], policy[i].0 + " ") by {
      assert parts[i] == (policy[i].0 + " ") + Join(policy[i].1, " ");
    }
    StartsWithContains(parts[i], policy[i].0 + " ");
    ContainsTransitive(CspHeader(policy), parts[i], policy[i].0 + " ");
  }

  lemma {:induction false} JoinEndsWithLast(parts: seq<string>, sep: string)
    requires |parts| > 0
    ensures var j := Join(parts, sep); |parts[|parts| - 1]| <= |j| && j[|j| - |parts[|parts| - 1]|..] == parts[|parts| - 1]
    decreases |parts|
  {
    if |parts| > 1 {
      JoinEndsWithLast(parts[1..], sep);
      var rest := Join(parts[1..], sep);
      var j := Join(parts, sep);
      var last := parts[|parts| - 1];
      assert parts[1..][|parts[1..]| - 1] == last;
      assert j == (parts[0] + sep) + rest;
      assert j[|j| - |last|..] == rest[|rest| - |last|..];
    }
  }

  /** A policy whose last directive has no sources renders a header that
      ends with that directive's name and a trailing space. */
  lemma CspHeaderEndsWithBareDirective(policy: seq<Directive>)
    requires |policy| > 0 && policy[|policy| - 1].1 == []
    ensures var h := CspHeader(policy); var last := policy[|policy| - 1].0 + " ";
      |last| <= |h| && h[|h| - |last|..] == last
  {
    var parts := RenderAll(policy);
    JoinEndsWithLast(parts, "; ");
    assert parts[|parts| - 1] == RenderDirective(policy[|policy| - 1]);
    assert Join(policy[|policy| - 1].1, " ") == "";
  }

  /** The application's header ends with `upgrade-insecure-requests `. */
  lemma CspHeaderEndsWithUpgrade()
    ensures var h := GenerateCspHeader();
      |h| >= 26 && h[|h| - 26..] == "upgrade-insecure-requests "
  {
    var policy := CSP_POLICY;
    assert policy[|policy| - 1] == ("upgrade-insecure-requests", []);
    CspHeaderEndsWithBareDirective(policy);
  }

  /** SECURITY_HEADERS, in declaration order. */
  function SecurityHeaders(): seq<(string, string)> {
    HeadersAround(GenerateCspHeader())
  }

  /** The header list around its Content-Security-Policy value. */
  function HeadersAround(csp: string): seq<(string, string)> {
    [("Content-Security-Policy", csp),
     ("X-Content-Type-Options", "nosniff"),
     ("X-Frame-Options", "DENY"),
     ("X-XSS-Protection", "1; mode=block"),
     ("Referrer-Policy", "strict-origin-when-cross-origin"),
     ("Permissions-Policy", "camera=(), microphone=(), geolocation=(), payment=()"),
     ("Strict-Transport-Security", "max-age=31536000; includeSubDomains")]
  }

  // ---------------------------------------------------------------------
  // URLs and schemes

  /** The components of a parsed URL the checks read. */
  datatype UrlParts = UrlParts(protocol: string, hostname: string, port: string)

  const ALLOWED_PROTOCOLS: set<string> := {"file:", "app:", "devtools:"}
  const ALLOWED_SCHEMES: set<string> := {"app", "file", "devtools"}

  /** isAllowedUrl over the result of `new URL(url)`; `None` is a parse
      failure. */
  function IsAllowedUrl(url: Option<UrlParts>, isDev: bool): bool {
    match url
    case None => false
    case Some(u) =>
      if u.protocol == "file:" then true
      else if u.protocol == "app:" then true
      else if u.protocol == "devtools:" then true
      else isDev && u.hostname == "localhost" && u.port == "3000"
  }

  /** Outside development exactly the three local protocols pass; in
      development anything on localhost port 3000 passes as well; a URL
      that does not parse never passes. */
  lemma IsAllowedUrlCharacterized(url: Option<UrlParts>, isDev: bool)
    ensures url.None? ==> !IsAllowedUrl(url, isDev)
    ensures url.Some? && !isDev ==> (IsAllowedUrl(url, isDev) <==> url.value.protocol in ALLOWED_PROTOCOLS)
    ensures url.Some? && isDev ==> (IsAllowedUrl(url, isDev) <==>
      url.value.protocol in ALLOWED_PROTOCOLS || (url.value.hostname == "localhost" && url.value.port == "3000"))
  {
  }

  /** validateProtocolScheme. */
  function ValidateProtocolScheme(scheme: string): (r: bool)
    ensures r <==> scheme in ALLOWED_SCHEMES
  {
    scheme in ["app", "file", "devtools"]
  }

  /** A scheme is accepted exactly when a URL with that protocol is allowed
      outside development. */
  lemma SchemeAgreesWithUrlCheck(scheme: string, hostname: string, port: string)
    ensures ValidateProtocolScheme(scheme) <==> IsAllowedUrl(Some(UrlParts(scheme + ":", hostname, port)), false)
  {
    var p := scheme + ":";
    if p in ALLOWED_PROTOCOLS {
      assert scheme == p[..|p| - 1];
      if p == "file:" { assert scheme == "file"; }
      else if p == "app:" { assert scheme == "app"; }
      else { assert scheme == "devtools"; }
    }
  }

  // ---------------------------------------------------------------------
  // Paths and file names

  /** `filePath.replace(/\\/g, '/')`. */
  function NormalizePath(path: string): string {
    ReplaceChar(path, '\\', '/')
  }

  predicate IsAsciiLetter(c: char) { IsLowerAlpha(c) || IsUpperAlpha(c) }

  /** `/^[a-zA-Z]:/`. */
  predicate HasDrivePrefix(s: string) {
    |s| >= 2 && IsAsciiLetter(s[0]) && s[1] == ':'
  }

  /** validateFilePath. */
  function ValidateFilePath(filePath: JsValue): bool {
    match filePath
    case NonString => false
    case Str(p) =>
      var normalized := NormalizePath(p);
      if Contains(normalized, "../") || Contains(normalized, "..\\") then false
      else if StartsWith(normalized, "/") || HasDrivePrefix(normalized) then false
      else if '\0' in normalized then false
      else true
  }

  lemma NormalizeKeepsOccurrence(p: string, t: string, i: nat)
    requires OccursAt(p, t, i)
    ensures OccursAt(NormalizePath(p), ReplaceChar(t, '\\', '/'), i)
  {
    var n := NormalizePath(p);
    var u := ReplaceChar(t, '\\', '/');
    forall k | 0 <= k < |t| ensures n[i + k] == u[k] {
      assert p[i + k] == t[k];
    }
    assert n[i..i + |t|] == u;
  }

  /** After normalization no backslash is left, so the `..\` test can
      never fire. */
  lemma BackslashTraversalTestIsDead(p: string)
    ensures !Contains(NormalizePath(p), "..\\")
  {
    var n := NormalizePath(p);
    forall i | 0 <= i <= |n| ensures !OccursAt(n, "..\\", i) {
      if i + 3 <= |n| {
        assert n[i + 2] != '\\';
        assert n[i..i + 3][2] == n[i + 2];
      }
    }
  }

  /** A path is accepted exactly when its normalized form has no `../`,
      is relative (no leading `/`, no drive letter), and holds no NUL. */
  lemma ValidateFilePathCharacterized(p: string)
    ensures ValidateFilePath(Str(p)) <==>
      var n := NormalizePath(p);
      !Contains(n, "../") && !StartsWith(n, "/") && !HasDrivePrefix(n) && '\0' !in n
  {
    BackslashTraversalTestIsDead(p);
  }

  /** Traversal with either separator, a NUL anywhere, a root of either
      kind, or a drive letter is rejected, whatever the rest of the path. */
  lemma ValidateFilePathRejects(p: string)
    ensures Contains(p, "../") ==> !ValidateFilePath(Str(p))
    ensures Contains(p, "..\\") ==> !ValidateFilePath(Str(p))
    ensures '\0' in p ==> !ValidateFilePath(Str(p))
    ensures |p| > 0 && (p[0] == '/' || p[0] == '\\') ==> !ValidateFilePath(Str(p))
    ensures HasDrivePrefix(p) ==> !ValidateFilePath(Str(p))
    ensures !ValidateFilePath(NonString)
  {
    var n := NormalizePath(p);
    if Contains(p, "../") {
      var i :| 0 <= i <= |p| && OccursAt(p, "../", i);
      NormalizeKeepsOccurrence(p, "../", i);
      assert ReplaceChar("../", '\\', '/') == "../";
    }
    if Contains(p, "..\\") {
      var i :| 0 <= i <= |p| && OccursAt(p, "..\\", i);
      NormalizeKeepsOccurrence(p, "..\\", i);
      assert ReplaceChar("..\\", '\\', '/') == "../";
    }
    if '\0' in p {
      var i :| 0 <= i < |p| && p[i] == '\0';
      assert n[i] == '\0';
    }
    if |p| > 0 && (p[0] == '/' || p[0] == '\\') {
      assert n[..1] == "/";
    }
  }

  /** The characters of `[<>:"|?*\x00-\x1f]`. */
  predicate IsDangerousFileChar(c: char) {
    c == '<' || c == '>' || c == ':' || c == '"' || c == '|' || c == '?' || c == '*' || c as int <= 0x1F
  }

  /** CON, PRN, AUX, NUL, COM1-COM9 and LPT1-LPT9. */
  predicate IsReservedUpper(u: string) {
    u == "CON" || u == "PRN" || u == "AUX" || u == "NUL"
    || (|u| == 4 && (u[..3] == "COM" || u[..3] == "LPT") && '1' <= u[3] <= '9')
  }

  /** `/^(CON|PRN|AUX|NUL|COM[1-9]|LPT[1-9])$/i`. */
  predicate IsReservedName(name: string) {
    IsReservedUpper(Upper(name))
  }

  const FILE_NAME_MAX := 255

  /** validateFileName. */
  function ValidateFileName(fileName: JsValue): bool {
    match fileName
    case NonString => false
    case Str(n) =>
      if AnyChar(n, IsDangerousFileChar) then false
      else if IsReservedName(n) then false
      else if |n| > FILE_NAME_MAX then false
      else true
  }

  /** The Windows device names, listed out. */
  const DEVICE_NAMES: set<string> := {
    "CON", "PRN", "AUX", "NUL",
    "COM1", "COM2", "COM3", "COM4", "COM5", "COM6", "COM7", "COM8", "COM9",
    "LPT1", "LPT2", "LPT3", "LPT4", "LPT5", "LPT6", "LPT7", "LPT8", "LPT9"}

  /** The printable characters Windows forbids in a file name. */
  const FORBIDDEN_NAME_CHARS: set<char> := {'<', '>', ':', '"', '|', '?', '*'}

  lemma NumberedDeviceName(u: string)
    requires |u| == 4 && (u[..3] == "COM" || u[..3] == "LPT") && '1' <= u[3] <= '9'
    ensures u in DEVICE_NAMES
  {
    assert u == u[..3] + [u[3]];
    if u[..3] == "COM" {
      match u[3]
      case '1' => assert u == "COM1";
      case '2' => assert u == "COM2";
      case '3' => assert u == "COM3";
      case '4' => assert u == "COM4";
      case '5' => assert u == "COM5";
      case '6' => assert u == "COM6";
      case '7' => assert u == "COM7";
      case '8' => assert u == "COM8";
      case '9' => assert u == "COM9";
    } else {
      match u[3]
      case '1' => assert u == "LPT1";
      case '2' => assert u == "LPT2";
      case '3' => assert u == "LPT3";
      case '4' => assert u == "LPT4";
      case '5' => assert u == "LPT5";
      case '6' => assert u == "LPT6";
      case '7' => assert u == "LPT7";
      case '8' => assert u == "LPT8";
      case '9' => assert u == "LPT9";
    }
  }

  /** The reserved-name pattern matches exactly the 22 device names. */
  lemma ReservedUpperIsDeviceName(u: string)
    ensures IsReservedUpper(u) <==> u in DEVICE_NAMES
  {
    if |u| == 4 && (u[..3] == "COM" || u[..3] == "LPT") && '1' <= u[3] <= '9' {
      NumberedDeviceName(u);
    }
  }

  /** `[<>:"|?*\x00-\x1f]` finds a character exactly when some character
      is forbidden or a control character. */
  lemma DangerousCharsListed(n: string)
    ensures AnyChar(n, IsDangerousFileChar) <==>
      exists i :: 0 <= i < |n| && (n[i] in FORBIDDEN_NAME_CHARS || n[i] as int < 0x20)
  {
    if AnyChar(n, IsDangerousFileChar) {
      var i :| 0 <= i < |n| && IsDangerousFileChar(n[i]);
      assert n[i] in FORBIDDEN_NAME_CHARS || n[i] as int < 0x20;
    }
    if exists i :: 0 <= i < |n| && (n[i] in FORBIDDEN_NAME_CHARS || n[i] as int < 0x20) {
      var i :| 0 <= i < |n| && (n[i] in FORBIDDEN_NAME_CHARS || n[i] as int < 0x20);
      assert IsDangerousFileChar(n[i]);
    }
  }

  /** A file name is accepted exactly when every character is printable and
      not one of `< > : " | ? *`, its upper-case form is none of the 22
      device names, and it has at most 255 characters; a non-string never
      is. */
  lemma ValidateFileNameCharacterized(n: string)
    ensures ValidateFileName(Str(n)) <==>
      && (forall i :: 0 <= i < |n| ==> n[i] !in FORBIDDEN_NAME_CHARS && n[i] as int >= 0x20)
      && Upper(n) !in DEVICE_NAMES
      && |n| <= FILE_NAME_MAX
    ensures !ValidateFileName(NonString)
  {
    ReservedUpperIsDeviceName(Upper(n));
    DangerousCharsListed(n);
  }

  lemma UpperCharKeepsNonLetters(a: char, b: char)
    requires UpperChar(a) == UpperChar(b)
    ensures IsDangerousFileChar(a) <==> IsDangerousFileChar(b)
  {
  }

  /** Names that differ only in the case of their letters are judged alike:
      the reserved-name test ignores case, and case changes no dangerous
      character and no length. */
  lemma ValidateFileNameIgnoresCase(n: string, m: string)
    requires Upper(n) == Upper(m)
    ensures ValidateFileName(Str(n)) == ValidateFileName(Str(m))
  {
    assert |n| == |m|;
    forall i | 0 <= i < |n| ensures IsDangerousFileChar(n[i]) <==> IsDangerousFileChar(m[i]) {
      assert Upper(n)[i] == Upper(m)[i];
      UpperCharKeepsNonLetters(n[i], m[i]);
    }
  }

  /** The device names are refused in any letter case. */
  lemma ReservedNameRefused(n: string)
    requires IsReservedUpper(Upper(n))
    ensures !ValidateFileName(Str(n))
  {
  }

  lemma LowerCaseDeviceNameReserved()
    ensures IsReservedName("con")
  {
    assert Upper("con") == "CON";
  }

  /** The reserved-name test matches the whole name: with an extension a
      device name passes. */
  lemma DeviceNameWithExtensionAccepted()
    ensures ValidateFileName(Str("CON.txt"))
  {
    var u := Upper("CON.txt");
    assert u[3] == '.';
    assert !AnyChar("CON.txt", IsDangerousFileChar) by {
      forall i | 0 <= i < 7 ensures !IsDangerousFileChar("CON.txt"[i]) {}
    }
  }

  /** A file name is refused when any character is dangerous, whatever its
      length or case. */
  lemma DangerousCharRejected(n: string, i: nat)
    requires i < |n| && IsDangerousFileChar(n[i])
    ensures !ValidateFileName(Str(n))
  {
  }

  // ---------------------------------------------------------------------
  // Tokens

  function HexDigit(d: nat): char
    requires d < 16
  {
    if d < 10 then (48 + d) as char else (97 + d - 10) as char
  }

  function HexValue(c: char): (v: nat)
    ensures v < 16
  {
    if '0' <= c <= '9' then c as int - 48 else if 'a' <= c <= 'f' then c as int - 97 + 10 else 0
  }

  predicate IsLowerHex(c: char) { IsDigit(c) || ('a' <= c <= 'f') }

  /** `byte.toString(16).padStart(2, '0')`. */
  function ByteHex(b: Byte): string {
    [HexDigit(b as int / 16), HexDigit(b as int % 16)]
  }

  /** generateSecureToken over the random bytes it draws (`length` of
      them, 32 by default): each byte as two lower-case hex digits, joined. */
  function GenerateSecureToken(bytes: Bytes): (token: string)
    ensures |token| == 2 * |bytes|
    ensures forall i :: 0 <= i < |token| ==> IsLowerHex(token[i])
  {
    if bytes == [] then "" else ByteHex(bytes[0]) + GenerateSecureToken(bytes[1..])
  }

  /** Byte `i` of the input is characters `2i` and `2i + 1` of the token. */
  lemma {:induction false} TokenDigits(bytes: Bytes, i: nat)
    requires i < |bytes|
    ensures GenerateSecureToken(bytes)[2 * i..2 * i + 2] == ByteHex(bytes[i])
    decreases i
  {
    var t := GenerateSecureToken(bytes);
    var rest := GenerateSecureToken(bytes[1..]);
    assert t == ByteHex(bytes[0]) + rest;
    if i > 0 {
      TokenDigits(bytes[1..], i - 1);
      assert 2 * i == 2 + 2 * (i - 1);
      assert t[2 * i..2 * i + 2] == rest[2 * (i - 1)..2 * (i - 1) + 2];
    }
  }

  function DecodeByte(hi: char, lo: char): Byte {
    (HexValue(hi) * 16 + HexValue(lo)) as Byte
  }

  /** Reading a token back two hex digits at a time. */
  function DecodeHex(token: string): Bytes
    decreases |token|
  {
    if |token| < 2 then [] else [DecodeByte(token[0], token[1])] + DecodeHex(token[2..])
  }

  lemma HexDigitValue(d: nat)
    requires d < 16
    ensures HexValue(HexDigit(d)) == d
  {
  }

  lemma ByteHexRoundTrip(b: Byte)
    ensures DecodeByte(ByteHex(b)[0], ByteHex(b)[1]) == b
  {
    var v := b as int;
    var hi, lo := v / 16, v % 16;
    HexDigitValue(hi);
    HexDigitValue(lo);
    assert HexValue(ByteHex(b)[0]) * 16 + HexValue(ByteHex(b)[1]) == v;
  }

  /** The token determines its bytes: decoding gives them back. */
  lemma {:induction false} TokenRoundTrip(bytes: Bytes)
    ensures DecodeHex(GenerateSecureToken(bytes)) == bytes
    decreases |bytes|
  {
    if bytes != [] {
      var t := GenerateSecureToken(bytes);
      var rest := GenerateSecureToken(bytes[1..]);
      assert t == ByteHex(bytes[0]) + rest;
      assert t[2..] == rest;
      TokenRoundTrip(bytes[1..]);
      ByteHexRoundTrip(bytes[0]);
    }
  }
}
