/**
 * Console, deception and gate tokens: a base64url payload, a dot, and the
 * base64url signature of the payload text.
 *
 * Main results: `SessionRoundTrip`, `SandboxRoundTrip` and `GateRoundTrip`,
 * an issued token is accepted, with the identity it was issued for, exactly
 * until it expires; `ScopeBarrier`, no token passes for another class, whatever
 * the keys; and `SessionsAreIssued`, `SandboxesAreIssued` and
 * `GateTokensAreIssued`, only issued tokens are accepted.
 */
module SessionTokens {
  import opened Wrappers
  import opened Base64Url
  import opened Numerals
  import opened Splitting
  import opened PasswordVerifier

  // A decoded JSON value, as far as the payload checks look at it.
  datatype Json = Null | Bool(b: bool) | Int(n: int) | Float(r: real) | Str(s: string) | Composite
  type Payload = map<string, Json>

  // What decoding UTF-8 and JSON makes of a payload's bytes.
  datatype Loaded = Malformed | NotObject | Object(fields: Payload)
  datatype Codec = Codec(dumps: Payload -> Bytes, loads: Bytes -> Loaded)
  type Mac = (Bytes, string) -> Bytes

  // Reading back what was written; all that is asked of the JSON library.
  predicate Faithful(codec: Codec, p: Payload) {
    codec.loads(codec.dumps(p)) == Object(p)
  }

  predicate Ascii(s: string) {
    forall i :: 0 <= i < |s| ==> s[i] as int < 128
  }

  lemma {:induction false} AsciiExactly(s: string)
    ensures Ascii(s) <==> !exists x :: x in s && x as int > 127
  {
    if i :| 0 <= i < |s| && s[i] as int > 127 { assert s[i] in s; }
  }

  const SANDBOX_KEY_PURPOSE := "safeops.sandbox-session.v1"
  const CONSOLE_SCOPE := "console"
  const SANDBOX_SCOPE := "sandbox"
  const GATE_SCOPE := "gate"

  // int() of a clock reading.
  function Truncate(x: real): (n: int)
    ensures x >= 0.0 ==> n as real <= x < n as real + 1.0
    ensures x <= 0.0 ==> n as real - 1.0 < x <= n as real
  {
    if x >= 0.0 then x.Floor else -(-x).Floor
  }

  function Get(p: Payload, key: string): Json {
    if key in p then p[key] else Null
  }

  // Python's `== 1`, and isinstance(_, int), which holds of booleans too.
  predicate EqualsOne(v: Json) {
    v == Int(1) || v == Bool(true) || v == Float(1.0)
  }

  function AsInt(v: Json): Option<int> {
    match v
    case Int(n) => Some(n)
    case Bool(b) => Some(if b then 1 else 0)
    case _ => None
  }

  // ----- Signing and opening -----

  // A payload's text; it is this text that is signed.
  function PayloadText(codec: Codec, p: Payload): string {
    Encode(codec.dumps(p))
  }

  function Token(codec: Codec, mac: Mac, key: Bytes, p: Payload): string {
    var text := PayloadText(codec, p);
    text + (['.'] + Encode(mac(key, text)))
  }

  // The payload text of a token whose signature verifies.
  function SignedText(mac: Mac, key: Bytes, token: string): Option<string> {
    var parts := SplitMax(token, '.', 1);
    if |parts| != 2 || !Ascii(parts[0]) then None
    else if Decode(parts[1]) != Some(mac(key, parts[0])) then None
    else Some(parts[0])
  }

  // Malformed covers every ValueError; a payload that is no object has no `get`, and raises.
  function Claims(codec: Codec, mac: Mac, key: Bytes, token: string): Loaded {
    match SignedText(mac, key, token)
    case None => Malformed
    case Some(text) =>
      match Decode(text)
      case None => Malformed
      case Some(bytes) => codec.loads(bytes)
  }

  lemma {:induction false} TokenOpens(codec: Codec, mac: Mac, key: Bytes, other: Bytes, p: Payload)
    ensures var token := Token(codec, mac, key, p);
            && token != ""
            && SignedText(mac, other, token) == (if mac(other, PayloadText(codec, p)) == mac(key, PayloadText(codec, p))
                                                then Some(PayloadText(codec, p)) else None)
  {
    hide SplitMax, Encode, Decode;
    var text := PayloadText(codec, p);
    var signature := Encode(mac(key, text));
    EncodedAlphabet(codec.dumps(p));
    EncodedAlphabet(mac(key, text));
    RoundTrip(mac(key, text));
    LettersAscii(text);
    SplitOne(text, signature, '.', 1);
    NoSeparator(signature, '.', 0);
  }

  lemma {:induction false} LettersAscii(s: string)
    requires AllLetters(s)
    ensures Ascii(s)
  {
  }

  // Under any key, a token either fails to open or shows the payload it was made of.
  lemma {:induction false} TokenClaims(codec: Codec, mac: Mac, key: Bytes, other: Bytes, p: Payload)
    requires Faithful(codec, p)
    ensures Claims(codec, mac, other, Token(codec, mac, key, p)) == Malformed
         || Claims(codec, mac, other, Token(codec, mac, key, p)) == Object(p)
    ensures Claims(codec, mac, key, Token(codec, mac, key, p)) == Object(p)
  {
    hide Token, SignedText, Encode, Decode;
    TokenOpens(codec, mac, key, other, p);
    TokenOpens(codec, mac, key, key, p);
    RoundTrip(codec.dumps(p));
  }

  // ----- The three classes of token -----

  datatype ConsoleAuth = ConsoleAuth(enabled: bool, username: string, passwordHash: string, secret: Bytes, ttl: nat)
  datatype Identity = Identity(username: string, expiresAt: int, csrf: string)
  datatype Sandbox = Sandbox(sessionId: string, expiresAt: int, csrf: string, openedAt: int)
  datatype Gate = Gate(passphraseHash: string, key: Bytes, ttl: nat)
  datatype Outcome<T> = Accepted(identity: T) | Refused | Raises

  predicate HashLike(hash: string) {
    PASSWORD_SCHEME + "$" <= hash
  }

  predicate Configured(c: ConsoleAuth) {
    c.username != "" && c.passwordHash != "" && |c.secret| >= 32 && HashLike(c.passwordHash)
  }

  // Random bytes drawn for the CSRF token, the nonce and the deception session id.
  datatype Random = Random(csrf: Bytes, nonce: Bytes, sid: Bytes)

  predicate Drawn(d: Random) {
    |d.csrf| == 24 && |d.nonce| == 12 && |d.sid| == 8
  }

  function Hex(b: Bytes): (s: string)
    ensures |s| == 2 * |b|
  {
    if b == [] then [] else [HexDigit(b[0] / 16), HexDigit(b[0] % 16)] + Hex(b[1..])
  }

  function SessionPayload(id: Identity, d: Random): Payload {
    map["v" := Int(1), "s" := Str(CONSOLE_SCOPE), "u" := Str(id.username), "exp" := Int(id.expiresAt),
        "csrf" := Str(id.csrf), "nonce" := Str(Encode(d.nonce))]
  }

  function NewIdentity(c: ConsoleAuth, now: real, d: Random): Identity {
    Identity(c.username, Truncate(now) + c.ttl, Encode(d.csrf))
  }

  // None: the configuration error.
  function IssueSession(codec: Codec, mac: Mac, c: ConsoleAuth, now: real, d: Random): Option<(string, Identity)> {
    if c.enabled && !Configured(c) then None
    else
      var id := NewIdentity(c, now, d);
      Some((Token(codec, mac, c.secret, SessionPayload(id, d)), id))
  }

  function SessionFrom(c: ConsoleAuth, p: Payload, now: real): Outcome<Identity> {
    if !EqualsOne(Get(p, "v")) || Get(p, "s") != Str(CONSOLE_SCOPE) then Refused
    else
      var u, exp, csrf := Get(p, "u"), AsInt(Get(p, "exp")), Get(p, "csrf");
      if !u.Str? then Refused
      // compare_digest takes ASCII strings only.
      else if !Ascii(u.s) || !Ascii(c.username) then Raises
      else if u.s != c.username || exp.None? || exp.value <= Truncate(now) then Refused
      else if !csrf.Str? || |csrf.s| < 24 then Refused
      else Accepted(Identity(u.s, exp.value, csrf.s))
  }

  function Authenticate(codec: Codec, mac: Mac, c: ConsoleAuth, token: string, now: real): Outcome<Identity> {
    if !c.enabled then Accepted(Identity("local", 0, ""))
    else if !Configured(c) || token == "" then Refused
    else
      match Claims(codec, mac, c.secret, token)
      case Malformed => Refused
      case NotObject => Raises
      case Object(p) => SessionFrom(c, p, now)
  }

  function SandboxKey(mac: Mac, c: ConsoleAuth): Bytes {
    mac(c.secret, SANDBOX_KEY_PURPOSE)
  }

  function SandboxPayload(id: Sandbox, d: Random): Payload {
    map["v" := Int(1), "s" := Str(SANDBOX_SCOPE), "sid" := Str(id.sessionId), "exp" := Int(id.expiresAt),
        "iat" := Int(id.openedAt), "csrf" := Str(id.csrf), "nonce" := Str(Encode(d.nonce))]
  }

  function NewSandbox(ttl: int, now: real, d: Random): Sandbox {
    Sandbox(Hex(d.sid), Truncate(now) + Clamp(ttl, 60, 86_400), Encode(d.csrf), Truncate(now))
  }

  function IssueSandboxSession(codec: Codec, mac: Mac, c: ConsoleAuth, ttl: int, now: real,
                               d: Random): Option<(string, Sandbox)> {
    if |c.secret| < 32 then None
    else
      var id := NewSandbox(ttl, now, d);
      Some((Token(codec, mac, SandboxKey(mac, c), SandboxPayload(id, d)), id))
  }

  function SandboxFrom(p: Payload, now: real): Outcome<Sandbox> {
    var sid, exp, iat, csrf := Get(p, "sid"), AsInt(Get(p, "exp")), AsInt(Get(p, "iat")), Get(p, "csrf");
    if !EqualsOne(Get(p, "v")) || Get(p, "s") != Str(SANDBOX_SCOPE) then Refused
    else if !sid.Str? || !(4 <= |sid.s| <= 64) then Refused
    else if exp.None? || exp.value <= Truncate(now) || iat.None? then Refused
    else if !csrf.Str? || |csrf.s| < 24 then Refused
    else Accepted(Sandbox(sid.s, exp.value, csrf.s, iat.value))
  }

  function AuthenticateSandbox(codec: Codec, mac: Mac, c: ConsoleAuth, token: string, now: real): Outcome<Sandbox> {
    if |c.secret| < 32 || token == "" then Refused
    else
      match Claims(codec, mac, SandboxKey(mac, c), token)
      case Malformed => Refused
      case NotObject => Raises
      case Object(p) => SandboxFrom(p, now)
  }

  predicate GateEnabled(g: Gate) {
    HashLike(g.passphraseHash) && |g.key| >= 32
  }

  function GatePayload(g: Gate, now: real, d: Random): Payload {
    map["v" := Int(1), "s" := Str(GATE_SCOPE), "exp" := Int(Truncate(now) + g.ttl), "nonce" := Str(Encode(d.nonce))]
  }

  function IssueGateToken(codec: Codec, mac: Mac, g: Gate, now: real, d: Random): Option<string> {
    if !GateEnabled(g) then None else Some(Token(codec, mac, g.key, GatePayload(g, now, d)))
  }

  function VerifyGateToken(codec: Codec, mac: Mac, g: Gate, token: string, now: real): Outcome<()> {
    if !GateEnabled(g) || token == "" then Refused
    else
      match Claims(codec, mac, g.key, token)
      case Malformed => Refused
      case NotObject => Raises
      case Object(p) =>
        var exp := AsInt(Get(p, "exp"));
        if !EqualsOne(Get(p, "v")) || Get(p, "s") != Str(GATE_SCOPE) then Refused
        else if exp.Some? && exp.value > Truncate(now) then Accepted(())
        else Refused
  }

  // ----- Issued tokens come back -----

  /**
   * A session is issued whenever the console is off or completely configured.  Its
   * token gives back the user name, the CSRF token and an expiry one time to live
   * after its issue, exactly until then; with a user name outside ASCII every
   * authentication raises instead.
   */
  lemma {:induction false} SessionRoundTrip(
    codec: Codec, mac: Mac, c: ConsoleAuth, issuedAt: real, d: Random, now: real)
    requires c.enabled && Drawn(d)
    requires Faithful(codec, SessionPayload(Identity(c.username, Truncate(issuedAt) + c.ttl, Encode(d.csrf)), d))
    ensures var t := IssueSession(codec, mac, c, issuedAt, d);
            && (t.Some? <==> |c.username| > 0 && |c.secret| >= 32 && "pbkdf2_sha256$" <= c.passwordHash)
            && (t.Some? ==>
                  && t.value.1 == Identity(c.username, Truncate(issuedAt) + c.ttl, Encode(d.csrf))
                  && Authenticate(codec, mac, c, t.value.0, now) ==
                     if exists x :: x in c.username && x as int > 127 then Raises
                     else if Truncate(now) < Truncate(issuedAt) + c.ttl then Accepted(t.value.1) else Refused)
  {
    hide Token, Claims, Encode, Truncate;
    AsciiExactly(c.username);
    var id := NewIdentity(c, issuedAt, d);
    var p := SessionPayload(id, d);
    TokenClaims(codec, mac, c.secret, c.secret, p);
    TokenOpens(codec, mac, c.secret, c.secret, p);
    EncodedAlphabet(d.csrf);
  }

  // The deception session to be issued: its time to live is the one asked for, or the nearer bound.
  function IssuedSandbox(ttl: int, issuedAt: real, d: Random): Sandbox {
    var now := Truncate(issuedAt);
    var bounded := if ttl < 60 then 60 else if ttl > 86_400 then 86_400 else ttl;
    Sandbox(Hex(d.sid), now + bounded, Encode(d.csrf), now)
  }

  /** The same for deception sessions, whose time to live is kept between a minute and a day. */
  lemma {:induction false} SandboxRoundTrip(
    codec: Codec, mac: Mac, c: ConsoleAuth, ttl: int, issuedAt: real, d: Random, now: real)
    requires Drawn(d) && Faithful(codec, SandboxPayload(IssuedSandbox(ttl, issuedAt, d), d))
    ensures var t := IssueSandboxSession(codec, mac, c, ttl, issuedAt, d);
            && (t.Some? <==> |c.secret| >= 32)
            && (t.Some? ==>
                  && t.value.1 == IssuedSandbox(ttl, issuedAt, d)
                  && AuthenticateSandbox(codec, mac, c, t.value.0, now) ==
                     if Truncate(now) < t.value.1.expiresAt then Accepted(t.value.1) else Refused)
  {
    hide Token, Claims, Encode, Hex, Truncate;
    var id := NewSandbox(ttl, issuedAt, d);
    var p := SandboxPayload(id, d);
    TokenClaims(codec, mac, SandboxKey(mac, c), SandboxKey(mac, c), p);
    TokenOpens(codec, mac, SandboxKey(mac, c), SandboxKey(mac, c), p);
    EncodedAlphabet(d.csrf);
  }

  lemma {:induction false} GateRoundTrip(codec: Codec, mac: Mac, g: Gate, issuedAt: real, d: Random, now: real)
    requires Faithful(codec, GatePayload(g, issuedAt, d))
    ensures var t := IssueGateToken(codec, mac, g, issuedAt, d);
            && (t.Some? <==> "pbkdf2_sha256$" <= g.passphraseHash && |g.key| >= 32)
            && (t.Some? ==>
                  VerifyGateToken(codec, mac, g, t.value, now) ==
                  if Truncate(now) < Truncate(issuedAt) + g.ttl then Accepted(()) else Refused)
  {
    hide Token, Claims, Encode, Truncate;
    var p := GatePayload(g, issuedAt, d);
    TokenClaims(codec, mac, g.key, g.key, p);
    TokenOpens(codec, mac, g.key, g.key, p);
  }

  // ----- What each verifier accepts -----

  // A field that Python's `== 1` holds of.
  predicate IsVersionOne(p: Payload) {
    "v" in p && (p["v"] == Int(1) || p["v"] == Bool(true) || p["v"] == Float(1.0))
  }

  // An integer later than a whole number of seconds; true counts as 1, false as 0.
  predicate Later(p: Payload, key: string, n: int) {
    key in p && match p[key]
                case Int(m) => m > n
                case Bool(b) => (if b then 1 else 0) > n
                case _ => false
  }

  predicate LongText(p: Payload, key: string, lo: nat, hi: nat) {
    key in p && p[key].Str? && lo <= |p[key].s| <= hi
  }

  /**
   * Of all payloads signed with the session secret, the console accepts exactly
   * those of version 1 and its own scope for its own user, in ASCII, with an expiry
   * to come and a CSRF token of at least 24 characters; the identity is the payload's.
   */
  lemma {:induction false} ConsoleAccepts(codec: Codec, mac: Mac, c: ConsoleAuth, p: Payload, now: real)
    requires c.enabled && Configured(c) && Faithful(codec, p)
    ensures var r := Authenticate(codec, mac, c, Token(codec, mac, c.secret, p), now);
            && (r.Accepted? <==>
                && IsVersionOne(p) && "s" in p && p["s"] == Str("console") && "u" in p && p["u"] == Str(c.username)
                && Ascii(c.username) && Later(p, "exp", Truncate(now)) && "csrf" in p && p["csrf"].Str?
                && |p["csrf"].s| >= 24)
            && (r.Accepted? ==> r.identity.username == c.username && r.identity.csrf == p["csrf"].s
                                && Some(r.identity.expiresAt) == AsInt(p["exp"]))
  {
    hide Token, Claims, Truncate, Configured;
    TokenClaims(codec, mac, c.secret, c.secret, p);
    TokenOpens(codec, mac, c.secret, c.secret, p);
  }

  /** The same for deception sessions, under their own key. */
  lemma {:induction false} SandboxAccepts(codec: Codec, mac: Mac, c: ConsoleAuth, p: Payload, now: real)
    requires |c.secret| >= 32 && Faithful(codec, p)
    ensures var r := AuthenticateSandbox(codec, mac, c, Token(codec, mac, SandboxKey(mac, c), p), now);
            && (r.Accepted? <==>
                && IsVersionOne(p) && "s" in p && p["s"] == Str("sandbox") && LongText(p, "sid", 4, 64)
                && Later(p, "exp", Truncate(now)) && "iat" in p && (p["iat"].Int? || p["iat"].Bool?)
                && "csrf" in p && p["csrf"].Str? && |p["csrf"].s| >= 24)
            && (r.Accepted? ==> r.identity.sessionId == p["sid"].s && r.identity.csrf == p["csrf"].s
                                && Some(r.identity.expiresAt) == AsInt(p["exp"])
                                && Some(r.identity.openedAt) == AsInt(p["iat"]))
  {
    hide Token, Claims, Truncate, SandboxKey;
    TokenClaims(codec, mac, SandboxKey(mac, c), SandboxKey(mac, c), p);
    TokenOpens(codec, mac, SandboxKey(mac, c), SandboxKey(mac, c), p);
  }

  /** The same for the entry gate. */
  lemma {:induction false} GateAccepts(codec: Codec, mac: Mac, g: Gate, p: Payload, now: real)
    requires GateEnabled(g) && Faithful(codec, p)
    ensures VerifyGateToken(codec, mac, g, Token(codec, mac, g.key, p), now).Accepted? <==>
            IsVersionOne(p) && "s" in p && p["s"] == Str("gate") && Later(p, "exp", Truncate(now))
  {
    hide Token, Claims, Truncate, GateEnabled;
    TokenClaims(codec, mac, g.key, g.key, p);
    TokenOpens(codec, mac, g.key, g.key, p);
  }

  /**
   * How any token with a dot reads: its claims are those of its first part, which
   * must be ASCII, signed, and decode; everything else is malformed.
   */
  lemma {:induction false} ClaimsExactly(codec: Codec, mac: Mac, key: Bytes, text: string, signature: string)
    requires '.' !in text
    ensures Claims(codec, mac, key, text + ("." + signature)) ==
            if (exists x :: x in text && x as int > 127) || Decode(signature) != Some(mac(key, text)) then Malformed
            else if Decode(text).None? then Malformed
            else codec.loads(Decode(text).value)
    ensures Claims(codec, mac, key, text) == Malformed
  {
    hide SplitMax, Decode, Ascii;
    AsciiExactly(text);
    SplitOne(text, signature, '.', 1);
    SplitNone(signature);
    NoSeparator(text, '.', 1);
  }

  lemma {:induction false} SplitNone(text: string)
    ensures SplitMax(text, '.', 0) == [text]
  {
  }

  /** A malformed token is refused by all three verifiers, and a payload that is no object makes them raise. */
  lemma {:induction false} BrokenTokens(codec: Codec, mac: Mac, c: ConsoleAuth, g: Gate, token: string, now: real)
    requires c.enabled && Configured(c) && GateEnabled(g) && token != ""
    ensures match Claims(codec, mac, c.secret, token)
            case Malformed => Authenticate(codec, mac, c, token, now).Refused?
            case NotObject => Authenticate(codec, mac, c, token, now).Raises?
            case Object(_) => true
    ensures match Claims(codec, mac, SandboxKey(mac, c), token)
            case Malformed => AuthenticateSandbox(codec, mac, c, token, now).Refused?
            case NotObject => AuthenticateSandbox(codec, mac, c, token, now).Raises?
            case Object(_) => !AuthenticateSandbox(codec, mac, c, token, now).Raises?
    ensures match Claims(codec, mac, g.key, token)
            case Malformed => VerifyGateToken(codec, mac, g, token, now).Refused?
            case NotObject => VerifyGateToken(codec, mac, g, token, now).Raises?
            case Object(_) => !VerifyGateToken(codec, mac, g, token, now).Raises?
  {
    hide Claims, GateEnabled, Truncate, HashLike;
  }

  /** Nothing is accepted where signing material is missing, and with the console off everything is, as a local user. */
  lemma {:induction false} WithoutSecrets(codec: Codec, mac: Mac, c: ConsoleAuth, g: Gate, token: string, now: real)
    ensures Authenticate(codec, mac, c.(enabled := false), token, now) == Accepted(Identity("local", 0, ""))
    ensures c.enabled && (c.username == "" || |c.secret| < 32 || !("pbkdf2_sha256$" <= c.passwordHash)) ==>
      Authenticate(codec, mac, c, token, now) == Refused
    ensures |c.secret| < 32 ==> AuthenticateSandbox(codec, mac, c, token, now) == Refused
    ensures |g.key| < 32 || !("pbkdf2_sha256$" <= g.passphraseHash) ==>
      VerifyGateToken(codec, mac, g, token, now) == Refused
  {
    hide Claims;
  }

  // ----- Tokens of one class never pass for another -----

  datatype Class = ConsoleClass | SandboxClass | GateClass

  function ScopeOf(k: Class): string {
    match k
    case ConsoleClass => CONSOLE_SCOPE
    case SandboxClass => SANDBOX_SCOPE
    case GateClass => GATE_SCOPE
  }

  // A verifier of one class accepts the token.
  predicate Passes(k: Class, codec: Codec, mac: Mac, c: ConsoleAuth, g: Gate, token: string, now: real) {
    match k
    case ConsoleClass => Authenticate(codec, mac, c, token, now).Accepted?
    case SandboxClass => AuthenticateSandbox(codec, mac, c, token, now).Accepted?
    case GateClass => VerifyGateToken(codec, mac, g, token, now).Accepted?
  }

  /**
   * A payload of one class, signed with any key at all, passes no other class's
   * verifier: the scope field alone refuses it even where the keys coincide.
   */
  lemma {:induction false} ScopeBarrier(
    codec: Codec, mac: Mac, key: Bytes, p: Payload, issued: Class, verified: Class, c: ConsoleAuth, g: Gate, now: real)
    requires c.enabled && Faithful(codec, p) && Get(p, "s") == Str(ScopeOf(issued))
    requires Passes(verified, codec, mac, c, g, Token(codec, mac, key, p), now)
    ensures issued == verified
  {
    hide Token, Claims, Configured, GateEnabled;
    ScopesDiffer();
    match verified
    case ConsoleClass => TokenClaims(codec, mac, key, c.secret, p);
    case SandboxClass => TokenClaims(codec, mac, key, SandboxKey(mac, c), p);
    case GateClass => TokenClaims(codec, mac, key, g.key, p);
  }

  lemma {:induction false} ScopesDiffer()
    ensures CONSOLE_SCOPE != SANDBOX_SCOPE && CONSOLE_SCOPE != GATE_SCOPE && SANDBOX_SCOPE != GATE_SCOPE
  {
  }

  // The payloads the three issuers sign carry their own class's scope.
  lemma {:induction false} IssuedScopes(id: Identity, sb: Sandbox, g: Gate, now: real, d: Random)
    ensures Get(SessionPayload(id, d), "s") == Str(ScopeOf(ConsoleClass))
    ensures Get(SandboxPayload(sb, d), "s") == Str(ScopeOf(SandboxClass))
    ensures Get(GatePayload(g, now, d), "s") == Str(ScopeOf(GateClass))
  {
  }

  /** A token issued for one class passes the verifiers of that class only. */
  lemma {:induction false} IssuedTokensKeepClass(
    codec: Codec, mac: Mac, c: ConsoleAuth, g: Gate, ttl: int, issuedAt: real, d: Random, verified: Class, now: real)
    requires c.enabled && Faithful(codec, SessionPayload(NewIdentity(c, issuedAt, d), d))
    requires Faithful(codec, SandboxPayload(NewSandbox(ttl, issuedAt, d), d))
    requires Faithful(codec, GatePayload(g, issuedAt, d))
    ensures var t := IssueSession(codec, mac, c, issuedAt, d);
            t.Some? && Passes(verified, codec, mac, c, g, t.value.0, now) ==> verified == ConsoleClass
    ensures var t := IssueSandboxSession(codec, mac, c, ttl, issuedAt, d);
            t.Some? && Passes(verified, codec, mac, c, g, t.value.0, now) ==> verified == SandboxClass
    ensures var t := IssueGateToken(codec, mac, g, issuedAt, d);
            t.Some? && Passes(verified, codec, mac, c, g, t.value, now) ==> verified == GateClass
  {
    hide Token, Passes, SessionPayload, SandboxPayload, GatePayload, Faithful, Configured, GateEnabled, Get, ScopeOf;
    var id, sb := NewIdentity(c, issuedAt, d), NewSandbox(ttl, issuedAt, d);
    IssuedScopes(id, sb, g, issuedAt, d);
    var session, deception, gate := SessionPayload(id, d), SandboxPayload(sb, d), GatePayload(g, issuedAt, d);
    if Passes(verified, codec, mac, c, g, Token(codec, mac, c.secret, session), now) {
      ScopeBarrier(codec, mac, c.secret, session, ConsoleClass, verified, c, g, now);
    }
    if Passes(verified, codec, mac, c, g, Token(codec, mac, SandboxKey(mac, c), deception), now) {
      ScopeBarrier(codec, mac, SandboxKey(mac, c), deception, SandboxClass, verified, c, g, now);
    }
    if Passes(verified, codec, mac, c, g, Token(codec, mac, g.key, gate), now) {
      ScopeBarrier(codec, mac, g.key, gate, GateClass, verified, c, g, now);
    }
  }

  // ----- Only issued tokens are accepted -----

  // Nobody but the issuer signed: a verified payload text is that of a payload issued under the key.
  ghost predicate Unforged(codec: Codec, mac: Mac, key: Bytes, issued: seq<Payload>, token: string) {
    SignedText(mac, key, token).Some? ==>
      exists k :: 0 <= k < |issued| && PayloadText(codec, issued[k]) == SignedText(mac, key, token).value
  }

  predicate AllFaithful(codec: Codec, issued: seq<Payload>) {
    forall k :: 0 <= k < |issued| ==> Faithful(codec, issued[k])
  }

  // Whatever token is presented, the claims read from it are issued ones.
  lemma {:induction false} ClaimsAreIssued(codec: Codec, mac: Mac, key: Bytes, issued: seq<Payload>, token: string)
    requires Unforged(codec, mac, key, issued, token) && AllFaithful(codec, issued)
    ensures var claims := Claims(codec, mac, key, token);
            claims.Malformed? || exists k :: 0 <= k < |issued| && claims == Object(issued[k])
  {
    hide SignedText, Encode, Decode;
    if SignedText(mac, key, token).Some? {
      var k :| 0 <= k < |issued| && PayloadText(codec, issued[k]) == SignedText(mac, key, token).value;
      RoundTrip(codec.dumps(issued[k]));
      assert Faithful(codec, issued[k]);
    }
  }

  // One call of an issuer; `ttl` matters to deception sessions only.
  datatype Issue = Issue(now: real, drawn: Random, ttl: int)

  function SessionPayloads(c: ConsoleAuth, issues: seq<Issue>): (ps: seq<Payload>)
    ensures |ps| == |issues|
    ensures forall k :: 0 <= k < |ps| ==>
              ps[k] == SessionPayload(NewIdentity(c, issues[k].now, issues[k].drawn), issues[k].drawn)
  {
    if issues == [] then []
    else
      var i := issues[0];
      [SessionPayload(NewIdentity(c, i.now, i.drawn), i.drawn)] + SessionPayloads(c, issues[1..])
  }

  function SandboxPayloads(issues: seq<Issue>): (ps: seq<Payload>)
    ensures |ps| == |issues|
    ensures forall k :: 0 <= k < |ps| ==>
              ps[k] == SandboxPayload(NewSandbox(issues[k].ttl, issues[k].now, issues[k].drawn), issues[k].drawn)
  {
    if issues == [] then []
    else
      var i := issues[0];
      [SandboxPayload(NewSandbox(i.ttl, i.now, i.drawn), i.drawn)] + SandboxPayloads(issues[1..])
  }

  function GatePayloads(g: Gate, issues: seq<Issue>): (ps: seq<Payload>)
    ensures |ps| == |issues|
    ensures forall k :: 0 <= k < |ps| ==> ps[k] == GatePayload(g, issues[k].now, issues[k].drawn)
  {
    if issues == [] then []
    else [GatePayload(g, issues[0].now, issues[0].drawn)] + GatePayloads(g, issues[1..])
  }

  /**
   * Whatever token is presented, an accepted identity is one that was issued
   * and has not expired.  Nothing is said of the token's own text: unused bits
   * of the signature may differ.
   */
  lemma {:induction false} SessionsAreIssued(
    codec: Codec, mac: Mac, c: ConsoleAuth, issues: seq<Issue>, token: string, now: real)
    requires c.enabled && Unforged(codec, mac, c.secret, SessionPayloads(c, issues), token)
    requires AllFaithful(codec, SessionPayloads(c, issues))
    requires Authenticate(codec, mac, c, token, now).Accepted?
    ensures var id := Authenticate(codec, mac, c, token, now).identity;
            && Truncate(now) < id.expiresAt && id.username == c.username
            && exists k :: 0 <= k < |issues| && id == NewIdentity(c, issues[k].now, issues[k].drawn)
  {
    hide Claims, Configured, Unforged, AllFaithful, SessionPayloads, Encode;
    var ps := SessionPayloads(c, issues);
    ClaimsAreIssued(codec, mac, c.secret, ps, token);
    var k :| 0 <= k < |ps| && Claims(codec, mac, c.secret, token) == Object(ps[k]);
    assert Authenticate(codec, mac, c, token, now) == SessionFrom(c, ps[k], now);
    assert SessionFrom(c, ps[k], now).identity == NewIdentity(c, issues[k].now, issues[k].drawn);
  }

  /** The same for deception sessions. */
  lemma {:induction false} SandboxesAreIssued(
    codec: Codec, mac: Mac, c: ConsoleAuth, issues: seq<Issue>, token: string, now: real)
    requires Unforged(codec, mac, SandboxKey(mac, c), SandboxPayloads(issues), token)
    requires AllFaithful(codec, SandboxPayloads(issues))
    requires AuthenticateSandbox(codec, mac, c, token, now).Accepted?
    ensures var id := AuthenticateSandbox(codec, mac, c, token, now).identity;
            && Truncate(now) < id.expiresAt
            && exists k :: 0 <= k < |issues| && id == NewSandbox(issues[k].ttl, issues[k].now, issues[k].drawn)
  {
    hide Claims, Unforged, AllFaithful, SandboxPayloads, Encode, Hex, SandboxKey;
    var ps := SandboxPayloads(issues);
    ClaimsAreIssued(codec, mac, SandboxKey(mac, c), ps, token);
    var k :| 0 <= k < |ps| && Claims(codec, mac, SandboxKey(mac, c), token) == Object(ps[k]);
    assert AuthenticateSandbox(codec, mac, c, token, now) == SandboxFrom(ps[k], now);
    assert SandboxFrom(ps[k], now).identity == NewSandbox(issues[k].ttl, issues[k].now, issues[k].drawn);
  }

  /** An accepted gate token was issued less than the gate's time to live ago. */
  lemma {:induction false} GateTokensAreIssued(
    codec: Codec, mac: Mac, g: Gate, issues: seq<Issue>, token: string, now: real)
    requires Unforged(codec, mac, g.key, GatePayloads(g, issues), token) && AllFaithful(codec, GatePayloads(g, issues))
    requires VerifyGateToken(codec, mac, g, token, now).Accepted?
    ensures exists k :: 0 <= k < |issues| && Truncate(now) < Truncate(issues[k].now) + g.ttl
  {
    hide Claims, GateEnabled, Unforged, AllFaithful, GatePayloads, Encode, Truncate;
    var ps := GatePayloads(g, issues);
    ClaimsAreIssued(codec, mac, g.key, ps, token);
    var k :| 0 <= k < |ps| && Claims(codec, mac, g.key, token) == Object(ps[k]);
    assert AsInt(Get(ps[k], "exp")) == Some(Truncate(issues[k].now) + g.ttl);
  }
}
