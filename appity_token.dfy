/**
 * The authentication-token record and its one-time-password child
 * (core/models/appity_token.py): expiry, remaining lifetime, token-string
 * generation on save, the information returned to the browser, and the
 * manager lookup of a user's frontend token for a session.
 */
module AppityTokens {
  import opened Common
  import opened Users
  import opened Sessions

  type TokenId = nat
  type SessionKey = string

  /** Declared length of the token column. */
  const TOKEN_MAX_LENGTH := 40
  /** Number of random bytes in a generated token string. */
  const TOKEN_RANDOM_BYTES := 19
  /** Characters of the owner's e-mail address that prefix a generated token. */
  const TOKEN_EMAIL_PREFIX := 2

  /** A row of the token table. Times are whole seconds. */
  datatype AppityToken = AppityToken(
    id: TokenId,
    token: string,
    userId: UserId,
    createdAt: int,
    expireAt: Option<int>,
    frontend: bool,
    displayName: Option<string>,
    sessionId: Option<SessionKey>)

  /**
   * A row of the one-time-token table: a short-lived string owned by a parent
   * token. Its class is not part of the shown source; the fields are those its
   * call sites use.
   */
  datatype OtpToken = OtpToken(id: nat, token: string, parentId: TokenId, expireAt: Option<int>)

  /** `is_expired`: an expiry is set and lies strictly before `now`. */
  predicate IsExpired(expireAt: Option<int>, now: int) {
    expireAt.Some? && expireAt.value < now
  }

  /** A token without an expiry never expires, and an expired token stays expired. */
  lemma ExpiryIsMonotonic(expireAt: Option<int>, now: int, later: int)
    requires now <= later
    ensures expireAt.None? ==> !IsExpired(expireAt, later)
    ensures IsExpired(expireAt, now) ==> IsExpired(expireAt, later)
  {
  }

  /** `expiry_seconds`: seconds left until expiry, negative once expired; none without an expiry. */
  function ExpirySeconds(t: AppityToken, now: int): (r: Option<int>)
    ensures r.None? <==> t.expireAt.None?
    ensures r.Some? ==> now + r.value == t.expireAt.value
    ensures r.Some? ==> (r.value < 0 <==> IsExpired(t.expireAt, now))
  {
    match t.expireAt
    case None => None
    case Some(e) => Some(e - now)
  }

  // ---------------------------------------------------------------------
  // Token-string generation
  // ---------------------------------------------------------------------

  predicate IsHexChar(c: char) {
    '0' <= c <= '9' || 'a' <= c <= 'f'
  }

  function HexChar(n: nat): (c: char)
    requires n < 16
    ensures IsHexChar(c)
  {
    if n < 10 then ('0' as int + n) as char else ('a' as int + n - 10) as char
  }

  function HexValue(c: char): (n: nat)
    requires IsHexChar(c)
    ensures n < 16
  {
    if '0' <= c <= '9' then (c as int - '0' as int) as nat else (c as int - 'a' as int + 10) as nat
  }

  lemma HexCharValue(n: nat)
    requires n < 16
    ensures HexValue(HexChar(n)) == n
  {
  }

  /** `binascii.hexlify(b).decode()`: two lower-case hex digits per byte. */
  function Hexlify(b: seq<byte>): (s: string)
    ensures |s| == 2 * |b|
    ensures forall i :: 0 <= i < |s| ==> IsHexChar(s[i])
  {
    if |b| == 0 then ""
    else
      var n := b[0];
      [HexChar(n / 16), HexChar(n % 16)] + Hexlify(b[1..])
  }

  /** The inverse of `Hexlify`. */
  function Unhexlify(s: string): (b: seq<byte>)
    requires |s| % 2 == 0 && forall i :: 0 <= i < |s| ==> IsHexChar(s[i])
    ensures |b| == |s| / 2
  {
    if |s| == 0 then []
    else [HexByte(s[0], s[1])] + Unhexlify(s[2..])
  }

  /** The byte written as the two hex digits `hi` and `lo`. */
  function HexByte(hi: char, lo: char): byte
    requires IsHexChar(hi) && IsHexChar(lo)
  {
    HexValue(hi) * 16 + HexValue(lo)
  }

  /** Hex encoding loses nothing: the random bytes can be read back from the string. */
  lemma {:induction false} HexRoundTrip(b: seq<byte>)
    ensures Unhexlify(Hexlify(b)) == b
  {
    if |b| > 0 {
      var s := Hexlify(b);
      var n := b[0];
      assert s == [HexChar(n / 16), HexChar(n % 16)] + Hexlify(b[1..]);
      assert s[2..] == Hexlify(b[1..]);
      HexRoundTrip(b[1..]);
      ByteRoundTrip(b[0]);
      assert HexByte(s[0], s[1]) == b[0];
    }
  }

  lemma ByteRoundTrip(x: byte)
    ensures HexByte(HexChar(x / 16), HexChar(x % 16)) == x
  {
    var n := x;
    HexCharValue(n / 16);
    HexCharValue(n % 16);
    assert (n / 16) * 16 + n % 16 == n;
  }

  function Min(a: int, b: int): int { if a <= b then a else b }

  /**
   * The string `save` generates: the first two characters of the owner's
   * e-mail address followed by 19 random bytes in hex. It fits the column.
   */
  function GenerateToken(email: string, entropy: seq<byte>): (r: string)
    requires |entropy| == TOKEN_RANDOM_BYTES
    ensures |r| == Min(TOKEN_EMAIL_PREFIX, |email|) + 2 * TOKEN_RANDOM_BYTES <= TOKEN_MAX_LENGTH
  {
    email[..Min(TOKEN_EMAIL_PREFIX, |email|)] + Hexlify(entropy)
  }

  /**
   * A generated string starts with the e-mail prefix, and its last 38
   * characters are hex digits from which the random bytes read back.
   */
  lemma GeneratedTokenShape(email: string, entropy: seq<byte>)
    requires |entropy| == TOKEN_RANDOM_BYTES
    ensures var r := GenerateToken(email, entropy);
            var tail := r[|r| - 2 * TOKEN_RANDOM_BYTES..];
            && r[..|r| - 2 * TOKEN_RANDOM_BYTES] == email[..Min(TOKEN_EMAIL_PREFIX, |email|)]
            && (forall i :: 0 <= i < |tail| ==> IsHexChar(tail[i]))
            && Unhexlify(tail) == entropy
  {
    var prefix := email[..Min(TOKEN_EMAIL_PREFIX, |email|)];
    var r := GenerateToken(email, entropy);
    assert r[|r| - 2 * TOKEN_RANDOM_BYTES..] == Hexlify(entropy);
    assert r[..|r| - 2 * TOKEN_RANDOM_BYTES] == prefix;
    HexRoundTrip(entropy);
  }

  /** Two generated strings with the same e-mail prefix differ whenever their random bytes differ. */
  lemma GeneratedTokensDiffer(email: string, e1: seq<byte>, e2: seq<byte>)
    requires |e1| == TOKEN_RANDOM_BYTES && |e2| == TOKEN_RANDOM_BYTES && e1 != e2
    ensures GenerateToken(email, e1) != GenerateToken(email, e2)
  {
    GeneratedTokenShape(email, e1);
    GeneratedTokenShape(email, e2);
  }

  /** `update_fields` of `save`: `None` or the listed field names. */
  predicate SavesTokenField(updateFields: Option<seq<string>>) {
    updateFields.None? || |updateFields.value| == 0 || "token" in updateFields.value
  }

  /**
   * `AppityToken.save`: a token string is generated only when the row has
   * none and the save covers the token field; an existing string is never
   * overwritten, and no other field changes.
   */
  function Save(t: AppityToken, ownerEmail: string, updateFields: Option<seq<string>>, entropy: seq<byte>)
    : (r: AppityToken)
    requires |entropy| == TOKEN_RANDOM_BYTES
    ensures r == t.(token := r.token)
    ensures t.token != "" ==> r.token == t.token
    ensures r.token != t.token <==> t.token == "" && SavesTokenField(updateFields)
    ensures r.token != "" <==> t.token != "" || SavesTokenField(updateFields)
    ensures t.token == "" && SavesTokenField(updateFields) ==> |r.token| <= TOKEN_MAX_LENGTH
  {
    if SavesTokenField(updateFields) && t.token == "" then
      t.(token := GenerateToken(ownerEmail, entropy))
    else t
  }

  /** Saving twice generates at most once: a second save keeps the string of the first. */
  lemma SaveIsIdempotent(t: AppityToken, email: string, uf: Option<seq<string>>, e1: seq<byte>, e2: seq<byte>)
    requires |e1| == TOKEN_RANDOM_BYTES && |e2| == TOKEN_RANDOM_BYTES
    requires SavesTokenField(uf) || t.token != ""
    ensures Save(Save(t, email, uf, e1), email, uf, e2) == Save(t, email, uf, e1)
  {
  }

  // ---------------------------------------------------------------------
  // Browser information
  // ---------------------------------------------------------------------

  /** The dictionary `get_info` returns. */
  datatype TokenInfo = TokenInfo(
    token: Option<string>,
    expireAt: Option<int>,
    expireAtBrowserClose: Option<bool>,
    expirySeconds: Option<int>,
    shortSessionSeconds: Option<int>,
    longSessionSeconds: Option<int>)

  const EMPTY_INFO := TokenInfo(None, None, None, None, None, None)

  /**
   * `get_info(session, force_expire_at_browser_close)`: nothing unless the
   * token belongs to the given session; then the token, its expiry, whether
   * the browser forgets it on close, the seconds left and both session lengths.
   */
  function GetInfo(t: AppityToken, sessionKey: Option<SessionKey>, sessionData: map<string, Value>,
                   force: bool, cfg: Settings, now: int): (r: TokenInfo)
    ensures t.sessionId != sessionKey ==> r == EMPTY_INFO
    ensures t.sessionId == sessionKey ==>
              && r.token == Some(t.token)
              && r.expireAt == t.expireAt
              && r.expireAtBrowserClose == Some(force || ExpireAtBrowserClose(sessionData, cfg.sessionExpireAtBrowserClose))
              && r.expirySeconds == ExpirySeconds(t, now)
              && r.shortSessionSeconds == Some(cfg.shortSessionSeconds)
              && r.longSessionSeconds == Some(cfg.longSessionSeconds)
    ensures r.token.Some? <==> t.sessionId == sessionKey
  {
    if t.sessionId != sessionKey then EMPTY_INFO
    else
      TokenInfo(
        Some(t.token),
        t.expireAt,
        Some(force || ExpireAtBrowserClose(sessionData, cfg.sessionExpireAtBrowserClose)),
        ExpirySeconds(t, now),
        Some(SessionExpirationSeconds(cfg, false)),
        Some(SessionExpirationSeconds(cfg, true)))
  }

  /** The row `get_frontend_appity_token(user, session_id)` and `get_frontend_token` look for. */
  predicate IsFrontendOf(t: AppityToken, uid: UserId, sessionKey: Option<SessionKey>) {
    t.frontend && t.userId == uid && t.sessionId == sessionKey
  }

  /** `get_frontend_appity_token(user, session_id)`: the first frontend token of the user in that session. */
  function GetFrontendAppityToken(tokens: seq<AppityToken>, uid: UserId, sessionKey: Option<SessionKey>)
    : (r: Option<AppityToken>)
    ensures r.Some? ==> r.value in tokens && IsFrontendOf(r.value, uid, sessionKey)
    ensures r.Some? ==> exists i :: 0 <= i < |tokens| && tokens[i] == r.value &&
                          forall j :: 0 <= j < i ==> !IsFrontendOf(tokens[j], uid, sessionKey)
    ensures r.None? <==> forall j :: 0 <= j < |tokens| ==> !IsFrontendOf(tokens[j], uid, sessionKey)
  {
    match FirstIndex(tokens, (t: AppityToken) => IsFrontendOf(t, uid, sessionKey))
    case Some(i) => Some(tokens[i])
    case None => None
  }

  /** A frontend token appended after rows none of which match is the one the lookup finds. */
  lemma FrontendAfterOthers(tokens: seq<AppityToken>, x: AppityToken, uid: UserId, sessionKey: Option<SessionKey>)
    requires forall j :: 0 <= j < |tokens| ==> !IsFrontendOf(tokens[j], uid, sessionKey)
    requires IsFrontendOf(x, uid, sessionKey)
    ensures GetFrontendAppityToken(tokens + [x], uid, sessionKey) == Some(x)
  {
    var s := tokens + [x];
    assert s[|tokens|] == x;
    assert forall j :: 0 <= j < |tokens| ==> s[j] == tokens[j];
  }
}
