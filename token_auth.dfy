/**
 * The request authenticator `TokenAuthentication`
 * (core/authentication/token_authentication.py): the `Authorization` header
 * is split and its scheme checked, a query-string one-time token is the
 * fallback, and the credentials are checked in a fixed order (lookup,
 * expiry, active owner, session binding). A view that allows anonymous
 * access turns every refusal into "no identity" instead of an error.
 */
module TokenAuth {
  import opened Common
  import opened Bytes
  import opened Users
  import opened Sessions
  import opened AppityTokens
  import opened TokenStore

  /** `keyword.lower().encode()`: the bytes of "fleio-token". */
  const KEYWORD_BYTES: seq<byte> := [0x66, 0x6C, 0x65, 0x69, 0x6F, 0x2D, 0x74, 0x6F, 0x6B, 0x65, 0x6E]

  /** The query parameter carrying a one-time token. */
  const OTP_QUERY_PARAM := "fleio-token"
  /** The permission class whose presence makes a view anonymous. */
  const ALLOW_ANY := "AllowAny"

  const NO_CREDENTIALS := "Invalid token header. No credentials provided."
  const HAS_SPACES := "Invalid token header. Token string should not contain spaces."
  const INVALID_CHARACTERS := "Invalid token header. Token string should not contain invalid characters."
  const INVALID_TOKEN := "Invalid token."
  const EXPIRED_TOKEN := "Expired token."
  const INACTIVE_USER := "User inactive or deleted."
  const MISMATCHED_TOKEN := "Mismatched token."

  // ---------------------------------------------------------------------
  // Header
  // ---------------------------------------------------------------------

  /** `has_fleio_token`: the header is two words and the first is the scheme in any letter case. */
  predicate HasFleioToken(header: seq<byte>) {
    var parts := Split(header);
    |parts| == 2 && LowerBytes(parts[0]) == KEYWORD_BYTES
  }

  /** `is_anonymous_view`: the view lists `AllowAny`; a view without permission classes is not anonymous. */
  predicate IsAnonymousView(viewPermissions: Option<seq<string>>) {
    viewPermissions.Some? && ALLOW_ANY in viewPermissions.value
  }

  /** Where `authenticate` sends a request. */
  datatype Route =
    /** No identity is claimed: `authenticate` returns `None`. */
    | Skip
    /** The scheme is present but its credentials are malformed. */
    | Malformed(message: string)
    /** `authenticate_credentials(request, token, otp=...)`. */
    | Check(token: string, otp: bool)

  /**
   * The header dispatch of `authenticate`. Without the scheme, a GET or POST
   * carrying a non-empty `fleio-token` query parameter is checked as a
   * one-time token; a scheme with one word, more than two words or bytes
   * that are not UTF-8 is malformed; otherwise the second word is checked.
   */
  function RouteOf(header: seq<byte>, httpMethod: string, queryParams: map<string, string>): (r: Route)
    ensures r.Check? && r.otp ==>
              && (httpMethod == "GET" || httpMethod == "POST")
              && OTP_QUERY_PARAM in queryParams && r.token == queryParams[OTP_QUERY_PARAM] && r.token != ""
    ensures r.Malformed? || (r.Check? && !r.otp) ==>
              |Split(header)| > 0 && LowerBytes(Split(header)[0]) == KEYWORD_BYTES
    ensures r.Check? && !r.otp ==> |Split(header)| == 2 && Utf8Decode(Split(header)[1]) == Some(r.token)
    ensures r.Malformed? ==> r.message in {NO_CREDENTIALS, HAS_SPACES, INVALID_CHARACTERS}
  {
    var parts := Split(header);
    if |parts| == 0 || LowerBytes(parts[0]) != KEYWORD_BYTES then
      if (httpMethod == "GET" || httpMethod == "POST") && OTP_QUERY_PARAM in queryParams
         && queryParams[OTP_QUERY_PARAM] != "" then
        Check(queryParams[OTP_QUERY_PARAM], true)
      else Skip
    else if |parts| == 1 then Malformed(NO_CREDENTIALS)
    else if |parts| > 2 then Malformed(HAS_SPACES)
    else
      match Utf8Decode(parts[1])
      case None => Malformed(INVALID_CHARACTERS)
      case Some(s) => Check(s, false)
  }

  /**
   * `has_fleio_token` holds exactly for the headers `authenticate` checks as
   * a regular token or refuses as undecodable.
   */
  lemma HasFleioTokenRoutes(header: seq<byte>, httpMethod: string, queryParams: map<string, string>)
    ensures var r := RouteOf(header, httpMethod, queryParams);
            HasFleioToken(header) <==> (r.Check? && !r.otp) || r == Malformed(INVALID_CHARACTERS)
  {
  }

  /**
   * A header built as `<scheme> <token>`, the scheme written in any letter
   * case, routes back to that token whatever the request method, for any
   * non-empty token whose encoding has no whitespace byte.
   */
  lemma HeaderRoundTrip(scheme: seq<byte>, s: string, httpMethod: string, queryParams: map<string, string>)
    requires LowerBytes(scheme) == KEYWORD_BYTES
    requires |s| > 0
    requires forall i :: 0 <= i < |Utf8Encode(s)| ==> !IsSpace(Utf8Encode(s)[i])
    ensures RouteOf(scheme + [0x20] + Utf8Encode(s), httpMethod, queryParams) == Check(s, false)
    ensures HasFleioToken(scheme + [0x20] + Utf8Encode(s))
  {
    var e := Utf8Encode(s);
    assert e == EncodeChar(s[0]) + Utf8Encode(s[1..]);
    forall i | 0 <= i < |scheme| ensures !IsSpace(scheme[i]) {
      assert LowerBytes(scheme)[i] == KEYWORD_BYTES[i];
    }
    TwoWords(scheme, e);
    Utf8RoundTrip(s);
  }

  // ---------------------------------------------------------------------
  // Credentials
  // ---------------------------------------------------------------------

  /** The one-time-token row with string `s`. */
  function FindOtp(otps: seq<OtpToken>, s: string): (r: Option<OtpToken>)
    ensures r.Some? ==> r.value in otps && r.value.token == s
    ensures r.None? <==> !OtpInUse(otps, s)
  {
    First(otps, (o: OtpToken) => o.token == s)
  }

  /** The token row with primary key `id`. */
  function TokenById(tokens: seq<AppityToken>, id: TokenId): (r: Option<AppityToken>)
    ensures r.Some? ==> r.value in tokens && r.value.id == id
    ensures r.None? <==> !HasToken(tokens, id)
  {
    First(tokens, (t: AppityToken) => t.id == id)
  }

  /**
   * The row `authenticate_credentials` looks up: the parent of the one-time
   * token `s`, or else the token `s` bound to the session key `key` (a
   * session without a key matches tokens bound to no session).
   */
  function Lookup(tokens: seq<AppityToken>, otps: seq<OtpToken>, s: string, otp: bool, key: Option<SessionKey>)
    : (r: Option<AppityToken>)
    ensures r.Some? ==> r.value in tokens
    ensures !otp ==> (r.Some? ==> r.value.token == s && r.value.sessionId == key)
    ensures !otp ==> (r.None? <==> forall i :: 0 <= i < |tokens| ==> !(tokens[i].token == s && tokens[i].sessionId == key))
    ensures otp ==> (r.Some? ==> FindOtp(otps, s).Some? && FindOtp(otps, s).value.parentId == r.value.id)
    ensures otp ==> (r.None? <==> FindOtp(otps, s).None? || !HasToken(tokens, FindOtp(otps, s).value.parentId))
  {
    if otp then
      match FindOtp(otps, s)
      case None => None
      case Some(o) => TokenById(tokens, o.parentId)
    else
      First(tokens, (t: AppityToken) => t.token == s && t.sessionId == key)
  }

  /**
   * The string of the impersonator's frontend token for the session, as
   * `get_frontend_token(impersonator_id, request)` finds it; a stored value
   * that names no user id matches no row.
   */
  function ImpersonatorToken(tokens: seq<AppityToken>, impersonator: Value, key: Option<SessionKey>)
    : (r: Option<string>)
    ensures AsId(impersonator).None? ==> r.None?
    ensures AsId(impersonator).Some? ==> r == GetFrontendToken(tokens, AsId(impersonator).value, key)
  {
    match AsId(impersonator)
    case None => None
    case Some(uid) => GetFrontendToken(tokens, uid, key)
  }

  /**
   * The session check of a regular token. Only a frontend token with a
   * non-empty `'fleio_token'` in its session is checked. During an
   * impersonation (both `'impersonate'` and `'impersonator'` stored) the
   * token must belong to one of the two users and the session token must be
   * the impersonator's frontend token; otherwise the session token must be
   * the token itself.
   */
  predicate Bound(tokens: seq<AppityToken>, key: Option<SessionKey>, data: map<string, Value>, t: AppityToken) {
    var sessionToken := if t.frontend then Get(data, FLEIO_TOKEN_KEY) else VNone;
    !Truthy(sessionToken) ||
    if IMPERSONATE_KEY in data && IMPERSONATOR_KEY in data then
      var impersonator := data[IMPERSONATOR_KEY];
      var impersonatorToken := ImpersonatorToken(tokens, impersonator, key);
      && (EqualsInt(data[IMPERSONATE_KEY], t.userId) || EqualsInt(impersonator, t.userId))
      && impersonatorToken.Some? && sessionToken == VStr(impersonatorToken.value)
    else
      sessionToken == VStr(t.token)
  }

  /** The verdict of `authenticate_credentials` before the anonymous-view rule is applied. */
  datatype Check =
    | Accept(user: User, token: AppityToken)
    | Reject(message: string)
    /** A one-time token passed every check: the code falls through to `None`. */
    | OtpPassed

  /**
   * The checks of `authenticate_credentials`, in their order: the lookup
   * ('Invalid token.'), the one-time token's expiry and then the token's
   * ('Expired token.'), the owner's active flag ('User inactive or
   * deleted.') and, for a regular token, the session binding ('Mismatched
   * token.').
   */
  function CheckCredentials(users: seq<User>, tokens: seq<AppityToken>, otps: seq<OtpToken>,
                            key: Option<SessionKey>, data: map<string, Value>, s: string, otp: bool, now: int)
    : (r: Check)
    requires forall i :: 0 <= i < |tokens| ==> HasUser(users, tokens[i].userId)
    ensures var found := Lookup(tokens, otps, s, otp, key);
            && (r == Reject(INVALID_TOKEN) <==> found.None?)
            && (r == Reject(EXPIRED_TOKEN) <==>
                  found.Some? && ((otp && IsExpired(FindOtp(otps, s).value.expireAt, now)) || IsExpired(found.value.expireAt, now)))
            && (r == Reject(INACTIVE_USER) <==>
                  found.Some? && !(otp && IsExpired(FindOtp(otps, s).value.expireAt, now)) && !IsExpired(found.value.expireAt, now)
                  && !ActiveFlag(UserOf(users, found.value.userId).value))
            && (r == OtpPassed <==>
                  otp && found.Some? && !IsExpired(FindOtp(otps, s).value.expireAt, now) && !IsExpired(found.value.expireAt, now)
                  && ActiveFlag(UserOf(users, found.value.userId).value))
            && (r == Reject(MISMATCHED_TOKEN) <==>
                  !otp && found.Some? && !IsExpired(found.value.expireAt, now)
                  && ActiveFlag(UserOf(users, found.value.userId).value) && !Bound(tokens, key, data, found.value))
            && (r.Accept? <==>
                  !otp && found.Some? && !IsExpired(found.value.expireAt, now)
                  && ActiveFlag(UserOf(users, found.value.userId).value) && Bound(tokens, key, data, found.value))
            && (r.Accept? ==> r.token == found.value && r.user in users && r.user.id == r.token.userId)
  {
    var found := Lookup(tokens, otps, s, otp, key);
    if found.None? then Reject(INVALID_TOKEN)
    else if otp && IsExpired(FindOtp(otps, s).value.expireAt, now) then Reject(EXPIRED_TOKEN)
    else if IsExpired(found.value.expireAt, now) then Reject(EXPIRED_TOKEN)
    else
      var t := found.value;
      assert HasUser(users, t.userId) by {
        var i :| 0 <= i < |tokens| && tokens[i] == t;
      }
      var user := UserOf(users, t.userId).value;
      if !ActiveFlag(user) then Reject(INACTIVE_USER)
      else if otp then OtpPassed
      else if !Bound(tokens, key, data, t) then Reject(MISMATCHED_TOKEN)
      else Accept(user, t)
  }

  /** What `authenticate` returns. */
  datatype AuthResult =
    /** The `(user, token)` pair. */
    | Authenticated(user: User, token: AppityToken)
    /** `None`: this authenticator establishes no identity. */
    | NoIdentity
    /** `AuthenticationFailed(message)` is raised. */
    | Failed(message: string)

  /** A refusal raises, except for an anonymous view, which gets `None`. */
  function Outcome(c: Check, anonymous: bool): (r: AuthResult)
    ensures r.Failed? <==> c.Reject? && !anonymous
    ensures r.Failed? ==> r.message == c.message
    ensures r.Authenticated? <==> c.Accept?
    ensures r.Authenticated? ==> r.user == c.user && r.token == c.token
  {
    match c
    case Accept(u, t) => Authenticated(u, t)
    case Reject(msg) => if anonymous then NoIdentity else Failed(msg)
    case OtpPassed => NoIdentity
  }

  /**
   * The tables after `authenticate_credentials`: a found one-time token is
   * deleted before its expiry is looked at, and an expired token reached
   * by the checks is deleted, with its one-time tokens, only when it is a
   * frontend token.
   */
  function AfterCheck(t: TokenTables, s: string, otp: bool, key: Option<SessionKey>, now: int): (r: TokenTables)
    ensures r.nextTokenId == t.nextTokenId
  {
    var found := Lookup(t.tokens, t.otps, s, otp, key);
    if found.None? then t
    else
      var otps := if otp then OtpsExcept(t.otps, OtpWithId(FindOtp(t.otps, s).value.id)) else t.otps;
      if otp && IsExpired(FindOtp(t.otps, s).value.expireAt, now) then t.(otps := otps)
      else if IsExpired(found.value.expireAt, now) && found.value.frontend then
        var kept := TokensExcept(t.tokens, TokenWithId(found.value.id));
        TokenTables(kept, OtpsOf(otps, kept), t.nextTokenId)
      else t.(otps := otps)
  }

  /**
   * Tokens are deleted only when the verdict is 'Expired token.' for a
   * frontend token; a regular lookup never touches the one-time tokens
   * except through that deletion.
   */
  lemma AfterCheckDeletes(users: seq<User>, t: TokenTables, data: map<string, Value>, s: string, otp: bool,
                          key: Option<SessionKey>, now: int)
    requires forall i :: 0 <= i < |t.tokens| ==> HasUser(users, t.tokens[i].userId)
    ensures var r := AfterCheck(t, s, otp, key, now);
            var found := Lookup(t.tokens, t.otps, s, otp, key);
            && (r.tokens != t.tokens ==>
                  CheckCredentials(users, t.tokens, t.otps, key, data, s, otp, now) == Reject(EXPIRED_TOKEN)
                  && found.value.frontend)
            && (!otp && r.tokens == t.tokens ==> r.otps == t.otps)
  {
  }

  /**
   * A one-time token is single use: once a lookup finds its parent, no
   * one-time token with that string is left, whether or not the checks
   * that follow pass.
   */
  lemma OtpIsConsumed(t: TokenTables, s: string, key: Option<SessionKey>, now: int)
    requires Pairwise(t.otps, OtpPairOk)
    requires Lookup(t.tokens, t.otps, s, true, key).Some?
    ensures !OtpInUse(AfterCheck(t, s, true, key, now).otps, s)
  {
    var row := FindOtp(t.otps, s).value;
    var sel := OtpWithId(row.id);
    var otps := OtpsExcept(t.otps, sel);
    OtpsExceptMembers(t.otps, sel);
    var k :| 0 <= k < |t.otps| && t.otps[k] == row;
    forall j | 0 <= j < |otps| ensures otps[j].token != s {
      var m :| 0 <= m < |t.otps| && t.otps[m] == otps[j];
      assert m != k;
      if m < k { assert OtpPairOk(t.otps[m], t.otps[k]); } else { assert OtpPairOk(t.otps[k], t.otps[m]); }
    }
    var r := AfterCheck(t, s, true, key, now);
    if r.otps != otps {
      OtpsOfMembers(otps, r.tokens);
      forall j | 0 <= j < |r.otps| ensures r.otps[j].token != s {
        var m :| 0 <= m < |otps| && otps[m] == r.otps[j];
      }
    }
  }

  /**
   * `authenticate_credentials(request, token, otp, anonymous)`: the checks
   * of `CheckCredentials` in their order, deleting the one-time token and an
   * expired frontend token on the way.
   */
  method AuthenticateCredentials(db: Db, request: Request, s: string, otp: bool, anonymous: bool, now: int)
    returns (r: AuthResult)
    requires db.Valid()
    modifies db
    ensures db.Valid()
    ensures db.users == old(db.users) && db.nextOtpId == old(db.nextOtpId)
    ensures db.Tables() == AfterCheck(old(db.Tables()), s, otp, request.session.key, now)
    ensures r == Outcome(CheckCredentials(old(db.users), old(db.tokens), old(db.otps), request.session.key,
                                          request.session.data, s, otp, now), anonymous)
  {
    var key := request.session.key;
    var tokens := db.tokens;
    var row := FindOtp(db.otps, s);
    var found := Lookup(db.tokens, db.otps, s, otp, key);
    if found.None? {
      return Outcome(Reject(INVALID_TOKEN), anonymous);
    }
    if otp {
      db.DeleteOtps(OtpWithId(row.value.id));
      if IsExpired(row.value.expireAt, now) {
        return Outcome(Reject(EXPIRED_TOKEN), anonymous);
      }
    }
    var t := found.value;
    if IsExpired(t.expireAt, now) {
      if t.frontend {
        db.DeleteTokens(TokenWithId(t.id));
      }
      return Outcome(Reject(EXPIRED_TOKEN), anonymous);
    }
    assert HasUser(db.users, t.userId) by {
      var i :| 0 <= i < |db.tokens| && db.tokens[i] == t;
    }
    var user := UserOf(db.users, t.userId).value;
    if !ActiveFlag(user) {
      return Outcome(Reject(INACTIVE_USER), anonymous);
    }
    if !otp {
      if !Bound(tokens, key, request.session.data, t) {
        return Outcome(Reject(MISMATCHED_TOKEN), anonymous);
      }
      return Authenticated(user, t);
    }
    r := NoIdentity;
  }

  /**
   * `authenticate(request)`: the route of the header decides; a malformed
   * header raises its message unless the view is anonymous, and the tables
   * change only when credentials are checked.
   */
  method Authenticate(db: Db, request: Request, now: int) returns (r: AuthResult)
    requires db.Valid()
    modifies db
    ensures db.Valid()
    ensures db.users == old(db.users)
    ensures var route := RouteOf(request.authorization, request.httpMethod, request.queryParams);
            var anonymous := IsAnonymousView(request.viewPermissions);
            && (route.Skip? ==> r == NoIdentity && db.Tables() == old(db.Tables()))
            && (route.Malformed? ==>
                  r == (if anonymous then NoIdentity else Failed(route.message)) && db.Tables() == old(db.Tables()))
            && (route.Check? ==>
                  && r == Outcome(CheckCredentials(old(db.users), old(db.tokens), old(db.otps), request.session.key,
                                                   request.session.data, route.token, route.otp, now), anonymous)
                  && db.Tables() == AfterCheck(old(db.Tables()), route.token, route.otp, request.session.key, now))
  {
    var anonymous := IsAnonymousView(request.viewPermissions);
    var route := RouteOf(request.authorization, request.httpMethod, request.queryParams);
    match route
    case Skip =>
      r := NoIdentity;
    case Malformed(msg) =>
      r := if anonymous then NoIdentity else Failed(msg);
    case Check(s, otp) =>
      r := AuthenticateCredentials(db, request, s, otp, anonymous, now);
  }

  // ---------------------------------------------------------------------
  // Session binding
  // ---------------------------------------------------------------------

  /**
   * `token_login` leaves no `'fleio_token'` in the session (it writes
   * `'appity_token'`), so a session that has only been through a login binds
   * no token: every token of it passes the session check.
   */
  lemma LoginSessionBindsNothing(tokens: seq<AppityToken>, key: Option<SessionKey>, data: map<string, Value>,
                                 t: AppityToken)
    requires FLEIO_TOKEN_KEY !in data
    ensures Bound(tokens, key, data, t)
  {
  }

  /**
   * After `extend_frontend_session` stores the new token under
   * `'fleio_token'`, outside an impersonation that token passes the session
   * check and every other frontend token presented with the session fails it.
   */
  lemma ExtendedSessionBindsItsToken(tokens: seq<AppityToken>, key: Option<SessionKey>, data: map<string, Value>,
                                     t: AppityToken, other: AppityToken)
    requires !(IMPERSONATE_KEY in data && IMPERSONATOR_KEY in data)
    requires t.token != "" && t.frontend
    ensures Bound(tokens, key, data[FLEIO_TOKEN_KEY := VStr(t.token)], t)
    ensures other.frontend && other.token != t.token ==>
              !Bound(tokens, key, data[FLEIO_TOKEN_KEY := VStr(t.token)], other)
  {
  }

  /**
   * During an impersonation whose session holds the impersonator's own
   * frontend token for the session, a frontend token passes the session
   * check exactly when it belongs to the impersonator or to the impersonated
   * user.
   */
  lemma ImpersonationBinding(tokens: seq<AppityToken>, key: Option<SessionKey>, data: map<string, Value>,
                             i: nat, t: AppityToken)
    requires Pairwise(tokens, TokenPairOk) && i < |tokens|
    requires tokens[i].frontend && tokens[i].sessionId == key && tokens[i].token != ""
    requires FLEIO_TOKEN_KEY in data && data[FLEIO_TOKEN_KEY] == VStr(tokens[i].token)
    requires IMPERSONATOR_KEY in data && data[IMPERSONATOR_KEY] == VInt(tokens[i].userId)
    requires IMPERSONATE_KEY in data
    requires t.frontend
    ensures Bound(tokens, key, data, t) <==>
              t.userId == tokens[i].userId || EqualsInt(data[IMPERSONATE_KEY], t.userId)
  {
    GetFrontendTokenOfRow(tokens, i);
    assert ImpersonatorToken(tokens, data[IMPERSONATOR_KEY], key) == Some(tokens[i].token);
  }

  // ---------------------------------------------------------------------
  // Header lookup for the session middleware
  // ---------------------------------------------------------------------

  /** What `get_user_id_from_header` ends with. */
  datatype HeaderUser =
    | UserFound(uid: UserId)
    | NoUser
    /** The token word is not UTF-8: `decode()` raises `UnicodeDecodeError`. */
    | Undecodable

  /** The token the header names, found with the session key as `authenticate_credentials` finds it. */
  function HeaderToken(tokens: seq<AppityToken>, header: seq<byte>, key: Option<SessionKey>): (r: Option<AppityToken>)
    requires HasFleioToken(header)
  {
    match Utf8Decode(Split(header)[1])
    case None => None
    case Some(s) => Lookup(tokens, [], s, false, key)
  }

  /**
   * `get_user_id_from_header(request)`: the owner of the live token a
   * `Fleio-Token` header names for the session; nothing for any other
   * header, an unknown token or an expired one.
   */
  function HeaderUserId(tokens: seq<AppityToken>, header: seq<byte>, key: Option<SessionKey>, now: int)
    : (r: HeaderUser)
    ensures r.Undecodable? <==> HasFleioToken(header) && Utf8Decode(Split(header)[1]).None?
    ensures r.UserFound? <==>
              HasFleioToken(header) && HeaderToken(tokens, header, key).Some?
              && !IsExpired(HeaderToken(tokens, header, key).value.expireAt, now)
    ensures r.UserFound? ==> r.uid == HeaderToken(tokens, header, key).value.userId
  {
    if !HasFleioToken(header) then NoUser
    else if Utf8Decode(Split(header)[1]).None? then Undecodable
    else
      match HeaderToken(tokens, header, key)
      case None => NoUser
      case Some(t) => if IsExpired(t.expireAt, now) then NoUser else UserFound(t.userId)
  }

  /** The tables after `get_user_id_from_header`: an expired token it finds is deleted, frontend or not. */
  function AfterHeaderLookup(t: TokenTables, header: seq<byte>, key: Option<SessionKey>, now: int): (r: TokenTables)
  {
    if !HasFleioToken(header) then t
    else
      match HeaderToken(t.tokens, header, key)
      case None => t
      case Some(found) =>
        if IsExpired(found.expireAt, now) then
          var kept := TokensExcept(t.tokens, TokenWithId(found.id));
          TokenTables(kept, OtpsOf(t.otps, kept), t.nextTokenId)
        else t
  }

  /**
   * The header lookup agrees with `authenticate`: a user it finds owns the
   * token `authenticate` checks for the same header, which passes the lookup
   * and the expiry checks; and a user `authenticate` accepts is the one the
   * lookup finds.
   */
  lemma HeaderUserAgrees(users: seq<User>, tokens: seq<AppityToken>, otps: seq<OtpToken>, header: seq<byte>,
                         httpMethod: string, queryParams: map<string, string>, key: Option<SessionKey>,
                         data: map<string, Value>, now: int)
    requires forall i :: 0 <= i < |tokens| ==> HasUser(users, tokens[i].userId)
    ensures var route := RouteOf(header, httpMethod, queryParams);
            HeaderUserId(tokens, header, key, now).UserFound? ==>
              && route.Check? && !route.otp
              && Lookup(tokens, otps, route.token, false, key).value.userId == HeaderUserId(tokens, header, key, now).uid
              && CheckCredentials(users, tokens, otps, key, data, route.token, false, now)
                   !in {Reject(INVALID_TOKEN), Reject(EXPIRED_TOKEN)}
    ensures var route := RouteOf(header, httpMethod, queryParams);
            route.Check? && !route.otp && CheckCredentials(users, tokens, otps, key, data, route.token, false, now).Accept? ==>
              HeaderUserId(tokens, header, key, now)
                == UserFound(CheckCredentials(users, tokens, otps, key, data, route.token, false, now).user.id)
  {
    HasFleioTokenRoutes(header, httpMethod, queryParams);
  }

  /**
   * The two deletions differ: an expired token that is not a frontend token
   * survives `authenticate` but not `get_user_id_from_header`.
   */
  lemma HeaderLookupDeletesWhatCheckKeeps(t: TokenTables, header: seq<byte>, httpMethod: string,
                                          queryParams: map<string, string>, key: Option<SessionKey>, now: int)
    requires HasFleioToken(header) && HeaderToken(t.tokens, header, key).Some?
    requires IsExpired(HeaderToken(t.tokens, header, key).value.expireAt, now)
    requires !HeaderToken(t.tokens, header, key).value.frontend
    ensures var route := RouteOf(header, httpMethod, queryParams);
            && route.Check? && !route.otp
            && AfterCheck(t, route.token, false, key, now) == t
            && HeaderToken(t.tokens, header, key).value !in AfterHeaderLookup(t, header, key, now).tokens
  {
    HasFleioTokenRoutes(header, httpMethod, queryParams);
    var found := HeaderToken(t.tokens, header, key).value;
    var kept := TokensExcept(t.tokens, TokenWithId(found.id));
    assert forall j :: 0 <= j < |kept| ==> kept[j] != found;
  }

  /**
   * `get_user_id_from_header(request)`; the token word is decoded only
   * after the header has passed `has_fleio_token`.
   */
  method GetUserIdFromHeader(db: Db, request: Request, now: int) returns (r: HeaderUser)
    requires db.Valid()
    modifies db
    ensures db.Valid()
    ensures db.users == old(db.users) && db.nextOtpId == old(db.nextOtpId)
    ensures r == HeaderUserId(old(db.tokens), request.authorization, request.session.key, now)
    ensures db.Tables() == AfterHeaderLookup(old(db.Tables()), request.authorization, request.session.key, now)
  {
    if !HasFleioToken(request.authorization) {
      return NoUser;
    }
    var decoded := Utf8Decode(Split(request.authorization)[1]);
    if decoded.None? {
      return Undecodable;
    }
    var found := Lookup(db.tokens, [], decoded.value, false, request.session.key);
    if found.None? {
      return NoUser;
    }
    if !IsExpired(found.value.expireAt, now) {
      return UserFound(found.value.userId);
    }
    db.DeleteTokens(TokenWithId(found.value.id));
    r := NoUser;
  }

  /** An anonymous view never raises, and a one-time token never authenticates. */
  lemma AnonymousNeverFails(users: seq<User>, tokens: seq<AppityToken>, otps: seq<OtpToken>,
                            key: Option<SessionKey>, data: map<string, Value>, s: string, otp: bool, now: int)
    requires forall i :: 0 <= i < |tokens| ==> HasUser(users, tokens[i].userId)
    ensures !Outcome(CheckCredentials(users, tokens, otps, key, data, s, otp, now), true).Failed?
    ensures otp ==> !Outcome(CheckCredentials(users, tokens, otps, key, data, s, otp, now), false).Authenticated?
  {
  }
}
