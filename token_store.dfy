/**
 * The token tables and the lifecycle of frontend tokens
 * (core/authentication/token_authentication.py, lines 25-164): the database
 * holding users, tokens and one-time tokens, the request an operation works
 * on, and the operations that create, rotate and delete tokens and write the
 * session keys that refer to them.
 *
 * Rows are kept in primary-key order, so `.filter(...).first()` is the first
 * match. A delete cascades from a token to its one-time tokens. Every
 * `create` draws its token string from random bytes given as a parameter;
 * a string already in use violates the unique column and raises
 * `IntegrityError`, which `transaction.atomic` rolls back.
 */
module TokenStore {
  import opened Common
  import opened Users
  import opened Sessions
  import opened AppityTokens

  const OTP_TOKEN_MAX_LIFETIME_SECONDS := 600

  /** Session keys the token code reads and writes. */
  const FLEIO_TOKEN_KEY := "fleio_token"
  const APPITY_TOKEN_KEY := "appity_token"
  const IMPERSONATE_KEY := "impersonate"
  const IMPERSONATOR_KEY := "impersonator"
  /** Session keys `auth.login` writes. */
  const AUTH_USER_ID_KEY := "_auth_user_id"
  const AUTH_USER_BACKEND_KEY := "_auth_user_backend"
  const AUTH_USER_HASH_KEY := "_auth_user_hash"
  const LOGIN_BACKEND := "django.contrib.auth.backends.AllowAllUsersModelBackend"

  /** The outcome of an insert into a table with a unique column. */
  datatype Saved<T> = Saved(value: T) | IntegrityError

  // ---------------------------------------------------------------------
  // Table invariants
  // ---------------------------------------------------------------------

  /**
   * Tokens are in increasing primary-key order, their strings are unique,
   * and a user has at most one frontend token per session.
   */
  predicate TokenPairOk(a: AppityToken, b: AppityToken) {
    && a.id < b.id
    && a.token != b.token
    && !(a.frontend && b.frontend && a.userId == b.userId && a.sessionId == b.sessionId)
  }

  /** One-time tokens are in increasing primary-key order and their strings are unique. */
  predicate OtpPairOk(a: OtpToken, b: OtpToken) {
    a.id < b.id && a.token != b.token
  }

  predicate HasUser(users: seq<User>, uid: UserId) {
    exists i :: 0 <= i < |users| && users[i].id == uid
  }

  predicate HasToken(tokens: seq<AppityToken>, id: TokenId) {
    exists i :: 0 <= i < |tokens| && tokens[i].id == id
  }

  predicate TokenInUse(tokens: seq<AppityToken>, s: string) {
    exists i :: 0 <= i < |tokens| && tokens[i].token == s
  }

  predicate OtpInUse(otps: seq<OtpToken>, s: string) {
    exists i :: 0 <= i < |otps| && otps[i].token == s
  }

  ghost predicate TablesValid(users: seq<User>, tokens: seq<AppityToken>, otps: seq<OtpToken>,
                              nextTokenId: nat, nextOtpId: nat) {
    && Pairwise(users, UserPairOk)
    && Pairwise(tokens, TokenPairOk)
    && Pairwise(otps, OtpPairOk)
    && (forall i :: 0 <= i < |tokens| ==> tokens[i].id < nextTokenId && HasUser(users, tokens[i].userId))
    && (forall i :: 0 <= i < |otps| ==> otps[i].id < nextOtpId && HasToken(tokens, otps[i].parentId))
  }

  /** The token rows a `delete()` in this code selects. */
  datatype TokenSel =
    | TokenWithId(id: TokenId)
    | FrontendOfUser(uid: UserId, key: Option<SessionKey>)
    | InSession(sessionKey: SessionKey)

  predicate Selects(sel: TokenSel, t: AppityToken) {
    match sel
    case TokenWithId(id) => t.id == id
    case FrontendOfUser(uid, key) => IsFrontendOf(t, uid, key)
    case InSession(k) => t.sessionId == Some(k)
  }

  /** The tokens `sel` does not select, in their order. */
  function TokensExcept(tokens: seq<AppityToken>, sel: TokenSel): (r: seq<AppityToken>)
    ensures |r| <= |tokens|
    ensures forall j :: 0 <= j < |r| ==> !Selects(sel, r[j])
  {
    Filter(tokens, (t: AppityToken) => !Selects(sel, t))
  }

  /** The rows kept are rows of the table, and every row `sel` does not select is kept. */
  lemma TokensExceptMembers(tokens: seq<AppityToken>, sel: TokenSel)
    ensures var r := TokensExcept(tokens, sel);
            && (forall j :: 0 <= j < |r| ==> r[j] in tokens)
            && (forall j :: 0 <= j < |tokens| && !Selects(sel, tokens[j]) ==> tokens[j] in r)
  {
    FilterMembers(tokens, (t: AppityToken) => !Selects(sel, t));
  }

  /** Two selectors that agree on every row delete the same rows. */
  lemma TokensExceptSame(tokens: seq<AppityToken>, s1: TokenSel, s2: TokenSel)
    requires forall i :: 0 <= i < |tokens| ==> Selects(s1, tokens[i]) == Selects(s2, tokens[i])
    ensures TokensExcept(tokens, s1) == TokensExcept(tokens, s2)
  {
    FilterSamePredicate(tokens, (t: AppityToken) => !Selects(s1, t), (t: AppityToken) => !Selects(s2, t));
  }

  /** A selector that matches no row deletes nothing. */
  lemma TokensExceptNone(tokens: seq<AppityToken>, sel: TokenSel)
    requires forall i :: 0 <= i < |tokens| ==> !Selects(sel, tokens[i])
    ensures TokensExcept(tokens, sel) == tokens
  {
    FilterAll(tokens, (t: AppityToken) => !Selects(sel, t));
  }

  /** The one-time-token rows a `delete()` in this code selects. */
  datatype OtpSel =
    | OtpWithId(otpId: nat)
    | ExpiredOtpOf(parent: TokenId, now: int)

  predicate SelectsOtp(sel: OtpSel, o: OtpToken) {
    match sel
    case OtpWithId(id) => o.id == id
    case ExpiredOtpOf(parent, now) => o.parentId == parent && IsExpired(o.expireAt, now)
  }

  /** The one-time tokens `sel` does not select, in their order. */
  function OtpsExcept(otps: seq<OtpToken>, sel: OtpSel): (r: seq<OtpToken>)
    ensures |r| <= |otps|
    ensures forall j :: 0 <= j < |r| ==> !SelectsOtp(sel, r[j])
  {
    Filter(otps, (o: OtpToken) => !SelectsOtp(sel, o))
  }

  lemma OtpsExceptMembers(otps: seq<OtpToken>, sel: OtpSel)
    ensures var r := OtpsExcept(otps, sel);
            && (forall j :: 0 <= j < |r| ==> r[j] in otps)
            && (forall j :: 0 <= j < |otps| && !SelectsOtp(sel, otps[j]) ==> otps[j] in r)
  {
    FilterMembers(otps, (o: OtpToken) => !SelectsOtp(sel, o));
  }

  /** The one-time tokens whose parent is still in `tokens`: what the cascade leaves. */
  function OtpsOf(otps: seq<OtpToken>, tokens: seq<AppityToken>): (r: seq<OtpToken>)
    ensures forall j :: 0 <= j < |r| ==> HasToken(tokens, r[j].parentId)
  {
    Filter(otps, (o: OtpToken) => HasToken(tokens, o.parentId))
  }

  lemma OtpsOfMembers(otps: seq<OtpToken>, tokens: seq<AppityToken>)
    ensures var r := OtpsOf(otps, tokens);
            && (forall j :: 0 <= j < |r| ==> r[j] in otps)
            && (forall j :: 0 <= j < |otps| && HasToken(tokens, otps[j].parentId) ==> otps[j] in r)
  {
    FilterMembers(otps, (o: OtpToken) => HasToken(tokens, o.parentId));
  }

  lemma {:induction false} FilterSamePredicate<T>(s: seq<T>, p: T -> bool, q: T -> bool)
    requires forall i :: 0 <= i < |s| ==> p(s[i]) == q(s[i])
    ensures Filter(s, p) == Filter(s, q)
  {
    if |s| > 0 {
      FilterSamePredicate(s[1..], p, q);
    }
  }

  /** When every one-time token's parent is present, the cascade removes nothing. */
  lemma OtpsOfAll(otps: seq<OtpToken>, tokens: seq<AppityToken>)
    requires forall i :: 0 <= i < |otps| ==> HasToken(tokens, otps[i].parentId)
    ensures OtpsOf(otps, tokens) == otps
  {
    FilterAll(otps, (o: OtpToken) => HasToken(tokens, o.parentId));
  }

  lemma {:induction false} FilterAll<T>(s: seq<T>, p: T -> bool)
    requires forall i :: 0 <= i < |s| ==> p(s[i])
    ensures Filter(s, p) == s
  {
    if |s| > 0 {
      FilterAll(s[1..], p);
    }
  }

  /**
   * The row `get_or_create` inserts: the next key, no expiry and no display
   * name, and the string `save` generates from the owner's e-mail address.
   */
  function NewToken(id: TokenId, user: User, sessionId: Option<SessionKey>, frontend: bool, now: int,
                    expireAt: Option<int>, entropy: seq<byte>): (t: AppityToken)
    requires |entropy| == TOKEN_RANDOM_BYTES
    ensures t.id == id && t.userId == user.id && t.sessionId == sessionId && t.frontend == frontend
    ensures t.createdAt == now && t.expireAt == expireAt && t.displayName.None?
    ensures |t.token| <= TOKEN_MAX_LENGTH
  {
    AppityToken(id, GenerateToken(user.email, entropy), user.id, now, expireAt, frontend, None, sessionId)
  }

  /** The user row a token's foreign key points at. */
  function UserOf(users: seq<User>, uid: UserId): (r: Option<User>)
    ensures r.Some? ==> r.value in users && r.value.id == uid
    ensures r.None? <==> !HasUser(users, uid)
  {
    First(users, (u: User) => u.id == uid)
  }

  lemma DeletePreservesValid(users: seq<User>, tokens: seq<AppityToken>, otps: seq<OtpToken>,
                             nextTokenId: nat, nextOtpId: nat, sel: TokenSel)
    requires TablesValid(users, tokens, otps, nextTokenId, nextOtpId)
    ensures var kept := TokensExcept(tokens, sel);
            TablesValid(users, kept, OtpsOf(otps, kept), nextTokenId, nextOtpId)
  {
    var kept := TokensExcept(tokens, sel);
    TokensExceptMembers(tokens, sel);
    OtpsOfMembers(otps, kept);
    FilterPairwise(tokens, (t: AppityToken) => !Selects(sel, t), TokenPairOk);
    FilterPairwise(otps, (o: OtpToken) => HasToken(kept, o.parentId), OtpPairOk);
  }

  /** The tokens with the expiry of the row with key `id` replaced; nothing else changes. */
  function WithExpiry(tokens: seq<AppityToken>, id: TokenId, expireAt: Option<int>): (r: seq<AppityToken>)
    ensures |r| == |tokens|
    ensures forall i :: 0 <= i < |r| ==>
              r[i] == if tokens[i].id == id then tokens[i].(expireAt := expireAt) else tokens[i]
    ensures forall i :: 0 <= i < |r| ==> r[i] == tokens[i].(expireAt := r[i].expireAt)
  {
    if |tokens| == 0 then []
    else [if tokens[0].id == id then tokens[0].(expireAt := expireAt) else tokens[0]]
         + WithExpiry(tokens[1..], id, expireAt)
  }

  lemma WithExpiryKeepsValid(users: seq<User>, tokens: seq<AppityToken>, otps: seq<OtpToken>,
                             nextTokenId: nat, nextOtpId: nat, id: TokenId, expireAt: Option<int>)
    requires TablesValid(users, tokens, otps, nextTokenId, nextOtpId)
    ensures TablesValid(users, WithExpiry(tokens, id, expireAt), otps, nextTokenId, nextOtpId)
  {
    var updated := WithExpiry(tokens, id, expireAt);
    forall i, j | 0 <= i < j < |updated|
      ensures TokenPairOk(updated[i], updated[j])
    {
      assert TokenPairOk(tokens[i], tokens[j]);
      assert updated[i] == tokens[i].(expireAt := updated[i].expireAt);
      assert updated[j] == tokens[j].(expireAt := updated[j].expireAt);
    }
    forall i | 0 <= i < |updated|
      ensures updated[i].id < nextTokenId && HasUser(users, updated[i].userId)
    {
      assert updated[i] == tokens[i].(expireAt := updated[i].expireAt);
    }
    forall i | 0 <= i < |otps|
      ensures HasToken(updated, otps[i].parentId)
    {
      var m :| 0 <= m < |tokens| && tokens[m].id == otps[i].parentId;
      assert updated[m] == tokens[m].(expireAt := updated[m].expireAt);
    }
  }

  /** Setting the expiry of a row appended last changes only that row. */
  lemma WithExpiryOfLast(kept: seq<AppityToken>, t: AppityToken, expireAt: Option<int>)
    requires forall i :: 0 <= i < |kept| ==> kept[i].id != t.id
    ensures WithExpiry(kept + [t], t.id, expireAt) == kept + [t.(expireAt := expireAt)]
  {
    var a := WithExpiry(kept + [t], t.id, expireAt);
    var b := kept + [t.(expireAt := expireAt)];
    assert forall i :: 0 <= i < |kept| ==> a[i] == (kept + [t])[i] == b[i];
  }

  /** In a valid table, `get_frontend_appity_token` finds a user's only frontend token for the session. */
  lemma FrontendTokenUnique(tokens: seq<AppityToken>, i: nat)
    requires Pairwise(tokens, TokenPairOk) && i < |tokens| && tokens[i].frontend
    ensures GetFrontendAppityToken(tokens, tokens[i].userId, tokens[i].sessionId) == Some(tokens[i])
  {
    var r := GetFrontendAppityToken(tokens, tokens[i].userId, tokens[i].sessionId);
    var k :| 0 <= k < |tokens| && tokens[k] == r.value &&
             forall j :: 0 <= j < k ==> !IsFrontendOf(tokens[j], tokens[i].userId, tokens[i].sessionId);
    assert k <= i;
  }

  // ---------------------------------------------------------------------
  // The database and the request
  // ---------------------------------------------------------------------

  /** The tables that frontend-token operations read and change, with the next token key. */
  datatype TokenTables = TokenTables(tokens: seq<AppityToken>, otps: seq<OtpToken>, nextTokenId: nat)

  class Db {
    var users: seq<User>
    var tokens: seq<AppityToken>
    var otps: seq<OtpToken>
    var nextTokenId: nat
    var nextOtpId: nat

    ghost predicate Valid()
      reads this
    {
      TablesValid(users, tokens, otps, nextTokenId, nextOtpId)
    }

    /** The token-side tables as a value. */
    function Tables(): TokenTables
      reads this
    {
      TokenTables(tokens, otps, nextTokenId)
    }

    constructor (users: seq<User>)
      requires Pairwise(users, UserPairOk)
      ensures Valid()
      ensures this.users == users && tokens == [] && otps == []
    {
      this.users := users;
      tokens := [];
      otps := [];
      nextTokenId := 0;
      nextOtpId := 0;
    }

    /** `AppityToken.objects.filter(...).delete()`, cascading to the one-time tokens of the deleted rows. */
    method DeleteTokens(sel: TokenSel)
      requires Valid()
      modifies this
      ensures Valid()
      ensures tokens == TokensExcept(old(tokens), sel)
      ensures otps == OtpsOf(old(otps), tokens)
      ensures users == old(users) && nextTokenId == old(nextTokenId) && nextOtpId == old(nextOtpId)
    {
      DeletePreservesValid(users, tokens, otps, nextTokenId, nextOtpId, sel);
      tokens := TokensExcept(tokens, sel);
      otps := OtpsOf(otps, tokens);
    }

    /**
     * The insert of `get_or_create`: a new row with the next primary key,
     * whose `save` generates the token string; a string already in use raises
     * `IntegrityError` and leaves the table as it was.
     */
    method CreateToken(user: User, sessionId: Option<SessionKey>, frontend: bool, now: int, entropy: seq<byte>)
      returns (r: Saved<AppityToken>)
      requires Valid() && user in users && |entropy| == TOKEN_RANDOM_BYTES
      requires frontend ==> forall i :: 0 <= i < |tokens| ==> !IsFrontendOf(tokens[i], user.id, sessionId)
      modifies this
      ensures Valid()
      ensures users == old(users) && otps == old(otps) && nextOtpId == old(nextOtpId)
      ensures var t := NewToken(old(nextTokenId), user, sessionId, frontend, now, None, entropy);
              if TokenInUse(old(tokens), t.token) then
                r == IntegrityError && tokens == old(tokens) && nextTokenId == old(nextTokenId)
              else
                && r == Saved(t)
                && tokens == old(tokens) + [t]
                && nextTokenId == old(nextTokenId) + 1
    {
      var blank := AppityToken(nextTokenId, "", user.id, now, None, frontend, None, sessionId);
      var t := Save(blank, user.email, None, entropy);
      assert t == NewToken(nextTokenId, user, sessionId, frontend, now, None, entropy);
      if TokenInUse(tokens, t.token) {
        return IntegrityError;
      }
      assert HasUser(users, user.id);
      AppendPairwise(tokens, t, TokenPairOk);
      forall i | 0 <= i < |otps|
        ensures HasToken(tokens + [t], otps[i].parentId)
      {
        var m :| 0 <= m < |tokens| && tokens[m].id == otps[i].parentId;
        assert (tokens + [t])[m] == tokens[m];
      }
      tokens := tokens + [t];
      nextTokenId := nextTokenId + 1;
      r := Saved(t);
    }

    /** `token.expire_at = ...; token.save(update_fields=['expire_at'])` on the row with key `id`. */
    method SetTokenExpiry(id: TokenId, expireAt: Option<int>)
      requires Valid()
      modifies this
      ensures Valid()
      ensures tokens == WithExpiry(old(tokens), id, expireAt)
      ensures users == old(users) && otps == old(otps)
      ensures nextTokenId == old(nextTokenId) && nextOtpId == old(nextOtpId)
    {
      WithExpiryKeepsValid(users, tokens, otps, nextTokenId, nextOtpId, id, expireAt);
      tokens := WithExpiry(tokens, id, expireAt);
    }

    /**
     * Writing the user table: `after` keeps every user of the old table in
     * its place with its key, so every token's user is still there.
     */
    method SaveUsers(after: seq<User>)
      requires Valid() && Pairwise(after, UserPairOk)
      requires |users| <= |after| && forall j :: 0 <= j < |users| ==> after[j].id == users[j].id
      modifies this
      ensures Valid() && users == after
      ensures tokens == old(tokens) && otps == old(otps)
      ensures nextTokenId == old(nextTokenId) && nextOtpId == old(nextOtpId)
    {
      forall k | 0 <= k < |tokens| ensures HasUser(after, tokens[k].userId) {
        var j :| 0 <= j < |users| && users[j].id == tokens[k].userId;
        assert after[j].id == tokens[k].userId;
      }
      users := after;
    }

    /**
     * Leaving a `transaction.atomic()` block by an exception: every table
     * returns to its state at the start of the block.
     */
    method Rollback(users0: seq<User>, tokens0: seq<AppityToken>, otps0: seq<OtpToken>, nextTokenId0: nat,
                    nextOtpId0: nat)
      requires TablesValid(users0, tokens0, otps0, nextTokenId0, nextOtpId0)
      modifies this
      ensures Valid()
      ensures users == users0 && tokens == tokens0 && otps == otps0
      ensures nextTokenId == nextTokenId0 && nextOtpId == nextOtpId0
    {
      users, tokens, otps, nextTokenId, nextOtpId := users0, tokens0, otps0, nextTokenId0, nextOtpId0;
    }

    /** `FleioOtpToken.objects.filter(...).delete()`. */
    method DeleteOtps(sel: OtpSel)
      requires Valid()
      modifies this
      ensures Valid()
      ensures otps == OtpsExcept(old(otps), sel)
      ensures users == old(users) && tokens == old(tokens)
      ensures nextTokenId == old(nextTokenId) && nextOtpId == old(nextOtpId)
    {
      FilterPairwise(otps, (o: OtpToken) => !SelectsOtp(sel, o), OtpPairOk);
      OtpsExceptMembers(otps, sel);
      otps := OtpsExcept(otps, sel);
    }

    /** `FleioOtpToken.objects.create(fleio_token=parent, expire_at=...)` with the drawn string `s`. */
    method CreateOtp(parent: TokenId, s: string, expireAt: Option<int>) returns (r: Saved<OtpToken>)
      requires Valid() && HasToken(tokens, parent)
      modifies this
      ensures Valid()
      ensures users == old(users) && tokens == old(tokens) && nextTokenId == old(nextTokenId)
      ensures if OtpInUse(old(otps), s) then
                r == IntegrityError && otps == old(otps) && nextOtpId == old(nextOtpId)
              else
                && r == Saved(OtpToken(old(nextOtpId), s, parent, expireAt))
                && otps == old(otps) + [r.value]
                && nextOtpId == old(nextOtpId) + 1
    {
      if OtpInUse(otps, s) {
        return IntegrityError;
      }
      var o := OtpToken(nextOtpId, s, parent, expireAt);
      AppendPairwise(otps, o, OtpPairOk);
      otps := otps + [o];
      nextOtpId := nextOtpId + 1;
      r := Saved(o);
    }
  }

  /** The parts of an incoming request the authentication code reads or writes. */
  class Request {
    const httpMethod: string
    /** The `Authorization` header as bytes; empty when absent. */
    const authorization: seq<byte>
    /** `query_params`, with the last value of each parameter. */
    const queryParams: map<string, string>
    const path: string
    /** The view's `permission_classes` by name; `None` when the view declares none. */
    const viewPermissions: Option<seq<string>>
    const session: Session
    /** `request.auth`: the token the request was authenticated with, if any. */
    var auth: Option<AppityToken>
    /** `request.user`: the logged-in user, `None` when anonymous. */
    var user: Option<User>

    constructor (httpMethod: string, authorization: seq<byte>, queryParams: map<string, string>, path: string,
                 viewPermissions: Option<seq<string>>, session: Session)
      ensures this.httpMethod == httpMethod && this.authorization == authorization
      ensures this.queryParams == queryParams && this.path == path
      ensures this.viewPermissions == viewPermissions && this.session == session
      ensures auth == None && user == None
    {
      this.httpMethod := httpMethod;
      this.authorization := authorization;
      this.queryParams := queryParams;
      this.path := path;
      this.viewPermissions := viewPermissions;
      this.session := session;
      auth := None;
      user := None;
    }
  }

  // ---------------------------------------------------------------------
  // Lookups
  // ---------------------------------------------------------------------

  /** `get_frontend_token(user, request)`: the string of the user's frontend token for the session. */
  function GetFrontendToken(tokens: seq<AppityToken>, uid: UserId, sessionKey: Option<SessionKey>)
    : (r: Option<string>)
    ensures r.None? <==> forall j :: 0 <= j < |tokens| ==> !IsFrontendOf(tokens[j], uid, sessionKey)
    ensures r.Some? ==> exists j :: 0 <= j < |tokens| && IsFrontendOf(tokens[j], uid, sessionKey) && tokens[j].token == r.value
  {
    match GetFrontendAppityToken(tokens, uid, sessionKey)
    case None => None
    case Some(t) => Some(t.token)
  }

  /** In a valid table the string found is that of the user's only frontend token for the session. */
  lemma GetFrontendTokenOfRow(tokens: seq<AppityToken>, i: nat)
    requires Pairwise(tokens, TokenPairOk) && i < |tokens| && tokens[i].frontend
    ensures GetFrontendToken(tokens, tokens[i].userId, tokens[i].sessionId) == Some(tokens[i].token)
  {
    FrontendTokenUnique(tokens, i);
  }

  /** `initialize_frontend_token` replaces a missing or falsy number of seconds with the short session length. */
  function InitialSeconds(seconds: Option<int>, cfg: Settings): (r: int)
    ensures seconds.None? || seconds == Some(0) ==> r == cfg.shortSessionSeconds
    ensures seconds.Some? && seconds.value != 0 ==> r == seconds.value
  {
    if seconds.None? || seconds.value == 0 then SessionExpirationSeconds(cfg, false) else seconds.value
  }

  // ---------------------------------------------------------------------
  // One-time tokens
  // ---------------------------------------------------------------------

  /**
   * `generate_otp_token_for_request`: when the request was authenticated with
   * a token, delete that token's one-time tokens whose expiry lies before
   * `now`, then create one living `OTP_TOKEN_MAX_LIFETIME_SECONDS` and return
   * its string `s`; `None` when `request.auth` is not a token. The purge is
   * not undone when the insert fails.
   */
  method GenerateOtpTokenForRequest(db: Db, auth: Option<AppityToken>, now: int, s: string)
    returns (r: Option<Saved<string>>)
    requires db.Valid()
    requires auth.Some? ==> HasToken(db.tokens, auth.value.id)
    modifies db
    ensures db.Valid()
    ensures db.users == old(db.users) && db.tokens == old(db.tokens)
    ensures auth.None? ==> r.None? && db.otps == old(db.otps)
    ensures auth.Some? ==> r.Some?
    ensures auth.Some? ==>
              var kept := OtpsExcept(old(db.otps), ExpiredOtpOf(auth.value.id, now));
              if OtpInUse(kept, s) then
                r == Some(IntegrityError) && db.otps == kept
              else
                && r == Some(Saved(s))
                && db.otps == kept + [OtpToken(old(db.nextOtpId), s, auth.value.id, Some(now + OTP_TOKEN_MAX_LIFETIME_SECONDS))]
  {
    if auth.None? {
      return None;
    }
    db.DeleteOtps(ExpiredOtpOf(auth.value.id, now));
    var created := db.CreateOtp(auth.value.id, s, Some(now + OTP_TOKEN_MAX_LIFETIME_SECONDS));
    if created.IntegrityError? {
      return Some(IntegrityError);
    }
    r := Some(Saved(created.value.token));
  }

  /** The purge before a one-time token is issued removes exactly the parent's expired one-time tokens. */
  lemma OtpPurgeKeepsLive(otps: seq<OtpToken>, parent: TokenId, now: int)
    ensures var kept := OtpsExcept(otps, ExpiredOtpOf(parent, now));
            && (forall j :: 0 <= j < |kept| && kept[j].parentId == parent ==> !IsExpired(kept[j].expireAt, now))
            && (forall j :: 0 <= j < |otps| && (otps[j].parentId != parent || !IsExpired(otps[j].expireAt, now)) ==> otps[j] in kept)
  {
    OtpsExceptMembers(otps, ExpiredOtpOf(parent, now));
  }

  // ---------------------------------------------------------------------
  // Frontend tokens
  // ---------------------------------------------------------------------

  /**
   * What `initialize_frontend_token(user, request, seconds)` does to the
   * tables. A live frontend token of the user for the session is returned
   * and nothing changes. Otherwise the expired one, if any, is deleted with
   * its one-time tokens, and a new row is inserted expiring `InitialSeconds`
   * after `now`. An insert whose string is already in use raises
   * `IntegrityError`, and the atomic block leaves the tables as they were.
   */
  function Initialize(t: TokenTables, user: User, key: Option<SessionKey>, seconds: Option<int>, cfg: Settings,
                      now: int, entropy: seq<byte>): (r: (Saved<AppityToken>, TokenTables))
    requires |entropy| == TOKEN_RANDOM_BYTES
    ensures r.0.IntegrityError? ==> r.1 == t
    ensures r.0.Saved? ==> IsFrontendOf(r.0.value, user.id, key) && r.0.value in r.1.tokens
  {
    var prior := GetFrontendAppityToken(t.tokens, user.id, key);
    if prior.Some? && !IsExpired(prior.value.expireAt, now) then (Saved(prior.value), t)
    else
      var kept := TokensExcept(t.tokens, FrontendOfUser(user.id, key));
      var issued := NewToken(t.nextTokenId, user, key, true, now, Some(now + InitialSeconds(seconds, cfg)), entropy);
      if TokenInUse(kept, issued.token) then (IntegrityError, t)
      else (Saved(issued), TokenTables(kept + [issued], OtpsOf(t.otps, kept), t.nextTokenId + 1))
  }

  /**
   * A live token is returned as it is. Otherwise a stored token is the new
   * row: the next key, `now + InitialSeconds`, the generated string, and no
   * frontend token of the pair besides it; the expired one is gone.
   */
  lemma InitializeRotates(t: TokenTables, user: User, key: Option<SessionKey>, seconds: Option<int>,
                          cfg: Settings, now: int, entropy: seq<byte>)
    requires |entropy| == TOKEN_RANDOM_BYTES
    requires forall i :: 0 <= i < |t.tokens| ==> t.tokens[i].id < t.nextTokenId
    ensures var r := Initialize(t, user, key, seconds, cfg, now, entropy);
            var prior := GetFrontendAppityToken(t.tokens, user.id, key);
            && (prior.Some? && !IsExpired(prior.value.expireAt, now) ==> r == (Saved(prior.value), t))
            && ((prior.None? || IsExpired(prior.value.expireAt, now)) && r.0.Saved? ==>
                  && r.0.value.id == t.nextTokenId
                  && r.0.value.expireAt == Some(now + InitialSeconds(seconds, cfg))
                  && r.0.value.token == GenerateToken(user.email, entropy)
                  && r.0.value.createdAt == now
                  && r.1.tokens[|r.1.tokens| - 1] == r.0.value
                  && (forall j :: 0 <= j < |r.1.tokens| - 1 ==> !IsFrontendOf(r.1.tokens[j], user.id, key))
                  && (prior.Some? ==> prior.value !in r.1.tokens))
  {
    var r := Initialize(t, user, key, seconds, cfg, now, entropy);
    var prior := GetFrontendAppityToken(t.tokens, user.id, key);
    if (prior.None? || IsExpired(prior.value.expireAt, now)) && r.0.Saved? {
      var kept := TokensExcept(t.tokens, FrontendOfUser(user.id, key));
      assert r.1.tokens == kept + [r.0.value];
      assert forall j :: 0 <= j < |kept| ==> r.1.tokens[j] == kept[j];
      if prior.Some? {
        assert prior.value !in kept;
        assert prior.value.id < r.0.value.id;
      }
    }
  }

  /** After `initialize_frontend_token` stores a token, the manager lookup finds exactly that token. */
  lemma InitializeFindsToken(t: TokenTables, user: User, key: Option<SessionKey>, seconds: Option<int>,
                             cfg: Settings, now: int, entropy: seq<byte>)
    requires |entropy| == TOKEN_RANDOM_BYTES
    ensures var r := Initialize(t, user, key, seconds, cfg, now, entropy);
            r.0.Saved? ==> GetFrontendAppityToken(r.1.tokens, user.id, key) == Some(r.0.value)
  {
    var r := Initialize(t, user, key, seconds, cfg, now, entropy);
    var prior := GetFrontendAppityToken(t.tokens, user.id, key);
    if r.0.Saved? && (prior.None? || IsExpired(prior.value.expireAt, now)) {
      var kept := TokensExcept(t.tokens, FrontendOfUser(user.id, key));
      assert r.1.tokens == kept + [r.0.value];
      FrontendAfterOthers(kept, r.0.value, user.id, key);
    }
  }

  /**
   * Initialising again while the stored token is live changes nothing and
   * returns the same token, whatever the new random bytes and seconds.
   */
  lemma InitializeIsIdempotent(t: TokenTables, user: User, key: Option<SessionKey>, seconds: Option<int>,
                               cfg: Settings, now: int, entropy: seq<byte>,
                               seconds2: Option<int>, now2: int, entropy2: seq<byte>)
    requires |entropy| == TOKEN_RANDOM_BYTES && |entropy2| == TOKEN_RANDOM_BYTES
    requires var r := Initialize(t, user, key, seconds, cfg, now, entropy);
             r.0.Saved? && !IsExpired(r.0.value.expireAt, now2)
    ensures var r := Initialize(t, user, key, seconds, cfg, now, entropy);
            Initialize(r.1, user, key, seconds2, cfg, now2, entropy2) == r
  {
    InitializeFindsToken(t, user, key, seconds, cfg, now, entropy);
  }

  /**
   * In a session where the user has no frontend token (a fresh session, or
   * one just cleared), initialising inserts a new row after the existing
   * ones, and touches nothing else, unless its string is already in use.
   */
  lemma InitializeIssuesNew(t: TokenTables, user: User, key: Option<SessionKey>, seconds: Option<int>,
                            cfg: Settings, now: int, entropy: seq<byte>)
    requires |entropy| == TOKEN_RANDOM_BYTES
    requires forall i :: 0 <= i < |t.tokens| ==> !IsFrontendOf(t.tokens[i], user.id, key)
    requires forall i :: 0 <= i < |t.otps| ==> HasToken(t.tokens, t.otps[i].parentId)
    ensures var issued := NewToken(t.nextTokenId, user, key, true, now,
                                   Some(now + InitialSeconds(seconds, cfg)), entropy);
            Initialize(t, user, key, seconds, cfg, now, entropy) ==
              if TokenInUse(t.tokens, issued.token) then (IntegrityError, t)
              else (Saved(issued), TokenTables(t.tokens + [issued], t.otps, t.nextTokenId + 1))
  {
    TokensExceptNone(t.tokens, FrontendOfUser(user.id, key));
    OtpsOfAll(t.otps, t.tokens);
  }

  lemma InitializeCases(t: TokenTables, user: User, key: Option<SessionKey>, seconds: Option<int>,
                        cfg: Settings, now: int, entropy: seq<byte>)
    requires |entropy| == TOKEN_RANDOM_BYTES
    ensures var prior := GetFrontendAppityToken(t.tokens, user.id, key);
            var kept := TokensExcept(t.tokens, FrontendOfUser(user.id, key));
            var issued := NewToken(t.nextTokenId, user, key, true, now, Some(now + InitialSeconds(seconds, cfg)), entropy);
            Initialize(t, user, key, seconds, cfg, now, entropy) ==
              if prior.Some? && !IsExpired(prior.value.expireAt, now) then (Saved(prior.value), t)
              else if TokenInUse(kept, issued.token) then (IntegrityError, t)
              else (Saved(issued), TokenTables(kept + [issued], OtpsOf(t.otps, kept), t.nextTokenId + 1))
  {
  }

  /** `initialize_frontend_token(user, request, seconds)` on the database, as `Initialize` describes. */
  method InitializeFrontendToken(db: Db, user: User, sessionKey: Option<SessionKey>, seconds: Option<int>,
                                 cfg: Settings, now: int, entropy: seq<byte>)
    returns (r: Saved<AppityToken>)
    requires db.Valid() && user in db.users && |entropy| == TOKEN_RANDOM_BYTES
    modifies db
    ensures db.Valid()
    ensures db.users == old(db.users) && db.nextOtpId == old(db.nextOtpId)
    ensures (r, db.Tables()) == Initialize(old(db.Tables()), user, sessionKey, seconds, cfg, now, entropy)
  {
    var prior := GetFrontendAppityToken(db.tokens, user.id, sessionKey);
    InitializeCases(db.Tables(), user, sessionKey, seconds, cfg, now, entropy);
    if prior.Some? && !IsExpired(prior.value.expireAt, now) {
      r := Saved(prior.value);
    } else {
      r := ReplaceFrontendToken(db, prior, user, sessionKey, InitialSeconds(seconds, cfg), now, entropy);
    }
  }

  /**
   * The atomic block of `initialize_frontend_token` when no live token was
   * found: the expired one, if any, is deleted and a new row is inserted
   * expiring `seconds` after `now`; an `IntegrityError` undoes both.
   */
  method ReplaceFrontendToken(db: Db, prior: Option<AppityToken>, user: User, sessionKey: Option<SessionKey>,
                              seconds: int, now: int, entropy: seq<byte>)
    returns (r: Saved<AppityToken>)
    requires db.Valid() && user in db.users && |entropy| == TOKEN_RANDOM_BYTES
    requires prior == GetFrontendAppityToken(db.tokens, user.id, sessionKey)
    modifies db
    ensures db.Valid()
    ensures db.users == old(db.users) && db.nextOtpId == old(db.nextOtpId)
    ensures var kept := TokensExcept(old(db.tokens), FrontendOfUser(user.id, sessionKey));
            var issued := NewToken(old(db.nextTokenId), user, sessionKey, true, now, Some(now + seconds), entropy);
            (r, db.Tables()) ==
              if TokenInUse(kept, issued.token) then (IntegrityError, old(db.Tables()))
              else (Saved(issued), TokenTables(kept + [issued], OtpsOf(old(db.otps), kept), old(db.nextTokenId) + 1))
  {
    var users0, tokens0, otps0, nextToken0, nextOtp0 := db.users, db.tokens, db.otps, db.nextTokenId, db.nextOtpId;
    ghost var kept := TokensExcept(tokens0, FrontendOfUser(user.id, sessionKey));
    ghost var issued := NewToken(nextToken0, user, sessionKey, true, now, Some(now + seconds), entropy);
    DeleteFrontendToken(db, prior, user.id, sessionKey);
    assert issued.token == GenerateToken(user.email, entropy);
    r := IssueFrontendToken(db, user, sessionKey, seconds, now, entropy);
    if r.IntegrityError? {
      db.Rollback(users0, tokens0, otps0, nextToken0, nextOtp0);
    } else {
      assert r.value == issued;
    }
  }

  /**
   * `token.delete()` on the expired frontend token `get_or_create` found, if
   * any: afterwards the pair has no frontend token, and the one-time tokens
   * of the deleted row are gone with it.
   */
  method DeleteFrontendToken(db: Db, prior: Option<AppityToken>, uid: UserId, sessionKey: Option<SessionKey>)
    requires db.Valid() && prior == GetFrontendAppityToken(db.tokens, uid, sessionKey)
    modifies db
    ensures db.Valid()
    ensures var kept := TokensExcept(old(db.tokens), FrontendOfUser(uid, sessionKey));
            db.tokens == kept && db.otps == OtpsOf(old(db.otps), kept)
    ensures db.users == old(db.users) && db.nextTokenId == old(db.nextTokenId) && db.nextOtpId == old(db.nextOtpId)
    ensures forall i :: 0 <= i < |db.tokens| ==> !IsFrontendOf(db.tokens[i], uid, sessionKey)
  {
    if prior.Some? {
      FrontendDeleteById(db.tokens, prior.value, uid, sessionKey);
      db.DeleteTokens(TokenWithId(prior.value.id));
    } else {
      TokensExceptNone(db.tokens, FrontendOfUser(uid, sessionKey));
      OtpsOfAll(db.otps, db.tokens);
    }
  }

  /**
   * The creating branch of `initialize_frontend_token` once no frontend token
   * of the pair is left: `get_or_create` inserts a fresh row, and
   * `set_expiry_date` gives it `now + seconds`. A token string already in use
   * is an `IntegrityError` and inserts nothing.
   */
  method IssueFrontendToken(db: Db, user: User, sessionKey: Option<SessionKey>, seconds: int, now: int,
                            entropy: seq<byte>)
    returns (r: Saved<AppityToken>)
    requires db.Valid() && user in db.users && |entropy| == TOKEN_RANDOM_BYTES
    requires forall i :: 0 <= i < |db.tokens| ==> !IsFrontendOf(db.tokens[i], user.id, sessionKey)
    modifies db
    ensures db.Valid()
    ensures db.users == old(db.users) && db.otps == old(db.otps) && db.nextOtpId == old(db.nextOtpId)
    ensures r.IntegrityError? <==> TokenInUse(old(db.tokens), GenerateToken(user.email, entropy))
    ensures r.IntegrityError? ==> db.tokens == old(db.tokens) && db.nextTokenId == old(db.nextTokenId)
    ensures r.Saved? ==>
              && r.value == NewToken(old(db.nextTokenId), user, sessionKey, true, now, Some(now + seconds), entropy)
              && db.tokens == old(db.tokens) + [r.value]
              && db.nextTokenId == old(db.nextTokenId) + 1
  {
    var tokens0 := db.tokens;
    var created := db.CreateToken(user, sessionKey, true, now, entropy);
    if created.IntegrityError? {
      return IntegrityError;
    }
    var t := created.value;
    assert forall i :: 0 <= i < |tokens0| ==> tokens0[i].id < t.id;
    db.SetTokenExpiry(t.id, Some(now + seconds));
    WithExpiryOfLast(tokens0, t, Some(now + seconds));
    r := Saved(t.(expireAt := Some(now + seconds)));
  }

  /** Deleting a user's frontend token of a session by its key deletes every frontend token of that pair. */
  lemma FrontendDeleteById(tokens: seq<AppityToken>, t: AppityToken, uid: UserId, key: Option<SessionKey>)
    requires Pairwise(tokens, TokenPairOk)
    requires GetFrontendAppityToken(tokens, uid, key) == Some(t)
    ensures TokensExcept(tokens, TokenWithId(t.id)) == TokensExcept(tokens, FrontendOfUser(uid, key))
  {
    var k :| 0 <= k < |tokens| && tokens[k] == t;
    forall i | 0 <= i < |tokens|
      ensures Selects(TokenWithId(t.id), tokens[i]) == Selects(FrontendOfUser(uid, key), tokens[i])
    {
      if i != k {
        assert TokenPairOk(tokens[i], tokens[k]) || TokenPairOk(tokens[k], tokens[i]);
      }
    }
    TokensExceptSame(tokens, TokenWithId(t.id), FrontendOfUser(uid, key));
  }

  /**
   * `clear_impersonation_frontend_token(impersonated_user, request)`: when a
   * user is given, every frontend token of that user for the session is
   * deleted, with its one-time tokens.
   */
  method ClearImpersonationFrontendToken(db: Db, impersonated: Option<User>, sessionKey: Option<SessionKey>)
    requires db.Valid()
    modifies db
    ensures db.Valid()
    ensures db.users == old(db.users) && db.nextTokenId == old(db.nextTokenId) && db.nextOtpId == old(db.nextOtpId)
    ensures impersonated.None? ==> db.tokens == old(db.tokens) && db.otps == old(db.otps)
    ensures impersonated.Some? ==>
              var kept := TokensExcept(old(db.tokens), FrontendOfUser(impersonated.value.id, sessionKey));
              db.tokens == kept && db.otps == OtpsOf(old(db.otps), kept)
    ensures impersonated.Some? ==> GetFrontendAppityToken(db.tokens, impersonated.value.id, sessionKey).None?
  {
    if impersonated.Some? {
      db.DeleteTokens(FrontendOfUser(impersonated.value.id, sessionKey));
    }
  }

  /**
   * `initialize_frontend_token_for_impersonation(impersonated_user, request)`:
   * the target's frontend tokens for the session are cleared first, so the
   * token returned is always a new one, living the short session length.
   * The clear runs outside the atomic block and stays done when the insert
   * fails.
   */
  method InitializeFrontendTokenForImpersonation(db: Db, user: User, sessionKey: Option<SessionKey>,
                                                 cfg: Settings, now: int, entropy: seq<byte>)
    returns (r: Saved<AppityToken>)
    requires db.Valid() && user in db.users && |entropy| == TOKEN_RANDOM_BYTES
    modifies db
    ensures db.Valid()
    ensures db.users == old(db.users)
    ensures var kept := TokensExcept(old(db.tokens), FrontendOfUser(user.id, sessionKey));
            var issued := NewToken(old(db.nextTokenId), user, sessionKey, true, now,
                                   Some(now + cfg.shortSessionSeconds), entropy);
            && db.otps == OtpsOf(old(db.otps), kept)
            && (r.IntegrityError? <==> TokenInUse(kept, issued.token))
            && (r.IntegrityError? ==> db.tokens == kept)
            && (r.Saved? ==> r.value == issued && db.tokens == kept + [issued])
  {
    var seconds := SessionExpirationSeconds(cfg, false);
    ghost var expireAt: Option<int> := Some(now + cfg.shortSessionSeconds);
    assert Some(now + InitialSeconds(Some(seconds), cfg)) == expireAt;
    ghost var issued := NewToken(db.nextTokenId, user, sessionKey, true, now, expireAt, entropy);
    ClearImpersonationFrontendToken(db, Some(user), sessionKey);
    ghost var cleared := db.Tables();
    assert cleared.nextTokenId == old(db.nextTokenId);
    InitializeIssuesNew(cleared, user, sessionKey, Some(seconds), cfg, now, entropy);
    assert issued == NewToken(cleared.nextTokenId, user, sessionKey, true, now, expireAt, entropy);
    r := InitializeFrontendToken(db, user, sessionKey, Some(seconds), cfg, now, entropy);
  }

  /**
   * `initialize_frontend_token` for a session saved under a key no token is
   * bound to yet: there is no prior token to return or rotate, so a new row
   * is inserted, or the insert fails and nothing changes.
   */
  method IssueForFreshSession(db: Db, user: User, key: SessionKey, seconds: Option<int>, cfg: Settings,
                              now: int, entropy: seq<byte>)
    returns (r: Saved<AppityToken>)
    requires db.Valid() && user in db.users && |entropy| == TOKEN_RANDOM_BYTES
    requires forall i :: 0 <= i < |db.tokens| ==> db.tokens[i].sessionId != Some(key)
    modifies db
    ensures db.Valid()
    ensures db.users == old(db.users) && db.otps == old(db.otps)
    ensures r.IntegrityError? <==> TokenInUse(old(db.tokens), GenerateToken(user.email, entropy))
    ensures r.IntegrityError? ==> db.tokens == old(db.tokens)
    ensures r.Saved? ==>
              && r.value == NewToken(old(db.nextTokenId), user, Some(key), true, now,
                                     Some(now + InitialSeconds(seconds, cfg)), entropy)
              && db.tokens == old(db.tokens) + [r.value]
  {
    ghost var before := db.Tables();
    InitializeIssuesNew(before, user, Some(key), seconds, cfg, now, entropy);
    r := InitializeFrontendToken(db, user, Some(key), seconds, cfg, now, entropy);
  }

  const NON_FRONTEND_MESSAGE := "Cannot extend session for non-frontend token."

  /** What `extend_frontend_session` ends with. */
  datatype Extension =
    | Extended(token: AppityToken)
    /** `APIConflict(message)`. */
    | Conflict(message: string)
    /** The new token's string was already in use. */
    | ExtensionIntegrityError

  /** The lifetime `extend_frontend_session` gives the new token: the long length only when remembered and set. */
  function ExtendedLifetime(cfg: Settings, remember: bool): (r: int)
    ensures remember && cfg.longSessionSeconds != 0 ==> r == cfg.longSessionSeconds
    ensures !remember || cfg.longSessionSeconds == 0 ==> r == cfg.shortSessionSeconds
  {
    InitialSeconds(Some(SessionExpirationSeconds(cfg, remember)), cfg)
  }

  /**
   * `extend_frontend_session(user, fleio_token, request, remember)`: a
   * non-frontend token is refused with a conflict and nothing changes.
   * Otherwise the session moves to the fresh key `newKey` keeping its
   * values, expires after the long length when remembered and at browser
   * close otherwise, and a new frontend token for the new session is made
   * the request's token and stored under `'fleio_token'`.
   */
  method ExtendFrontendSession(db: Db, user: User, token: AppityToken, request: Request, remember: bool,
                               cfg: Settings, now: int, newKey: SessionKey, entropy: seq<byte>)
    returns (r: Extension)
    requires db.Valid() && user in db.users && |entropy| == TOKEN_RANDOM_BYTES
    requires forall i :: 0 <= i < |db.tokens| ==> db.tokens[i].sessionId != Some(newKey)
    modifies db, request, request.session
    ensures db.Valid()
    ensures db.users == old(db.users) && request.user == old(request.user)
    ensures !token.frontend ==>
              && r == Conflict(NON_FRONTEND_MESSAGE)
              && db.tokens == old(db.tokens) && db.otps == old(db.otps)
              && request.auth == old(request.auth)
              && request.session.key == old(request.session.key) && request.session.data == old(request.session.data)
    ensures token.frontend ==> !r.Conflict? && request.session.key == Some(newKey)
    ensures token.frontend ==>
              (ExpireAtBrowserClose(request.session.data, cfg.sessionExpireAtBrowserClose)
               <==> !remember || cfg.longSessionSeconds == 0)
    ensures token.frontend ==>
              var expiry := if remember then cfg.longSessionSeconds else 0;
              var data := old(request.session.data)[SESSION_EXPIRY_KEY := VInt(expiry)];
              && db.otps == old(db.otps)
              && (r.ExtensionIntegrityError? ==>
                    && db.tokens == old(db.tokens)
                    && request.auth == old(request.auth) && request.session.data == data)
              && (r.Extended? ==>
                    && r.token == NewToken(old(db.nextTokenId), user, Some(newKey), true, now,
                                           Some(now + ExtendedLifetime(cfg, remember)), entropy)
                    && db.tokens == old(db.tokens) + [r.token]
                    && request.auth == Some(r.token)
                    && request.session.data == data[FLEIO_TOKEN_KEY := VStr(r.token.token)])
  {
    if !token.frontend {
      return Conflict(NON_FRONTEND_MESSAGE);
    }
    request.session.Rekey(newKey);
    var seconds := SessionExpirationSeconds(cfg, remember);
    if remember {
      request.session.SetExpiry(seconds);
    } else {
      request.session.SetExpiry(0);
    }
    var created := IssueForFreshSession(db, user, newKey, Some(seconds), cfg, now, entropy);
    if created.IntegrityError? {
      return ExtensionIntegrityError;
    }
    request.auth := Some(created.value);
    request.session.Put(FLEIO_TOKEN_KEY, VStr(created.value.token));
    r := Extended(created.value);
  }

  /** The values `auth.login` leaves in a flushed session. */
  function LoggedInData(user: User, authHash: string): (d: map<string, Value>)
    ensures d.Keys == {AUTH_USER_ID_KEY, AUTH_USER_BACKEND_KEY, AUTH_USER_HASH_KEY}
    ensures AsId(d[AUTH_USER_ID_KEY]) == Some(user.id)
  {
    var id := VStr(IntToString(user.id));
    AsIdOfIntToString(user.id);
    var d := map[AUTH_USER_ID_KEY := id, AUTH_USER_BACKEND_KEY := VStr(LOGIN_BACKEND), AUTH_USER_HASH_KEY := VStr(authHash)];
    assert d[AUTH_USER_ID_KEY] == id by {
      assert |AUTH_USER_ID_KEY| != |AUTH_USER_BACKEND_KEY| && |AUTH_USER_ID_KEY| != |AUTH_USER_HASH_KEY|;
    }
    d
  }

  /**
   * The `auth.login` step of `token_login` on a flushed session: a fresh key,
   * the three authentication values, and the user on the request.
   */
  method StartLoggedInSession(request: Request, user: User, newKey: SessionKey, authHash: string)
    requires request.session.data == map[]
    modifies request, request.session
    ensures request.session.key == Some(newKey) && request.session.data == LoggedInData(user, authHash)
    ensures request.user == Some(user) && request.auth == old(request.auth)
  {
    request.session.Rekey(newKey);
    request.session.Put(AUTH_USER_ID_KEY, VStr(IntToString(user.id)));
    request.session.Put(AUTH_USER_BACKEND_KEY, VStr(LOGIN_BACKEND));
    request.session.Put(AUTH_USER_HASH_KEY, VStr(authHash));
    request.user := Some(user);
  }

  /** The tokens left once the session keyed `key` is deleted: its bound tokens go with it. */
  function TokensAfterFlush(tokens: seq<AppityToken>, key: Option<SessionKey>): (r: seq<AppityToken>)
    ensures key.None? ==> r == tokens
    ensures key.Some? ==> forall j :: 0 <= j < |r| ==> r[j].sessionId != key
  {
    if key.Some? then TokensExcept(tokens, InSession(key.value)) else tokens
  }

  /**
   * `request.session.flush()`: the stored values are dropped, the key is
   * forgotten and the session's row is deleted, which deletes the tokens
   * bound to it and their one-time tokens.
   */
  method FlushSession(db: Db, session: Session)
    requires db.Valid()
    modifies db, session
    ensures db.Valid()
    ensures db.users == old(db.users) && db.nextTokenId == old(db.nextTokenId)
    ensures session.key == None && session.data == map[]
    ensures db.tokens == TokensAfterFlush(old(db.tokens), old(session.key))
    ensures db.otps == OtpsOf(old(db.otps), db.tokens)
    ensures forall i :: 0 <= i < |db.tokens| ==> db.tokens[i] in old(db.tokens)
  {
    var oldKey := session.key;
    session.Flush();
    if oldKey.Some? {
      TokensExceptMembers(db.tokens, InSession(oldKey.value));
      db.DeleteTokens(InSession(oldKey.value));
    } else {
      OtpsOfAll(db.otps, db.tokens);
    }
  }

  /**
   * The last step of `token_login`: a frontend token is issued for the
   * fresh session `key` and, when saved, becomes the request's token and is
   * stored in the session under `'appity_token'`.
   */
  method IssueForLoggedInSession(db: Db, request: Request, user: User, key: SessionKey, seconds: Option<int>,
                                 cfg: Settings, now: int, entropy: seq<byte>)
    returns (r: Saved<AppityToken>)
    requires db.Valid() && user in db.users && |entropy| == TOKEN_RANDOM_BYTES
    requires forall i :: 0 <= i < |db.tokens| ==> db.tokens[i].sessionId != Some(key)
    modifies db, request, request.session
    ensures db.Valid()
    ensures db.users == old(db.users) && db.otps == old(db.otps)
    ensures request.session.key == old(request.session.key) && request.user == old(request.user)
    ensures r.IntegrityError? <==> TokenInUse(old(db.tokens), GenerateToken(user.email, entropy))
    ensures r.IntegrityError? ==>
              && db.tokens == old(db.tokens)
              && request.auth == old(request.auth)
              && request.session.data == old(request.session.data)
    ensures r.Saved? ==>
              && r.value == NewToken(old(db.nextTokenId), user, Some(key), true, now,
                                     Some(now + InitialSeconds(seconds, cfg)), entropy)
              && db.tokens == old(db.tokens) + [r.value]
              && request.auth == Some(r.value)
              && request.session.data == old(request.session.data)[APPITY_TOKEN_KEY := VStr(r.value.token)]
  {
    r := IssueForFreshSession(db, user, key, seconds, cfg, now, entropy);
    if r.Saved? {
      request.auth := Some(r.value);
      request.session.Put(APPITY_TOKEN_KEY, VStr(r.value.token));
    }
  }

  /**
   * `token_login(request, user, seconds)`: the session is flushed (its
   * stored values dropped and its row deleted, taking the tokens bound to it
   * along), `auth.login` saves it under the fresh key `newKey` with the
   * user's id, backend and `authHash`, and, the key being non-empty, a
   * frontend token is issued for it and stored under `'appity_token'`.
   * No `'fleio_token'` entry is written.
   */
  method TokenLogin(db: Db, request: Request, user: User, seconds: Option<int>, cfg: Settings, now: int,
                    newKey: SessionKey, authHash: string, entropy: seq<byte>)
    returns (r: Option<Saved<AppityToken>>)
    requires db.Valid() && user in db.users && |entropy| == TOKEN_RANDOM_BYTES
    requires forall i :: 0 <= i < |db.tokens| ==> db.tokens[i].sessionId != Some(newKey)
    modifies db, request, request.session
    ensures db.Valid()
    ensures db.users == old(db.users)
    ensures request.session.key == Some(newKey) && request.user == Some(user)
    ensures FLEIO_TOKEN_KEY !in request.session.data
    ensures var kept := TokensAfterFlush(old(db.tokens), old(request.session.key));
            && db.otps == OtpsOf(old(db.otps), kept)
            && (r.None? <==> newKey == "")
            && (r.Some? ==> (r.value.IntegrityError? <==> TokenInUse(kept, GenerateToken(user.email, entropy))))
            && (r.None? || r.value.IntegrityError? ==>
                  && db.tokens == kept
                  && request.auth == old(request.auth)
                  && request.session.data == LoggedInData(user, authHash))
            && (r.Some? && r.value.Saved? ==>
                  && r.value.value == NewToken(old(db.nextTokenId), user, Some(newKey), true, now,
                                               Some(now + InitialSeconds(seconds, cfg)), entropy)
                  && db.tokens == kept + [r.value.value]
                  && request.auth == Some(r.value.value)
                  && request.session.data == LoggedInData(user, authHash)[APPITY_TOKEN_KEY := VStr(r.value.value.token)])
  {
    ghost var kept := TokensAfterFlush(db.tokens, request.session.key);
    FlushSession(db, request.session);
    assert db.tokens == kept;
    StartLoggedInSession(request, user, newKey, authHash);
    ghost var data := request.session.data;
    assert FLEIO_TOKEN_KEY !in data;
    if newKey != "" {
      assert forall i :: 0 <= i < |db.tokens| ==> db.tokens[i].sessionId != Some(newKey) by {
        forall i | 0 <= i < |db.tokens| ensures db.tokens[i].sessionId != Some(newKey) {
          assert db.tokens[i] in old(db.tokens);
        }
      }
      var created := IssueForLoggedInSession(db, request, user, newKey, seconds, cfg, now, entropy);
      r := Some(created);
    } else {
      r := None;
    }
  }
}
