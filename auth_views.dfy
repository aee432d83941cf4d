/**
 * The authentication views (core/authentication/views.py): login, the
 * current-user payload, logout, and the sign-up end-point with the throttle
 * whose last (oldest) history entry a failed sign-up removes.
 */
module AuthViews {
  import opened Common
  import opened Users
  import opened Sessions
  import opened AppityTokens
  import opened TokenStore
  import opened Credentials
  import opened Signup
  import CoreUtils

  const INCORRECT_CREDENTIALS := "Incorrect email or password"
  const ACCOUNT_INACTIVE := "This account is inactive"
  const LOGGED_OUT := "Logged out"

  // ---------------------------------------------------------------------
  // get_current_user_info
  // ---------------------------------------------------------------------

  /** The `user` payload of the login and current-user responses. */
  datatype UserInfo = UserInfo(
    id: UserId,
    firstName: string,
    lastName: string,
    fullName: Option<string>,
    email: string,
    language: string,
    appityToken: Option<TokenInfo>)

  /**
   * `get_current_user_info`: the user's fields, and the `get_info` of the
   * token the request was authenticated with, or nothing without one.
   */
  function CurrentUserInfo(user: User, auth: Option<AppityToken>, session: Option<SessionKey>,
                           data: map<string, Value>, cfg: Settings, now: int): (r: UserInfo)
    ensures r.id == user.id && r.email == user.email && r.language == user.language
    ensures r.firstName == user.firstName && r.lastName == user.lastName
    ensures r.fullName == GetFullName(user)
    ensures r.appityToken.None? <==> auth.None?
    ensures auth.Some? ==> r.appityToken == Some(GetInfo(auth.value, session, data, false, cfg, now))
  {
    UserInfo(user.id, user.firstName, user.lastName, GetFullName(user), user.email, user.language,
             if auth.Some? then Some(GetInfo(auth.value, session, data, false, cfg, now)) else None)
  }

  /**
   * The payload built right after a login shows the token issued for the
   * new session, the whole lifetime it was given, and whether the session
   * ends with the browser as the login's expiry decided.
   */
  lemma LoginInfoShowsIssuedToken(user: User, tok: AppityToken, key: SessionKey, data: map<string, Value>,
                                  cfg: Settings, now: int, remember: bool, lifetime: int)
    requires tok.sessionId == Some(key) && tok.expireAt == Some(now + lifetime)
    requires Get(data, SESSION_EXPIRY_KEY) == VInt(LoginExpiry(cfg, remember))
    ensures var info := CurrentUserInfo(user, Some(tok), Some(key), data, cfg, now).appityToken;
            && info.Some? && info.value.token == Some(tok.token)
            && info.value.expirySeconds == Some(lifetime)
            && info.value.expireAtBrowserClose == Some(!remember || cfg.longSessionSeconds == 0)
  {
    assert SESSION_EXPIRY_KEY in data;
  }

  // ---------------------------------------------------------------------
  // login
  // ---------------------------------------------------------------------

  datatype LoginResponse =
    | LoggedIn(user: UserInfo)
    | AuthFailed(detail: string)
    | InvalidInput
    /** `token_login` raised `IntegrityError`: the new token's string was taken, and no response is built. */
    | LoginIntegrityError

  /**
   * The refusal `login` answers for a credential check: none for an active
   * user, else the detail of the `AuthenticationFailed` raised.
   */
  function LoginRefusal(checked: Option<User>): (r: Option<string>)
    ensures checked.None? ==> r == Some(INCORRECT_CREDENTIALS)
    ensures checked.Some? && !ActiveFlag(checked.value) ==> r == Some(ACCOUNT_INACTIVE)
    ensures r.None? <==> checked.Some? && ActiveFlag(checked.value)
  {
    if checked.None? then Some(INCORRECT_CREDENTIALS)
    else if !ActiveFlag(checked.value) then Some(ACCOUNT_INACTIVE)
    else None
  }

  /**
   * A user whose active flag was never set passes the credential check and
   * is still refused by the view as inactive; only a set flag logs in. Such a
   * user is an unsaved instance: no saved row has the flag unset.
   */
  lemma UnsetActiveFlagIsRefusedByView(users: seq<User>, email: string, password: string,
                                       checkPassword: (User, string) -> bool)
    requires MatchUser(users, email).Some? && MatchUser(users, email).value.isActive.None?
    requires checkPassword(MatchUser(users, email).value, password)
    ensures AuthenticateUser(users, email, password, checkPassword).0.Some?
    ensures LoginRefusal(AuthenticateUser(users, email, password, checkPassword).0) == Some(ACCOUNT_INACTIVE)
  {
  }

  /**
   * The session expiry `login` sets: the long session length when the user
   * asked to be remembered, else 0, which ends the session with the browser.
   */
  function LoginExpiry(cfg: Settings, remember: bool): (seconds: int)
    ensures remember ==> seconds == SessionExpirationSeconds(cfg, true)
    ensures !remember ==> seconds == 0
  {
    if remember then SessionExpirationSeconds(cfg, remember) else 0
  }

  /** A login that is not remembered always ends with the browser; a remembered one does unless its length is 0. */
  lemma LoginExpiryEndsWithBrowser(data: map<string, Value>, cfg: Settings, remember: bool, siteDefault: bool)
    ensures ExpireAtBrowserClose(data[SESSION_EXPIRY_KEY := VInt(LoginExpiry(cfg, remember))], siteDefault)
            <==> !remember || cfg.longSessionSeconds == 0
  {
  }

  /**
   * `login`: validates the input, checks the cleaned credentials (sending
   * the failure signal), refuses unknown or inactive users, and otherwise
   * logs the user in with the session length `remember_me` selects and
   * sets the session expiry. A missing field is `VNone`. An
   * `IntegrityError` from `token_login` leaves the flushed, logged-in
   * session without a token and ends the request before the expiry is set.
   */
  method Login(db: Db, request: Request, log: SignalLog, email: Value, password: Value, rememberMe: Option<bool>,
               checkPassword: (User, string) -> bool, cfg: Settings, now: int,
               newKey: SessionKey, authHash: string, entropy: seq<byte>)
    returns (r: LoginResponse)
    requires db.Valid() && |entropy| == TOKEN_RANDOM_BYTES
    requires forall i :: 0 <= i < |db.tokens| ==> db.tokens[i].sessionId != Some(newKey)
    modifies db, request, request.session, log
    ensures db.Valid() && db.users == old(db.users)
    ensures r.InvalidInput? <==> ValidateLogin(email, password, rememberMe).None?
    ensures r.InvalidInput? || r.AuthFailed? ==> unchanged(db, request, request.session)
    ensures ValidateLogin(email, password, rememberMe).Some? ==>
              var input := ValidateLogin(email, password, rememberMe).value;
              var checked := AuthenticateUser(old(db.users), input.email, input.password, checkPassword).0;
              var kept := TokensAfterFlush(old(db.tokens), old(request.session.key));
              && (r.AuthFailed? <==> LoginRefusal(checked).Some?)
              && (r.AuthFailed? ==> r.detail == LoginRefusal(checked).value)
              && (r.LoginIntegrityError? <==>
                    LoginRefusal(checked).None? && newKey != "" &&
                    TokenInUse(kept, GenerateToken(checked.value.email, entropy)))
              && (r.LoggedIn? || r.LoginIntegrityError? ==>
                    checked.Some? && request.user == checked && request.session.key == Some(newKey))
              && (r.LoginIntegrityError? ==>
                    db.tokens == kept && request.session.data == LoggedInData(checked.value, authHash))
              && (r.LoggedIn? ==>
                    && Get(request.session.data, SESSION_EXPIRY_KEY) == VInt(LoginExpiry(cfg, input.rememberMe))
                    && r.user == CurrentUserInfo(checked.value, request.auth, request.session.key,
                                                 request.session.data, cfg, now)
                    && (newKey != "" ==>
                          var info := r.user.appityToken;
                          && info.Some?
                          && info.value.token == Some(GenerateToken(checked.value.email, entropy))
                          && info.value.expirySeconds ==
                               Some(InitialSeconds(Some(SessionExpirationSeconds(cfg, input.rememberMe)), cfg))
                          && info.value.expireAtBrowserClose ==
                               Some(!input.rememberMe || cfg.longSessionSeconds == 0)))
  {
    var input := ValidateLogin(email, password, rememberMe);
    if input.None? {
      return InvalidInput;
    }
    var user := AppityAuthenticateUser(db.users, input.value.email, input.value.password, checkPassword, log);
    var refusal := LoginRefusal(user);
    if refusal.Some? {
      return AuthFailed(refusal.value);
    }
    r := CompleteLogin(db, request, user.value, input.value.rememberMe, cfg, now, newKey, authHash, entropy);
  }

  /**
   * The end of `login` for an active user: `token_login` with the session
   * length `remember_me` selects, then the session expiry, then the user
   * payload; an `IntegrityError` from `token_login` ends it early.
   */
  method CompleteLogin(db: Db, request: Request, user: User, remember: bool, cfg: Settings, now: int,
                       newKey: SessionKey, authHash: string, entropy: seq<byte>)
    returns (r: LoginResponse)
    requires db.Valid() && user in db.users && |entropy| == TOKEN_RANDOM_BYTES
    requires forall i :: 0 <= i < |db.tokens| ==> db.tokens[i].sessionId != Some(newKey)
    modifies db, request, request.session
    ensures db.Valid() && db.users == old(db.users)
    ensures r.LoggedIn? || r.LoginIntegrityError?
    ensures request.user == Some(user) && request.session.key == Some(newKey)
    ensures var kept := TokensAfterFlush(old(db.tokens), old(request.session.key));
            && (r.LoginIntegrityError? <==> newKey != "" && TokenInUse(kept, GenerateToken(user.email, entropy)))
            && (r.LoginIntegrityError? ==> db.tokens == kept && request.session.data == LoggedInData(user, authHash))
    ensures r.LoggedIn? ==>
              && Get(request.session.data, SESSION_EXPIRY_KEY) == VInt(LoginExpiry(cfg, remember))
              && r.user == CurrentUserInfo(user, request.auth, request.session.key, request.session.data, cfg, now)
              && (newKey != "" ==>
                    var info := r.user.appityToken;
                    && info.Some?
                    && info.value.token == Some(GenerateToken(user.email, entropy))
                    && info.value.expirySeconds == Some(InitialSeconds(Some(SessionExpirationSeconds(cfg, remember)), cfg))
                    && info.value.expireAtBrowserClose == Some(!remember || cfg.longSessionSeconds == 0))
  {
    var seconds := SessionExpirationSeconds(cfg, remember);
    ghost var kept := TokensAfterFlush(db.tokens, request.session.key);
    var issued := TokenLogin(db, request, user, Some(seconds), cfg, now, newKey, authHash, entropy);
    if issued.Some? && issued.value.IntegrityError? {
      assert db.tokens == kept && request.session.data == LoggedInData(user, authHash);
      return LoginIntegrityError;
    }
    var token := if issued.Some? then Some(issued.value.value) else None;
    var info := FinishLogin(request, user, token, newKey, remember, cfg, now, InitialSeconds(Some(seconds), cfg));
    r := LoggedIn(info);
  }

  /**
   * What `login` does once `token_login` succeeded: the session expiry
   * `remember_me` selects, then the payload, which shows the token
   * `token_login` issued, when it issued one.
   */
  method FinishLogin(request: Request, user: User, issued: Option<AppityToken>, key: SessionKey, remember: bool,
                     cfg: Settings, now: int, lifetime: int)
    returns (info: UserInfo)
    requires issued.Some? ==>
               && request.auth == issued && request.session.key == Some(key)
               && issued.value.sessionId == Some(key)
               && issued.value.expireAt.Some? && issued.value.expireAt.value == now + lifetime
    modifies request.session
    ensures request.session.key == old(request.session.key)
    ensures request.session.data == old(request.session.data)[SESSION_EXPIRY_KEY := VInt(LoginExpiry(cfg, remember))]
    ensures info == CurrentUserInfo(user, request.auth, request.session.key, request.session.data, cfg, now)
    ensures issued.Some? ==>
              && info.appityToken.Some?
              && info.appityToken.value.token == Some(issued.value.token)
              && info.appityToken.value.expirySeconds == Some(lifetime)
              && info.appityToken.value.expireAtBrowserClose == Some(!remember || cfg.longSessionSeconds == 0)
  {
    request.session.SetExpiry(LoginExpiry(cfg, remember));
    if issued.Some? {
      LoginInfoShowsIssuedToken(user, issued.value, key, request.session.data, cfg, now, remember, lifetime);
    }
    info := CurrentUserInfo(user, request.auth, request.session.key, request.session.data, cfg, now);
  }

  // ---------------------------------------------------------------------
  // logout
  // ---------------------------------------------------------------------

  datatype LogoutResponse = NothingToDo | LoggedOut(detail: string)

  /**
   * `logout`: an anonymous request gets 200 and nothing changes; otherwise
   * the session is flushed (its tokens go with its row) and the request
   * becomes anonymous.
   */
  method Logout(db: Db, request: Request) returns (r: LogoutResponse)
    requires db.Valid()
    modifies db, request, request.session
    ensures db.Valid()
    ensures r.NothingToDo? <==> old(request.user).None?
    ensures r.NothingToDo? ==> unchanged(db, request, request.session)
    ensures r.LoggedOut? ==>
              && r.detail == LOGGED_OUT
              && request.user.None?
              && request.session.key.None? && request.session.data == map[]
              && db.users == old(db.users)
              && db.tokens == TokensAfterFlush(old(db.tokens), old(request.session.key))
  {
    if request.user.None? {
      return NothingToDo;
    }
    FlushSession(db, request.session);
    request.user := None;
    r := LoggedOut(LOGGED_OUT);
  }

  // ---------------------------------------------------------------------
  // Sign-up throttle and end-point
  // ---------------------------------------------------------------------

  /** The throttle's cache: request history lists by cache key. */
  class ThrottleCache {
    var lists: map<string, seq<int>>

    constructor (lists: map<string, seq<int>>)
      ensures this.lists == lists
    {
      this.lists := lists;
    }
  }

  datatype PopResult = Popped | NotThrottled | IndexError

  /** `SignUpRateThrottle`: the `key` and `history` it last worked with. */
  class SignUpRateThrottle {
    var key: Option<string>
    var history: Option<seq<int>>

    constructor ()
      ensures key.None? && history.None?
    {
      key := None;
      history := None;
    }

    /**
     * `remove_last_history_item`: with a rate and a cache key, drops the last
     * entry of that key's history, which is the oldest one, since the
     * throttle inserts new entries at the front (an absent history is
     * empty, and popping it raises `IndexError`); otherwise nothing is
     * touched.
     */
    method RemoveLastHistoryItem(rate: Option<string>, cacheKey: Option<string>, cache: ThrottleCache)
      returns (r: PopResult)
      modifies this, cache
      ensures r.NotThrottled? <==> rate.None? || cacheKey.None?
      ensures r.NotThrottled? ==> cache.lists == old(cache.lists)
      ensures rate.None? ==> key == old(key) && history == old(history)
      ensures r.IndexError? <==> rate.Some? && cacheKey.Some? &&
                                 (cacheKey.value !in old(cache.lists) || old(cache.lists)[cacheKey.value] == [])
      ensures r.IndexError? ==> cache.lists == old(cache.lists)
      ensures r.Popped? ==>
                var before := old(cache.lists)[cacheKey.value];
                && cache.lists == old(cache.lists)[cacheKey.value := before[..|before| - 1]]
                && history == Some(before[..|before| - 1])
    {
      if rate.None? {
        return NotThrottled;
      }
      key := cacheKey;
      if key.None? {
        return NotThrottled;
      }
      var list := if key.value in cache.lists then cache.lists[key.value] else [];
      history := Some(list);
      if |list| == 0 {
        return IndexError;
      }
      history := Some(list[..|list| - 1]);
      cache.lists := cache.lists[key.value := history.value];
      r := Popped;
    }
  }

  /**
   * How the sign-up end-point ends: the saved user and how logging it in
   * went; a refused request; the throttle's failing pop; or an
   * `IntegrityError` raised inside the atomic block, which undoes it.
   */
  datatype SignUpResponse =
    | SignedUp(result: SignUpResult, login: CoreUtils.PasswordlessLogin)
    | ValidationError
    | ThrottleIndexError
    | SignUpIntegrityError

  /** Saving the validated sign-up `d` would insert an address or a key the table already holds. */
  predicate SignUpConflict(users: seq<User>, d: SignUpData, newId: UserId) {
    var i := FirstIndex(users, (u: User) => u.email == d.email);
    !(i.Some? && users[i.value].unregistered) && Taken(users, d.email, newId)
  }

  /**
   * `user` is what saving the validated sign-up `d` stores: the address, the
   * hashed password, the names, the given or default language, active and
   * registered.
   */
  predicate SavedAs(user: User, d: SignUpData, hash: string -> string) {
    && user.email == d.email && user.password == hash(d.password)
    && user.firstName == d.firstName && user.lastName == d.lastName
    && user.language == (if d.language.Some? && d.language.value != "" then d.language.value else DEFAULT_LANGUAGE)
    && user.isActive == Some(true) && !user.unregistered
  }

  /**
   * `SignUpViewSet.create`: invalid input removes the throttle's last
   * (oldest) history entry and is refused with nothing saved (a failing pop
   * raises instead). Valid input goes to `SaveAndLogIn`, the view's atomic
   * block. The response payload is `CurrentUserInfo`.
   */
  method SignUpCreate(db: Db, request: Request, data: map<string, Value>, throttle: SignUpRateThrottle,
                      rate: Option<string>, cacheKey: Option<string>, cache: ThrottleCache,
                      hash: string -> string, newId: UserId, backends: seq<string>,
                      getUser: (string, UserId) -> Option<User>, cfg: Settings, now: int,
                      newKey: SessionKey, authHash: string, entropy: seq<byte>)
    returns (r: SignUpResponse)
    requires db.Valid() && |entropy| == TOKEN_RANDOM_BYTES
    requires forall i :: 0 <= i < |db.tokens| ==> db.tokens[i].sessionId != Some(newKey)
    modifies db, request, request.session, throttle, cache
    ensures db.Valid()
    ensures r.ValidationError? || r.ThrottleIndexError? <==> SignUpValidate(old(db.users), data).None?
    ensures r.ValidationError? || r.ThrottleIndexError? ==>
              && db.users == old(db.users) && db.Tables() == old(db.Tables())
              && unchanged(request, request.session)
    ensures r.ThrottleIndexError? ==> cache.lists == old(cache.lists)
    ensures r.ValidationError? && rate.Some? && cacheKey.Some? ==>
              && cacheKey.value in old(cache.lists) && |old(cache.lists)[cacheKey.value]| > 0
              && var before := old(cache.lists)[cacheKey.value];
                 cache.lists == old(cache.lists)[cacheKey.value := before[..|before| - 1]]
    ensures !(r.ValidationError? || r.ThrottleIndexError?) ==>
              && cache.lists == old(cache.lists)
              && var d := SignUpValidate(old(db.users), data).value;
                 SignUpEnds(r, d, old(db.users), old(db.Tables()), old(request.session.key), db.users, db.Tables(),
                            request.auth, hash, newId, backends, getUser, newKey, entropy)
  {
    var valid := SignUpValidate(db.users, data);
    if valid.None? {
      var popped := throttle.RemoveLastHistoryItem(rate, cacheKey, cache);
      if popped.IndexError? {
        return ThrottleIndexError;
      }
      return ValidationError;
    }
    r := SaveAndLogIn(db, request, valid.value, hash, newId, backends, getUser, cfg, now, newKey, authHash, entropy);
  }

  /**
   * How the atomic block of the sign-up view ends for the validated sign-up
   * `d`, from the tables and session key before it to the tables and
   * request credentials after it. An `IntegrityError` leaves the tables as
   * they were; it is raised when the insert would repeat an address or a
   * key, and otherwise only when the login token's string is taken. A
   * saved user holds the request's fields, and its login issued the token.
   */
  predicate SignUpEnds(r: SignUpResponse, d: SignUpData, users0: seq<User>, tables0: TokenTables,
                       key0: Option<SessionKey>, users: seq<User>, tables: TokenTables, auth: Option<AppityToken>,
                       hash: string -> string, newId: UserId, backends: seq<string>,
                       getUser: (string, UserId) -> Option<User>, newKey: SessionKey, entropy: seq<byte>)
  {
    var kept := TokensAfterFlush(tables0.tokens, key0);
    && |entropy| == TOKEN_RANDOM_BYTES
    && (r.SignedUp? || r.SignUpIntegrityError?)
    && (r.SignUpIntegrityError? ==> users == users0 && tables == tables0)
    && (SignUpConflict(users0, d, newId) ==> r.SignUpIntegrityError?)
    && (r.SignUpIntegrityError? && !SignUpConflict(users0, d, newId) ==>
          newKey != "" && TokenInUse(kept, GenerateToken(d.email, entropy)))
    && (r.SignedUp? ==>
          && (r.result.Updated? || r.result.Created?)
          && SavedAs(r.result.user, d, hash) && r.result.user in users
          && (r.result.Created? ==> users == users0 + [r.result.user] && r.result.user.id == newId)
          && (r.result.Updated? ==> |users| == |users0|)
          && (r.login.NoBackend? <==> CoreUtils.ChooseBackend(r.result.user, None, backends, getUser).None?)
          && (r.login.NoBackend? ==> tables == tables0)
          && !r.login.PasswordlessIntegrityError?
          && (r.login.LoggedInWithoutPassword? && newKey != "" ==>
                && auth.Some? && auth.value.token == GenerateToken(d.email, entropy)
                && tables.tokens == kept + [auth.value]))
  }

  /**
   * The atomic block of `SignUpViewSet.create`: `SignUpSerializer.create`
   * saves the user, then `login_without_password` logs it in; an
   * `IntegrityError` from either undoes every table write of the block.
   */
  method SaveAndLogIn(db: Db, request: Request, d: SignUpData, hash: string -> string, newId: UserId,
                      backends: seq<string>, getUser: (string, UserId) -> Option<User>, cfg: Settings, now: int,
                      newKey: SessionKey, authHash: string, entropy: seq<byte>)
    returns (r: SignUpResponse)
    requires db.Valid() && |entropy| == TOKEN_RANDOM_BYTES
    requires forall i :: 0 <= i < |db.tokens| ==> db.tokens[i].sessionId != Some(newKey)
    modifies db, request, request.session
    ensures db.Valid()
    ensures SignUpEnds(r, d, old(db.users), old(db.Tables()), old(request.session.key), db.users, db.Tables(),
                       request.auth, hash, newId, backends, getUser, newKey, entropy)
  {
    var users0, tokens0, otps0, nextToken0, nextOtp0 := db.users, db.tokens, db.otps, db.nextTokenId, db.nextOtpId;
    var created := SaveSignUpUser(db, d, hash, newId);
    if created.CreateIntegrityError? {
      return SignUpIntegrityError;
    }
    var login := CoreUtils.LoginWithoutPassword(db, request, created.user, None, backends, getUser, cfg, now,
                                                newKey, authHash, entropy);
    if login.PasswordlessIntegrityError? {
      db.Rollback(users0, tokens0, otps0, nextToken0, nextOtp0);
      return SignUpIntegrityError;
    }
    r := SignedUp(created, login);
  }

  /** `serializer.save()` of the validated sign-up `d`, written to the user table. */
  method SaveSignUpUser(db: Db, d: SignUpData, hash: string -> string, newId: UserId) returns (r: SignUpResult)
    requires db.Valid()
    modifies db
    ensures db.Valid() && db.Tables() == old(db.Tables()) && db.nextOtpId == old(db.nextOtpId)
    ensures !r.KeyError?
    ensures r.CreateIntegrityError? <==> SignUpConflict(old(db.users), d, newId)
    ensures r.CreateIntegrityError? ==> db.users == old(db.users)
    ensures r.Updated? || r.Created? ==>
              && SavedAs(r.user, d, hash) && r.user in db.users
              && (r.Created? ==> db.users == old(db.users) + [r.user] && r.user.id == newId)
              && (r.Updated? ==> |db.users| == |old(db.users)|)
  {
    var fields := SignUpRequestOf(d);
    SignUpRequestReadsBack(d);
    var after;
    r, after := Create(db.users, fields, hash, newId);
    if !r.CreateIntegrityError? {
      db.SaveUsers(after);
    }
  }

  /** The request built from validated fields holds every key `create` reads, with those fields as texts. */
  lemma SignUpRequestReadsBack(d: SignUpData)
    ensures var data := SignUpRequestOf(d);
      && "password" in data && "email" in data && "invitation_id" in data && "invitation_token" in data
      && "first_name" in data && "last_name" in data
      && Text(data["email"]) == d.email && Text(data["password"]) == d.password
      && Text(data["first_name"]) == d.firstName && Text(data["last_name"]) == d.lastName
      && Text(SignUpLanguage(data)) ==
           (if d.language.Some? && d.language.value != "" then d.language.value else DEFAULT_LANGUAGE)
  {
    var data := SignUpRequestOf(d);
    assert Get(data, "email") == VStr(d.email) && Get(data, "password") == VStr(d.password);
    assert Get(data, "first_name") == VStr(d.firstName) && Get(data, "last_name") == VStr(d.lastName);
    if d.language.Some? {
      assert Get(data, "language") == VStr(d.language.value);
    } else {
      assert Get(data, "language") == VNone;
    }
  }
}
