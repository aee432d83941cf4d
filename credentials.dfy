/**
 * The credential check behind the login view (core/authentication/utils.py):
 * the user is looked up by exact e-mail, the password is checked, and a
 * failed attempt on a known address sends one `user_login_failed` signal
 * that carries the e-mail address only.
 */
module Credentials {
  import opened Common
  import opened Users

  /** The `sender` of the signal: the module's `__name__`. */
  const SIGNAL_SENDER := "core.authentication.utils"
  const EMAIL_FIELD := "email"

  /** A `user_login_failed` signal as sent: its sender and its `credentials` dictionary. */
  datatype LoginFailed = LoginFailed(sender: string, credentials: map<string, string>)

  /** The signals sent so far, in order; receivers are not modelled. */
  class SignalLog {
    var sent: seq<LoginFailed>

    constructor ()
      ensures sent == []
    {
      sent := [];
    }

    method Send(signal: LoginFailed)
      modifies this
      ensures sent == old(sent) + [signal]
    {
      sent := sent + [signal];
    }
  }

  /**
   * `match_user_for_invalid_authentication_input` (and the lookup of
   * `appity_authenticate_user`): the first user whose e-mail is exactly
   * `email`, or nothing.
   */
  function MatchUser(users: seq<User>, email: string): (r: Option<User>)
    ensures r.Some? ==> r.value.email == email
    ensures r.Some? ==> exists i :: 0 <= i < |users| && users[i] == r.value &&
                          forall j :: 0 <= j < i ==> users[j].email != email
    ensures r.None? <==> forall j :: 0 <= j < |users| ==> users[j].email != email
  {
    match FirstIndex(users, (u: User) => u.email == email)
    case None => None
    case Some(i) => Some(users[i])
  }

  /** `is_active or is_active is None`: only an explicitly cleared flag keeps a user out. */
  predicate MayLogIn(u: User) {
    u.isActive != Some(false)
  }

  /**
   * The decision of `appity_authenticate_user`: the matched user when the
   * password check passes and the user may log in; otherwise nothing, and a
   * failure signal whenever the address matched a user. `checkPassword`
   * stands for the password hasher.
   */
  function AuthenticateUser(users: seq<User>, email: string, password: string,
                            checkPassword: (User, string) -> bool)
    : (r: (Option<User>, Option<LoginFailed>))
    ensures MatchUser(users, email).None? ==> r == (None, None)
    ensures r.0.Some? <==>
              MatchUser(users, email).Some? && checkPassword(MatchUser(users, email).value, password)
              && MayLogIn(MatchUser(users, email).value)
    ensures r.0.Some? ==> r.0 == MatchUser(users, email)
    ensures r.1.Some? <==> MatchUser(users, email).Some? && r.0.None?
    ensures r.1.Some? ==> r.1.value == LoginFailed(SIGNAL_SENDER, map[EMAIL_FIELD := email])
  {
    match MatchUser(users, email)
    case None => (None, None)
    case Some(u) =>
      if checkPassword(u, password) && MayLogIn(u) then (Some(u), None)
      else (None, Some(LoginFailed(SIGNAL_SENDER, map[EMAIL_FIELD := email])))
  }

  /**
   * A failure signal names the address and nothing else: the password is
   * not among the values it carries unless it is the address itself.
   */
  lemma FailureSignalHidesPassword(users: seq<User>, email: string, password: string,
                                   checkPassword: (User, string) -> bool)
    requires AuthenticateUser(users, email, password, checkPassword).1.Some?
    ensures var signal := AuthenticateUser(users, email, password, checkPassword).1.value;
            && signal.credentials.Keys == {EMAIL_FIELD}
            && (password != email ==> password !in signal.credentials.Values)
  {
    var signal := AuthenticateUser(users, email, password, checkPassword).1.value;
    assert signal.credentials == map[EMAIL_FIELD := email];
    if password in signal.credentials.Values {
      var k :| k in signal.credentials && signal.credentials[k] == password;
    }
  }

  /**
   * A user whose flag is cleared is refused with a signal even with the
   * right password.
   */
  lemma InactiveUserIsRefused(users: seq<User>, email: string, password: string,
                              checkPassword: (User, string) -> bool)
    requires MatchUser(users, email).Some? && MatchUser(users, email).value.isActive == Some(false)
    ensures AuthenticateUser(users, email, password, checkPassword).0.None?
    ensures AuthenticateUser(users, email, password, checkPassword).1.Some?
  {
  }

  /** `appity_authenticate_user(email, password, request)`. */
  method AppityAuthenticateUser(users: seq<User>, email: string, password: string,
                                checkPassword: (User, string) -> bool, log: SignalLog)
    returns (r: Option<User>)
    modifies log
    ensures r == AuthenticateUser(users, email, password, checkPassword).0
    ensures var signal := AuthenticateUser(users, email, password, checkPassword).1;
            log.sent == old(log.sent) + (if signal.Some? then [signal.value] else [])
  {
    var matched := MatchUser(users, email);
    if matched.None? {
      return None;
    }
    if checkPassword(matched.value, password) && MayLogIn(matched.value) {
      return matched;
    }
    log.Send(LoginFailed(SIGNAL_SENDER, map[EMAIL_FIELD := email]));
    r := None;
  }
}
