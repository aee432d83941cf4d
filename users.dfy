/**
 * The user record and the policy helpers of `AppUser`, the clients a user
 * manages and the active-client selection kept in the session, and the
 * currency table with its single default (core/models/models.py).
 */
module Users {
  import opened Common
  import opened Sessions

  type UserId = int
  type ClientId = int

  /**
   * A row of the user table. `isActive` is tri-state: the credential check
   * treats an unset flag like a set one. The column is NOT NULL with default
   * True, so the unset state only arises on an unsaved instance; no saved
   * row holds it.
   */
  datatype User = User(
    id: UserId,
    email: string,
    password: string,
    firstName: string,
    lastName: string,
    language: string,
    isStaff: bool,
    isSuperuser: bool,
    isActive: Option<bool>,
    unregistered: bool)

  /** The deployment settings the user helpers read. */
  datatype Settings = Settings(
    shortSessionSeconds: int,
    longSessionSeconds: int,
    sessionExpireAtBrowserClose: bool)

  /**
   * The user table's unique columns: users have distinct primary keys and
   * distinct e-mail addresses.
   */
  predicate UserPairOk(a: User, b: User) {
    a.id != b.id && a.email != b.email
  }

  /** A row of `users` holds the address `email` or the key `id`, so inserting either again breaks a unique column. */
  predicate Taken(users: seq<User>, email: string, id: UserId) {
    exists j :: 0 <= j < |users| && (users[j].email == email || users[j].id == id)
  }

  /** Appending a user whose address and key are both free keeps the unique columns unique. */
  lemma AppendUntakenKeepsUnique(users: seq<User>, u: User)
    requires Pairwise(users, UserPairOk) && !Taken(users, u.email, u.id)
    ensures Pairwise(users + [u], UserPairOk)
  {
    AppendPairwise(users, u, UserPairOk);
  }

  /** Overwriting a row with one that has the same key and address keeps the unique columns unique. */
  lemma ReplaceSameKeysKeepsUnique(users: seq<User>, i: nat, u: User)
    requires Pairwise(users, UserPairOk) && i < |users|
    requires u.id == users[i].id && u.email == users[i].email
    ensures Pairwise(users[i := u], UserPairOk)
  {
    var after := users[i := u];
    forall a, b | 0 <= a < b < |after| ensures UserPairOk(after[a], after[b]) {
      assert UserPairOk(users[a], users[b]);
    }
  }

  /** `user.is_active` as a Python condition: only a set, true flag passes. */
  predicate ActiveFlag(u: User) {
    u.isActive == Some(true)
  }

  /** `get_full_name()`: both names joined by a space, the one that is set, or nothing. */
  function GetFullName(u: User): (r: Option<string>)
    ensures r.None? <==> u.firstName == "" && u.lastName == ""
    ensures r.Some? ==> r.value != ""
    ensures u.firstName != "" ==> r.Some? && u.firstName <= r.value
    ensures u.lastName != "" ==> r.Some? && |u.lastName| <= |r.value| &&
                                 r.value[|r.value| - |u.lastName|..] == u.lastName
    ensures u.firstName != "" && u.lastName != "" ==> |r.value| == |u.firstName| + 1 + |u.lastName|
  {
    if u.firstName != "" && u.lastName != "" then Some(u.firstName + " " + u.lastName)
    else if u.firstName != "" then Some(u.firstName)
    else if u.lastName != "" then Some(u.lastName)
    else None
  }

  /** `display`: `'{full} ({email}) #{id}'`, or `'{email} #{id}'` without a full name. */
  function Display(u: User): (r: string)
    ensures GetFullName(u).Some? ==> GetFullName(u).value <= r
    ensures GetFullName(u).None? ==> u.email <= r
  {
    match GetFullName(u)
    case Some(full) => full + " (" + u.email + ") #" + IntToString(u.id)
    case None => u.email + " #" + IntToString(u.id)
  }

  /** The display string names the user: its id can be read back after the last `#`. */
  lemma DisplayIdentifiesUser(u: User)
    ensures ParseInt(AfterLast('#', Display(u))) == Some(u.id)
  {
    var id := IntToString(u.id);
    assert '#' !in id;
    IntToStringRoundTrip(u.id);
    match GetFullName(u)
    case Some(full) =>
      assert Display(u) == (full + " (" + u.email + ") ") + "#" + id;
      AfterLastOfSuffix('#', full + " (" + u.email + ") ", id);
    case None =>
      assert Display(u) == (u.email + " ") + "#" + id;
      AfterLastOfSuffix('#', u.email + " ", id);
  }

  /** `is_admin`: staff or superuser. */
  predicate IsAdmin(u: User) {
    u.isStaff || u.isSuperuser
  }

  /** `can_impersonate`: staff alone. */
  predicate CanImpersonate(u: User) {
    u.isStaff
  }

  /** Every user allowed to impersonate is an admin, but a superuser without staff is not allowed. */
  lemma ImpersonationNeedsStaff(u: User)
    ensures CanImpersonate(u) ==> IsAdmin(u)
    ensures IsAdmin(u) && !CanImpersonate(u) <==> u.isSuperuser && !u.isStaff
  {
  }

  /** `get_session_expiration_seconds(remember)`. */
  function SessionExpirationSeconds(cfg: Settings, remember: bool): (r: int)
    ensures remember ==> r == cfg.longSessionSeconds
    ensures !remember ==> r == cfg.shortSessionSeconds
  {
    if remember then cfg.longSessionSeconds else cfg.shortSessionSeconds
  }

  // ---------------------------------------------------------------------
  // Clients managed by a user
  // ---------------------------------------------------------------------

  /** A row of the user-to-client link table, in primary-key order. */
  datatype UserToClient = UserToClient(userId: UserId, clientId: ClientId, invitation: bool)

  /** Client ids the user reaches through an invitation link. */
  function InvitedClients(links: seq<UserToClient>, uid: UserId): set<ClientId> {
    set l | l in links && l.userId == uid && l.invitation :: l.clientId
  }

  /**
   * `managed_clients`: the user's clients in link order, without those the
   * user is linked to by an invitation.
   */
  function ManagedClients(links: seq<UserToClient>, uid: UserId): (r: seq<ClientId>)
    ensures forall c :: c in r <==>
      (exists l :: l in links && l.userId == uid && l.clientId == c) && c !in InvitedClients(links, uid)
  {
    var excluded := InvitedClients(links, uid);
    var kept := Filter(links, (l: UserToClient) => l.userId == uid && l.clientId !in excluded);
    var r := seq(|kept|, i requires 0 <= i < |kept| => kept[i].clientId);
    FilterMembers(links, (l: UserToClient) => l.userId == uid && l.clientId !in excluded);
    assert forall c :: c in r ==> exists l :: l in links && l.userId == uid && l.clientId == c by {
      forall c | c in r ensures exists l :: l in links && l.userId == uid && l.clientId == c {
        var i :| 0 <= i < |r| && r[i] == c;
        assert kept[i] in links;
      }
    }
    assert forall c :: (exists l :: l in links && l.userId == uid && l.clientId == c) && c !in excluded ==> c in r by {
      forall c | (exists l :: l in links && l.userId == uid && l.clientId == c) && c !in excluded
        ensures c in r
      {
        var l :| l in links && l.userId == uid && l.clientId == c;
        var j :| 0 <= j < |links| && links[j] == l;
        assert l in kept;
        var i :| 0 <= i < |kept| && kept[i] == l;
        assert r[i] == c;
      }
    }
    r
  }

  /** A user invited to a client never has it among the managed clients, whatever other links say. */
  lemma InvitationExcludes(links: seq<UserToClient>, l: UserToClient)
    requires l in links && l.invitation
    ensures l.clientId !in ManagedClients(links, l.userId)
  {
    assert l.clientId in InvitedClients(links, l.userId);
  }

  /** The request facts `get_active_client` reads: who is asking, and the `active_client` parameter. */
  datatype ClientRequest = ClientRequest(requester: Option<User>, activeClientParam: Option<string>)

  const ACTIVE_CLIENT_KEY := "active_client_id"

  /**
   * What `get_active_client` ends with: a client or none, or the
   * `ValueError` that `filter(id=...)` raises for an id `int()` refuses
   * (client keys are integers).
   */
  datatype ActiveClient = Chosen(client: Option<ClientId>) | InvalidClientId

  /**
   * `get_active_client(request)` as a function of the values the session
   * held before the call: the result, and the values it holds afterwards.
   * With a request: nothing for an admin user, an anonymous or admin
   * requester; else a managed client named by the parameter (written to the
   * session), else the one remembered in the session. Otherwise the first
   * managed client, remembered when there is a request. A parameter or a
   * stored string that is not an integer raises.
   */
  function ActiveClientOutcome(u: User, links: seq<UserToClient>, request: Option<ClientRequest>,
                               data: map<string, Value>): (out: (ActiveClient, map<string, Value>))
  {
    var managed := ManagedClients(links, u.id);
    var first := if |managed| > 0 then Some(managed[0]) else None;
    var remembered := if |managed| > 0 then data[ACTIVE_CLIENT_KEY := VInt(managed[0])] else data;
    if request.None? then (Chosen(first), data)
    else if !RequesterMayHaveClient(u, request.value) then (Chosen(None), data)
    else if ParamRefused(u, request) then (InvalidClientId, data)
    else if ParamSelects(u, links, request) then
      var param := request.value.activeClientParam.value;
      (Chosen(PyInt(param)), data[ACTIVE_CLIENT_KEY := VStr(param)])
    else
      match KeyOf(Get(data, ACTIVE_CLIENT_KEY))
      case BadKey => (InvalidClientId, data)
      case Key(id) => if id in managed then (Chosen(Some(id)), data) else (Chosen(first), remembered)
      case NullKey => (Chosen(first), remembered)
  }

  /**
   * What `get_active_client` promises: every client it returns is managed;
   * it raises exactly for a parameter `int()` refuses, or for an unreadable
   * stored id when no parameter decided, and then leaves the session alone;
   * each branch's result and session values.
   */
  lemma ActiveClientOutcomeCases(u: User, links: seq<UserToClient>, request: Option<ClientRequest>,
                                 data: map<string, Value>)
    ensures var (r, after) := ActiveClientOutcome(u, links, request, data);
      && (r.Chosen? && r.client.Some? ==> r.client.value in ManagedClients(links, u.id))
      && (r.InvalidClientId? ==> request.Some? && after == data)
      && (r.InvalidClientId? <==>
            ParamRefused(u, request) ||
            (StoredConsulted(u, links, request) && KeyOf(Get(data, ACTIVE_CLIENT_KEY)).BadKey?))
      && (request.None? ==> after == data)
      && (request.None? ==>
            r == Chosen(if |ManagedClients(links, u.id)| > 0 then Some(ManagedClients(links, u.id)[0]) else None))
      && (request.Some? && !RequesterMayHaveClient(u, request.value) ==> r == Chosen(None) && after == data)
      && (ParamSelects(u, links, request) ==>
            r == Chosen(PyInt(request.value.activeClientParam.value)) &&
            after == data[ACTIVE_CLIENT_KEY := VStr(request.value.activeClientParam.value)])
      && (StoredConsulted(u, links, request) ==>
            match KeyOf(Get(data, ACTIVE_CLIENT_KEY))
            case BadKey => r == InvalidClientId
            case Key(id) =>
              if id in ManagedClients(links, u.id) then r == Chosen(Some(id)) && after == data
              else FirstClientChosen(u, links, r, data, after)
            case NullKey => FirstClientChosen(u, links, r, data, after))
  {
    var managed := ManagedClients(links, u.id);
    if request.Some? && RequesterMayHaveClient(u, request.value) && ParamSelects(u, links, request) {
      assert PyInt(request.value.activeClientParam.value).value in managed;
    }
  }

  /**
   * `get_active_client(request)` on a session: the result and the session's
   * new values are `ActiveClientOutcome` of its old values, so every promise
   * of `ActiveClientOutcomeCases` holds of the call.
   */
  method GetActiveClient(u: User, links: seq<UserToClient>, request: Option<ClientRequest>, session: Session)
    returns (r: ActiveClient)
    modifies session
    ensures session.key == old(session.key)
    ensures (r, session.data) == ActiveClientOutcome(u, links, request, old(session.data))
    ensures r.Chosen? && r.client.Some? ==> r.client.value in ManagedClients(links, u.id)
    ensures r.InvalidClientId? ==> request.Some? && session.data == old(session.data)
    ensures r.InvalidClientId? <==>
              ParamRefused(u, request) ||
              (StoredConsulted(u, links, request) && KeyOf(Get(old(session.data), ACTIVE_CLIENT_KEY)).BadKey?)
    ensures request.None? ==> session.data == old(session.data)
    ensures request.None? ==> r == Chosen(if |ManagedClients(links, u.id)| > 0 then Some(ManagedClients(links, u.id)[0]) else None)
    ensures request.Some? && !RequesterMayHaveClient(u, request.value) ==>
              r == Chosen(None) && session.data == old(session.data)
    ensures ParamSelects(u, links, request) ==>
              r == Chosen(PyInt(request.value.activeClientParam.value)) &&
              session.data == old(session.data)[ACTIVE_CLIENT_KEY := VStr(request.value.activeClientParam.value)]
    ensures StoredConsulted(u, links, request) ==>
              match KeyOf(Get(old(session.data), ACTIVE_CLIENT_KEY))
              case BadKey => r == InvalidClientId
              case Key(id) =>
                if id in ManagedClients(links, u.id) then r == Chosen(Some(id)) && session.data == old(session.data)
                else FirstClientChosen(u, links, r, old(session.data), session.data)
              case NullKey => FirstClientChosen(u, links, r, old(session.data), session.data)
  {
    ActiveClientOutcomeCases(u, links, request, session.data);
    r := ApplyActiveClient(u, links, request, session);
  }

  /** The steps of `get_active_client`, in the order the code takes them. */
  method ApplyActiveClient(u: User, links: seq<UserToClient>, request: Option<ClientRequest>, session: Session)
    returns (r: ActiveClient)
    modifies session
    ensures session.key == old(session.key)
    ensures (r, session.data) == ActiveClientOutcome(u, links, request, old(session.data))
  {
    var managed := ManagedClients(links, u.id);
    if request.Some? {
      var req := request.value;
      if IsAdmin(u) || req.requester.None? || IsAdmin(req.requester.value) {
        return Chosen(None);
      }
      if req.activeClientParam.Some? && req.activeClientParam.value != "" {
        var param := req.activeClientParam.value;
        var id := PyInt(param);
        if id.None? {
          return InvalidClientId;
        }
        if id.value in managed {
          if VStr(param) != Get(session.data, ACTIVE_CLIENT_KEY) {
            session.Put(ACTIVE_CLIENT_KEY, VStr(param));
          } else {
            assert session.data == session.data[ACTIVE_CLIENT_KEY := VStr(param)];
          }
          return Chosen(id);
        }
      }
      match KeyOf(Get(session.data, ACTIVE_CLIENT_KEY))
      case BadKey =>
        return InvalidClientId;
      case Key(id) =>
        if id in managed {
          return Chosen(Some(id));
        }
      case NullKey =>
    }
    if |managed| > 0 {
      r := Chosen(Some(managed[0]));
      if request.Some? {
        session.Put(ACTIVE_CLIENT_KEY, VInt(managed[0]));
      }
    } else {
      r := Chosen(None);
    }
  }

  /** Neither the user nor the requester rules out an active client. */
  predicate RequesterMayHaveClient(u: User, req: ClientRequest) {
    !IsAdmin(u) && req.requester.Some? && !IsAdmin(req.requester.value)
  }

  /** A non-empty `active_client` parameter is looked at. */
  predicate ParamGiven(u: User, request: Option<ClientRequest>) {
    && request.Some?
    && RequesterMayHaveClient(u, request.value)
    && request.value.activeClientParam.Some?
    && request.value.activeClientParam.value != ""
  }

  /** The `active_client` parameter is not an integer, so the lookup raises. */
  predicate ParamRefused(u: User, request: Option<ClientRequest>) {
    ParamGiven(u, request) && PyInt(request.value.activeClientParam.value).None?
  }

  /** The `active_client` parameter names a managed client and wins. */
  predicate ParamSelects(u: User, links: seq<UserToClient>, request: Option<ClientRequest>) {
    && ParamGiven(u, request)
    && PyInt(request.value.activeClientParam.value).Some?
    && PyInt(request.value.activeClientParam.value).value in ManagedClients(links, u.id)
  }

  /** No parameter decided, so the id remembered in the session is looked up. */
  predicate StoredConsulted(u: User, links: seq<UserToClient>, request: Option<ClientRequest>) {
    && request.Some?
    && RequesterMayHaveClient(u, request.value)
    && !ParamRefused(u, request)
    && !ParamSelects(u, links, request)
  }

  /** The fallback: the first managed client, remembered in the session, or none with nothing stored. */
  predicate FirstClientChosen(u: User, links: seq<UserToClient>, r: ActiveClient,
                              before: map<string, Value>, after: map<string, Value>) {
    var managed := ManagedClients(links, u.id);
    if |managed| > 0 then r == Chosen(Some(managed[0])) && after == before[ACTIVE_CLIENT_KEY := VInt(managed[0])]
    else r == Chosen(None) && after == before
  }

  // ---------------------------------------------------------------------
  // Currencies
  // ---------------------------------------------------------------------

  datatype Currency = Currency(code: string, rate: real, isDefault: bool)

  /** Number of rows flagged as the default currency. */
  function DefaultCount(rows: seq<Currency>): nat {
    if |rows| == 0 then 0 else (if rows[0].isDefault then 1 else 0) + DefaultCount(rows[1..])
  }

  /** `get_default_currency()`: the one default row; none when there are zero or several. */
  function GetDefaultCurrency(rows: seq<Currency>): (r: Option<Currency>)
    ensures r.Some? <==> DefaultCount(rows) == 1
    ensures r.Some? ==> r.value in rows && r.value.isDefault
  {
    if DefaultCount(rows) == 1 then
      DefaultCountPositive(rows);
      First(rows, (c: Currency) => c.isDefault)
    else None
  }

  lemma {:induction false} DefaultCountPositive(rows: seq<Currency>)
    ensures DefaultCount(rows) > 0 <==> exists i :: 0 <= i < |rows| && rows[i].isDefault
  {
    if |rows| > 0 {
      DefaultCountPositive(rows[1..]);
      if exists i :: 0 <= i < |rows[1..]| && rows[1..][i].isDefault {
        var i :| 0 <= i < |rows[1..]| && rows[1..][i].isDefault;
        assert rows[i + 1].isDefault;
      }
      if exists i :: 0 <= i < |rows| && rows[i].isDefault {
        var i :| 0 <= i < |rows| && rows[i].isDefault;
        if i > 0 { assert rows[1..][i - 1].isDefault; }
      }
    }
  }

  /** `get_default_or_first()`: the first default row, else the first row. */
  function GetDefaultOrFirst(rows: seq<Currency>): (r: Option<Currency>)
    ensures r.None? <==> |rows| == 0
    ensures (exists i :: 0 <= i < |rows| && rows[i].isDefault) ==> r.Some? && r.value.isDefault
    ensures (forall i :: 0 <= i < |rows| ==> !rows[i].isDefault) && |rows| > 0 ==> r == Some(rows[0])
  {
    match First(rows, (c: Currency) => c.isDefault)
    case Some(c) => Some(c)
    case None => if |rows| > 0 then Some(rows[0]) else None
  }

  /**
   * On a table in key order, `get_default_or_first()` is the default
   * currency with the least code, or, when none is the default, the
   * currency with the least code: Django's `.first()` orders by key.
   */
  lemma GetDefaultOrFirstIsLeast(rows: seq<Currency>)
    requires SortedCodes(rows)
    ensures var r := GetDefaultOrFirst(rows);
            r.Some? ==> forall j :: 0 <= j < |rows| && (rows[j].isDefault || !r.value.isDefault) ==>
                          rows[j] == r.value || StrLess(r.value.code, rows[j].code)
  {
    match FirstIndex(rows, (c: Currency) => c.isDefault)
    case Some(i) =>
      forall j | 0 <= j < |rows| && rows[j].isDefault
        ensures rows[j] == rows[i] || StrLess(rows[i].code, rows[j].code)
      {
      }
    case None =>
  }

  /** The `update(is_default=False)` that `save` runs on every other default row. */
  function ClearOtherDefaults(rows: seq<Currency>, code: string): (r: seq<Currency>)
    ensures |r| == |rows|
    ensures forall i :: 0 <= i < |r| ==> r[i].code == rows[i].code && r[i].rate == rows[i].rate
    ensures forall i :: 0 <= i < |r| ==> (r[i].isDefault <==> rows[i].isDefault && rows[i].code == code)
  {
    if |rows| == 0 then []
    else
      var c := rows[0];
      [if c.isDefault && c.code != code then c.(isDefault := false) else c] + ClearOtherDefaults(rows[1..], code)
  }

  /** Where a new code goes in a table kept in key order: before the first greater code. */
  function InsertionPoint(rows: seq<Currency>, code: string): (k: nat)
    ensures k <= |rows|
    ensures forall j :: 0 <= j < k ==> !StrLess(code, rows[j].code)
    ensures k < |rows| ==> StrLess(code, rows[k].code)
  {
    match FirstIndex(rows, (x: Currency) => StrLess(code, x.code))
    case Some(k) => k
    case None => |rows|
  }

  /**
   * Writing a row: the row with the same code is replaced in place; a new
   * code is inserted where key order puts it.
   */
  function Upsert(rows: seq<Currency>, c: Currency): (r: seq<Currency>)
    requires SortedCodes(rows)
    ensures SortedCodes(r)
    ensures c in r
    ensures forall i :: 0 <= i < |r| ==> r[i] == c || (r[i] in rows && r[i].code != c.code)
    ensures forall x :: x in rows && x.code != c.code ==> x in r
  {
    match FirstIndex(rows, (x: Currency) => x.code == c.code)
    case Some(i) =>
      ReplaceKeepsSorted(rows, c, i);
      rows[i := c]
    case None =>
      var k := InsertionPoint(rows, c.code);
      InsertKeepsSorted(rows, c, k);
      InsertKeepsRows(rows, c, k);
      rows[..k] + [c] + rows[k..]
  }

  /** Replacing the row that holds a code keeps the order and every other row. */
  lemma ReplaceKeepsSorted(rows: seq<Currency>, c: Currency, i: nat)
    requires SortedCodes(rows) && i < |rows| && rows[i].code == c.code
    ensures var r := rows[i := c];
      && SortedCodes(r) && c in r
      && (forall j :: 0 <= j < |r| ==> r[j] == c || (r[j] in rows && r[j].code != c.code))
      && (forall x :: x in rows && x.code != c.code ==> x in r)
  {
    var r := rows[i := c];
    assert r[i] == c;
    assert forall j :: 0 <= j < |r| ==> r[j].code == rows[j].code;
    SortedCodesDistinct(rows);
    assert forall j :: 0 <= j < |r| && j != i ==> rows[j].code != c.code by {
      forall j | 0 <= j < |r| && j != i ensures rows[j].code != c.code {
        if j < i { assert rows[j].code != rows[i].code; } else { assert rows[i].code != rows[j].code; }
      }
    }
    assert forall x :: x in rows && x.code != c.code ==> x in r by {
      forall x | x in rows && x.code != c.code ensures x in r {
        var j :| 0 <= j < |rows| && rows[j] == x;
        assert r[j] == x;
      }
    }
  }

  /** Inserting a row keeps every row there was. */
  lemma InsertKeepsRows(rows: seq<Currency>, c: Currency, k: nat)
    requires k <= |rows|
    ensures var r := rows[..k] + [c] + rows[k..];
      && c in r && (forall j :: 0 <= j < |r| ==> r[j] == c || r[j] in rows)
      && (forall x :: x in rows ==> x in r)
  {
    var r := rows[..k] + [c] + rows[k..];
    assert r[k] == c;
    assert forall x :: x in rows ==> x in r by {
      forall x | x in rows ensures x in r {
        var j :| 0 <= j < |rows| && rows[j] == x;
        if j < k { assert r[j] == x; } else { assert r[j + 1] == x; }
      }
    }
  }

  /** Inserting a new code at its insertion point keeps the codes in order. */
  lemma InsertKeepsSorted(rows: seq<Currency>, c: Currency, k: nat)
    requires SortedCodes(rows) && k <= |rows|
    requires forall j :: 0 <= j < |rows| ==> rows[j].code != c.code
    requires forall j :: 0 <= j < k ==> !StrLess(c.code, rows[j].code)
    requires k < |rows| ==> StrLess(c.code, rows[k].code)
    ensures SortedCodes(rows[..k] + [c] + rows[k..])
  {
    var r := rows[..k] + [c] + rows[k..];
    forall i, j | 0 <= i < j < |r|
      ensures StrLess(r[i].code, r[j].code)
    {
      if j < k {
        assert r[i] == rows[i] && r[j] == rows[j];
      } else if j == k {
        assert r[i] == rows[i] && r[j] == c;
        StrLessTotal(rows[i].code, c.code);
      } else if i == k {
        assert r[j] == rows[j - 1];
        if j - 1 > k {
          StrLessTransitive(c.code, rows[k].code, rows[j - 1].code);
        }
      } else if i < k {
        assert r[i] == rows[i] && r[j] == rows[j - 1];
      } else {
        assert r[i] == rows[i - 1] && r[j] == rows[j - 1];
      }
    }
  }

  /** The table is in primary-key order: codes strictly increase. */
  ghost predicate SortedCodes(rows: seq<Currency>) {
    forall i, j :: 0 <= i < j < |rows| ==> StrLess(rows[i].code, rows[j].code)
  }

  /** Primary keys are unique. */
  ghost predicate DistinctCodes(rows: seq<Currency>) {
    forall i, j :: 0 <= i < j < |rows| ==> rows[i].code != rows[j].code
  }

  lemma SortedCodesDistinct(rows: seq<Currency>)
    requires SortedCodes(rows)
    ensures DistinctCodes(rows)
  {
    forall i, j | 0 <= i < j < |rows| ensures rows[i].code != rows[j].code {
      StrLessIrreflexive(rows[i].code);
    }
  }

  class CurrencyTable {
    var rows: seq<Currency>

    ghost predicate Valid()
      reads this
    {
      SortedCodes(rows)
    }

    constructor ()
      ensures Valid() && rows == []
    {
      rows := [];
    }

    /** `Currency.save()`: a default currency first clears every other default. */
    method Save(c: Currency)
      requires Valid()
      modifies this
      ensures Valid()
      ensures rows == Upsert(if c.isDefault then ClearOtherDefaults(old(rows), c.code) else old(rows), c)
      ensures c.isDefault ==> GetDefaultCurrency(rows) == Some(c)
      ensures DefaultCount(old(rows)) <= 1 ==> DefaultCount(rows) <= 1
    {
      var cleared := if c.isDefault then ClearOtherDefaults(rows, c.code) else rows;
      ClearKeepsOrder(rows, cleared);
      rows := Upsert(cleared, c);
      SaveKeepsOneDefault(old(rows), c);
    }
  }

  /** Clearing flags keeps every code where it was, so key order survives. */
  lemma ClearKeepsOrder(old_rows: seq<Currency>, cleared: seq<Currency>)
    requires SortedCodes(old_rows)
    requires |cleared| == |old_rows| && forall i :: 0 <= i < |cleared| ==> cleared[i].code == old_rows[i].code
    ensures SortedCodes(cleared)
  {
  }

  /**
   * Saving a default currency leaves exactly that one default; saving any row
   * never raises the number of defaults above one.
   */
  lemma SaveKeepsOneDefault(rows: seq<Currency>, c: Currency)
    requires SortedCodes(rows)
    ensures SortedCodes(if c.isDefault then ClearOtherDefaults(rows, c.code) else rows)
    ensures var r := Upsert(if c.isDefault then ClearOtherDefaults(rows, c.code) else rows, c);
            (c.isDefault ==> GetDefaultCurrency(r) == Some(c)) &&
            (DefaultCount(rows) <= 1 ==> DefaultCount(r) <= 1)
  {
    if c.isDefault {
      var cleared := ClearOtherDefaults(rows, c.code);
      ClearKeepsOrder(rows, cleared);
      SaveDefaultIsTheDefault(cleared, c);
    } else {
      SaveOtherKeepsCount(rows, c);
    }
  }

  /** After other defaults are cleared, the saved default is the one default. */
  lemma SaveDefaultIsTheDefault(cleared: seq<Currency>, c: Currency)
    requires SortedCodes(cleared) && c.isDefault
    requires forall j :: 0 <= j < |cleared| && cleared[j].isDefault ==> cleared[j].code == c.code
    ensures GetDefaultCurrency(Upsert(cleared, c)) == Some(c)
    ensures DefaultCount(Upsert(cleared, c)) == 1
  {
    var r := Upsert(cleared, c);
    SortedCodesDistinct(r);
    assert forall j :: 0 <= j < |r| && r[j].isDefault ==> r[j] == c;
    var k :| 0 <= k < |r| && r[k] == c;
    assert forall j :: 0 <= j < |r| && j != k ==> !r[j].isDefault by {
      forall j | 0 <= j < |r| && j != k ensures !r[j].isDefault {
        if j < k { assert r[j].code != r[k].code; } else { assert r[k].code != r[j].code; }
      }
    }
    DefaultCountUnique(r, k);
  }

  /** Saving a row that is not the default adds no default. */
  lemma SaveOtherKeepsCount(rows: seq<Currency>, c: Currency)
    requires SortedCodes(rows) && !c.isDefault
    ensures DefaultCount(Upsert(rows, c)) <= DefaultCount(rows)
  {
    var r := Upsert(rows, c);
    match FirstIndex(rows, (x: Currency) => x.code == c.code)
    case Some(k) =>
      assert r == rows[k := c];
      DefaultCountUpdate(rows, k, c);
    case None =>
      var k := InsertionPoint(rows, c.code);
      assert r == rows[..k] + [c] + rows[k..];
      DefaultCountInsert(rows, k, c);
  }

  lemma DefaultCountInsert(rows: seq<Currency>, k: nat, c: Currency)
    requires k <= |rows|
    ensures DefaultCount(rows[..k] + [c] + rows[k..]) == DefaultCount(rows) + (if c.isDefault then 1 else 0)
  {
    assert rows == rows[..k] + rows[k..];
    DefaultCountConcat(rows[..k], rows[k..]);
    DefaultCountConcat(rows[..k] + [c], rows[k..]);
    DefaultCountConcat(rows[..k], [c]);
  }

  lemma {:induction false} DefaultCountConcat(s: seq<Currency>, t: seq<Currency>)
    ensures DefaultCount(s + t) == DefaultCount(s) + DefaultCount(t)
  {
    if |s| > 0 {
      assert (s + t)[1..] == s[1..] + t;
      DefaultCountConcat(s[1..], t);
    } else {
      assert s + t == t;
    }
  }

  lemma {:induction false} DefaultCountUpdate(s: seq<Currency>, i: nat, x: Currency)
    requires i < |s|
    ensures DefaultCount(s[i := x]) ==
            DefaultCount(s) - (if s[i].isDefault then 1 else 0) + (if x.isDefault then 1 else 0)
  {
    if i > 0 {
      assert s[i := x][1..] == s[1..][i - 1 := x];
      DefaultCountUpdate(s[1..], i - 1, x);
    }
  }

  lemma {:induction false} DefaultCountNone(s: seq<Currency>)
    requires forall j :: 0 <= j < |s| ==> !s[j].isDefault
    ensures DefaultCount(s) == 0
  {
    if |s| > 0 {
      DefaultCountNone(s[1..]);
    }
  }

  lemma {:induction false} DefaultCountUnique(s: seq<Currency>, k: nat)
    requires k < |s| && s[k].isDefault
    requires forall j :: 0 <= j < |s| && j != k ==> !s[j].isDefault
    ensures DefaultCount(s) == 1
  {
    if k == 0 {
      DefaultCountNone(s[1..]);
    } else {
      DefaultCountUnique(s[1..], k - 1);
    }
  }
}
