/**
 * Helpers of core/utils.py: the random primary-key generator of the user
 * table, the user-creation helpers with their keyword defaults, and login
 * without a password after a sign-up.
 */
module CoreUtils {
  import opened Common
  import opened Users
  import opened Sessions
  import opened AppityTokens
  import opened TokenStore

  // ---------------------------------------------------------------------
  // RandomId
  // ---------------------------------------------------------------------

  /** One entry of the `APPITY_RANDOM_ID` setting. */
  datatype IdRange = IdRange(min: int, max: int, growAfterCollisions: int, growthFactor: int)

  const DEFAULT_SCOPE := "default"

  /** The scope of a model: its own entry when the setting has one, else 'default'. */
  function Scope(settings: map<string, IdRange>, modelName: string): (scope: string)
    ensures scope == modelName || scope == DEFAULT_SCOPE
    ensures DEFAULT_SCOPE in settings ==> scope in settings
    ensures modelName != DEFAULT_SCOPE ==> (scope == DEFAULT_SCOPE <==> modelName !in settings)
  {
    if modelName in settings then modelName else DEFAULT_SCOPE
  }

  /**
   * What the generator finds for its model: no model class (the lookup
   * failed, as during a migration), a model whose table cannot be queried,
   * or a table with the keys it holds.
   */
  datatype ModelState = NoModel | BrokenTable | Table(ids: set<int>)

  /**
   * The generator's result: a key; `None` when the table could not be
   * queried; `RangeError` for `randint` over an empty range; `OutOfDraws`
   * when the given random draws ran out before a free key turned up.
   */
  datatype IdResult = Id(rid: int) | NoId | RangeError | OutOfDraws

  /** `random.randint(lo, hi)` fed with the raw draw `pick`. */
  function RandInt(lo: int, hi: int, pick: nat): (r: int)
    requires lo <= hi
    ensures lo <= r <= hi
  {
    lo + pick % (hi - lo + 1)
  }

  /**
   * The maximum and the count of collisions in a row after one more
   * collision: once the count reaches `growAfterCollisions` the maximum is
   * multiplied by `growthFactor` and the count starts again.
   */
  function Grow(range: IdRange, maximum: int, retries: nat): (next: (int, nat))
    ensures next.1 == 0 || next.1 == retries + 1
    ensures next.1 == 0 <==> retries + 1 >= range.growAfterCollisions
    ensures next.1 == 0 ==> next.0 == maximum * range.growthFactor
    ensures next.1 != 0 ==> next.0 == maximum
  {
    if retries + 1 >= range.growAfterCollisions then (maximum * range.growthFactor, 0) else (maximum, retries + 1)
  }

  /** The maximum and the count of collisions after `n` collisions in a row. */
  function Schedule(range: IdRange, maximum: int, retries: nat, n: nat): (at: (int, nat))
    ensures range.growthFactor >= 1 && maximum >= 0 ==> at.0 >= maximum
    decreases n
  {
    if n == 0 then (maximum, retries)
    else
      var next := Grow(range, maximum, retries);
      assert range.growthFactor >= 1 && maximum >= 0 ==> next.0 >= maximum by {
        if range.growthFactor >= 1 && maximum >= 0 && next.1 == 0 {
          MultiplyKeepsAtLeast(maximum, range.growthFactor);
        }
      }
      Schedule(range, next.0, next.1, n - 1)
  }

  lemma MultiplyKeepsAtLeast(m: int, f: int)
    requires m >= 0 && f >= 1
    ensures m * f >= m
  {
    assert m * f == m + m * (f - 1);
  }

  /**
   * What the draws `picks` give, starting from `maximum` after `retries`
   * collisions in a row: a draw over an empty range is `RangeError`, without
   * a model class the first draw is the key, a broken table gives `NoId`, a
   * free key is the key, and a taken one moves on to the next draw along
   * the growth schedule. Also returns the maximum in force at the end.
   */
  function Draws(range: IdRange, model: ModelState, maximum: int, retries: nat, picks: seq<nat>): (res: (IdResult, int))
    ensures range.growthFactor >= 1 && maximum >= 0 ==> res.1 >= maximum
    ensures res.0.Id? ==> range.min <= res.0.rid <= res.1
    ensures res.0.Id? && model.Table? ==> res.0.rid !in model.ids
    ensures res.0.NoId? ==> model.BrokenTable?
    ensures res.0.RangeError? ==> range.min > res.1
    ensures res.0.OutOfDraws? ==> model.Table? || |picks| == 0
    decreases |picks|
  {
    if |picks| == 0 then (OutOfDraws, maximum)
    else if maximum < range.min then (RangeError, maximum)
    else
      var rid := RandInt(range.min, maximum, picks[0]);
      match model
      case NoModel => (Id(rid), maximum)
      case BrokenTable => (NoId, maximum)
      case Table(ids) =>
        if rid !in ids then (Id(rid), maximum)
        else
          var next := Grow(range, maximum, retries);
          assert range.growthFactor >= 1 && maximum >= 0 ==> next.0 >= maximum by {
            if range.growthFactor >= 1 && maximum >= 0 && next.1 == 0 {
              MultiplyKeepsAtLeast(maximum, range.growthFactor);
            }
          }
          Draws(range, model, next.0, next.1, picks[1..])
  }

  /** Every draw of `picks`, over the range the growth schedule gives it, is a key in `ids`. */
  predicate AllCollide(range: IdRange, ids: set<int>, maximum: int, retries: nat, picks: seq<nat>) {
    forall k :: 0 <= k < |picks| ==>
      range.min <= Schedule(range, maximum, retries, k).0 &&
      RandInt(range.min, Schedule(range, maximum, retries, k).0, picks[k]) in ids
  }

  /** All draws collide when the first does and the rest collide from the grown schedule. */
  lemma AllCollideStep(range: IdRange, ids: set<int>, maximum: int, retries: nat, picks: seq<nat>)
    requires |picks| > 0
    ensures AllCollide(range, ids, maximum, retries, picks) <==>
              && range.min <= maximum
              && RandInt(range.min, maximum, picks[0]) in ids
              && AllCollide(range, ids, Grow(range, maximum, retries).0, Grow(range, maximum, retries).1, picks[1..])
  {
    var next := Grow(range, maximum, retries);
    assert Schedule(range, maximum, retries, 0) == (maximum, retries);
    forall k | 1 <= k < |picks|
      ensures Schedule(range, maximum, retries, k) == Schedule(range, next.0, next.1, k - 1)
      ensures picks[k] == picks[1..][k - 1]
    {
    }
    if AllCollide(range, ids, next.0, next.1, picks[1..]) && range.min <= maximum &&
       RandInt(range.min, maximum, picks[0]) in ids {
      forall k | 0 <= k < |picks|
        ensures range.min <= Schedule(range, maximum, retries, k).0
        ensures RandInt(range.min, Schedule(range, maximum, retries, k).0, picks[k]) in ids
      {
        if k > 0 {
          assert picks[1..][k - 1] == picks[k];
        }
      }
    }
    if AllCollide(range, ids, maximum, retries, picks) {
      forall k | 0 <= k < |picks[1..]|
        ensures range.min <= Schedule(range, next.0, next.1, k).0
        ensures RandInt(range.min, Schedule(range, next.0, next.1, k).0, picks[1..][k]) in ids
      {
        assert Schedule(range, maximum, retries, k + 1) == Schedule(range, next.0, next.1, k);
      }
    }
  }

  /**
   * The draws run out exactly when every one of them, over the range the
   * growth schedule gives it, is a key already in the table.
   */
  lemma {:induction false} OutOfDrawsIffAllCollide(range: IdRange, ids: set<int>, maximum: int, retries: nat,
                                                   picks: seq<nat>)
    ensures Draws(range, Table(ids), maximum, retries, picks).0.OutOfDraws? <==>
              AllCollide(range, ids, maximum, retries, picks)
    decreases |picks|
  {
    if |picks| > 0 {
      var next := Grow(range, maximum, retries);
      AllCollideStep(range, ids, maximum, retries, picks);
      if maximum >= range.min && RandInt(range.min, maximum, picks[0]) in ids {
        OutOfDrawsIffAllCollide(range, ids, next.0, next.1, picks[1..]);
      }
    }
  }

  /**
   * `RandomId.__call__`. `picks` are the successive random draws; the
   * result is what `Draws` gives from `MAX` with no collisions yet.
   */
  method RandomId(settings: map<string, IdRange>, modelName: string, model: ModelState, picks: seq<nat>)
    returns (r: IdResult, maximum: int)
    requires Scope(settings, modelName) in settings
    ensures var range := settings[Scope(settings, modelName)];
            && (r, maximum) == Draws(range, model, range.max, 0, picks)
            && (range.growthFactor >= 1 && range.max >= 0 ==> maximum >= range.max)
            && (r.Id? ==> range.min <= r.rid <= maximum)
            && (r.Id? && model.Table? ==> r.rid !in model.ids)
            && (r.NoId? ==> model.BrokenTable?)
            && (r.RangeError? ==> range.min > maximum)
            && (r.OutOfDraws? ==> model.Table? || |picks| == 0)
            && (|picks| > 0 && range.min <= range.max && model.NoModel? ==>
                  r == Id(RandInt(range.min, range.max, picks[0])))
            && (|picks| > 0 && range.min <= range.max && model.BrokenTable? ==> r == NoId)
            && (|picks| > 0 && range.min <= range.max && model.Table? &&
                RandInt(range.min, range.max, picks[0]) !in model.ids ==>
                  r == Id(RandInt(range.min, range.max, picks[0])))
  {
    var range := settings[Scope(settings, modelName)];
    maximum := range.max;
    var retries: nat := 0;
    var k := 0;
    while k < |picks|
      invariant 0 <= k <= |picks|
      invariant Draws(range, model, range.max, 0, picks) == Draws(range, model, maximum, retries, picks[k..])
      decreases |picks| - k
    {
      if maximum < range.min {
        return RangeError, maximum;
      }
      var rid := RandInt(range.min, maximum, picks[k]);
      assert picks[k..][1..] == picks[k + 1..];
      k := k + 1;
      match model
      case NoModel =>
        return Id(rid), maximum;
      case BrokenTable =>
        return NoId, maximum;
      case Table(ids) =>
        if rid !in ids {
          return Id(rid), maximum;
        }
      retries := retries + 1;
      if retries >= range.growAfterCollisions {
        maximum := maximum * range.growthFactor;
        retries := 0;
      }
    }
    r := OutOfDraws;
  }

  /** A key drawn for the user table is free, so appending the new user keeps keys unique. */
  lemma RandomIdKeepsKeysUnique(users: seq<User>, rid: int)
    requires Pairwise(users, (a: User, b: User) => a.id != b.id)
    requires forall j :: 0 <= j < |users| ==> users[j].id != rid
    ensures forall u: User :: u.id == rid ==> Pairwise(users + [u], (a: User, b: User) => a.id != b.id)
  {
    forall u: User | u.id == rid ensures Pairwise(users + [u], (a: User, b: User) => a.id != b.id) {
      AppendPairwise(users, u, (a: User, b: User) => a.id != b.id);
    }
  }

  // ---------------------------------------------------------------------
  // User creation
  // ---------------------------------------------------------------------

  /** `dict.setdefault(k, v)`'s effect on the dictionary. */
  function SetDefault(d: map<string, Value>, k: string, v: Value): (r: map<string, Value>)
    ensures k in r && (k in d ==> r[k] == d[k]) && (k !in d ==> r[k] == v)
    ensures r.Keys == d.Keys + {k}
    ensures forall j :: j in d && j != k ==> r[j] == d[j]
  {
    if k in d then d else d[k := v]
  }

  /**
   * `normalize_email`: the address is stripped and the part after its last
   * '@' lower-cased. An address that holds no '@' once stripped comes back
   * exactly as given, surrounding white space included.
   */
  function NormalizeEmail(email: string): (r: string)
    ensures '@' !in Strip(email) ==> r == email
    ensures '@' in Strip(email) ==>
              var domain := AfterLast('@', Strip(email));
              && |r| == |Strip(email)| && Strip(r) == r
              && r[..|r| - |domain|] == Strip(email)[..|r| - |domain|]
              && AfterLast('@', r) == Lower(domain)
  {
    var t := Strip(email);
    if '@' in t then
      StripIdempotent(email);
      LowerDomain(t)
    else email
  }

  /**
   * The address `t` with everything up to its last '@' kept and the rest
   * lower-cased; a stripped address stays stripped.
   */
  function LowerDomain(t: string): (r: string)
    requires '@' in t
    ensures |r| == |t|
    ensures r[..|t| - |AfterLast('@', t)|] == t[..|t| - |AfterLast('@', t)|]
    ensures AfterLast('@', r) == Lower(AfterLast('@', t))
    ensures Strip(t) == t ==> Strip(r) == r
  {
    var domain := AfterLast('@', t);
    var n := t[..|t| - |domain|] + Lower(domain);
    AfterLastSplits('@', t);
    LowerDomainSplits(t, domain, n);
    LowerDomainTrimmed(t, domain, n);
    n
  }

  lemma LowerDomainSplits(t: string, domain: string, n: string)
    requires '@' in t && domain == AfterLast('@', t) && |domain| < |t|
    requires t == t[..|t| - |domain| - 1] + ['@'] + domain
    requires n == t[..|t| - |domain|] + Lower(domain)
    ensures AfterLast('@', n) == Lower(domain)
  {
    var p := t[..|t| - |domain| - 1];
    assert t[..|t| - |domain|] == p + ['@'];
    assert '@' !in Lower(domain) by {
      forall i | 0 <= i < |domain| ensures Lower(domain)[i] != '@' {
        assert domain[i] != '@';
      }
    }
    assert n == p + ['@'] + Lower(domain);
    AfterLastOfSuffix('@', p, Lower(domain));
  }

  lemma LowerDomainTrimmed(t: string, domain: string, n: string)
    requires |domain| < |t|
    requires t == t[..|t| - |domain| - 1] + ['@'] + domain
    requires n == t[..|t| - |domain|] + Lower(domain)
    ensures Strip(t) == t ==> Strip(n) == n
  {
    if Strip(t) == t {
      assert t != "" && !IsSpaceChar(t[0]) && !IsSpaceChar(t[|t| - 1]);
      assert n[0] == t[0];
      assert !IsSpaceChar(n[|n| - 1]) by {
        if |domain| > 0 {
          assert t[|t| - 1] == domain[|domain| - 1];
          assert n[|n| - 1] == LowerChar(t[|t| - 1]);
        }
      }
      StripOfTrimmed(n);
    }
  }

  /** Normalizing twice is normalizing once. */
  lemma NormalizeEmailIdempotent(email: string)
    ensures NormalizeEmail(NormalizeEmail(email)) == NormalizeEmail(email)
  {
    var t := Strip(email);
    if '@' in t {
      var domain := AfterLast('@', t);
      var n := NormalizeEmail(email);
      AfterLastSplits('@', t);
      assert n[|t| - |domain| - 1] == t[|t| - |domain| - 1] == '@';
      LowerIdempotent(domain);
      assert n == n[..|n| - |domain|] + Lower(domain);
    }
  }

  /** A space on either side of an address that holds '@' is dropped; the rest is normalized as before. */
  lemma NormalizeEmailStrips(e: string)
    requires '@' in e && Strip(e) == e
    ensures NormalizeEmail(" " + e + " ") == NormalizeEmail(e)
  {
    StripPadded(e);
  }

  lemma StripPadded(e: string)
    requires e != "" && !IsSpaceChar(e[0]) && !IsSpaceChar(e[|e| - 1])
    ensures Strip(" " + e + " ") == e
  {
    assert (" " + e + " ")[1..] == e + " ";
    assert LStrip(e + " ") == e + " ";
    assert (e + " ")[..|e|] == e;
  }

  /** An address without '@' keeps its surrounding white space. */
  lemma NormalizeEmailKeepsUnsplit(e: string)
    requires '@' !in e
    ensures NormalizeEmail(" " + e + " ") == " " + e + " "
  {
    StripIsSlice(" " + e + " ");
  }

  /** With a `c` in `s`, `s` is what precedes the last `c`, the `c`, and what follows it. */
  lemma {:induction false} AfterLastSplits(c: char, s: string)
    requires c in s
    ensures |AfterLast(c, s)| < |s|
    ensures s == s[..|s| - |AfterLast(c, s)| - 1] + [c] + AfterLast(c, s)
  {
    if s[|s| - 1] != c {
      var s' := s[..|s| - 1];
      assert c in s';
      AfterLastSplits(c, s');
      assert s == s' + [s[|s| - 1]];
    }
  }

  lemma LowerIdempotent(s: string)
    ensures Lower(Lower(s)) == Lower(s)
  {
  }

  /** `make_password`: an opaque hash of the password, or an unusable password for `None`. */
  type Hasher = Option<string> -> string

  /**
   * What a model field makes of a keyword value when the row is saved: the
   * value stored, `NULL` (which the user table's NOT NULL columns refuse
   * with `IntegrityError`), or a value the field itself refuses with
   * `ValidationError` before the row is written.
   */
  datatype Column<T> = Stored(value: T) | Null | Rejected

  /**
   * `BooleanField.to_python` as saving applies it: `None` is `NULL`; the
   * booleans, 1 and 0, and the texts 't', 'True', '1', 'f', 'False' and
   * '0' are stored as the flag they spell; any other value is rejected.
   */
  function FlagColumn(v: Value): (c: Column<bool>)
    ensures c.Null? <==> v.VNone?
    ensures c == Stored(true) <==> SpellsTrue(v)
    ensures c == Stored(false) <==> SpellsFalse(v)
  {
    match v
    case VNone => Null
    case VBool(b) => Stored(b)
    case VInt(i) => if i == 1 then Stored(true) else if i == 0 then Stored(false) else Rejected
    case VStr(s) =>
      if s == "t" || s == "True" || s == "1" then Stored(true)
      else if s == "f" || s == "False" || s == "0" then Stored(false)
      else Rejected
  }

  /** The values `BooleanField` reads as True. */
  predicate SpellsTrue(v: Value) {
    v == VBool(true) || v == VInt(1) || v == VStr("t") || v == VStr("True") || v == VStr("1")
  }

  /** The values `BooleanField` reads as False. */
  predicate SpellsFalse(v: Value) {
    v == VBool(false) || v == VInt(0) || v == VStr("f") || v == VStr("False") || v == VStr("0")
  }

  /** A boolean or an integer that the field stores is stored as its Python truth value. */
  lemma FlagColumnFollowsTruthiness(v: Value)
    requires (v.VBool? || v.VInt?) && FlagColumn(v).Stored?
    ensures FlagColumn(v).value == Truthy(v)
  {
  }

  /** The text 'False' is truthy, yet the field stores it as False; the integer 2 is truthy, yet rejected. */
  lemma FlagColumnIsNotTruthiness()
    ensures Truthy(VStr("False")) && FlagColumn(VStr("False")) == Stored(false)
    ensures Truthy(VInt(2)) && FlagColumn(VInt(2)).Rejected?
  {
  }

  /**
   * `CharField.to_python` as saving applies it: text is stored as it is,
   * `None` is `NULL`, and any other value as its `str()`, which for an
   * integer reads back as that integer.
   */
  function TextColumn(v: Value): (c: Column<string>)
    ensures c.Null? <==> v.VNone?
    ensures !c.Rejected?
    ensures v.VStr? ==> c == Stored(v.s)
    ensures v.VInt? ==> c.Stored? && PyInt(c.value) == Some(v.i)
    ensures v.VBool? ==> c == Stored(if v.b then "True" else "False")
  {
    match v
    case VNone => Null
    case VBool(b) => Stored(if b then "True" else "False")
    case VInt(i) =>
      PyIntOfIntToString(i);
      Stored(IntToString(i))
    case VStr(s) => Stored(s)
  }

  /** The column of a flag field: the keyword value if one is given, else the model's default. */
  function FlagField(fields: map<string, Value>, name: string, default: bool): Column<bool> {
    if name in fields then FlagColumn(fields[name]) else Stored(default)
  }

  /** The column of a text field: the keyword value if one is given, else the model's default, the empty text. */
  function TextField(fields: map<string, Value>, name: string): Column<string> {
    if name in fields then TextColumn(fields[name]) else Stored("")
  }

  /** `None` is given for the field `name`. */
  predicate NoneGiven(fields: map<string, Value>, name: string) {
    name in fields && fields[name].VNone?
  }

  /** Some flag given in `fields` is a value `BooleanField` rejects. */
  predicate FlagRejected(fields: map<string, Value>) {
    || FlagField(fields, "is_staff", false).Rejected?
    || FlagField(fields, "is_superuser", false).Rejected?
    || FlagField(fields, "is_active", true).Rejected?
    || FlagField(fields, "unregistered", false).Rejected?
  }

  /** `None` is given for one of the user fields, all of whose columns are NOT NULL. */
  predicate NullGiven(fields: map<string, Value>) {
    || NoneGiven(fields, "first_name") || NoneGiven(fields, "last_name") || NoneGiven(fields, "language")
    || NoneGiven(fields, "is_staff") || NoneGiven(fields, "is_superuser")
    || NoneGiven(fields, "is_active") || NoneGiven(fields, "unregistered")
  }

  /** The row `user_model(email=..., **fields)` saves, or how saving it fails before the unique columns are checked. */
  datatype UserRow = Row(user: User) | RejectedField | NullField

  /**
   * The user `appity_create_user` builds from the normalized address and the
   * keyword fields, and saves:
   * a rejected flag raises `ValidationError` before anything is written, a
   * `None` field is refused by its NOT NULL column, and otherwise every
   * field holds what its column makes of the value given, or the model's
   * default (active, neither staff nor superuser, registered, empty texts).
   */
  function UserFromFields(id: UserId, email: string, password: Option<string>, fields: map<string, Value>,
                          hash: Hasher): (r: UserRow)
    ensures r.RejectedField? <==> FlagRejected(fields)
    ensures r.NullField? <==> !FlagRejected(fields) && NullGiven(fields)
    ensures r.Row? ==>
              && r.user.id == id && r.user.email == email && r.user.password == hash(password)
              && FlagField(fields, "is_staff", false) == Stored(r.user.isStaff)
              && FlagField(fields, "is_superuser", false) == Stored(r.user.isSuperuser)
              && r.user.isActive.Some? && FlagField(fields, "is_active", true) == Stored(r.user.isActive.value)
              && FlagField(fields, "unregistered", false) == Stored(r.user.unregistered)
              && TextField(fields, "first_name") == Stored(r.user.firstName)
              && TextField(fields, "last_name") == Stored(r.user.lastName)
              && TextField(fields, "language") == Stored(r.user.language)
  {
    var staff := FlagField(fields, "is_staff", false);
    var superuser := FlagField(fields, "is_superuser", false);
    var active := FlagField(fields, "is_active", true);
    var unregistered := FlagField(fields, "unregistered", false);
    var first := TextField(fields, "first_name");
    var last := TextField(fields, "last_name");
    var language := TextField(fields, "language");
    if staff.Rejected? || superuser.Rejected? || active.Rejected? || unregistered.Rejected? then RejectedField
    else if staff.Null? || superuser.Null? || active.Null? || unregistered.Null? ||
            first.Null? || last.Null? || language.Null? then NullField
    else
      Row(User(id, email, hash(password), first.value, last.value, language.value,
               staff.value, superuser.value, Some(active.value), unregistered.value))
  }

  /**
   * `setdefault` of a field with a value that is neither `None` nor a
   * rejected flag changes neither whether a flag is rejected nor whether a
   * `None` is given.
   */
  lemma SetDefaultKeepsChecks(fields: map<string, Value>, name: string, v: Value)
    requires !v.VNone?
    requires name == "is_staff" || name == "is_superuser" || name == "is_active" || name == "unregistered" ==>
               !FlagColumn(v).Rejected?
    ensures FlagRejected(SetDefault(fields, name, v)) <==> FlagRejected(fields)
    ensures NullGiven(SetDefault(fields, name, v)) <==> NullGiven(fields)
  {
  }

  /** The seven columns of `f` and `g` agree. */
  predicate SameColumns(f: map<string, Value>, g: map<string, Value>) {
    && FlagField(f, "is_staff", false) == FlagField(g, "is_staff", false)
    && FlagField(f, "is_superuser", false) == FlagField(g, "is_superuser", false)
    && FlagField(f, "is_active", true) == FlagField(g, "is_active", true)
    && FlagField(f, "unregistered", false) == FlagField(g, "unregistered", false)
    && TextField(f, "first_name") == TextField(g, "first_name")
    && TextField(f, "last_name") == TextField(g, "last_name")
    && TextField(f, "language") == TextField(g, "language")
  }

  /** Keyword fields whose columns agree build the same row. */
  lemma SameColumnsSameRow(id: UserId, email: string, password: Option<string>, f: map<string, Value>,
                           g: map<string, Value>, hash: Hasher)
    requires SameColumns(f, g)
    ensures UserFromFields(id, email, password, f, hash) == UserFromFields(id, email, password, g, hash)
  {
  }

  /** Setting False as the default of a flag whose model default is False builds the same row. */
  lemma FalseDefaultKeepsRow(id: UserId, email: string, password: Option<string>, fields: map<string, Value>,
                             hash: Hasher, name: string)
    requires name == "is_staff" || name == "is_superuser"
    ensures UserFromFields(id, email, password, SetDefault(fields, name, VBool(false)), hash) ==
            UserFromFields(id, email, password, fields, hash)
  {
    var d := SetDefault(fields, name, VBool(false));
    assert SameColumns(d, fields) by {
      assert FlagField(d, name, false) == FlagField(fields, name, false);
    }
    SameColumnsSameRow(id, email, password, d, fields, hash);
  }

  /**
   * The keyword fields `appity_create_superuser` passes on: both flags
   * default to True and `language` to 'en'.
   */
  function SuperuserFields(extraFields: map<string, Value>): (fields: map<string, Value>)
    ensures "is_staff" in fields && "is_superuser" in fields && "language" in fields
    ensures fields["is_staff"] == if "is_staff" in extraFields then extraFields["is_staff"] else VBool(true)
    ensures fields["is_superuser"] ==
              if "is_superuser" in extraFields then extraFields["is_superuser"] else VBool(true)
    ensures fields["language"] == if "language" in extraFields then extraFields["language"] else VStr("en")
    ensures fields["is_staff"] == VBool(true) && fields["is_superuser"] == VBool(true) ==>
              (FlagRejected(fields) <==> FlagRejected(extraFields))
    ensures NullGiven(fields) <==> NullGiven(extraFields)
  {
    var staff := SetDefault(extraFields, "is_staff", VBool(true));
    SetDefaultKeepsChecks(extraFields, "is_staff", VBool(true));
    var superuser := SetDefault(staff, "is_superuser", VBool(true));
    SetDefaultKeepsChecks(staff, "is_superuser", VBool(true));
    SetDefaultKeepsChecks(superuser, "language", VStr("en"));
    SetDefault(superuser, "language", VStr("en"))
  }

  /** What the user helpers end with. */
  datatype CreateResult =
    | CreatedUser(user: User)
    | ValueError(message: string)
    /** A flag field rejected the value given for it. */
    | FieldValidationError
    /** A NOT NULL column got `None`, or the address or the key is already in the table. */
    | UserIntegrityError

  /**
   * `appity_create_user`: `is_staff` and `is_superuser` default to False,
   * values the caller passes are kept; the address is normalized and the
   * user saved with the key `id`. Saving refuses a rejected flag, a `None`
   * field, and an address or a key that another user already has.
   */
  method CreateUser(users: seq<User>, id: UserId, email: string, password: Option<string>,
                    extraFields: map<string, Value>, hash: Hasher)
    returns (r: CreateResult, after: seq<User>)
    ensures !r.ValueError?
    ensures r.FieldValidationError? <==> FlagRejected(extraFields)
    ensures r.UserIntegrityError? <==>
              !FlagRejected(extraFields) && (NullGiven(extraFields) || Taken(users, NormalizeEmail(email), id))
    ensures !r.CreatedUser? ==> after == users
    ensures r.CreatedUser? ==>
              && after == users + [r.user]
              && UserFromFields(id, NormalizeEmail(email), password, extraFields, hash) == Row(r.user)
              && ("is_staff" !in extraFields ==> !r.user.isStaff)
              && ("is_superuser" !in extraFields ==> !r.user.isSuperuser)
    ensures r.CreatedUser? && Pairwise(users, UserPairOk) ==> Pairwise(after, UserPairOk)
  {
    var fields := extraFields;
    var normalized := NormalizeEmail(email);
    FalseDefaultKeepsRow(id, normalized, password, fields, hash, "is_staff");
    fields := SetDefault(fields, "is_staff", VBool(false));
    FalseDefaultKeepsRow(id, normalized, password, fields, hash, "is_superuser");
    fields := SetDefault(fields, "is_superuser", VBool(false));
    var row := UserFromFields(id, normalized, password, fields, hash);
    if row.RejectedField? {
      return FieldValidationError, users;
    }
    if row.NullField? || Taken(users, row.user.email, id) {
      return UserIntegrityError, users;
    }
    r := CreatedUser(row.user);
    after := users + [row.user];
    if Pairwise(users, UserPairOk) {
      AppendUntakenKeepsUnique(users, row.user);
    }
  }

  const STAFF_REQUIRED := "Superuser must have is_staff=True."
  const SUPERUSER_REQUIRED := "Superuser must have is_superuser=True."

  /**
   * `appity_create_superuser`: both flags default to True and `language` to
   * 'en'; a flag that is present but not the boolean True raises
   * `ValueError`, the staff flag being checked first. Otherwise the user is
   * created as `appity_create_user` does, with the same refusals.
   */
  method CreateSuperuser(users: seq<User>, id: UserId, email: string, password: Option<string>,
                         extraFields: map<string, Value>, hash: Hasher)
    returns (r: CreateResult, after: seq<User>)
    ensures r.ValueError? <==>
              ("is_staff" in extraFields && extraFields["is_staff"] != VBool(true)) ||
              ("is_superuser" in extraFields && extraFields["is_superuser"] != VBool(true))
    ensures r.ValueError? && "is_staff" in extraFields && extraFields["is_staff"] != VBool(true) ==>
              r.message == STAFF_REQUIRED
    ensures r.ValueError? && !("is_staff" in extraFields && extraFields["is_staff"] != VBool(true)) ==>
              r.message == SUPERUSER_REQUIRED
    ensures !r.ValueError? ==> (r.FieldValidationError? <==> FlagRejected(extraFields))
    ensures !r.ValueError? ==>
              (r.UserIntegrityError? <==>
                 !FlagRejected(extraFields) && (NullGiven(extraFields) || Taken(users, NormalizeEmail(email), id)))
    ensures !r.CreatedUser? ==> after == users
    ensures r.CreatedUser? ==>
              && after == users + [r.user]
              && r.user.isStaff && r.user.isSuperuser
              && r.user.id == id && r.user.email == NormalizeEmail(email)
              && r.user.language == (if "language" in extraFields then TextColumn(extraFields["language"]).value
                                     else "en")
    ensures r.CreatedUser? && Pairwise(users, UserPairOk) ==> Pairwise(after, UserPairOk)
  {
    var fields := SuperuserFields(extraFields);
    if Get(fields, "is_staff") != VBool(true) {
      return ValueError(STAFF_REQUIRED), users;
    }
    if Get(fields, "is_superuser") != VBool(true) {
      return ValueError(SUPERUSER_REQUIRED), users;
    }
    r, after := CreateUser(users, id, email, password, fields, hash);
  }

  /** A flag given as 1 would be stored as True, yet `appity_create_superuser` refuses it. */
  lemma SuperuserFlagMustBeBooleanTrue(extraFields: map<string, Value>)
    requires "is_staff" in extraFields && extraFields["is_staff"] == VInt(1)
    ensures FlagColumn(extraFields["is_staff"]) == Stored(true) && extraFields["is_staff"] != VBool(true)
  {
  }

  // ---------------------------------------------------------------------
  // login_without_password
  // ---------------------------------------------------------------------

  /**
   * `user == found` for a model instance: Django compares instances of the
   * same model by primary key, and nothing equals `None`.
   */
  predicate SameRow(user: User, found: Option<User>) {
    found.Some? && found.value.id == user.id
  }

  /**
   * The backend `login_without_password` settles on: the one the user already
   * carries, else the first configured backend whose `get_user(pk)` returns
   * a row with this user's key, else none.
   */
  function ChooseBackend(user: User, backend: Option<string>, backends: seq<string>,
                         getUser: (string, UserId) -> Option<User>): (r: Option<string>)
    ensures backend.Some? ==> r == backend
    ensures backend.None? && r.Some? ==>
              && r.value in backends
              && getUser(r.value, user.id).Some? && getUser(r.value, user.id).value.id == user.id
    ensures backend.None? && r.Some? ==>
              exists j :: 0 <= j < |backends| && backends[j] == r.value &&
                forall i :: 0 <= i < j ==> !SameRow(user, getUser(backends[i], user.id))
    ensures backend.None? && r.None? <==>
              backend.None? && forall j :: 0 <= j < |backends| ==> !SameRow(user, getUser(backends[j], user.id))
  {
    if backend.Some? then backend
    else First(backends, (b: string) => SameRow(user, getUser(b, user.id)))
  }

  /** A backend whose `get_user` hands back another instance of the same row (a fresh copy, say) is accepted. */
  lemma ChooseBackendAcceptsCopies(user: User, copy: User, b: string, getUser: (string, UserId) -> Option<User>)
    requires copy.id == user.id && getUser(b, user.id) == Some(copy)
    ensures ChooseBackend(user, None, [b], getUser) == Some(b)
  {
  }

  /** How `login_without_password` ends. */
  datatype PasswordlessLogin =
    | NoBackend
    | LoggedInWithoutPassword
    /** `token_login` raised `IntegrityError`: the new token's string was taken. */
    | PasswordlessIntegrityError

  /**
   * `login_without_password`: logs the user in through `token_login`, with
   * no session length, when a backend is settled on; otherwise changes
   * nothing. An `IntegrityError` from `token_login` propagates.
   */
  method LoginWithoutPassword(db: Db, request: Request, user: User, backend: Option<string>, backends: seq<string>,
                              getUser: (string, UserId) -> Option<User>, cfg: Settings, now: int,
                              newKey: SessionKey, authHash: string, entropy: seq<byte>)
    returns (r: PasswordlessLogin)
    requires db.Valid() && user in db.users && |entropy| == TOKEN_RANDOM_BYTES
    requires forall i :: 0 <= i < |db.tokens| ==> db.tokens[i].sessionId != Some(newKey)
    modifies db, request, request.session
    ensures db.Valid() && db.users == old(db.users)
    ensures r.NoBackend? <==> ChooseBackend(user, backend, backends, getUser).None?
    ensures r.NoBackend? ==> unchanged(db, request, request.session)
    ensures !r.NoBackend? ==> request.user == Some(user) && request.session.key == Some(newKey)
    ensures var kept := TokensAfterFlush(old(db.tokens), old(request.session.key));
            && (r.PasswordlessIntegrityError? <==>
                  && ChooseBackend(user, backend, backends, getUser).Some?
                  && newKey != ""
                  && TokenInUse(kept, GenerateToken(user.email, entropy)))
            && (r.PasswordlessIntegrityError? ==> db.tokens == kept)
            && (r.LoggedInWithoutPassword? && newKey != "" ==>
                  && request.auth.Some?
                  && request.auth.value.token == GenerateToken(user.email, entropy)
                  && request.auth.value.sessionId == Some(newKey)
                  && db.tokens == kept + [request.auth.value])
  {
    var chosen := ChooseBackend(user, backend, backends, getUser);
    if chosen.None? {
      return NoBackend;
    }
    var issued := TokenLogin(db, request, user, None, cfg, now, newKey, authHash, entropy);
    if issued.Some? && issued.value.IntegrityError? {
      r := PasswordlessIntegrityError;
    } else {
      r := LoggedInWithoutPassword;
    }
  }
}
