/**
 * The login and sign-up serializers (core/authentication/serializers.py):
 * the login fields and their defaults, the sign-up checks that keep the
 * e-mail address out of the password and refuse an address already
 * registered, and `create`, which either completes a pending (unregistered)
 * account or adds a new one.
 */
module Signup {
  import opened Common
  import opened Users

  // ---------------------------------------------------------------------
  // DRF CharField
  // ---------------------------------------------------------------------

  /** The options of a `CharField` this model distinguishes. */
  datatype FieldSpec = FieldSpec(maxLength: Option<nat>, allowBlank: bool)

  /** A character `ProhibitNullCharactersValidator` refuses. */
  predicate IsNul(c: char) { c as int == 0 }

  /**
   * `CharField.run_validation` on a text: stripped of surrounding
   * whitespace (`trim_whitespace=True`); blank is refused unless allowed
   * and is then kept without further checks; otherwise the text must fit
   * `max_length` and hold no NUL character.
   */
  function CleanText(text: string, spec: FieldSpec): (r: Option<string>)
    ensures r.Some? ==> r.value == Strip(text)
    ensures r.Some? <==>
              if Strip(text) == "" then spec.allowBlank
              else (spec.maxLength.None? || |Strip(text)| <= spec.maxLength.value) &&
                   forall i :: 0 <= i < |Strip(text)| ==> !IsNul(Strip(text)[i])
  {
    var t := Strip(text);
    if t == "" then (if spec.allowBlank then Some("") else None)
    else if (spec.maxLength.Some? && |t| > spec.maxLength.value) || (exists i :: 0 <= i < |t| && IsNul(t[i])) then None
    else Some(t)
  }

  /**
   * A `CharField` with `allow_null=False`: a string, or a number read as
   * its decimal text, is cleaned by `CleanText`; `None` for a missing field
   * (the `Get` default), `null` or a boolean is the validation error.
   */
  function CharField(v: Value, spec: FieldSpec): (r: Option<string>)
    ensures r.Some? ==> Strip(r.value) == r.value
    ensures r.Some? && !spec.allowBlank ==> r.value != ""
    ensures r.Some? && spec.maxLength.Some? ==> |r.value| <= spec.maxLength.value
    ensures r.Some? ==> forall i :: 0 <= i < |r.value| ==> !IsNul(r.value[i])
    ensures v.VStr? ==> r == CleanText(v.s, spec)
    ensures v.VNone? || v.VBool? ==> r.None?
  {
    match v
    case VStr(s) => StripIdempotent(s); CleanText(s, spec)
    case VInt(i) => StripIdempotent(IntToString(i)); CleanText(IntToString(i), spec)
    case _ => None
  }

  /** A cleaned value passes the same field again unchanged. */
  lemma CharFieldIdempotent(v: Value, spec: FieldSpec)
    requires CharField(v, spec).Some?
    ensures CharField(VStr(CharField(v, spec).value), spec) == CharField(v, spec)
  {
    var t := CharField(v, spec).value;
    assert Strip(t) == t;
    assert CharField(VStr(t), spec) == CleanText(t, spec);
    if t == "" {
      assert spec.allowBlank;
    } else {
      assert forall i :: 0 <= i < |t| ==> !IsNul(t[i]);
      assert CleanText(t, spec) == Some(t);
    }
  }

  /** Whitespace around the text changes neither whether a field passes nor what it keeps. */
  lemma CharFieldIgnoresPadding(a: string, s: string, b: string, spec: FieldSpec)
    requires forall i :: 0 <= i < |a| ==> IsSpaceChar(a[i])
    requires forall i :: 0 <= i < |b| ==> IsSpaceChar(b[i])
    ensures CharField(VStr(a + s + b), spec) == CharField(VStr(s), spec)
  {
    StripPadding(a, s, b);
  }

  /** A text that is nothing but whitespace is blank, and a field that refuses blanks refuses it. */
  lemma CharFieldRefusesWhitespace(s: string, spec: FieldSpec)
    requires !spec.allowBlank
    requires forall i :: 0 <= i < |s| ==> IsSpaceChar(s[i])
    ensures CharField(VStr(s), spec).None?
  {
    assert s == s + "" + "";
    StripPadding(s, "", "");
  }

  // ---------------------------------------------------------------------
  // LoginSerializer
  // ---------------------------------------------------------------------

  const LOGIN_MAX_LENGTH := 255
  const LOGIN_FIELD := FieldSpec(Some(LOGIN_MAX_LENGTH), false)

  /** The validated login fields. */
  datatype LoginData = LoginData(email: string, password: string, rememberMe: bool)

  /**
   * `LoginSerializer`: e-mail and password are required `CharField`s of at
   * most 255 characters, stripped and not blank; `remember_me` is optional
   * and false when omitted. A missing field is `VNone`. `None` stands for
   * the serializer's validation error.
   */
  function ValidateLogin(email: Value, password: Value, rememberMe: Option<bool>): (r: Option<LoginData>)
    ensures r.Some? <==> CharField(email, LOGIN_FIELD).Some? && CharField(password, LOGIN_FIELD).Some?
    ensures r.Some? ==> r.value.email != "" && r.value.password != ""
    ensures r.Some? ==> |r.value.email| <= LOGIN_MAX_LENGTH && |r.value.password| <= LOGIN_MAX_LENGTH
    ensures r.Some? && email.VStr? ==> r.value.email == Strip(email.s)
    ensures r.Some? && password.VStr? ==> r.value.password == Strip(password.s)
    ensures r.Some? ==> (r.value.rememberMe <==> rememberMe == Some(true))
  {
    match (CharField(email, LOGIN_FIELD), CharField(password, LOGIN_FIELD))
    case (Some(e), Some(p)) => Some(LoginData(e, p, if rememberMe.Some? then rememberMe.value else false))
    case _ => None
  }

  /** Validating the validated login again gives the same data. */
  lemma ValidateLoginIdempotent(email: Value, password: Value, rememberMe: Option<bool>)
    requires ValidateLogin(email, password, rememberMe).Some?
    ensures var d := ValidateLogin(email, password, rememberMe).value;
            ValidateLogin(VStr(d.email), VStr(d.password), Some(d.rememberMe)) == Some(d)
  {
    CharFieldIdempotent(email, LOGIN_FIELD);
    CharFieldIdempotent(password, LOGIN_FIELD);
  }

  /**
   * A blank or all-whitespace e-mail or password, or a missing one, is
   * refused; text of the right length is accepted without its padding.
   */
  lemma ValidateLoginOfText(email: string, password: string, rememberMe: Option<bool>)
    requires forall i :: 0 <= i < |email| ==> !IsNul(email[i])
    requires forall i :: 0 <= i < |password| ==> !IsNul(password[i])
    ensures ValidateLogin(VStr(email), VStr(password), rememberMe).Some? <==>
              Strip(email) != "" && |Strip(email)| <= LOGIN_MAX_LENGTH &&
              Strip(password) != "" && |Strip(password)| <= LOGIN_MAX_LENGTH
    ensures ValidateLogin(VNone, VStr(password), rememberMe).None?
    ensures ValidateLogin(VStr(email), VNone, rememberMe).None?
  {
    CleanOfText(email, LOGIN_FIELD);
    CleanOfText(password, LOGIN_FIELD);
  }

  lemma NoNulInStrip(s: string)
    requires forall i :: 0 <= i < |s| ==> !IsNul(s[i])
    ensures forall i :: 0 <= i < |Strip(s)| ==> !IsNul(Strip(s)[i])
  {
    var lo := |s| - |LStrip(s)|;
    StripIsSlice(s);
    forall i | 0 <= i < |Strip(s)| ensures !IsNul(Strip(s)[i]) {
      assert Strip(s)[i] == s[lo + i];
    }
  }

  // ---------------------------------------------------------------------
  // SignUpSerializer.validate and validate_email
  // ---------------------------------------------------------------------

  const EMAIL_IN_PASSWORD := "Cannot use email in password."
  const EMAIL_IN_USE := "Email address already in use"

  /** `Lower` distributes over concatenation. */
  lemma LowerAppend(a: string, b: string)
    ensures Lower(a + b) == Lower(a) + Lower(b)
  {
    var l := Lower(a + b);
    assert forall i :: 0 <= i < |a| ==> (a + b)[i] == a[i];
    assert forall i :: |a| <= i < |a| + |b| ==> (a + b)[i] == b[i - |a|];
    assert forall i :: 0 <= i < |l| ==> l[i] == (Lower(a) + Lower(b))[i];
  }

  /**
   * `validate`: refused with 'Cannot use email in password.' exactly when
   * both are given and non-empty and the lower-cased address occurs in the
   * lower-cased password.
   */
  function Validate(email: Option<string>, password: Option<string>): (r: Option<string>)
    ensures r.Some? ==> r.value == EMAIL_IN_PASSWORD
    ensures r.Some? ==> email.Some? && email.value != "" && password.Some? && password.value != ""
    ensures r.Some? ==> exists i: nat :: OccursAt(Lower(email.value), Lower(password.value), i)
    ensures (email.Some? && email.value != "" && password.Some? && password.value != ""
             && exists i: nat :: OccursAt(Lower(email.value), Lower(password.value), i)) ==> r.Some?
  {
    if email.Some? && email.value != "" && password.Some? && password.value != "" then
      if Contains(Lower(email.value), Lower(password.value)) then Some(EMAIL_IN_PASSWORD) else None
    else None
  }

  /** A password that embeds the address, in any ASCII case, is refused. */
  lemma EmailInsidePasswordRefused(email: string, before: string, embedded: string, after: string)
    requires email != "" && Lower(embedded) == Lower(email)
    ensures Validate(Some(email), Some(before + embedded + after)).Some?
  {
    var password := before + embedded + after;
    LowerAppend(before, embedded);
    LowerAppend(before + embedded, after);
    var lp := Lower(password);
    assert lp == Lower(before) + Lower(email) + Lower(after);
    assert lp[|before|..|before| + |email|] == Lower(email);
    assert OccursAt(Lower(email), lp, |before|);
  }

  /**
   * `validate_email`: an address no user holds, or one held by a user whose
   * sign-up is still pending, is accepted; any other is refused.
   */
  function ValidateEmail(users: seq<User>, email: string): (r: Option<string>)
    ensures r.Some? ==> r.value == EMAIL_IN_USE
    ensures r.Some? ==> exists j :: 0 <= j < |users| && users[j].email == email && !users[j].unregistered
    ensures (forall j :: 0 <= j < |users| && users[j].email == email ==> users[j].unregistered) ==> r.None?
  {
    match FirstIndex(users, (u: User) => u.email == email)
    case None => None
    case Some(i) => if users[i].unregistered then None else Some(EMAIL_IN_USE)
  }

  /** With unique addresses, an address is refused exactly when a registered user holds it. */
  lemma ValidateEmailWithUniqueAddresses(users: seq<User>, email: string)
    requires Pairwise(users, (a: User, b: User) => a.email != b.email)
    ensures ValidateEmail(users, email).Some? <==>
              exists j :: 0 <= j < |users| && users[j].email == email && !users[j].unregistered
  {
    match FirstIndex(users, (u: User) => u.email == email)
    case None =>
    case Some(i) =>
      forall j | 0 <= j < |users| && users[j].email == email ensures j == i {

      }
  }

  // ---------------------------------------------------------------------
  // SignUpSerializer field validation
  // ---------------------------------------------------------------------

  const PASSWORD_MAX_LENGTH := 128
  const NAME_MAX_LENGTH := 30
  const LANGUAGE_MAX_LENGTH := 5

  /** `EmailField()`: required, not blank, no length limit (its format check is not modelled). */
  const EMAIL_FIELD := FieldSpec(None, false)
  const PASSWORD_FIELD := FieldSpec(Some(PASSWORD_MAX_LENGTH), false)
  const NAME_FIELD := FieldSpec(Some(NAME_MAX_LENGTH), false)
  /** `language` comes from the model field `CharField(max_length=5, blank=True)`: optional, blank allowed. */
  const LANGUAGE_FIELD := FieldSpec(Some(LANGUAGE_MAX_LENGTH), true)

  /** The validated sign-up fields. */
  datatype SignUpData = SignUpData(
    email: string,
    password: string,
    firstName: string,
    lastName: string,
    language: Option<string>,
    invitationId: Value,
    invitationToken: Value)

  /**
   * `invitation_id` and `invitation_token`: optional `CharField`s that allow
   * null and blank and default to `None`.
   */
  function NullableCharField(v: Value): (r: Option<Value>)
    ensures v.VNone? ==> r == Some(VNone)
    ensures v.VBool? ==> r.None?
    ensures v.VStr? ==> (r.Some? <==> forall i :: 0 <= i < |Strip(v.s)| ==> !IsNul(Strip(v.s)[i]))
    ensures v.VStr? && r.Some? ==> r.value == VStr(Strip(v.s))
  {
    if v.VNone? then Some(VNone)
    else match CharField(v, FieldSpec(None, true))
      case Some(t) => Some(VStr(t))
      case None => None
  }

  /** The optional `language` field: absent stays absent (`Some(None)`); `None` is the validation error. */
  function LanguageField(data: map<string, Value>): (r: Option<Option<string>>)
    ensures "language" !in data ==> r == Some(None)
    ensures r.Some? && r.value.Some? ==> "language" in data && |r.value.value| <= LANGUAGE_MAX_LENGTH
  {
    if "language" !in data then Some(None)
    else match CharField(data["language"], LANGUAGE_FIELD)
      case Some(t) => Some(Some(t))
      case None => None
  }

  /** All fields passed: their cleaned values make up the validated data. */
  function Combine(email: Option<string>, password: Option<string>, firstName: Option<string>,
                   lastName: Option<string>, language: Option<Option<string>>,
                   invitationId: Option<Value>, invitationToken: Option<Value>): (r: Option<SignUpData>)
    ensures r.Some? <==> && email.Some? && password.Some? && firstName.Some? && lastName.Some?
                         && language.Some? && invitationId.Some? && invitationToken.Some?
    ensures r.Some? ==> r.value == SignUpData(email.value, password.value, firstName.value, lastName.value,
                                              language.value, invitationId.value, invitationToken.value)
  {
    if && email.Some? && password.Some? && firstName.Some? && lastName.Some? && language.Some?
       && invitationId.Some? && invitationToken.Some?
    then
      Some(SignUpData(email.value, password.value, firstName.value, lastName.value, language.value,
                      invitationId.value, invitationToken.value))
    else None
  }

  /**
   * The field validation of `SignUpSerializer`: every declared field is
   * validated and cleaned, and a `language` that is absent stays absent.
   * `None` is the validation error.
   */
  function SignUpFields(data: map<string, Value>): (r: Option<SignUpData>)
    ensures r.Some? ==> r.value.email != "" && r.value.password != ""
    ensures r.Some? ==> r.value.firstName != "" && r.value.lastName != ""
    ensures r.Some? ==> |r.value.password| <= PASSWORD_MAX_LENGTH
    ensures r.Some? ==> |r.value.firstName| <= NAME_MAX_LENGTH && |r.value.lastName| <= NAME_MAX_LENGTH
    ensures r.Some? ==> (r.value.language.Some? ==> "language" in data)
    ensures r.Some? && r.value.language.Some? ==> |r.value.language.value| <= LANGUAGE_MAX_LENGTH
  {
    Combine(CharField(Get(data, "email"), EMAIL_FIELD),
            CharField(Get(data, "password"), PASSWORD_FIELD),
            CharField(Get(data, "first_name"), NAME_FIELD),
            CharField(Get(data, "last_name"), NAME_FIELD),
            LanguageField(data),
            NullableCharField(Get(data, "invitation_id")),
            NullableCharField(Get(data, "invitation_token")))
  }

  /**
   * For a request of four texts and nothing else, the fields pass exactly
   * when each stripped text is non-empty and within its length, and the
   * stored values are the stripped texts.
   */
  lemma SignUpFieldsOfText(email: string, password: string, firstName: string, lastName: string)
    requires forall i :: 0 <= i < |email| ==> !IsNul(email[i])
    requires forall i :: 0 <= i < |password| ==> !IsNul(password[i])
    requires forall i :: 0 <= i < |firstName| ==> !IsNul(firstName[i])
    requires forall i :: 0 <= i < |lastName| ==> !IsNul(lastName[i])
    ensures var data := map["email" := VStr(email), "password" := VStr(password),
                            "first_name" := VStr(firstName), "last_name" := VStr(lastName)];
            var r := SignUpFields(data);
            && (r.Some? <==>
                  && Strip(email) != "" && Strip(password) != "" && |Strip(password)| <= PASSWORD_MAX_LENGTH
                  && Strip(firstName) != "" && |Strip(firstName)| <= NAME_MAX_LENGTH
                  && Strip(lastName) != "" && |Strip(lastName)| <= NAME_MAX_LENGTH)
            && (r.Some? ==> r.value == SignUpData(Strip(email), Strip(password), Strip(firstName),
                                                  Strip(lastName), None, VNone, VNone))
  {
    var data := map["email" := VStr(email), "password" := VStr(password),
                     "first_name" := VStr(firstName), "last_name" := VStr(lastName)];
    assert Get(data, "email") == VStr(email) && Get(data, "password") == VStr(password);
    assert Get(data, "first_name") == VStr(firstName) && Get(data, "last_name") == VStr(lastName);
    assert "language" !in data && Get(data, "invitation_id") == VNone && Get(data, "invitation_token") == VNone;
    assert SignUpFields(data) ==
             Combine(CharField(VStr(email), EMAIL_FIELD), CharField(VStr(password), PASSWORD_FIELD),
                     CharField(VStr(firstName), NAME_FIELD), CharField(VStr(lastName), NAME_FIELD),
                     Some(None), Some(VNone), Some(VNone));
    CombineTexts(email, password, firstName, lastName);
  }

  lemma CombineTexts(email: string, password: string, firstName: string, lastName: string)
    requires forall i :: 0 <= i < |email| ==> !IsNul(email[i])
    requires forall i :: 0 <= i < |password| ==> !IsNul(password[i])
    requires forall i :: 0 <= i < |firstName| ==> !IsNul(firstName[i])
    requires forall i :: 0 <= i < |lastName| ==> !IsNul(lastName[i])
    ensures var r := Combine(CharField(VStr(email), EMAIL_FIELD), CharField(VStr(password), PASSWORD_FIELD),
                             CharField(VStr(firstName), NAME_FIELD), CharField(VStr(lastName), NAME_FIELD),
                             Some(None), Some(VNone), Some(VNone));
            && (r.Some? <==>
                  && Strip(email) != "" && Strip(password) != "" && |Strip(password)| <= PASSWORD_MAX_LENGTH
                  && Strip(firstName) != "" && |Strip(firstName)| <= NAME_MAX_LENGTH
                  && Strip(lastName) != "" && |Strip(lastName)| <= NAME_MAX_LENGTH)
            && (r.Some? ==> r.value == SignUpData(Strip(email), Strip(password), Strip(firstName),
                                                  Strip(lastName), None, VNone, VNone))
  {
    CleanOfText(email, EMAIL_FIELD);
    CleanOfText(password, PASSWORD_FIELD);
    CleanOfText(firstName, NAME_FIELD);
    CleanOfText(lastName, NAME_FIELD);
  }

  /** A text without NUL characters passes a field that refuses blanks iff its stripped form is non-empty and fits. */
  lemma CleanOfText(s: string, spec: FieldSpec)
    requires !spec.allowBlank
    requires forall i :: 0 <= i < |s| ==> !IsNul(s[i])
    ensures CharField(VStr(s), spec) ==
              if Strip(s) != "" && (spec.maxLength.None? || |Strip(s)| <= spec.maxLength.value) then Some(Strip(s))
              else None
  {
    NoNulInStrip(s);
  }

  /** The request data the validated fields stand for. */
  function SignUpRequestOf(d: SignUpData): (data: map<string, Value>)
    ensures {"email", "password", "first_name", "last_name", "invitation_id", "invitation_token"} <= data.Keys
    ensures "language" in data <==> d.language.Some?
    ensures d.language.Some? ==> data["language"] == VStr(d.language.value)
    ensures Get(data, "email") == VStr(d.email) && Get(data, "password") == VStr(d.password)
    ensures Get(data, "first_name") == VStr(d.firstName) && Get(data, "last_name") == VStr(d.lastName)
    ensures Get(data, "invitation_id") == d.invitationId && Get(data, "invitation_token") == d.invitationToken
  {
    var base := map["email" := VStr(d.email), "password" := VStr(d.password),
                    "first_name" := VStr(d.firstName), "last_name" := VStr(d.lastName),
                    "invitation_id" := d.invitationId, "invitation_token" := d.invitationToken];
    if d.language.Some? then base["language" := VStr(d.language.value)] else base
  }

  /** Validating the validated fields again gives the same fields. */
  lemma SignUpFieldsIdempotent(data: map<string, Value>)
    requires SignUpFields(data).Some?
    ensures SignUpFields(SignUpRequestOf(SignUpFields(data).value)) == SignUpFields(data)
  {
    var d := SignUpFields(data).value;
    var again := SignUpRequestOf(d);
    CharFieldIdempotent(Get(data, "email"), EMAIL_FIELD);
    CharFieldIdempotent(Get(data, "password"), PASSWORD_FIELD);
    CharFieldIdempotent(Get(data, "first_name"), NAME_FIELD);
    CharFieldIdempotent(Get(data, "last_name"), NAME_FIELD);
    assert CharField(Get(again, "email"), EMAIL_FIELD) == Some(d.email);
    assert CharField(Get(again, "password"), PASSWORD_FIELD) == Some(d.password);
    assert CharField(Get(again, "first_name"), NAME_FIELD) == Some(d.firstName);
    assert CharField(Get(again, "last_name"), NAME_FIELD) == Some(d.lastName);
    LanguageIdempotent(data, d.language, again);
    NullableIdempotent(Get(data, "invitation_id"));
    NullableIdempotent(Get(data, "invitation_token"));
    assert NullableCharField(Get(again, "invitation_id")) == Some(d.invitationId);
    assert NullableCharField(Get(again, "invitation_token")) == Some(d.invitationToken);
  }

  lemma LanguageIdempotent(data: map<string, Value>, language: Option<string>, again: map<string, Value>)
    requires LanguageField(data) == Some(language)
    requires "language" in again <==> language.Some?
    requires language.Some? ==> again["language"] == VStr(language.value)
    ensures LanguageField(again) == Some(language)
  {
    if language.Some? {
      CharFieldIdempotent(data["language"], LANGUAGE_FIELD);
    }
  }

  lemma NullableIdempotent(v: Value)
    requires NullableCharField(v).Some?
    ensures NullableCharField(NullableCharField(v).value) == NullableCharField(v)
  {
    if !v.VNone? {
      CharFieldIdempotent(v, FieldSpec(None, true));
    }
  }

  /**
   * `SignUpSerializer.is_valid()`: the field validation, then
   * `validate_email` on the cleaned address, then `validate` on the cleaned
   * address and password.
   */
  function SignUpValidate(users: seq<User>, data: map<string, Value>): (r: Option<SignUpData>)
    ensures r.Some? <==>
              && SignUpFields(data).Some?
              && ValidateEmail(users, SignUpFields(data).value.email).None?
              && Validate(Some(SignUpFields(data).value.email), Some(SignUpFields(data).value.password)).None?
    ensures r.Some? ==> r == SignUpFields(data)
  {
    match SignUpFields(data)
    case None => None
    case Some(d) =>
      if ValidateEmail(users, d.email).None? && Validate(Some(d.email), Some(d.password)).None? then Some(d)
      else None
  }

  /** An address another registered user holds is refused, however it is padded. */
  lemma SignUpRefusesAddressInUse(users: seq<User>, data: map<string, Value>, j: nat)
    requires SignUpFields(data).Some?
    requires Pairwise(users, (a: User, b: User) => a.email != b.email)
    requires j < |users| && users[j].email == SignUpFields(data).value.email && !users[j].unregistered
    ensures SignUpValidate(users, data).None?
  {
    ValidateEmailWithUniqueAddresses(users, SignUpFields(data).value.email);
  }

  // ---------------------------------------------------------------------
  // SignUpSerializer.create
  // ---------------------------------------------------------------------

  /** `Meta.fields`. */
  const META_FIELDS: set<string> :=
    {"email", "password", "first_name", "last_name", "language", "invitation_id", "invitation_token"}
  const DEFAULT_LANGUAGE := "en"

  /** The text of a validated string field; other values have none. */
  function Text(v: Value): (s: string)
    ensures v.VStr? ==> s == v.s
  {
    if v.VStr? then v.s else ""
  }

  /**
   * The loop at the head of `create`: copies every validated item whose key
   * is one of `Meta.fields`.
   */
  method KeepMetaFields(data: map<string, Value>) returns (valid: map<string, Value>)
    ensures valid.Keys == data.Keys * META_FIELDS
    ensures forall k :: k in valid ==> valid[k] == data[k]
  {
    valid := map[];
    var todo := data.Keys;
    while todo != {}
      invariant todo <= data.Keys
      invariant valid.Keys == (data.Keys - todo) * META_FIELDS
      invariant forall k :: k in valid ==> valid[k] == data[k]
      decreases todo
    {
      var k :| k in todo;
      if k in META_FIELDS {
        valid := valid[k := data[k]];
      }
      todo := todo - {k};
    }
  }

  /** The language `create` stores: the one given if it is set and non-empty, else 'en'. */
  function SignUpLanguage(data: map<string, Value>): (r: Value)
    ensures Truthy(Get(data, "language")) ==> r == data["language"]
    ensures !Truthy(Get(data, "language")) ==> r == VStr(DEFAULT_LANGUAGE)
    ensures Truthy(r)
  {
    if Truthy(Get(data, "language")) then data["language"] else VStr(DEFAULT_LANGUAGE)
  }

  /**
   * The outcome of `create`: the completed or the new user, the key whose
   * absence raised `KeyError`, or the `IntegrityError` of inserting an
   * address or a key the table already holds.
   */
  datatype SignUpResult = Updated(user: User) | Created(user: User) | KeyError(key: string) | CreateIntegrityError

  /**
   * `SignUpSerializer.create`. `hash` stands for the password hasher and
   * `newId` for the key the table's default draws for a new row. The first
   * user with the address, if pending, is completed in place: its fields are
   * overwritten from the request, its password set, and it becomes active
   * and registered. Otherwise a new active user is inserted, which the
   * table refuses when a registered user already has the address or a user
   * already has the key.
   */
  method Create(users: seq<User>, data: map<string, Value>, hash: string -> string, newId: UserId)
    returns (r: SignUpResult, after: seq<User>)
    ensures r.KeyError? <==> !("password" in data && "email" in data && "invitation_id" in data && "invitation_token" in data)
    ensures r.KeyError? || r.CreateIntegrityError? ==> after == users
    ensures !r.KeyError? ==>
              var email := Text(data["email"]);
              var i := FirstIndex(users, (u: User) => u.email == email);
              (r.CreateIntegrityError? <==> !(i.Some? && users[i.value].unregistered) && Taken(users, email, newId))
    ensures r.Updated? || r.Created? ==>
              var email := Text(data["email"]);
              var i := FirstIndex(users, (u: User) => u.email == email);
              && r.user.email == email
              && r.user.password == hash(Text(data["password"]))
              && r.user.language == Text(SignUpLanguage(data))
              && ("first_name" in data ==> r.user.firstName == Text(data["first_name"]))
              && ("last_name" in data ==> r.user.lastName == Text(data["last_name"]))
              && r.user.isActive == Some(true) && !r.user.unregistered
              && (r.Updated? <==> i.Some? && users[i.value].unregistered)
              && (r.Updated? ==> after == users[i.value := r.user] && r.user.id == users[i.value].id
                                  && r.user.isStaff == users[i.value].isStaff
                                  && r.user.isSuperuser == users[i.value].isSuperuser)
              && (r.Created? ==> after == users + [r.user] && r.user.id == newId
                                  && !r.user.isStaff && !r.user.isSuperuser)
    ensures Pairwise(users, UserPairOk) ==> Pairwise(after, UserPairOk)
    ensures |users| <= |after| && forall j :: 0 <= j < |users| ==> after[j].id == users[j].id
  {
    var valid := KeepMetaFields(data);
    if "password" !in data {
      return KeyError("password"), users;
    }
    var raw := Text(data["password"]);
    valid := valid["password" := VStr(hash(raw))];
    var language := SignUpLanguage(valid);
    valid := valid - {"language"};
    valid := valid["language" := language];
    if "email" !in valid {
      return KeyError("email"), users;
    }
    var email := Text(valid["email"]);
    if "invitation_id" !in valid {
      return KeyError("invitation_id"), users;
    }
    valid := valid - {"invitation_id"};
    if "invitation_token" !in valid {
      return KeyError("invitation_token"), users;
    }
    valid := valid - {"invitation_token"};
    var first := if "first_name" in valid then Some(Text(valid["first_name"])) else None;
    var last := if "last_name" in valid then Some(Text(valid["last_name"])) else None;
    r, after := SaveSignUp(users, email, hash(raw), first, last, Text(valid["language"]), newId);
  }

  /**
   * The writes at the end of `create`: the first user with the address, if
   * pending, is completed in place with the given fields (a name not given
   * is kept) and becomes active and registered; otherwise a new active user
   * is inserted with the key `newId`, which the table refuses when the
   * address or the key is already there.
   */
  method SaveSignUp(users: seq<User>, email: string, password: string, first: Option<string>,
                    last: Option<string>, language: string, newId: UserId)
    returns (r: SignUpResult, after: seq<User>)
    ensures var i := FirstIndex(users, (u: User) => u.email == email);
            && !r.KeyError?
            && (r.CreateIntegrityError? <==> !(i.Some? && users[i.value].unregistered) && Taken(users, email, newId))
            && (r.CreateIntegrityError? ==> after == users)
            && (r.Updated? <==> i.Some? && users[i.value].unregistered)
            && (r.Updated? ==>
                  && after == users[i.value := r.user]
                  && r.user == users[i.value].(password := password,
                                               firstName := if first.Some? then first.value else users[i.value].firstName,
                                               lastName := if last.Some? then last.value else users[i.value].lastName,
                                               language := language, isActive := Some(true), unregistered := false))
            && (r.Created? ==>
                  after == users + [r.user] &&
                  r.user == User(newId, email, password, if first.Some? then first.value else "",
                                 if last.Some? then last.value else "", language, false, false, Some(true), false))
    ensures Pairwise(users, UserPairOk) ==> Pairwise(after, UserPairOk)
    ensures |users| <= |after| && forall j :: 0 <= j < |users| ==> after[j].id == users[j].id
  {
    var i := FirstIndex(users, (u: User) => u.email == email);
    if i.Some? && users[i.value].unregistered {
      var existing := users[i.value];
      var user := existing.(
        email := email,
        password := password,
        firstName := if first.Some? then first.value else existing.firstName,
        lastName := if last.Some? then last.value else existing.lastName,
        language := language,
        isActive := Some(true),
        unregistered := false);
      r := Updated(user);
      after := users[i.value := user];
      if Pairwise(users, UserPairOk) {
        ReplaceSameKeysKeepsUnique(users, i.value, user);
      }
    } else {
      if Taken(users, email, newId) {
        return CreateIntegrityError, users;
      }
      var user := User(newId, email, password, if first.Some? then first.value else "",
                       if last.Some? then last.value else "", language, false, false, Some(true), false);
      r := Created(user);
      after := users + [user];
      if Pairwise(users, UserPairOk) {
        AppendUntakenKeepsUnique(users, user);
      }
    }
  }

  /** Completing a pending account keeps the number of users; a new account adds exactly one. */
  lemma CreateChangesAtMostOneRow(users: seq<User>, r: SignUpResult, after: seq<User>, i: nat)
    requires r.Updated? ==> i < |users| && after == users[i := r.user]
    requires r.Created? ==> after == users + [r.user]
    requires r.KeyError? || r.CreateIntegrityError? ==> after == users
    ensures |after| == |users| + (if r.Created? then 1 else 0)
    ensures forall j :: 0 <= j < |users| && !(r.Updated? && j == i) ==> after[j] == users[j]
  {
  }
}
