# Appity token-session authentication, modelled in Dafny

This project models the authentication core of the appity-scheduling Django
backend.

**Tokens and their authenticator.**
- Frontend tokens are bound to a user and a server-side session.
- One-time tokens (OTPs) hang off a parent token.
- `TokenAuthentication` reads the `Authorization: Fleio-Token <token>` header
  or a `fleio-token` query parameter. It checks the credentials in a fixed
  order: lookup, expiry, active owner, session binding. It turns every
  refusal into "no identity" for views that allow anonymous access.
- Frontend tokens are issued, rotated, cleared for impersonation, and
  re-issued when a session is extended or a user logs in.

**Around that core:**
- the credential check behind the login view, and its failure signal;
- the user helpers and active-client selection, and the currency table with
  its single default;
- the role parent-cycle guard;
- the permission classes and the `CustomPermissions` registry;
- the login and sign-up serializers;
- the random primary-key generator and the user-creation helpers;
- the login, logout and sign-up views, with the throttle-history pop.

**Modules, one per source file:**

| module | source |
|---|---|
| `AppityTokens` | `core/models/appity_token.py` |
| `TokenStore` | the token-lifecycle functions of `core/authentication/token_authentication.py` |
| `TokenAuth` | the `TokenAuthentication` class of the same file |
| `Credentials` | `core/authentication/utils.py` |
| `Users` | `core/models/models.py` |
| `Roles` | `core/models/role.py` |
| `Permissions` | `core/permissions.py` |
| `Signup` | `core/authentication/serializers.py` |
| `CoreUtils` | `core/utils.py` |
| `AuthViews` | `core/authentication/views.py` |
| `Sessions` | the session store these files use |
| `Bytes` | Python's `bytes.split`, `bytes.lower` and UTF-8 decoding |
| `Common` | shared helpers (`Option`, first match, filtering, ASCII lower-casing, decimal text) |

**How the database is modelled.**
- A table is a sequence of rows in primary-key order, so Django's
  `.filter(...).first()` is the first match. The currency table is kept
  sorted by its `code` key, compared character by character.
- The token tables live in the class `TokenStore.Db`. It has the invariant
  `Valid` and update methods that delete with cascade, insert with an
  `IntegrityError` on a duplicate token string, write the user table, and
  roll back every table at the end of an `atomic` block.
- Saving a user refuses what the table refuses: an address or a key that
  another user already has, and `None` in a NOT NULL column, raise
  `IntegrityError`; a flag value `BooleanField` cannot read raises
  `ValidationError`.
- Sessions, requests, the throttle, its cache and the permission registry are
  classes whose fields the methods update in place.
- Role rows are a map from key to role. The role table's invariant includes
  "no parent cycle".
- The clock (`now`, in whole seconds), random bytes and draws, fresh session
  keys and the password hasher are parameters.

**Quirks of the code, modelled as it behaves:**
- An OTP credential that passes every check makes `authenticate` return
  `None`, even though the OTP row was consumed. The success `return` of
  `authenticate_credentials` sits inside `if not otp:`, so only a regular
  token yields a user and a token.
- With no `Fleio-Token` scheme and no query-string OTP, `authenticate`
  returns `None` on every view, including views that do not allow
  anonymous access.
- A token is expired only when its expiry lies strictly before `now`. A
  token whose expiry is exactly `now` is still live.
- `token_login` stores the token under `'appity_token'`, while the session
  binding check reads `'fleio_token'`. A session that has only been through
  a login therefore binds no token.
- `get_user_id_from_header` deletes any expired token it finds.
  `authenticate_credentials` deletes only expired frontend tokens.
- A failed login signal is sent for a wrong password and also for a known
  user whose active flag is cleared.

## Model

| member | source | states |
|---|---|---|
| `AppityTokens.ExpiryIsMonotonic` | core/models/appity_token.py:36-41 | a token without an expiry never expires; an expired token stays expired at every later time |
| `AppityTokens.ExpirySeconds` | core/models/appity_token.py:43-47 | nothing iff no expiry is set; otherwise `now + seconds` is the expiry, and the seconds are negative exactly when the token is expired |
| `AppityTokens.Hexlify` | core/models/appity_token.py:51 | two lower-case hex digits per random byte |
| `AppityTokens.HexRoundTrip` | core/models/appity_token.py:51 | the random bytes read back from their hex text |
| `AppityTokens.GenerateToken` | core/models/appity_token.py:51 | a generated string is at most two e-mail characters plus 38 hex digits, which fits the 40-character column (line 20) |
| `AppityTokens.GeneratedTokenShape` | core/models/appity_token.py:51 | a generated string starts with the e-mail prefix, and its hex tail decodes to the random bytes |
| `AppityTokens.GeneratedTokensDiffer` | core/models/appity_token.py:51 | different random bytes give different strings for the same owner |
| `AppityTokens.Save` | core/models/appity_token.py:49-54 | only the token field can change; a string is generated iff the row has none and `update_fields` is absent or names `token`; an existing string is never overwritten |
| `AppityTokens.SaveIsIdempotent` | core/models/appity_token.py:49-54 | a second save keeps the string of the first, whatever its random bytes |
| `AppityTokens.GetInfo` | core/models/appity_token.py:56-82 | all six fields are empty when the token's session differs; otherwise the token, its expiry, `force` or the session's browser-close flag, the seconds left, and both session lengths |
| `AppityTokens.GetFrontendAppityToken` | core/models/appity_token.py:15-16 | the first frontend token of that user and session, or nothing iff there is none |
| `AppityTokens.FrontendAfterOthers` | core/models/appity_token.py:15-16 | a matching token inserted after rows that do not match is the one the lookup returns |
| `Bytes.Split` | core/authentication/token_authentication.py:204 | `bytes.split()`: non-empty parts without whitespace |
| `Bytes.SplitKeepsNonSpace` | core/authentication/token_authentication.py:204 | splitting drops exactly the whitespace bytes |
| `Bytes.TwoWords` | core/authentication/token_authentication.py:204 | `<a> <c>` with whitespace-free, non-empty `a` and `c` splits into exactly `[a, c]` |
| `Bytes.LowerBytes` | core/authentication/token_authentication.py:205 | ASCII capitals become lower-case; every other byte is kept |
| `Bytes.DecodeFirst` | core/authentication/token_authentication.py:269 | a well-formed UTF-8 sequence at the front decodes to one character of 1 to 4 bytes |
| `Bytes.DecodeFirstOfEncoding` | core/authentication/token_authentication.py:269 | decoding reads back the first encoded character, whatever follows it |
| `Bytes.Utf8RoundTrip` | core/authentication/token_authentication.py:269 | `decode()` inverts `encode()` for every string |
| `Common.Contains` | core/authentication/serializers.py:50 | Python's `in` on strings: true iff the needle occurs at some position |
| `Common.IntToStringRoundTrip` | core/models/models.py:68-70 | the decimal text of an integer parses back to it |
| `Common.Strip` | core/authentication/serializers.py:12-13 | `str.strip()`: no longer than the text, and empty or neither starting nor ending with whitespace |
| `Common.StripIsSlice` | core/authentication/serializers.py:12-13 | the stripped text is the slice between the leading and the trailing whitespace, which is all whitespace |
| `Common.StripIdempotent` | core/authentication/serializers.py:12-13 | stripping twice is stripping once |
| `Common.StripPadding` | core/authentication/serializers.py:12-13 | whitespace added on either side is stripped away again |
| `Common.PyInt` | core/models/models.py:100 | `int(text)` for the ASCII forms: an accepted text holds a digit |
| `Common.PyIntExtendsParseInt` | core/models/models.py:100 | plain decimal text, with an optional minus sign, reads as its value |
| `Common.PyIntOfIntToString` | core/models/models.py:100 | the decimal text of an integer reads back to it |
| `Common.PyIntRejectsOtherCharacters` | core/models/models.py:100 | a text holding a character that is not a digit, whitespace, sign or underscore is refused |
| `Common.KeyOf` | core/models/models.py:100-110 | the value `filter(id=...)` compares with: `None` matches no row, an integer is itself, a text goes through `int()`, and a text `int()` refuses raises `ValueError` |
| `Common.AsId` | core/models/models.py:100-110 | an integer is its own key; `None` and refused texts give no key |
| `Common.StrLessTransitive` | core/models/models.py:194 | the code order is transitive |
| `Common.StrLessTotal` | core/models/models.py:194 | of two different codes, exactly one comes first |
| `Sessions.Session.Put` | core/authentication/token_authentication.py:148 | `session[k] = v` stores one value and keeps the key |
| `Sessions.Session.Flush` | core/authentication/token_authentication.py:155 | `flush()` drops every value and the key |
| `Sessions.Session.Rekey` | core/authentication/token_authentication.py:130-132 | the session moves to a fresh key and keeps its values |
| `Sessions.Session.SetExpiry` | core/authentication/token_authentication.py:135-139 | `set_expiry(seconds)` records the expiry; the session ends with the browser iff the seconds are 0 |
| `Sessions.ExpireAtBrowserClose` | core/models/appity_token.py:78 | the site default without a stored expiry, otherwise whether the stored expiry is 0 |
| `Users.AppendUntakenKeepsUnique` | core/models/models.py:37-40 | appending a user whose address and key are free keeps addresses and keys unique |
| `Users.ReplaceSameKeysKeepsUnique` | core/models/models.py:37-40 | overwriting a row with one of the same key and address keeps addresses and keys unique |
| `Users.GetFullName` | core/models/models.py:122-131 | nothing iff neither name is set; the first name leads when set; both names give `first + " " + last` |
| `Users.Display` | core/models/models.py:64-70 | starts with the full name, or with the e-mail address when there is none |
| `Users.DisplayIdentifiesUser` | core/models/models.py:64-70 | the user's id reads back from the text after the last `#` |
| `Users.ImpersonationNeedsStaff` | core/models/models.py:141-147 | whoever can impersonate is an admin; an admin who cannot is exactly a superuser without staff |
| `Users.SessionExpirationSeconds` | core/models/models.py:149-150 | the long length iff `remember`, else the short one |
| `Users.ManagedClients` | core/models/models.py:75-80 | a client is managed iff the user is linked to it and no invitation link to it exists |
| `Users.InvitationExcludes` | core/models/models.py:76-80 | a client with an invitation link is never managed, whatever other links exist |
| `Users.ActiveClientOutcomeCases` | core/models/models.py:82-120 | nothing, with the session untouched, for an admin user or an anonymous or admin requester; a parameter or stored id that `int()` refuses raises `ValueError` with the session untouched; else a managed parameter wins and is written to the session; else a managed stored client; else the first managed client, stored only with a request; every result is managed |
| `Users.GetActiveClient` | core/models/models.py:82-120 | the result and the session's new values are `ActiveClientOutcome` of its old values, so every promise of `ActiveClientOutcomeCases` holds of the call; the session key is untouched |
| `Users.ApplyActiveClient` | core/models/models.py:82-120 | the code's steps, in order, end with the result and session values `ActiveClientOutcome` gives |
| `Users.GetDefaultCurrency` | core/models/models.py:20-24 | the default row iff exactly one row is default |
| `Users.GetDefaultOrFirst` | core/models/models.py:194-195 | nothing iff the table is empty; a default row when one exists; else the first row |
| `Users.GetDefaultOrFirstIsLeast` | core/models/models.py:194-195 | in a table sorted by code, the result is the default row with the least code, or the row with the least code when none is default |
| `Users.ClearOtherDefaults` | core/models/models.py:217 | every default row other than `code` loses its flag; codes and rates are kept |
| `Users.Upsert` | core/models/models.py:218 | the saved row replaces the row with its code, or is inserted at its place in code order; every other row stays, and the table stays sorted by code |
| `Users.InsertKeepsSorted` | core/models/models.py:218 | a new code inserted after every smaller code and before the first larger one keeps the table sorted |
| `Users.SortedCodesDistinct` | core/models/models.py:199-200 | a table sorted by its primary key has no repeated code |
| `Users.CurrencyTable.Save` | core/models/models.py:214-218 | saving a default makes it the only default; saving any row keeps at most one default |
| `Users.SaveKeepsOneDefault` | core/models/models.py:214-218 | after saving a default exactly one default exists; at most one default stays at most one |
| `Users.SaveDefaultIsTheDefault` | core/models/models.py:214-218 | after saving a default, it is the only default row |
| `Users.SaveOtherKeepsCount` | core/models/models.py:214-218 | saving a row that is not default never adds a default |
| `Credentials.SignalLog.Send` | core/authentication/utils.py:20-26 | one signal is appended to the log |
| `Credentials.MatchUser` | core/authentication/utils.py:8-9 | the first user with exactly that e-mail, or nothing iff none has it |
| `Credentials.AuthenticateUser` | core/authentication/utils.py:12-27 | an unknown address gives no user and no signal; the user is returned iff the password checks and the active flag is set or unset; otherwise exactly one signal, carrying only the address |
| `Credentials.FailureSignalHidesPassword` | core/authentication/utils.py:20-26 | the failure signal's only value is the address, so it holds the password only if the password is the address |
| `Credentials.InactiveUserIsRefused` | core/authentication/utils.py:14-27 | a cleared active flag gives no user and a signal, even with the right password |
| `Credentials.AppityAuthenticateUser` | core/authentication/utils.py:12-27 | returns the decision of `AuthenticateUser` and appends its signal, if any, to the log |
| `TokenStore.TokensExceptMembers` | core/authentication/token_authentication.py:107-111 | a `filter(...).delete()` keeps exactly the rows it does not select, in order |
| `TokenStore.NewToken` | core/authentication/token_authentication.py:82-86 | the row `get_or_create` inserts: the next key, the given user, session and frontend flag, no display name, and a string that fits the column |
| `TokenStore.DeletePreservesValid` | core/authentication/token_authentication.py:90 | deleting tokens, with their OTPs by cascade, keeps the tables valid |
| `TokenStore.WithExpiry` | core/authentication/token_authentication.py:70-73 | only the expiry of the row with that key changes |
| `TokenStore.WithExpiryKeepsValid` | core/authentication/token_authentication.py:70-73 | setting an expiry keeps the tables valid |
| `TokenStore.FrontendTokenUnique` | core/models/appity_token.py:15-16 | in a valid table the lookup finds a user's only frontend token for the session |
| `TokenStore.Db.DeleteTokens` | core/authentication/token_authentication.py:107-111 | the selected tokens go, and so do their OTPs; validity is kept |
| `TokenStore.Db.CreateToken` | core/authentication/token_authentication.py:82-86 | inserts the generated row under the next key, or raises `IntegrityError` and changes nothing when the string is taken |
| `TokenStore.Db.SetTokenExpiry` | core/authentication/token_authentication.py:70-73 | `save(update_fields=['expire_at'])` changes that row's expiry alone |
| `TokenStore.Db.Rollback` | core/authentication/token_authentication.py:81 | leaving `atomic` by an exception restores every table as it was |
| `TokenStore.Db.SaveUsers` | core/authentication/serializers.py:96-102 | writing a user table that keeps every user's key in place keeps the invariant; the token tables are untouched |
| `TokenStore.Db.DeleteOtps` | core/authentication/token_authentication.py:63 | the selected OTPs go and nothing else changes |
| `TokenStore.Db.CreateOtp` | core/authentication/token_authentication.py:53-55 | inserts one OTP under the parent, or raises `IntegrityError` and inserts nothing when the string is taken |
| `TokenStore.GetFrontendToken` | core/authentication/token_authentication.py:28-33 | the string of a frontend token of that user and session, or nothing iff there is none |
| `TokenStore.GetFrontendTokenOfRow` | core/authentication/token_authentication.py:28-33 | in a valid table it is the string of the only such token |
| `TokenStore.InitialSeconds` | core/authentication/token_authentication.py:79-80 | a missing or zero length becomes the short session length |
| `TokenStore.GenerateOtpTokenForRequest` | core/authentication/token_authentication.py:51-67 | nothing without a token on the request; otherwise the parent's expired OTPs are purged and one OTP expiring at `now + 600` is issued, unless its string is taken |
| `TokenStore.OtpPurgeKeepsLive` | core/authentication/token_authentication.py:63 | the purge removes exactly the parent's OTPs whose set expiry lies before `now` |
| `TokenStore.Initialize` | core/authentication/token_authentication.py:76-102 | a stored result is a frontend token of the user and session, and is in the table; `IntegrityError` leaves the tables unchanged |
| `TokenStore.InitializeRotates` | core/authentication/token_authentication.py:82-100 | a live token is returned with the tables unchanged; otherwise a stored result is a new row expiring at `now + InitialSeconds`, the expired row is gone, and it is the pair's only frontend token |
| `TokenStore.InitializeFindsToken` | core/authentication/token_authentication.py:82-102 | afterwards the manager lookup finds exactly the returned token |
| `TokenStore.InitializeIsIdempotent` | core/authentication/token_authentication.py:82-87 | calling again while the token is live returns the same token, with the same string and expiry, and changes nothing |
| `TokenStore.InitializeIssuesNew` | core/authentication/token_authentication.py:82-100 | with no frontend token for the pair, the new row is appended and nothing else changes |
| `TokenStore.InitializeFrontendToken` | core/authentication/token_authentication.py:76-102 | the method's result and new tables are those of `Initialize`; validity is kept |
| `TokenStore.ReplaceFrontendToken` | core/authentication/token_authentication.py:87-100 | the expired token is deleted and a new row is inserted expiring `seconds` after `now`; `IntegrityError` undoes both |
| `TokenStore.DeleteFrontendToken` | core/authentication/token_authentication.py:87-92 | afterwards the pair has no frontend token; the deleted row's OTPs go with it |
| `TokenStore.IssueFrontendToken` | core/authentication/token_authentication.py:93-100 | `IntegrityError` iff the generated string is taken, and then nothing changes; otherwise the row is appended with expiry `now + seconds` |
| `TokenStore.FrontendDeleteById` | core/authentication/token_authentication.py:90 | deleting the found token by key deletes the same rows as deleting every frontend token of the pair |
| `TokenStore.ClearImpersonationFrontendToken` | core/authentication/token_authentication.py:105-111 | nothing without a user; otherwise every frontend token of that user and session is deleted, with its OTPs |
| `TokenStore.InitializeFrontendTokenForImpersonation` | core/authentication/token_authentication.py:114-121 | the target's frontend tokens for the session are cleared first; a stored result is always a new row living the short length |
| `TokenStore.IssueForFreshSession` | core/authentication/token_authentication.py:158-162 | for a session key no token is bound to, a new row is inserted; `IntegrityError` iff the generated string is taken, and then nothing changes |
| `TokenStore.IssueForLoggedInSession` | core/authentication/token_authentication.py:157-164 | the new token becomes the request's token and is stored under `'appity_token'`; `IntegrityError` iff its string is taken, leaving the tables, the request's token and the session as they were |
| `TokenStore.ExtendedLifetime` | core/authentication/token_authentication.py:134-146 | the long length when remembered and non-zero, else the short one |
| `TokenStore.ExtendFrontendSession` | core/authentication/token_authentication.py:124-151 | a non-frontend token gets a conflict and nothing changes; otherwise the session moves to the new key with its values, expires at browser close unless remembered, and stores the new frontend token under `'fleio_token'`, which becomes the request's token |
| `TokenStore.LoggedInData` | core/authentication/token_authentication.py:156 | `auth.login` leaves exactly the user id, backend and hash keys, and the id names the user |
| `TokenStore.StartLoggedInSession` | core/authentication/token_authentication.py:156 | the flushed session gets the fresh key and the login values, and the request gets the user |
| `TokenStore.TokensAfterFlush` | core/authentication/token_authentication.py:155 | deleting the session's row deletes every token bound to its key |
| `TokenStore.FlushSession` | core/authentication/token_authentication.py:155 | the session is emptied and loses its key; its tokens and their OTPs are deleted by cascade |
| `TokenStore.TokenLogin` | core/authentication/token_authentication.py:154-164 | the old session's tokens are gone; the session has the fresh key, the user and the login values; for a non-empty key a new frontend token is issued and stored under `'appity_token'`, or `IntegrityError` iff its string is taken among the remaining tokens; no `'fleio_token'` is written |
| `TokenAuth.RouteOf` | core/authentication/token_authentication.py:242-277 | without the scheme, GET or POST with a non-empty `fleio-token` parameter goes to OTP checking, and anything else yields no identity; one word, more than two words or non-UTF-8 bytes is malformed, each with its own message; otherwise the decoded second word is checked |
| `TokenAuth.HasFleioTokenRoutes` | core/authentication/token_authentication.py:203-205 | `has_fleio_token` holds exactly for two-word headers with the scheme in any letter case, which are the headers that are checked or refused as undecodable |
| `TokenAuth.HeaderRoundTrip` | core/authentication/token_authentication.py:242-277 | `<scheme> <token>`, with the scheme in any case and a non-empty token without whitespace, routes back to that token on any method |
| `TokenAuth.FindOtp` | core/authentication/token_authentication.py:283-286 | the OTP row with that string, or nothing iff none has it |
| `TokenAuth.Lookup` | core/authentication/token_authentication.py:281-298 | for a regular token, the row with that string and session key, or nothing iff none has both; for an OTP, the OTP's parent row |
| `TokenAuth.ImpersonatorToken` | core/authentication/token_authentication.py:336-338 | the impersonator's frontend token string for the session, or nothing when the stored id is not a number |
| `TokenAuth.CheckCredentials` | core/authentication/token_authentication.py:280-349 | checks in this order: 'Invalid token.', the OTP's own expiry, then the token's ('Expired token.'), an inactive owner ('User inactive or deleted.'), and for regular tokens the session binding ('Mismatched token.'); a passing OTP gives no identity |
| `TokenAuth.Outcome` | core/authentication/token_authentication.py:299-322 | a refusal raises its message iff the view is not anonymous; only an accepted check authenticates |
| `TokenAuth.AfterCheck` | core/authentication/token_authentication.py:283-311 | a found OTP is deleted before its expiry is read; an expired token is deleted only when it is a frontend token |
| `TokenAuth.AfterCheckDeletes` | core/authentication/token_authentication.py:305-311 | tokens are deleted only on 'Expired token.' for a frontend token |
| `TokenAuth.OtpIsConsumed` | core/authentication/token_authentication.py:285-292 | once an OTP is found, no OTP with that string remains, whatever the verdict |
| `TokenAuth.AuthenticateCredentials` | core/authentication/token_authentication.py:280-359 | the result is `Outcome(CheckCredentials(...))` on the old tables, and the new tables are `AfterCheck` of the old |
| `TokenAuth.Authenticate` | core/authentication/token_authentication.py:242-277 | the route decides; a malformed header raises its message unless the view is anonymous; the tables change only when credentials are checked |
| `TokenAuth.LoginSessionBindsNothing` | core/authentication/token_authentication.py:326-331 | with no `'fleio_token'` in the session, every token passes the session check |
| `TokenAuth.ExtendedSessionBindsItsToken` | core/authentication/token_authentication.py:345-349 | outside an impersonation, the stored token passes and every other frontend token fails |
| `TokenAuth.ImpersonationBinding` | core/authentication/token_authentication.py:334-344 | during an impersonation whose session holds the impersonator's token, a frontend token passes iff its owner is the impersonator or the impersonated user |
| `TokenAuth.HeaderUserId` | core/authentication/token_authentication.py:208-226 | the owner of the live token the header names for the session; undecodable iff the scheme matches and the token word is not UTF-8 |
| `TokenAuth.HeaderUserAgrees` | core/authentication/token_authentication.py:208-219 | a user the header lookup finds owns the token `authenticate` checks, which passes lookup and expiry; a user `authenticate` accepts is the one the lookup finds |
| `TokenAuth.HeaderLookupDeletesWhatCheckKeeps` | core/authentication/token_authentication.py:217-224 | an expired non-frontend token survives `authenticate` but is deleted by `get_user_id_from_header` |
| `TokenAuth.GetUserIdFromHeader` | core/authentication/token_authentication.py:208-226 | the result is `HeaderUserId` on the old tables, and the expired token it finds is deleted |
| `TokenAuth.AnonymousNeverFails` | core/authentication/token_authentication.py:289-359 | an anonymous view never raises, and an OTP never authenticates |
| `Roles.DescendsSelf` | core/models/role.py:33-37 | a role is on its own chain; no role is on the empty chain |
| `Roles.DescendsStep` | core/models/role.py:35-37 | stepping to the parent of a role other than the target neither gains nor loses the target |
| `Roles.RewriteKeepsAcyclic` | core/models/role.py:32-41 | storing a role whose parent chain does not reach it keeps the table free of cycles |
| `Roles.ChainReaches` | core/models/role.py:33-37 | the walk up the parent chain meets the role iff the role is the parent or one of its ancestors |
| `Roles.StoreKeepsValid` | core/models/role.py:32-41 | such a store keeps keys, parents and acyclicity valid |
| `Roles.FreshKeyNotReached` | core/models/role.py:33-37 | the next key is on no chain of a valid table, so the walk never meets a role stored under it |
| `Roles.DeleteRow` | core/models/role.py:26 | the row goes, and its children lose their parent (`SET_NULL`) |
| `Roles.DeleteKeepsValid` | core/models/role.py:26 | a delete keeps the table valid |
| `Roles.RoleTable.Save` | core/models/role.py:32-41 | `DataError('You cannot set a descendant as parent')` iff the role has a key and its new parent is that role or a descendant, with nothing changed; otherwise the role is stored under its key or the next one |
| `Roles.RoleTable.Delete` | core/models/role.py:26 | `rows` becomes `DeleteRow` of the old rows; validity is kept |
| `Roles.OwnerKeyFrom` | core/models/role.py:12-17 | the smallest key in a range holding a default role named 'Owner' |
| `Roles.GetOwnerRole` | core/models/role.py:12-17 | the least-key default role named 'Owner', or nothing iff there is none |
| `Roles.DisplayName` | core/models/role.py:43-46 | `'{owner}::{name}'` with an owner, the name alone without |
| `Roles.Str` | core/models/role.py:48-49 | starts with the display name and ends with `)` |
| `Roles.StrIdentifiesRole` | core/models/role.py:48-49 | a saved role's key reads back from between the last parentheses |
| `Roles.StrDistinguishesRoles` | core/models/role.py:48-49 | saved roles with different keys have different strings |
| `Permissions.EndUserOnly` | core/permissions.py:12-19 | refused iff anonymous; granted iff not an admin; raises iff an admin |
| `Permissions.StaffOnly` | core/permissions.py:26-33 | refused iff anonymous; granted iff staff; other users raise |
| `Permissions.SuperUserOnly` | core/permissions.py:40-47 | refused iff anonymous; granted iff staff and superuser; others raise 'Unauthorized: missing superuser status' |
| `Permissions.EndUserAndStaffExclusive` | core/permissions.py:12-33 | no user passes both `EndUserOnly` and `StaffOnly` |
| `Permissions.SuperUserIsStaff` | core/permissions.py:26-47 | whoever passes `SuperUserOnly` passes `StaffOnly` and makes `EndUserOnly` raise |
| `Permissions.MessageOf` | core/permissions.py:82-84 | the class's own message, else the default |
| `Permissions.FirstFailure` | core/permissions.py:80-85 | the first class that does not grant, all before it granting, or nothing iff all grant |
| `Permissions.Outcome` | core/permissions.py:78-86 | granted iff every registered class grants; otherwise the verdict of the first that does not |
| `Permissions.RegisteredFailureBlocks` | core/permissions.py:80-85 | any registered class that refuses or raises prevents a grant |
| `Permissions.OutcomeOfAppend` | core/permissions.py:66 | a class registered last is consulted only when all earlier ones grant |
| `Permissions.UnregisterGrantingKeepsOutcome` | core/permissions.py:72-86 | removing a granting class leaves the verdict unchanged |
| `Permissions.OutcomeOfHead` | core/permissions.py:80-85 | a first class that grants passes the decision to the rest; one that refuses or raises decides it |
| `Permissions.Without` | core/permissions.py:75-76 | no entry equal to the class remains |
| `Permissions.UnregisterUndoesRegister` | core/permissions.py:66-76 | unregistering a newly registered class restores the list |
| `Permissions.UnregisterKeepsOthers` | core/permissions.py:75-76 | exactly the other entries remain |
| `Permissions.Evaluate` | core/permissions.py:80-86 | the loop's verdict is `Outcome`, and it stops at the first failure |
| `Permissions.CustomPermissions.Register` | core/permissions.py:63-69 | appended to the permission list if it has `has_permission`, else to the object list if it has `has_object_permission`, never to both |
| `Permissions.CustomPermissions.Unregister` | core/permissions.py:72-76 | every equal entry leaves both lists; the rest keep their order |
| `Permissions.CustomPermissions.Consult` | core/permissions.py:80-86 | the verdict is `Outcome`; a refusal sets the message of the failing class |
| `Permissions.CustomPermissions.HasPermission` | core/permissions.py:78-86 | `Outcome` over the permission list; a refusal sets `message` to that of the first refusing class |
| `Permissions.CustomPermissions.HasObjectPermission` | core/permissions.py:88-96 | the same over the object list |
| `Permissions.UnregisterOtherKeepsRefusal` | core/permissions.py:75-76 | with sequences, unregistering another class never lifts a registered refusal |
| `Permissions.UnregisterAsWritten` | core/permissions.py:75-76 | the list becomes a generator without the class |
| `Permissions.AppendAsWritten` | core/permissions.py:66 | a tuple grows; `+=` on a generator raises `TypeError` |
| `Permissions.ConsultAsWritten` | core/permissions.py:80-85 | the verdict over what the list still yields; a generator is used up by a grant |
| `Permissions.DrawPending` | core/permissions.py:80-85 | the loop draws at least one class from a non-empty generator |
| `Permissions.DrawPendingStopsAfterFailure` | core/permissions.py:80-85 | the loop leaves exactly the classes after the first failing one, and nothing when none fails |
| `Permissions.DrawnAsWritten` | core/permissions.py:75-85 | a tuple is left as it is; a non-empty generator loses at least one class on every request |
| `Permissions.GeneratorGrantsSecondRequest` | core/permissions.py:75-86 | as written, when the denying class is the only one registered, unregistering any other class makes the first request refused and the second granted |
| `Permissions.GeneratorSkipsPastFailure` | core/permissions.py:75-85 | as written, a request that is not granted leaves the generator holding only the classes after the first failing one |
| `Permissions.StandingAsWritten` | core/permissions.py:75-86 | before each request of a run, a tuple is unchanged and a generator holds no more than it did |
| `Permissions.VerdictAsWritten` | core/permissions.py:78-86 | the first request gets the verdict of the list as it stands; over a tuple every request gets that verdict |
| `Permissions.GeneratorDrains` | core/permissions.py:75-86 | as written, after `j` requests a generator of `m` classes holds at most `m - j` of them |
| `Permissions.GeneratorGrantStays` | core/permissions.py:75-86 | as written, once a request over a generator is granted, every later request is granted |
| `Permissions.GeneratorGrantsAfterDrain` | core/permissions.py:75-86 | as written, a generator of `m` classes is refused or raises on at most its first `m` requests; every later request is granted |
| `Permissions.RegisterAfterUnregisterFails` | core/permissions.py:66-76 | as written, registering after an unregister raises `TypeError` |
| `Permissions.ConsultTwice` | core/permissions.py:78-86 | with sequences, two requests get the same verdict |
| `Signup.CleanText` | core/authentication/serializers.py:12-13 | a `CharField` on text: the stripped text, accepted iff it is blank and blanks are allowed, or it is non-blank, fits the maximum length and holds no NUL character |
| `Signup.CharField` | core/authentication/serializers.py:12-13 | a cleaned value is stripped, non-blank unless blanks are allowed, within the length and free of NUL; `None` and booleans are refused; an integer is read as its text |
| `Signup.CharFieldIdempotent` | core/authentication/serializers.py:12-13 | validating a cleaned value again gives it back |
| `Signup.CharFieldIgnoresPadding` | core/authentication/serializers.py:12-13 | whitespace around a value changes nothing |
| `Signup.CharFieldRefusesWhitespace` | core/authentication/serializers.py:12-13 | a value of whitespace only is refused when blanks are not allowed |
| `Signup.ValidateLogin` | core/authentication/serializers.py:11-14 | accepted iff both e-mail and password pass `CharField(max_length=255)`; the cleaned values are the stripped texts, non-empty and at most 255 long; `remember_me` is false unless given as true |
| `Signup.ValidateLoginIdempotent` | core/authentication/serializers.py:11-14 | the cleaned e-mail and password validate again to themselves |
| `Signup.ValidateLoginOfText` | core/authentication/serializers.py:11-14 | for texts without NUL, accepted iff each stripped text is non-empty and at most 255 long; a missing field is refused |
| `Signup.Validate` | core/authentication/serializers.py:45-54 | 'Cannot use email in password.' iff both are non-empty and the lower-cased address occurs in the lower-cased password |
| `Signup.EmailInsidePasswordRefused` | core/authentication/serializers.py:49-53 | a password embedding the address in any ASCII case is refused |
| `Signup.ValidateEmail` | core/authentication/serializers.py:64-73 | refusal implies a registered user holds the address; unused or pending addresses are accepted |
| `Signup.ValidateEmailWithUniqueAddresses` | core/authentication/serializers.py:64-73 | with unique addresses, refused iff a registered user holds it |
| `Signup.NullableCharField` | core/authentication/serializers.py:31-36 | `None` stays `None`; a text is stripped and accepted, blank included, unless it holds NUL; booleans are refused |
| `Signup.NullableIdempotent` | core/authentication/serializers.py:31-36 | a cleaned invitation value validates again to itself |
| `Signup.LanguageField` | core/authentication/serializers.py:41 | an absent `language` stays absent; a given one is at most 5 characters |
| `Signup.Combine` | core/authentication/serializers.py:25-43 | the validated data exists iff every field passed, and holds their cleaned values |
| `Signup.SignUpFields` | core/authentication/serializers.py:25-43 | validated fields have a non-empty address, password and names, a password of at most 128 and names of at most 30 characters, and a language only when one was given, of at most 5 |
| `Signup.SignUpFieldsOfText` | core/authentication/serializers.py:25-36 | for four texts without NUL, the fields pass iff each stripped text is non-empty and within its length |
| `Signup.SignUpRequestOf` | core/authentication/serializers.py:75-83 | the validated data as the dictionary `create` reads, with every required key and the language only when given |
| `Signup.SignUpFieldsIdempotent` | core/authentication/serializers.py:25-43 | validated data validates again to itself |
| `Signup.SignUpValidate` | core/authentication/views.py:159-160 | valid iff the fields pass, `validate_email` accepts the cleaned address and `validate` accepts the cleaned address and password; the result is the cleaned fields |
| `Signup.SignUpRefusesAddressInUse` | core/authentication/serializers.py:64-73 | an address a registered user holds is refused, however it was padded |
| `Signup.KeepMetaFields` | core/authentication/serializers.py:77-80 | keeps exactly the validated items whose key is in `Meta.fields`, with their values |
| `Signup.SignUpLanguage` | core/authentication/serializers.py:85-88 | the given language when set, else 'en' |
| `Signup.Create` | core/authentication/serializers.py:75-104 | `KeyError` iff a required key is missing, and then nothing changes; a pending user with the address is updated in place with the request's fields, hashed password, active and registered; otherwise a new active user is inserted, and `IntegrityError`, with nothing changed, iff a registered user has the address or a user has the key; unique addresses and keys stay unique, and every user keeps its key and place |
| `Signup.SaveSignUp` | core/authentication/serializers.py:92-102 | the pending user with the address is completed in place, keeping a name not given; otherwise the insert is refused iff the address or the key is taken, else the new user is appended; unique columns stay unique |
| `Signup.CreateChangesAtMostOneRow` | core/authentication/serializers.py:95-102 | an update keeps the row count and changes one row; a create adds one row |
| `CoreUtils.Scope` | core/utils.py:41-45 | the model's own entry when configured, else 'default' |
| `CoreUtils.RandInt` | core/utils.py:49 | a draw lies in `[lo, hi]` |
| `CoreUtils.Grow` | core/utils.py:62-65 | after a collision the count goes up by one, or, once it reaches `GROW_AFTER_COLLISIONS`, the maximum is multiplied by `GROWTH_FACTOR` and the count is reset |
| `CoreUtils.Schedule` | core/utils.py:62-65 | with a growth factor of at least 1, the maximum never shrinks along the schedule |
| `CoreUtils.Draws` | core/utils.py:46-66 | a key lies in `[MIN, maximum]` and, for a table, is free; `None` only for a broken table; `RangeError` only over an empty range; the draws run out only on a table; with a growth factor of at least 1 the maximum never shrinks |
| `CoreUtils.AllCollideStep` | core/utils.py:46-66 | every draw collides iff the first does and the rest collide along the grown schedule |
| `CoreUtils.OutOfDrawsIffAllCollide` | core/utils.py:46-66 | on a table the draws run out iff every draw, over the range the schedule gives it, is a key already taken |
| `CoreUtils.RandomId` | core/utils.py:25-66 | the loop's result and final maximum are `Draws` from `MAX` with no collisions; without a model, the first draw over `[MIN, MAX]`; a broken table gives `None`; a free first draw is returned; a returned key lies in `[MIN, maximum]` and is not in the table |
| `CoreUtils.RandomIdKeepsKeysUnique` | core/utils.py:48-55 | a free key keeps user keys unique once the user is added |
| `CoreUtils.SetDefault` | core/utils.py:72-73 | `setdefault` adds the key only when absent and keeps every other value |
| `CoreUtils.NormalizeEmail` | core/utils.py:76 | an address that holds '@' once stripped comes back stripped, with everything up to its last '@' kept and the part after it lower-cased; any other address comes back unchanged, white space included |
| `CoreUtils.LowerDomain` | core/utils.py:76 | keeps the text up to the last '@', lower-cases what follows, and keeps a stripped text stripped |
| `CoreUtils.NormalizeEmailIdempotent` | core/utils.py:76 | normalizing twice is normalizing once |
| `CoreUtils.NormalizeEmailStrips` | core/utils.py:76 | a padded address normalizes like the unpadded one |
| `CoreUtils.NormalizeEmailKeepsUnsplit` | core/utils.py:76 | a padded address without '@' keeps its padding |
| `CoreUtils.FlagColumn` | core/models/models.py:46-54 | a boolean field stores `None` as NULL, reads True from `True`, 1, 't', 'True', '1' and False from `False`, 0, 'f', 'False', '0', and rejects anything else |
| `CoreUtils.FlagColumnFollowsTruthiness` | core/models/models.py:46-54 | a boolean or an integer the field accepts is stored as its truth value |
| `CoreUtils.FlagColumnIsNotTruthiness` | core/models/models.py:46-54 | the truthy text 'False' is stored as False, and the truthy 2 is rejected |
| `CoreUtils.TextColumn` | core/models/models.py:45 | a text field stores text as given, `None` as NULL, an integer as decimal text that reads back as the integer, a boolean as 'True' or 'False' |
| `CoreUtils.UserFromFields` | core/utils.py:78-80 | a rejected flag fails the save first, then a `None` field; otherwise each field holds what its column makes of the value given, or the model default |
| `CoreUtils.SetDefaultKeepsChecks` | core/utils.py:72-73 | a default that is neither `None` nor a rejected flag changes neither refusal |
| `CoreUtils.SameColumnsSameRow` | core/utils.py:78 | fields whose seven columns agree build the same row |
| `CoreUtils.FalseDefaultKeepsRow` | core/utils.py:72-73 | a False default for staff or superuser builds the same row as leaving it out |
| `CoreUtils.CreateUser` | core/utils.py:68-81 | `ValidationError` iff a given flag is rejected; else `IntegrityError` iff a field is `None` or the normalized address or the key is taken, with nothing saved; else the row built from the given fields is appended, staff and superuser false unless given, and unique columns stay unique |
| `CoreUtils.SuperuserFields` | core/utils.py:85-87 | both flags default to True and the language to 'en'; with both flags True neither refusal changes |
| `CoreUtils.CreateSuperuser` | core/utils.py:84-94 | `ValueError` iff a flag is present and not exactly `True`, staff checked first; then the refusals of `CreateUser`; otherwise a staff superuser, with language 'en' unless given |
| `CoreUtils.SuperuserFlagMustBeBooleanTrue` | core/utils.py:89-92 | a flag given as 1, which the field would store as True, is still refused |
| `CoreUtils.ChooseBackend` | core/utils.py:102-106 | the user's backend, else the first configured backend whose `get_user(pk)` returns a row with the user's key, else nothing iff none does |
| `CoreUtils.ChooseBackendAcceptsCopies` | core/utils.py:104 | a backend that returns another instance of the same row is accepted |
| `CoreUtils.LoginWithoutPassword` | core/utils.py:96-109 | logs in through `token_login` iff a backend is settled on, otherwise nothing changes; `IntegrityError` iff a backend is settled on, the key is non-empty and the generated string is taken; a login with a key carries the new token |
| `AuthViews.CurrentUserInfo` | core/authentication/views.py:68-79 | the user's fields and full name; token info iff the request has a token, as `get_info` gives it |
| `AuthViews.LoginInfoShowsIssuedToken` | core/authentication/views.py:50-60 | right after a login, the payload shows the issued token, the whole lifetime it was given, and the browser-close flag the login's expiry set |
| `AuthViews.LoginRefusal` | core/authentication/views.py:40-43 | 'Incorrect email or password' without a user, 'This account is inactive' unless the flag is set; no refusal iff the user is active |
| `AuthViews.UnsetActiveFlagIsRefusedByView` | core/authentication/views.py:40-43 | a user with an unset flag passes the credential check and is refused by the view |
| `AuthViews.LoginExpiry` | core/authentication/views.py:48-55 | the long length when remembered, else 0 |
| `AuthViews.LoginExpiryEndsWithBrowser` | core/authentication/views.py:51-55 | an unremembered login ends with the browser |
| `AuthViews.Login` | core/authentication/views.py:23-65 | invalid input iff the serializer refuses, and then nothing changes; unknown and inactive users are refused with nothing changed; otherwise `token_login` runs; `IntegrityError` iff its token string is taken, ending the request before the expiry is set; else the expiry is set and the payload shows the new token with its lifetime and browser-close flag |
| `AuthViews.CompleteLogin` | core/authentication/views.py:48-62 | for an active user: `IntegrityError` iff the new token's string is taken; else the expiry is set and the payload shows the new token |
| `AuthViews.FinishLogin` | core/authentication/views.py:51-62 | the expiry is stored, and the payload shows the issued token with its lifetime and browser-close flag |
| `AuthViews.Logout` | core/authentication/views.py:115-125 | an anonymous request gets 200 with nothing changed; otherwise the session is flushed, its tokens deleted, and 'Logged out' returned |
| `AuthViews.SignUpRateThrottle.RemoveLastHistoryItem` | core/authentication/views.py:133-139 | with a rate and a key, drops exactly the last entry of that key's history, or raises `IndexError` on an empty one; otherwise nothing changes |
| `AuthViews.SignUpCreate` | core/authentication/views.py:159-190 | invalid input iff `SignUpValidate` refuses: the throttle's last (oldest) entry is removed, `ValidationError` raised and nothing saved; valid input ends as `SignUpEnds` says |
| `AuthViews.SaveAndLogIn` | core/authentication/views.py:164-190 | `IntegrityError`, with every table as before, whenever the insert would repeat an address or a key, and otherwise only when the login token's string is taken; a saved user holds the request's fields and is logged in iff a backend returns its row, with the new token issued |
| `AuthViews.SaveSignUpUser` | core/authentication/views.py:165 | the validated fields are saved: `IntegrityError` iff the address or key is taken, else the user holds them and is in the table; token tables untouched |

## Left out

- Tables are sequences in primary-key order, not maps keyed by id. The user table's `-date_joined` ordering is not modelled; the table's invariant keeps e-mail addresses unique, so every first-match-by-address lookup on it finds the only match. Address uniqueness is exact text equality; a database collation that ignores case is not modelled.
- Database concurrency, isolation between requests, and the races `transaction.atomic` guards against are not modelled. An `atomic` block is modelled only as rollback on `IntegrityError`.
- `DoesNotExist` swallowed around `token.delete()`: not modelled, because the model never deletes a row that is already gone.
- `get_token_from_request`: only its `isinstance(request.auth, ...)` branch is modelled, as the request's token. The impersonation branch calls a manager method that does not exist and depends on the URL path.
- The authentication middleware, CSRF handling, the test cookie in `login` and signal receivers are outside this model.
- Session-backend internals (`load`, `create`, copying `session_data`, `save`) are modelled only by their effect on the key and the values.
- Password hashing and checking are function parameters. The clock, `os.urandom`, `random.randint` and fresh session keys are parameters too.
- `CoreUtils.RandomId`: the source loops until it finds a free key. The model draws from a finite sequence and reports `OutOfDraws` when the draws run out. A model class given directly rather than by name is not modelled.
- `CoreUtils.NormalizeEmail`: lower-cases ASCII letters only, like every lower-casing in this model. Python's `lower()` also folds non-ASCII letters. `None` as the address is not modelled; the address is text.
- `CoreUtils.UserFromFields`: only the seven keyword fields the helpers and the sign-up use are modelled (names, language and the four flags). Another model field passed by keyword is ignored; Django would store it, or raise `TypeError` for a name the model lacks. The length limits of the text columns are not modelled.
- `Common.Lower`: ASCII letters only; Unicode case folding is not modelled.
- `Signup.ValidateEmail`: the lookup takes the first user with the address. `objects.get` would raise `MultipleObjectsReturned` if several users shared an address, which the unique column rules out.
- `Signup.SignUpFields`: the address-format check of `EmailField` is not modelled; any non-blank text up to the field's length passes. The `language` field's `choices`, if the model declares any, are not modelled.
- `Common.PyInt`: reads ASCII digits only. Python's `int()` also accepts other Unicode decimal digits, and its whitespace set is modelled as the code points `str.isspace` accepts.
- `Common.StrLess`: compares code points. The database's collation for `ORDER BY code` may differ; currency codes are three upper-case ASCII letters, for which both agree.
- `TokenStore.GenerateOtpTokenForRequest` and `TokenStore.ExtendFrontendSession` use the names `FleioOtpToken` and `APIConflict`, which core/authentication/token_authentication.py never defines or imports (its import of `FleioOtpToken` is commented out). The source would raise `NameError` on those paths. The model treats them as the OTP table and an HTTP 409 conflict.
- `Signup.ValidateLogin`: the string forms that `BooleanField` accepts for `remember_me` are not modelled; it takes a boolean or nothing. Values other than text, an integer, a boolean or `None` (lists, dictionaries) are not modelled.
- `AuthViews.SignUpCreate`: the response built from `get_current_user_info` is modelled separately, by `AuthViews.CurrentUserInfo`. The session and request changes made by a login that then raises `IntegrityError` are Python objects and are not rolled back.
- `AuthViews.SignUpRateThrottle.RemoveLastHistoryItem`: the cache entry's expiry (`self.duration`) and how `get_cache_key` builds the key are not modelled; the key is a parameter.
- `TokenAuth.ImpersonatorToken`: a non-numeric impersonator id in the session matches no token here. Django would raise `ValueError` while building the query.
- `AppityTokens.ExpirySeconds`: times are whole seconds, so the truncation of `total_seconds()` is not modelled.
- `AppityToken.__str__`, `get_short_name`, `clients_suspended`, `create_invited_user`, `clear_sessions`, the `current_user` view and `Client`/`UserToClient` fields other than the link are not modelled.
- Translation of messages: messages are literal strings.
- `DEFAULT_USER_LANGUAGE` is read from the `Settings` class, which never defines it, so 'en' is always used.

## Findings

| source | as written | input that shows it | evidently intended | confidence | as-written member | corrected member |
|---|---|---|---|---|---|---|
| core/permissions.py:75-76 | `unregister` stores generator expressions as the class-level lists. Each `has_permission` draws from the generator up to the first class that fails, or to the end on a grant, and a later `+= (c,)` on it raises `TypeError`. | Register only a class `C` that denies, then unregister any other class `D`. The first `has_permission` is refused, the second is granted, and a later `register` raises `TypeError`. | `tuple(...)` around each expression, so the lists stay tuples without the class. | not executed | `Permissions.GeneratorGrantsSecondRequest` | `Permissions.CustomPermissions.Unregister` |
