# Xero and QuickBooks account connection, modelled in Dafny

This project models the account-connection core of a Django back end. The
back end links a signed-in user to two accounting providers, Xero and
QuickBooks Online, through the OAuth 2.0 authorization-code grant (RFC 6749,
section 4.1).

Each provider contributes three views:

- `create` makes the user's account record for that provider. It holds the
  default scope and refuses a second record for the same user and provider.
- The authorization request view builds the provider's consent URL. The
  record's id is the `state` parameter, and its stored scopes become the
  requested scopes.
- The callback view receives `code` and `state`, plus `realmId` for
  QuickBooks. It writes the code to the record whose id is `state`, then
  exchanges the code for tokens and stores them. When the exchange fails,
  QuickBooks stores the error in the record, while Xero stores nothing more
  and passes the provider's answer through.

The records themselves are modelled as well:

- `User` and its manager's `create_user` and `create_superuser`.
- `Integration`, a provider's client credentials.
- `Account`, with its column defaults, its one-choice `token_type`, and its
  uniqueness constraint on (integration, user).

The model is split into modules:

- `Models` (`models.dfy`) holds the records. `AccountStore` and `UserStore`
  are classes whose methods update the tables in place, as the ORM calls
  do.
- `Quickbooks` (`quickbooks.dfy`) and `Xero` (`xero.dfy`) hold the views.
  - Each callback is specified by a function `Callback` of the old table.
  - A method `AuthResponse` performs the same writes step by step, as the
    view does, and is proved equal to that function.
  - The QuickBooks scope translation is a loop, `AuthorizationScopes`,
    proved against the function `ScopeList`.
- The encodings the Xero views put on the wire are modelled with their
  inverses:
  - `Utf8`: UTF-8, RFC 3629.
  - `Base64`: the base64 alphabet of RFC 4648, section 4.
  - `FormUrlencoded`: Python's `urlencode`/`quote_plus` and a form parser.
  - `Text`: `str.split`, `str.strip`, `int()` and `str()` of integers.
- `Bytes` and `Wrappers` hold small shared definitions.

External effects are parameters:

- The HTTP exchange with the token endpoint is a function parameter
  (`exchange`) from the request to the provider's answer. For QuickBooks,
  the answer is the SDK's outcome. For Xero, the parameter receives the
  grant `g`, and the POST that goes on the wire is `Xero.WireRequest(g)`,
  described by `Xero.WireRequestDecodes`.
- The wall clock is a `now` parameter.
- `settings.APPLICATION_URL` is the `appUrl` parameter.
- The provisioned integration rows are a map `integrations`.

## Model

| member | source | states |
|---|---|---|
| Models.TokenTypeFromCode | app/core/models.py:50-53 | a stored code names a token type exactly when it is `BR`, and that type's code is the stored code |
| Models.NewAccount | app/core/models.py:63-78 | a new record belongs to its user and integration, carries the given scopes, has every token, code, realm and error column null, Bearer as token type and is not authenticated |
| Models.Apply | app/quickbooks/views.py:80-109 | each of the five `update(...)` calls gives the record with exactly the columns it names set (code; code and realm; the five QuickBooks token columns and the flag; the three Xero token columns and the flag; error text and time) and every other column kept; so no update changes owner, integration, scopes or token type, and only a token write switches authentication on |
| Models.AtMostOneAccount | app/core/models.py:82-83 | under the uniqueness constraint a (user, integration) pair owns at most one record |
| Models.ApplyKeepsUniqueOwners | app/core/models.py:82-83 | updating one record's fields keeps the uniqueness constraint |
| Models.AccountStore.AccountOf | app/xero/views.py:96 | `.filter(user=…, integration=…).first()` finds a record exactly when the pair owns one, and under the uniqueness constraint the record found is the only one the pair owns |
| Models.AccountStore.Create | app/quickbooks/views.py:42-45 | a pair that owns a record gets a conflict and nothing changes; a missing integration row stores nothing; otherwise exactly one default record with the given scopes is inserted under a fresh id, and the constraint still holds |
| Models.AccountStore.Update | app/xero/views.py:56 | `filter(pk=id).update(...)` writes the update into the record with that id and reports one row, or leaves the table as it was and reports none when no record has that id |
| Models.BuildUser | app/core/models.py:30-33 | the built user has the given email; the given name, or an empty one when none is given; active unless told otherwise; staff and superuser only when told so; with no fields, an active non-staff user with an empty name |
| Models.UserStore.CreateUser | app/core/models.py:7-15 | a missing or empty email is refused with nothing stored; an email in use is refused by the unique constraint; otherwise the user is stored under a fresh id and emails stay unique |
| Models.UserStore.CreateSuperuser | app/core/models.py:17-25 | the refusals of `create_user`, and otherwise a stored active user with an empty name who is staff and superuser |
| Quickbooks.Create | app/quickbooks/views.py:31-47 | 409 with nothing changed when the user already has a QuickBooks record; no record without integration row 2; otherwise one new record of integration 2 with scope `com.intuit.quickbooks.accounting` under the next id, and the id counter moves on by one only then |
| Quickbooks.ScopeFor | app/quickbooks/views.py:120-129 | a token the switcher recognises is the key of the scope it yields |
| Quickbooks.ScopeForKey | app/quickbooks/views.py:122-128 | the switcher is a bijection: a token yields a scope exactly when it is that scope's key |
| Quickbooks.StripAll | app/quickbooks/views.py:151 | the list comprehension keeps the length, and each entry is its part stripped |
| Quickbooks.RecognizedConcat | app/quickbooks/views.py:151-154 | the translation keeps token order: the scopes of a concatenation are the concatenated scopes |
| Quickbooks.RecognizedMembership | app/quickbooks/views.py:151-154 | a scope is collected exactly when some token is its key |
| Quickbooks.RecognizedEmpty | app/quickbooks/views.py:151-155 | nothing is collected exactly when no token is recognised |
| Quickbooks.RecognizedStep | app/quickbooks/views.py:152-154 | one more token appends its scope, if it has one, and nothing else |
| Quickbooks.ScopeList | app/quickbooks/views.py:147-156 | the scope list handed to the SDK is never empty |
| Quickbooks.ScopeListCases | app/quickbooks/views.py:147-156 | a null or empty string gives Accounting alone; a string in which no token is recognised gives Accounting alone; otherwise the recognised scopes in token order |
| Quickbooks.ScopeListMembership | app/quickbooks/views.py:150-154 | once one token is recognised, a scope is passed exactly when one of the stripped tokens is its key |
| Quickbooks.ScopeKeyIsToken | app/quickbooks/views.py:122-128 | the switcher's keys hold no space and have no surrounding whitespace |
| Quickbooks.TwoTokens | app/quickbooks/views.py:151 | two space-free words joined by one space split back into the two words |
| Quickbooks.RecognizedPair | app/quickbooks/views.py:151-154 | a recognised token followed by an unrecognised one collects only the first's scope |
| Quickbooks.KnownThenUnknown | app/quickbooks/views.py:147-156 | a stored string of a recognised token, a space and an unrecognised word yields only the first token's scope |
| Quickbooks.MixedScopes | app/quickbooks/views.py:147-156 | for each of the five scope keys, the key followed by a space and an unknown word yields that scope alone |
| Quickbooks.AuthorizationScopes | app/quickbooks/views.py:147-156 | the loop builds exactly the scope list `ScopeList` defines |
| Quickbooks.AuthRequest | app/quickbooks/views.py:131-160 | 404 exactly when the user has no QuickBooks record; 500 without integration row 2; otherwise the SDK gets the integration's credentials, the callback redirect URI, the sandbox environment, the user's own record id as state and that record's scope list |
| Quickbooks.ErrorDescriptionInjective | app/quickbooks/views.py:107 | the stored error text determines both the status code and the body it was made from |
| Quickbooks.AuthResponse | app/quickbooks/views.py:71-112 | the view's step-by-step writes, reply and exchange request are exactly those of `Callback` on the old table, the table stays valid and the id counter is unchanged |
| Quickbooks.CallbackUnknownState | app/quickbooks/views.py:80-86 | a `state` that names no record gives 400, no write and no exchange |
| Quickbooks.CallbackKeepsIds | app/quickbooks/views.py:80-109 | for every table and query, the callback neither adds nor removes a record |
| Quickbooks.CallbackFrame | app/quickbooks/views.py:80-109 | every record other than the one named by `state` is left as it was |
| Quickbooks.CallbackStoresCode | app/quickbooks/views.py:80 | when `state` names a record, the received code and realm are written to it whatever the exchange does |
| Quickbooks.CallbackSendsCode | app/quickbooks/views.py:90-94 | the exchange request carries the integration's credentials, the callback redirect URI, the received code and the realm |
| Quickbooks.CallbackGranted | app/quickbooks/views.py:80-104 | a granted exchange gives a table that differs from the old one only in the named record: its code, realm, five token attributes and flag are set, and everything else, the error text and time included, is kept; the reply is the access token |
| Quickbooks.CallbackRefused | app/quickbooks/views.py:80-112 | a refused exchange gives a table that differs from the old one only in the named record: its code and realm are set and it stores `status_code=<code>, error=<body>` and the time, and every other column is kept, tokens, authentication, owner, integration, scopes and token type included; the reply is 200 with a null token |
| Xero.Create | app/xero/views.py:25-41 | 409 with nothing changed when the user already has a Xero record; no record without integration row 1; otherwise one new record of integration 1 with scope `accounting.journals.read` under the next id, and the id counter moves on by one only then |
| Xero.AuthorizationUrlParses | app/xero/views.py:102-110 | the consent URL is the authorize endpoint followed by a query that parses back to exactly the five parameters in order, with `state` the record id's decimal text, which `int()` parses back to the id |
| Xero.AuthRequest | app/xero/views.py:93-110 | 404 exactly when the user has no Xero record; 500 without integration row 1; otherwise the consent URL built from the integration's client id, the callback redirect URI and a record the user owns (its scopes and its id) |
| Xero.BasicCredentialsDecode | app/xero/views.py:66 | the `authorization` header starts with `Basic ` and its rest base64- and UTF-8-decodes back to `client_id:client_secret` |
| Xero.BasicCredentialsSplit | app/xero/views.py:66 | splitting the decoded pair at its first colon recovers the client id and the secret when the id holds no colon |
| Xero.WireRequestDecodes | app/xero/views.py:65-76 | the token POST goes to the token endpoint as a form whose body parses back to the grant type, the code and the redirect URI, with the Basic credentials in its header |
| Xero.TextColumn | app/xero/views.py:81-82 | a text column stores a JSON string as it is, a number as its `str()`, a boolean as `True` or `False`, and null as null; nothing else stores null, and an array or object is refused |
| Xero.IntColumn | app/xero/views.py:81 | an integer column stores a JSON number as it is and a boolean as 1 or 0; a JSON string can be stored exactly when `int()` reads it, and then as the number `int()` reads; only null stores null, and an array or object is refused |
| Xero.ColumnsAgree | app/xero/views.py:81 | a number and its decimal text are stored alike, in the integer column and in a text column |
| Xero.TokenFields | app/xero/views.py:79-84 | the fields are usable exactly when the body is an object holding `access_token`, `expires_in` and `refresh_token` whose values the three columns can store; the stored values are those conversions, and the returned token is the raw `access_token` member |
| Xero.Answer | app/xero/views.py:76-84 | after the POST, nothing but the named record can change and its code is kept; the reply is the access token exactly when the status is 200 and the body is JSON with usable fields, and only that case writes to the table |
| Xero.AuthResponse | app/xero/views.py:48-84 | the view's step-by-step writes, reply and posted grant are exactly those of `Callback` on the old table, the table stays valid and the id counter is unchanged |
| Xero.CallbackUnknownState | app/xero/views.py:56-62 | a `state` that names no record gives 400, no write and no POST |
| Xero.CallbackKeepsIds | app/xero/views.py:56-82 | for every table and query, the callback neither adds nor removes a record |
| Xero.CallbackFrame | app/xero/views.py:56-82 | every record other than the one named by `state` is left as it was |
| Xero.CallbackStoresCode | app/xero/views.py:56-62 | when `state` names a record, the callback is not refused and the received code is written to that record whatever the provider answers |
| Xero.CallbackSendsCode | app/xero/views.py:65-76 | the posted grant carries the received code, the integration's client id and secret and the callback redirect URI |
| Xero.CallbackRefused | app/xero/views.py:77-78 | any status but 200 is passed through with its body, and the table holds only the code write |
| Xero.CallbackGranted | app/xero/views.py:56-84 | a 200 with usable fields gives a table that differs from the old one only in the named record: its code, three converted tokens and flag are set, and every other column is kept; the reply is the raw `access_token` member of the body |
| Text.JoinSplit | app/quickbooks/views.py:151 | joining the parts of `split(sep)` with `sep` gives back the string |
| Text.SplitJoin | app/quickbooks/views.py:151 | splitting a join of separator-free parts gives back the parts |
| Text.TrimLeftRemovesSpace | app/quickbooks/views.py:151 | `lstrip` removes a prefix made only of whitespace and keeps the rest |
| Text.TrimRightRemovesSpace | app/quickbooks/views.py:151 | `rstrip` removes a suffix made only of whitespace and keeps the rest |
| Text.Strip | app/quickbooks/views.py:151 | a stripped string neither starts nor ends with whitespace |
| Text.StripOfStripped | app/quickbooks/views.py:151 | a string without surrounding whitespace is its own `strip()` |
| Text.ParseInt | app/xero/views.py:56 | `int()` accepts a text exactly when, stripped, it is ASCII digits with at most one leading sign, and reads it as that signed decimal number |
| Text.ParseIntToString | app/xero/views.py:56 | `int()` of an id's decimal text is the id |
| Text.ParseIntOfIntToString | app/xero/views.py:81 | `int(str(n)) == n` for every integer, negative ones included |
| Text.ParseIntIgnoresSpace | app/quickbooks/views.py:80 | whitespace on either side of a stripped, non-empty text does not change what `int()` reads |
| Text.NatToStringInjective | app/quickbooks/views.py:107 | distinct numbers have distinct decimal texts |
| Utf8.DecodeEncode | app/xero/views.py:66 | UTF-8 decoding undoes `.encode('utf-8')` |
| Utf8.EncodeInjective | app/xero/views.py:66 | distinct strings have distinct UTF-8 encodings |
| Base64.Encode | app/xero/views.py:66 | `b64encode` yields four characters, each of the alphabet or the `=` pad, per started group of three bytes |
| Base64.DecodeEncode | app/xero/views.py:66 | base64 decoding undoes `b64encode` |
| FormUrlencoded.UnquoteQuotePlus | app/xero/views.py:110 | unquoting undoes `quote_plus` |
| FormUrlencoded.QuotePlusHasNoDelimiters | app/xero/views.py:110 | a quoted name or value never holds `&` or `=` |
| FormUrlencoded.ParseSerialize | app/xero/views.py:110 | parsing the output of `urlencode` gives back the pairs, in order |

## Left out

- Routing, serializers, token authentication and permission classes are not
  modelled. The signed-in user is a parameter, and serializer validation of
  the `create` body is assumed to pass.
- The other actions the view sets inherit from `ModelViewSet` (list,
  retrieve, update, partial update and destroy) are not modelled. A destroyed
  record frees the pair, so a later `create` gets a new id, and a consent
  URL issued before then gets 400 at the callback.
- `get_queryset` of both view sets is not modelled. It limits the listing
  and the detail actions to the caller's records of that integration.
- Quickbooks.AuthRequest: the SDK's `get_authorization_url` is not part of
  this model. The reply is the argument tuple the view hands the SDK, not
  the URL the SDK builds.
- The exchange with the token endpoint is a function parameter. That covers
  the SDK's `get_bearer_token` for QuickBooks and `requests.post` for Xero.
  Network failures and exceptions other than `AuthClientError` are not
  modelled.
- JSON bodies are a small `Json` datatype:
  - Its numbers are integers, so floats and their coercion into an integer
    column are left out.
  - Xero.TokenFields: a JSON array or object in a token member is refused,
    which the model answers as `UnusableTokenBody`. Django would store its
    Python `str()` rendering in a text column.
  - Xero.IntColumn: the range of an integer column depends on the database
    backend and is not modelled. PostgreSQL refuses values outside 32 bits,
    while SQLite stores values up to 64 bits.
  - `str(e.content)` is taken to be the body's text. For bytes it is really
    their `b'…'` rendering.
- Xero.TextColumn: a JSON array or object is refused (`None`), while
  Django's TextField would store its Python `str()` rendering. That
  rendering is not modelled.
- Password hashing (`set_password`) and `normalize_email` are left out: the
  stored email is the given one, and there is no password column.
- `created_at` and `updated_at`, and the `max_length` limits, are left out.
- Concurrency and transactions are left out. Every view runs alone, so the
  uniqueness constraint is checked once, in `create`, as the view's
  `exists()` does.
- Text.ParseInt: Python's `int()` also accepts underscores between digits
  and non-ASCII decimal digits. The model accepts optional surrounding
  whitespace, an optional sign and ASCII digits only.
- Xero.CallbackStoresCode, Xero.AuthorizationUrlParses: "the callback for
  the consent URL's `state` writes the record the URL was built for" is the
  composition of these two lemmas. It is not stated as one lemma.
- `__str__` of the records is not modelled.
- The query string of a callback is a map from names to values.
  `request.query_params[...]` takes the last value of a repeated name; the
  model holds only that one value.

## Notes on the source

These are places where the views behave differently from what their
comments and messages suggest. The model follows the code.

- A callback without `code`, `state` or (for QuickBooks) `realmId` raises a
  `KeyError`, which is a server error, not a 400 (`MissingParameter`).
- A `state` that is not an integer makes the pk lookup raise before the
  400 check (`MalformedState`).
- The QuickBooks callback answers 200 even when the exchange fails: it
  stores the error and replies with the client's still-null access token.
- The Xero callback stores nothing but the code when the provider refuses.
  It passes the provider's status and body through.
- A successful token write does not clear `error_desc` or `error_at`. An
  account whose exchange failed once and then succeeded is authenticated and
  still carries the old error.
- A missing integration row fails in every view that reads it, which is a
  server error (`Misconfigured`, `NoIntegration`). A null Xero client id or
  secret fails only in the callback, at the concatenation that builds the
  Basic credentials (`Misconfigured`). The Xero authorization URL writes a
  null client id as `None`.
- `create` checks for an existing record before it looks up the
  integration. A user with a record gets 409 even when the row is missing.
- `create_superuser` calls `create_user` without keyword arguments, so the
  new superuser's name is empty.
- `quote_plus` leaves letters, digits and `_.-~` alone, writes a space as
  `+` and percent-escapes every other UTF-8 byte in upper-case hex.
