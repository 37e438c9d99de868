/** The Xero views of app/xero/views.py: creating the account record, the
    authorization URL (the request of section 4.1.1 of RFC 6749, its query
    written as `application/x-www-form-urlencoded`), and the callback that
    posts the code to the token endpoint with HTTP Basic client credentials
    (section 2 of RFC 7617) and stores the tokens it gets back. */
module Xero {
  import opened Wrappers
  import opened Models
  import Text
  import Utf8
  import Base64
  import FormUrlencoded

  /** The integration row Xero is provisioned as. */
  const INTEGRATION: nat := 1

  /** The scope string a new record is created with. */
  const DEFAULT_SCOPES: string := "accounting.journals.read"

  /** The path of the callback view, appended to the application's base URL. */
  const CALLBACK_PATH: string := "/api/xero/auth/response"

  /** The consent endpoint; the query follows the `?`. */
  const AUTHORIZE_URL: string := "https://login.xero.com/identity/connect/authorize?"

  /** The token endpoint the code is posted to. */
  const TOKEN_URL: string := "https://identity.xero.com/connect/token"

  const FORM_CONTENT_TYPE: string := "application/x-www-form-urlencoded"

  function RedirectUri(appUrl: string): string {
    appUrl + CALLBACK_PATH
  }

  // ---------------------------------------------------------------------------
  // Account creation
  // ---------------------------------------------------------------------------

  /** `XeroViewSet.create`: 409 when the caller already has a Xero record,
      else one new record with the journals scope. */
  method Create(store: AccountStore, user: nat, integrations: map<nat, Integration>) returns (r: CreateOutcome)
    requires store.Valid()
    modifies store
    ensures store.Valid()
    ensures old(store.HasAccount(user, INTEGRATION)) ==>
              r == Conflict && store.accounts == old(store.accounts) && store.nextId == old(store.nextId)
    ensures !old(store.HasAccount(user, INTEGRATION)) && INTEGRATION !in integrations ==>
              r == IntegrationMissing && store.accounts == old(store.accounts) && store.nextId == old(store.nextId)
    ensures !old(store.HasAccount(user, INTEGRATION)) && INTEGRATION in integrations ==>
              && r == Created(old(store.nextId))
              && old(store.nextId) !in old(store.accounts)
              && store.accounts == old(store.accounts)[old(store.nextId) := NewAccount(INTEGRATION, user, Some(DEFAULT_SCOPES))]
              && store.nextId == old(store.nextId) + 1
  {
    r := store.Create(user, INTEGRATION, DEFAULT_SCOPES, integrations);
  }

  // ---------------------------------------------------------------------------
  // Authorization URL
  // ---------------------------------------------------------------------------

  /** `str(v)` of a nullable text column, as `urlencode` applies it: a null
      column is written `None`. */
  function PyStr(v: Option<string>): string {
    if v.Some? then v.value else "None"
  }

  /** The five query parameters, in the order the view lists them. */
  function AuthorizationParams(clientId: Option<string>, appUrl: string, scopes: Option<string>, id: nat)
    : seq<(string, string)>
  {
    [("response_type", "code"), ("client_id", PyStr(clientId)), ("redirect_uri", RedirectUri(appUrl)),
     ("scope", PyStr(scopes)), ("state", Text.NatToString(id))]
  }

  /** The consent URL for the record `id`. */
  function AuthorizationUrl(clientId: Option<string>, appUrl: string, scopes: Option<string>, id: nat): string {
    AUTHORIZE_URL + FormUrlencoded.Serialize(AuthorizationParams(clientId, appUrl, scopes, id))
  }

  /** The URL is the consent endpoint followed by a query that reads back as
      exactly the five parameters, in order, with `state` the record's id. */
  lemma AuthorizationUrlParses(clientId: Option<string>, appUrl: string, scopes: Option<string>, id: nat)
    ensures var url := AuthorizationUrl(clientId, appUrl, scopes, id);
            && url[..|AUTHORIZE_URL|] == AUTHORIZE_URL
            && FormUrlencoded.Parse(url[|AUTHORIZE_URL|..]) ==
               Some([("response_type", "code"), ("client_id", PyStr(clientId)),
                     ("redirect_uri", appUrl + "/api/xero/auth/response"), ("scope", PyStr(scopes)),
                     ("state", Text.NatToString(id))])
            && Text.ParseInt(Text.NatToString(id)) == Some(id)
  {
    var query := FormUrlencoded.Serialize(AuthorizationParams(clientId, appUrl, scopes, id));
    assert AuthorizationUrl(clientId, appUrl, scopes, id)[|AUTHORIZE_URL|..] == query;
    FormUrlencoded.ParseSerialize(AuthorizationParams(clientId, appUrl, scopes, id));
    Text.ParseIntToString(id);
  }

  datatype AuthRequestReply =
    | NoAccount                 // 404
    | NoIntegration             // attribute access on a null integration: 500
    | AuthorizationUrlReply(url: string)  // 200 with the consent URL

  /** `XeroAuthRequestView.get` for the signed-in `user`. */
  function AuthRequest(store: AccountStore, integrations: map<nat, Integration>, appUrl: string, user: nat)
    : (reply: AuthRequestReply)
    reads store
    requires store.Valid()
    ensures !store.HasAccount(user, INTEGRATION) <==> reply == NoAccount
    ensures store.HasAccount(user, INTEGRATION) && INTEGRATION !in integrations ==> reply == NoIntegration
    ensures store.HasAccount(user, INTEGRATION) && INTEGRATION in integrations ==>
              exists id :: id in store.accounts && Owns(store.accounts[id], user, INTEGRATION) &&
                reply == AuthorizationUrlReply(AuthorizationUrl(integrations[INTEGRATION].clientId, appUrl,
                                                                store.accounts[id].scopes, id))
  {
    match store.AccountOf(user, INTEGRATION)
    case None => NoAccount
    case Some(id) =>
      if INTEGRATION !in integrations then NoIntegration
      else AuthorizationUrlReply(AuthorizationUrl(integrations[INTEGRATION].clientId, appUrl,
                                                  store.accounts[id].scopes, id))
  }

  // ---------------------------------------------------------------------------
  // Client credentials
  // ---------------------------------------------------------------------------

  /** The `authorization` header: `Basic ` and the base64 of the UTF-8 bytes
      of `client_id:client_secret`. */
  function BasicCredentials(clientId: string, clientSecret: string): string {
    "Basic " + Base64.Encode(Utf8.Encode(clientId + ":" + clientSecret))
  }

  /** The header decodes back to `client_id:client_secret`. */
  lemma BasicCredentialsDecode(clientId: string, clientSecret: string)
    ensures var header := BasicCredentials(clientId, clientSecret);
            && header[..6] == "Basic "
            && Base64.Decode(header[6..]).Some?
            && Utf8.Decode(Base64.Decode(header[6..]).value) == Some(clientId + ":" + clientSecret)
  {
    var bytes := Utf8.Encode(clientId + ":" + clientSecret);
    assert BasicCredentials(clientId, clientSecret)[6..] == Base64.Encode(bytes);
    Base64.DecodeEncode(bytes);
    Utf8.DecodeEncode(clientId + ":" + clientSecret);
  }

  /** A receiver that splits the decoded pair at its first colon recovers the
      client id, and the rest is the secret, when the id holds no colon. */
  lemma BasicCredentialsSplit(clientId: string, clientSecret: string)
    requires ':' !in clientId
    ensures var parts := Text.Split(clientId + ":" + clientSecret, ':');
            parts[0] == clientId && Text.Join(parts[1..], ':') == clientSecret
  {
    assert clientId + ":" + clientSecret == clientId + [':'] + clientSecret;
    Text.SplitAtFirstSeparator(clientId, ':', clientSecret);
    Text.JoinSplit(clientSecret, ':');
    assert ([clientId] + Text.Split(clientSecret, ':'))[1..] == Text.Split(clientSecret, ':');
  }

  // ---------------------------------------------------------------------------
  // Token request and response
  // ---------------------------------------------------------------------------

  /** What the view posts to the token endpoint, before it is written out. */
  datatype TokenGrant = TokenGrant(code: string, clientId: string, clientSecret: string, redirectUri: string)

  /** The POST as it goes on the wire: endpoint, the two headers and the form body. */
  datatype TokenRequest = TokenRequest(url: string, contentType: string, authorization: string, body: string)

  function TokenRequestParams(g: TokenGrant): seq<(string, string)> {
    [("grant_type", "authorization_code"), ("code", g.code), ("redirect_uri", g.redirectUri)]
  }

  function WireRequest(g: TokenGrant): TokenRequest {
    TokenRequest(TOKEN_URL, FORM_CONTENT_TYPE, BasicCredentials(g.clientId, g.clientSecret),
                 FormUrlencoded.Serialize(TokenRequestParams(g)))
  }

  /** The posted request goes to the token endpoint as a form whose body reads
      back as the grant type, the code and the redirect URI, and whose
      `authorization` header decodes to the client credentials. */
  lemma WireRequestDecodes(g: TokenGrant)
    ensures var r := WireRequest(g);
            && r.url == TOKEN_URL && r.contentType == FORM_CONTENT_TYPE
            && FormUrlencoded.Parse(r.body) ==
               Some([("grant_type", "authorization_code"), ("code", g.code), ("redirect_uri", g.redirectUri)])
            && r.authorization[..6] == "Basic "
            && Base64.Decode(r.authorization[6..]).Some?
            && Utf8.Decode(Base64.Decode(r.authorization[6..]).value) == Some(g.clientId + ":" + g.clientSecret)
  {
    FormUrlencoded.ParseSerialize(TokenRequestParams(g));
    BasicCredentialsDecode(g.clientId, g.clientSecret);
  }

  /** A parsed JSON document; numbers are integers. */
  datatype Json = JNull | JBool(b: bool) | JNumber(n: int) | JString(s: string)
                | JArray(items: seq<Json>) | JObject(members: map<string, Json>)

  /** The provider's answer: its status and its body, `None` when the body is not JSON. */
  datatype ProviderResponse = ProviderResponse(statusCode: nat, body: Option<Json>)

  /** The column values the callback stores, and the raw `access_token` it returns. */
  datatype XeroTokens = XeroTokens(accessToken: Option<string>, expiresIn: Option<int>, refreshToken: Option<string>,
                                   returned: Json)

  /** What a text column stores for a JSON value: a string as it is, null as
      null, and a number or a boolean as its Python `str()`. An array or an
      object is refused here. */
  function TextColumn(j: Json): (r: Option<Option<string>>)
    ensures j.JString? ==> r == Some(Some(j.s))
    ensures j.JNumber? ==> r == Some(Some(Text.IntToString(j.n)))
    ensures j.JBool? ==> r == Some(Some(if j.b then "True" else "False"))
    ensures (j.JArray? || j.JObject?) ==> r.None?
    ensures j.JNull? <==> r == Some(None)
  {
    match j
    case JNull => Some(None)
    case JString(s) => Some(Some(s))
    case JNumber(n) => Some(Some(Text.IntToString(n)))
    case JBool(b) => Some(Some(if b then "True" else "False"))
    case _ => None
  }

  /** What an integer column stores for a JSON value, as `int()` converts it:
      a number as it is, a boolean as 1 or 0, a string that `int()` reads as
      that integer, null as null; anything else makes the write fail. */
  function IntColumn(j: Json): (r: Option<Option<int>>)
    ensures j.JNumber? ==> r == Some(Some(j.n))
    ensures j.JString? ==> (r.Some? <==> Text.ParseInt(j.s).Some?)
    ensures j.JString? && Text.ParseInt(j.s).Some? ==> r == Some(Some(Text.ParseInt(j.s).value))
    ensures j.JBool? ==> r == Some(Some(if j.b then 1 else 0))
    ensures (j.JArray? || j.JObject?) ==> r.None?
    ensures j.JNull? <==> r == Some(None)
  {
    match j
    case JNull => Some(None)
    case JNumber(n) => Some(Some(n))
    case JBool(b) => Some(Some(if b then 1 else 0))
    case JString(s) => (if Text.ParseInt(s).Some? then Some(Some(Text.ParseInt(s).value)) else None)
    case _ => None
  }

  /** A number and its decimal text are stored alike: the integer column gets
      the number from either, and the text column gets that text from either. */
  lemma ColumnsAgree(n: int)
    ensures IntColumn(JString(Text.IntToString(n))) == IntColumn(JNumber(n)) == Some(Some(n))
    ensures TextColumn(JNumber(n)) == TextColumn(JString(Text.IntToString(n)))
  {
    Text.ParseIntOfIntToString(n);
  }

  /** `response['access_token']`, `['expires_in']` and `['refresh_token']`,
      as the `update` call stores them, and the raw access token the view
      returns. */
  function TokenFields(body: Json): (r: Option<XeroTokens>)
    ensures r.Some? <==>
              && body.JObject? && "access_token" in body.members && "expires_in" in body.members
              && "refresh_token" in body.members
              && TextColumn(body.members["access_token"]).Some?
              && IntColumn(body.members["expires_in"]).Some?
              && TextColumn(body.members["refresh_token"]).Some?
    ensures r.Some? ==>
              && TextColumn(body.members["access_token"]) == Some(r.value.accessToken)
              && IntColumn(body.members["expires_in"]) == Some(r.value.expiresIn)
              && TextColumn(body.members["refresh_token"]) == Some(r.value.refreshToken)
              && r.value.returned == body.members["access_token"]
  {
    if !body.JObject? then None
    else
      var m := body.members;
      if !("access_token" in m && "expires_in" in m && "refresh_token" in m) then None
      else
        var access, expires, refresh := TextColumn(m["access_token"]), IntColumn(m["expires_in"]), TextColumn(m["refresh_token"]);
        if access.None? || expires.None? || refresh.None? then None
        else Some(XeroTokens(access.value, expires.value, refresh.value, m["access_token"]))
  }

  // ---------------------------------------------------------------------------
  // Callback
  // ---------------------------------------------------------------------------

  datatype CallbackReply =
    | MissingParameter          // a required query parameter is absent: 500
    | MalformedState            // `state` is not an integer: 500
    | UnknownState              // 400 'No matching associated state found.'
    | Misconfigured             // null integration or null credentials: 500
    | BodyNotJson               // the provider's body is not JSON: 500
    | UnusableTokenBody         // a 200 body without usable token fields: 500
    | ProviderError(statusCode: nat, body: Json)  // the provider's status and body, passed through
    | AccessToken(token: Json)                   // 200 with the access token as the provider sent it

  /** The new account table, the reply, and the token request that was posted. */
  datatype Step = Step(accounts: map<nat, Account>, reply: CallbackReply, sent: Option<TokenGrant>)

  predicate HasParameters(query: map<string, string>) {
    "code" in query && "state" in query
  }

  /** True when the integration row exists and both credentials are set. */
  predicate Provisioned(integrations: map<nat, Integration>) {
    INTEGRATION in integrations && integrations[INTEGRATION].clientId.Some? &&
    integrations[INTEGRATION].clientSecret.Some?
  }

  /** `XeroAuthResponseView.get` as a function of the old table: the code is
      written to the record whose id is `state` (if any), the callback is
      refused when there is no such record, and otherwise the code read back
      from the record is posted; a 200 with usable fields writes the tokens
      and authenticates, and any other status is passed through with nothing
      more written. The oracle `exchange` receives the grant; what goes on the
      wire for a grant `g` is `WireRequest(g)`, described by
      `WireRequestDecodes`. */
  function Callback(accounts: map<nat, Account>, integrations: map<nat, Integration>, appUrl: string,
                    query: map<string, string>, exchange: TokenGrant -> ProviderResponse): Step
  {
    if !HasParameters(query) then Step(accounts, MissingParameter, None)
    else
      match Text.ParseInt(query["state"])
      case None => Step(accounts, MalformedState, None)
      case Some(state) =>
        if state < 0 || state !in accounts then Step(accounts, UnknownState, None)
        else
          var id: nat := state;
          var written := accounts[id := Apply(accounts[id], SetCode(query["code"]))];
          if !Provisioned(integrations) then Step(written, Misconfigured, None)
          else
            var integration := integrations[INTEGRATION];
            var request := TokenGrant(written[id].authorizationCode.value, integration.clientId.value,
                                      integration.clientSecret.value, RedirectUri(appUrl));
            Answer(written, id, request, exchange(request))
  }

  /** The tail of the callback, once `request` has been posted for record `id`:
      a body that is not JSON fails, any status but 200 is passed through, and
      a 200 with usable fields writes the tokens and authenticates; only the
      last case writes to the table. */
  function Answer(written: map<nat, Account>, id: nat, request: TokenGrant, response: ProviderResponse): (s: Step)
    requires id in written
    ensures s.sent == Some(request) && s.accounts.Keys == written.Keys
    ensures forall other :: other in written && other != id ==> s.accounts[other] == written[other]
    ensures s.accounts[id].authorizationCode == written[id].authorizationCode
    ensures s.reply.AccessToken? || s.accounts == written
    ensures s.reply.AccessToken? <==>
              response.statusCode == 200 && response.body.Some? && TokenFields(response.body.value).Some?
  {
    if response.body.None? then Step(written, BodyNotJson, Some(request))
    else if response.statusCode != 200 then
      Step(written, ProviderError(response.statusCode, response.body.value), Some(request))
    else
      match TokenFields(response.body.value)
      case None => Step(written, UnusableTokenBody, Some(request))
      case Some(t) =>
        var update := SetXeroTokens(t.accessToken, t.expiresIn, t.refreshToken);
        Step(written[id := Apply(written[id], update)], AccessToken(t.returned), Some(request))
  }

  /** The view itself, writing the table step by step as the source does. */
  method AuthResponse(store: AccountStore, integrations: map<nat, Integration>, appUrl: string,
                      query: map<string, string>, exchange: TokenGrant -> ProviderResponse)
    returns (reply: CallbackReply, sent: Option<TokenGrant>)
    requires store.Valid()
    modifies store
    ensures store.Valid() && store.nextId == old(store.nextId)
    ensures Step(store.accounts, reply, sent) == Callback(old(store.accounts), integrations, appUrl, query, exchange)
  {
    sent := None;
    if !HasParameters(query) {
      return MissingParameter, None;
    }
    var code, state := query["code"], query["state"];
    var parsed := Text.ParseInt(state);
    if parsed.None? {
      return MalformedState, None;
    }
    if parsed.value >= 0 {
      var rows := store.Update(parsed.value, SetCode(code));
    }
    var account := if parsed.value >= 0 then store.Get(parsed.value) else None;
    if account.None? {
      return UnknownState, None;
    }
    var id: nat := parsed.value;
    if !Provisioned(integrations) {
      return Misconfigured, None;
    }
    var integration := integrations[INTEGRATION];
    var request := TokenGrant(account.value.authorizationCode.value, integration.clientId.value,
                              integration.clientSecret.value, RedirectUri(appUrl));
    sent := Some(request);
    var response := exchange(request);
    if response.body.None? {
      return BodyNotJson, sent;
    }
    if response.statusCode != 200 {
      return ProviderError(response.statusCode, response.body.value), sent;
    }
    var tokens := TokenFields(response.body.value);
    if tokens.None? {
      return UnusableTokenBody, sent;
    }
    var t := tokens.value;
    var rows := store.Update(id, SetXeroTokens(t.accessToken, t.expiresIn, t.refreshToken));
    reply := AccessToken(t.returned);
  }

  // ---------------------------------------------------------------------------
  // Properties of the callback
  // ---------------------------------------------------------------------------

  /** A `state` that names no record: 400, no record written, nothing posted. */
  lemma CallbackUnknownState(accounts: map<nat, Account>, integrations: map<nat, Integration>, appUrl: string,
                             query: map<string, string>, exchange: TokenGrant -> ProviderResponse, state: int)
    requires HasParameters(query) && Text.ParseInt(query["state"]) == Some(state)
    requires state < 0 || state !in accounts
    ensures Callback(accounts, integrations, appUrl, query, exchange) == Step(accounts, UnknownState, None)
  {
  }

  /** The callback never adds or removes a record. */
  lemma CallbackKeepsIds(accounts: map<nat, Account>, integrations: map<nat, Integration>, appUrl: string,
                         query: map<string, string>, exchange: TokenGrant -> ProviderResponse)
    ensures Callback(accounts, integrations, appUrl, query, exchange).accounts.Keys == accounts.Keys
  {
  }

  /** Only the record named by `state` may change, and no record is added or removed. */
  lemma CallbackFrame(accounts: map<nat, Account>, integrations: map<nat, Integration>, appUrl: string,
                      query: map<string, string>, exchange: TokenGrant -> ProviderResponse, other: nat)
    requires other in accounts
    requires HasParameters(query) ==> Text.ParseInt(query["state"]) != Some(other)
    ensures var after := Callback(accounts, integrations, appUrl, query, exchange).accounts;
            after.Keys == accounts.Keys && after[other] == accounts[other]
  {
  }

  /** The posted request carries the received code, the callback's own
      redirect URI and the integration's Basic credentials. */
  lemma CallbackSendsCode(accounts: map<nat, Account>, integrations: map<nat, Integration>, appUrl: string,
                          query: map<string, string>, exchange: TokenGrant -> ProviderResponse, id: nat)
    requires HasParameters(query) && Text.ParseInt(query["state"]) == Some(id) && id in accounts
    requires Provisioned(integrations)
    ensures Callback(accounts, integrations, appUrl, query, exchange).sent ==
            Some(TokenGrant(query["code"], integrations[INTEGRATION].clientId.value,
                            integrations[INTEGRATION].clientSecret.value, RedirectUri(appUrl)))
  {
    var written := accounts[id := Apply(accounts[id], SetCode(query["code"]))];
    assert written[id].authorizationCode == Some(query["code"]);
  }

  /** Once `state` names a record, the received code is written to it whatever
      the exchange does, and the callback is not refused as unknown. With
      `AuthorizationUrlParses` (whose `state` is the record's decimal id and
      parses back to it) this ties the consent URL to the record the callback
      writes. */
  lemma CallbackStoresCode(accounts: map<nat, Account>, integrations: map<nat, Integration>, appUrl: string,
                           query: map<string, string>, exchange: TokenGrant -> ProviderResponse, id: nat)
    requires HasParameters(query) && Text.ParseInt(query["state"]) == Some(id) && id in accounts
    ensures var s := Callback(accounts, integrations, appUrl, query, exchange);
            s.reply != UnknownState && id in s.accounts && s.accounts[id].authorizationCode == Some(query["code"])
  {
  }

  /** A refused exchange passes the provider's status and body through and
      writes nothing beyond the code: tokens, flag and error columns stay. */
  lemma CallbackRefused(accounts: map<nat, Account>, integrations: map<nat, Integration>, appUrl: string,
                        query: map<string, string>, exchange: TokenGrant -> ProviderResponse, id: nat,
                        status: nat, body: Json)
    requires HasParameters(query) && Text.ParseInt(query["state"]) == Some(id) && id in accounts
    requires Provisioned(integrations)
    requires exchange(Callback(accounts, integrations, appUrl, query, exchange).sent.value) ==
             ProviderResponse(status, Some(body))
    requires status != 200
    ensures var s := Callback(accounts, integrations, appUrl, query, exchange);
            && s.reply == ProviderError(status, body)
            && s.accounts == accounts[id := accounts[id].(authorizationCode := Some(query["code"]))]
  {
  }

  /** A 200 with usable fields stores the three tokens, authenticates and
      returns the access token. */
  lemma CallbackGranted(accounts: map<nat, Account>, integrations: map<nat, Integration>, appUrl: string,
                        query: map<string, string>, exchange: TokenGrant -> ProviderResponse, id: nat,
                        body: Json, t: XeroTokens)
    requires HasParameters(query) && Text.ParseInt(query["state"]) == Some(id) && id in accounts
    requires Provisioned(integrations)
    requires exchange(Callback(accounts, integrations, appUrl, query, exchange).sent.value) ==
             ProviderResponse(200, Some(body))
    requires TokenFields(body) == Some(t)
    ensures var s := Callback(accounts, integrations, appUrl, query, exchange);
            && s.reply == AccessToken(body.members["access_token"])
            && s.accounts[id].isAuthenticated
            && s.accounts[id].accessToken == t.accessToken && s.accounts[id].expiresIn == t.expiresIn
            && s.accounts[id].refreshToken == t.refreshToken
            && s.accounts[id].authorizationCode == Some(query["code"])
            && s.accounts[id].errorDesc == accounts[id].errorDesc
            && s.accounts == accounts[id := accounts[id].(
                 authorizationCode := Some(query["code"]), accessToken := t.accessToken,
                 expiresIn := t.expiresIn, refreshToken := t.refreshToken, isAuthenticated := true)]
  {
  }
}
