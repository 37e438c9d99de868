/** The QuickBooks views of app/quickbooks/views.py: creating the account
    record, building the arguments of the SDK's authorization URL (with the
    stored scope string translated to the SDK's scope list), and the OAuth 2.0
    callback that exchanges the authorization code for tokens (sections 4.1.2
    and 4.1.3 of RFC 6749). */
module Quickbooks {
  import opened Wrappers
  import opened Models
  import Text

  /** The integration row QuickBooks is provisioned as. */
  const INTEGRATION: nat := 2

  /** The scope string a new record is created with. */
  const DEFAULT_SCOPES: string := "com.intuit.quickbooks.accounting"

  /** The path of the callback view, appended to the application's base URL. */
  const CALLBACK_PATH: string := "/api/quickbooks/auth/response"

  /** The SDK environment both views construct their client with. */
  const ENVIRONMENT: string := "sandbox"

  function RedirectUri(appUrl: string): string {
    appUrl + CALLBACK_PATH
  }

  // ---------------------------------------------------------------------------
  // Account creation
  // ---------------------------------------------------------------------------

  /** `QuickbooksViewSet.create`: 409 when the caller already has a QuickBooks
      record, else one new record with the accounting scope. */
  method Create(store: AccountStore, user: nat, integrations: map<nat, Integration>) returns (r: CreateOutcome)
    requires store.Valid()
    modifies store
    ensures store.Valid()
    ensures old(store.HasAccount(user, INTEGRATION)) ==>
              r == Conflict && store.accounts == old(store.accounts) && store.nextId == old(store.nextId)
    ensures !old(store.HasAccount(user, INTEGRATION)) && INTEGRATION !in integrations ==>
              r == IntegrationMissing && store.accounts == old(store.accounts) && store.nextId == old(store.nextId)
    ensures !old(store.HasAccount(user, INTEGRATION)) && INTEGRATION in integrations ==>
              && r == Created(old(store.nextId))
              && old(store.nextId) !in old(store.accounts)
              && store.accounts == old(store.accounts)[old(store.nextId) := NewAccount(INTEGRATION, user, Some(DEFAULT_SCOPES))]
              && store.nextId == old(store.nextId) + 1
  {
    r := store.Create(user, INTEGRATION, DEFAULT_SCOPES, integrations);
  }

  // ---------------------------------------------------------------------------
  // Scope translation
  // ---------------------------------------------------------------------------

  /** The members of the SDK's `Scopes` enumeration that the view maps to. */
  datatype Scope = Accounting | Payment | Payroll | PayrollTimetracking | PayrollBenefits

  /** The stored token that stands for each scope. */
  function ScopeKey(s: Scope): string {
    match s
    case Accounting => "com.intuit.quickbooks.accounting"
    case Payment => "com.intuit.quickbooks.payment"
    case Payroll => "com.intuit.quickbooks.payroll"
    case PayrollTimetracking => "com.intuit.quickbooks.payroll.timetracking"
    case PayrollBenefits => "com.intuit.quickbooks.payroll.benefits"
  }

  /** The `switcher` table of `get_quickbook_scopes`. */
  const SWITCHER: map<string, Scope> := map[
    "com.intuit.quickbooks.accounting" := Accounting,
    "com.intuit.quickbooks.payment" := Payment,
    "com.intuit.quickbooks.payroll" := Payroll,
    "com.intuit.quickbooks.payroll.timetracking" := PayrollTimetracking,
    "com.intuit.quickbooks.payroll.benefits" := PayrollBenefits]

  /** `get_quickbook_scopes`: `switcher.get(token, None)`, the scope a token
      names or `None` for a token the table does not know. */
  function ScopeFor(token: string): (r: Option<Scope>)
    ensures r.Some? ==> ScopeKey(r.value) == token
  {
    if token in SWITCHER then Some(SWITCHER[token]) else None
  }

  /** The table is a bijection between its five tokens and the five scopes. */
  lemma ScopeForKey(token: string, s: Scope)
    ensures ScopeFor(token) == Some(s) <==> token == ScopeKey(s)
  {
  }

  /** `[x.strip() for x in parts]`. */
  function StripAll(parts: seq<string>): (r: seq<string>)
    ensures |r| == |parts|
    ensures forall i :: 0 <= i < |parts| ==> r[i] == Text.Strip(parts[i])
    decreases |parts|
  {
    if parts == [] then [] else [Text.Strip(parts[0])] + StripAll(parts[1..])
  }

  /** The tokens of a stored scope string: split on single spaces, each stripped. */
  function ScopeTokens(stored: string): seq<string> {
    StripAll(Text.Split(stored, ' '))
  }

  /** The scopes of the recognised tokens, in token order; others are dropped. */
  function Recognized(tokens: seq<string>): seq<Scope>
    decreases |tokens|
  {
    if tokens == [] then []
    else
      var head := ScopeFor(tokens[0]);
      (if head.Some? then [head.value] else []) + Recognized(tokens[1..])
  }

  /** Translation keeps order: the scopes of a concatenation are the scopes of
      the first part followed by those of the second. */
  lemma {:induction false} RecognizedConcat(a: seq<string>, b: seq<string>)
    ensures Recognized(a + b) == Recognized(a) + Recognized(b)
    decreases |a|
  {
    if a == [] {
      assert a + b == b;
    } else {
      var head := ScopeFor(a[0]);
      var first: seq<Scope> := if head.Some? then [head.value] else [];
      assert (a + b)[0] == a[0];
      assert (a + b)[1..] == a[1..] + b;
      assert Recognized(a + b) == first + Recognized(a[1..] + b);
      RecognizedConcat(a[1..], b);
      assert Recognized(a) == first + Recognized(a[1..]);
      assert first + (Recognized(a[1..]) + Recognized(b)) == (first + Recognized(a[1..])) + Recognized(b);
    }
  }

  /** A scope is in the translation exactly when one of the tokens names it. */
  lemma {:induction false} RecognizedMembership(tokens: seq<string>, s: Scope)
    ensures s in Recognized(tokens) <==> exists i :: 0 <= i < |tokens| && tokens[i] == ScopeKey(s)
    decreases |tokens|
  {
    if tokens != [] {
      RecognizedMembership(tokens[1..], s);
      ScopeForKey(tokens[0], s);
      if s in Recognized(tokens[1..]) {
        var i :| 0 <= i < |tokens[1..]| && tokens[1..][i] == ScopeKey(s);
        assert tokens[i + 1] == ScopeKey(s);
      }
      if exists i :: 0 <= i < |tokens| && tokens[i] == ScopeKey(s) {
        var i :| 0 <= i < |tokens| && tokens[i] == ScopeKey(s);
        if i > 0 { assert tokens[1..][i - 1] == ScopeKey(s); }
      }
    }
  }

  /** Nothing survives exactly when no token is recognised. */
  lemma {:induction false} RecognizedEmpty(tokens: seq<string>)
    ensures Recognized(tokens) == [] <==> forall i :: 0 <= i < |tokens| ==> ScopeFor(tokens[i]).None?
    decreases |tokens|
  {
    if tokens != [] {
      RecognizedEmpty(tokens[1..]);
      assert forall i :: 1 <= i < |tokens| ==> tokens[i] == tokens[1..][i - 1];
    }
  }

  /** The scope list the authorization request passes to the SDK: the
      recognised tokens of the stored string in order, or `[ACCOUNTING]` when
      the string is null or empty or nothing in it is recognised. */
  function ScopeList(stored: Option<string>): (r: seq<Scope>)
    ensures |r| >= 1
  {
    if stored.None? || stored.value == [] then [Accounting]
    else
      var found := Recognized(ScopeTokens(stored.value));
      if found == [] then [Accounting] else found
  }

  /** The fallback rule: a null or empty string, or one in which no token is
      recognised, gives `[ACCOUNTING]`; otherwise the recognised scopes. */
  lemma ScopeListCases(stored: Option<string>)
    ensures (stored.None? || stored == Some("")) ==> ScopeList(stored) == [Accounting]
    ensures stored.Some? && (forall i :: 0 <= i < |ScopeTokens(stored.value)| ==> ScopeFor(ScopeTokens(stored.value)[i]).None?) ==>
              ScopeList(stored) == [Accounting]
    ensures stored.Some? && stored != Some("") &&
            (exists i :: 0 <= i < |ScopeTokens(stored.value)| && ScopeFor(ScopeTokens(stored.value)[i]).Some?) ==>
              ScopeList(stored) == Recognized(ScopeTokens(stored.value))
  {
    if stored.Some? {
      RecognizedEmpty(ScopeTokens(stored.value));
    }
  }

  /** When some token is recognised, a scope is passed exactly when some
      stripped token of the stored string names it. */
  lemma ScopeListMembership(stored: string, s: Scope)
    requires Recognized(ScopeTokens(stored)) != []
    ensures s in ScopeList(Some(stored)) <==>
              exists i :: 0 <= i < |ScopeTokens(stored)| && ScopeTokens(stored)[i] == ScopeKey(s)
  {
    ScopeListCases(Some(stored));
    RecognizedMembership(ScopeTokens(stored), s);
  }

  /** The tokens of the table hold no space and are their own `strip()`. */
  lemma ScopeKeyIsToken(s: Scope)
    ensures ' ' !in ScopeKey(s) && Text.IsStripped(ScopeKey(s))
  {
  }

  /** Two space-free tokens joined by one space are split back apart. */
  lemma TwoTokens(first: string, second: string)
    requires ' ' !in first && ' ' !in second
    ensures Text.Split(first + " " + second, ' ') == [first, second]
  {
    assert first + " " + second == first + [' '] + second;
    Text.SplitAtFirstSeparator(first, ' ', second);
    Text.SplitWithoutSeparator(second, ' ');
  }

  lemma RecognizedPair(known: string, unknown: string, s: Scope)
    requires ScopeFor(known) == Some(s) && ScopeFor(unknown).None?
    ensures Recognized([known, unknown]) == [s]
  {
    var pair := [known, unknown];
    assert pair[0] == known && pair[1..] == [unknown];
    assert [unknown][0] == unknown && [unknown][1..] == [];
    assert Recognized([unknown]) == [] + Recognized([]);
    assert Recognized(pair) == [s] + Recognized([unknown]);
  }

  /** A stored string of a space-free known token, one space and a token the
      table does not know yields only the known token's scope. */
  lemma KnownThenUnknown(known: string, unknown: string, s: Scope)
    requires Text.IsStripped(known) && ' ' !in known && ' ' !in unknown
    requires ScopeFor(known) == Some(s) && ScopeFor(Text.Strip(unknown)).None?
    ensures ScopeList(Some(known + " " + unknown)) == [s]
  {
    TwoTokens(known, unknown);
    Text.StripOfStripped(known);
    var tokens := ScopeTokens(known + " " + unknown);
    assert tokens == [known, Text.Strip(unknown)];
    RecognizedPair(known, Text.Strip(unknown), s);
  }

  /** A recognised token followed by an unknown one yields only the first's scope. */
  lemma MixedScopes(s: Scope, unknown: string)
    requires ' ' !in unknown
    requires ScopeFor(Text.Strip(unknown)).None?
    ensures ScopeList(Some(ScopeKey(s) + " " + unknown)) == [s]
  {
    ScopeKeyIsToken(s);
    ScopeForKey(ScopeKey(s), s);
    KnownThenUnknown(ScopeKey(s), unknown, s);
  }

  /** One more token appends its scope, if it has one, to the translation. */
  lemma RecognizedStep(tokens: seq<string>, i: nat)
    requires i < |tokens|
    ensures Recognized(tokens[..i + 1]) ==
            Recognized(tokens[..i]) + if ScopeFor(tokens[i]).Some? then [ScopeFor(tokens[i]).value] else []
  {
    var t := tokens[i];
    RecognizedConcat(tokens[..i], [t]);
    assert tokens[..i + 1] == tokens[..i] + [t];
    assert [t][0] == t && [t][1..] == [];
  }

  /** The loop of `QuickbooksAuthRequestView.get` that builds the scope list. */
  method AuthorizationScopes(stored: Option<string>) returns (scopes: seq<Scope>)
    ensures scopes == ScopeList(stored)
  {
    scopes := [];
    if stored.None? || stored.value == [] {
      scopes := scopes + [Accounting];
    } else {
      var tokens := ScopeTokens(stored.value);
      for i := 0 to |tokens|
        invariant scopes == Recognized(tokens[..i])
      {
        var current := ScopeFor(tokens[i]);
        RecognizedStep(tokens, i);
        if current.Some? {
          scopes := scopes + [current.value];
        }
      }
      assert tokens[..|tokens|] == tokens;
      if scopes == [] {
        scopes := scopes + [Accounting];
      }
    }
  }

  // ---------------------------------------------------------------------------
  // Authorization request
  // ---------------------------------------------------------------------------

  /** The arguments the view hands the SDK for `get_authorization_url`: the
      client constructor's credentials, redirect URI, environment and state,
      and the scope list. */
  datatype SdkAuthorizationRequest = SdkAuthorizationRequest(
    clientId: Option<string>, clientSecret: Option<string>, redirectUri: string,
    environment: string, state: nat, scopes: seq<Scope>)

  datatype AuthRequestReply =
    | NoAccount                                        // 404
    | NoIntegration                                    // attribute access on a null integration: 500
    | AuthorizationUrl(request: SdkAuthorizationRequest) // 200 with the SDK's URL for these arguments

  /** `QuickbooksAuthRequestView.get` for the signed-in `user`. */
  method AuthRequest(store: AccountStore, integrations: map<nat, Integration>, appUrl: string, user: nat)
    returns (reply: AuthRequestReply)
    requires store.Valid()
    ensures !store.HasAccount(user, INTEGRATION) <==> reply == NoAccount
    ensures store.HasAccount(user, INTEGRATION) && INTEGRATION !in integrations ==> reply == NoIntegration
    ensures store.HasAccount(user, INTEGRATION) && INTEGRATION in integrations ==>
              && reply.AuthorizationUrl?
              && var req := reply.request;
              && req.state in store.accounts && Owns(store.accounts[req.state], user, INTEGRATION)
              && req.clientId == integrations[INTEGRATION].clientId
              && req.clientSecret == integrations[INTEGRATION].clientSecret
              && req.redirectUri == appUrl + "/api/quickbooks/auth/response"
              && req.environment == ENVIRONMENT
              && req.scopes == ScopeList(store.accounts[req.state].scopes)
  {
    var found := store.AccountOf(user, INTEGRATION);
    if found.None? {
      return NoAccount;
    }
    if INTEGRATION !in integrations {
      return NoIntegration;
    }
    var integration := integrations[INTEGRATION];
    var id := found.value;
    var scopes := AuthorizationScopes(store.accounts[id].scopes);
    reply := AuthorizationUrl(SdkAuthorizationRequest(
      integration.clientId, integration.clientSecret, RedirectUri(appUrl), ENVIRONMENT, id, scopes));
  }

  // ---------------------------------------------------------------------------
  // Callback and token exchange
  // ---------------------------------------------------------------------------

  /** What the view asks the SDK's `get_bearer_token` to exchange. */
  datatype TokenRequest = TokenRequest(
    clientId: Option<string>, clientSecret: Option<string>, redirectUri: string, code: string, realmId: string)

  /** The client attributes the SDK fills in on success. */
  datatype Tokens = Tokens(
    accessToken: Option<string>, expiresIn: Option<int>, refreshToken: Option<string>,
    xRefreshTokenExpiresIn: Option<int>, idToken: Option<string>)

  /** The outcome of the exchange: tokens, or the SDK's `AuthClientError`
      with the provider's status code and the text of its body. */
  datatype Exchange = Granted(tokens: Tokens) | AuthClientError(statusCode: nat, content: string)

  datatype CallbackReply =
    | MissingParameter            // a required query parameter is absent: 500
    | MalformedState              // `state` is not an integer: 500
    | UnknownState                // 400 'No matching associated state found.'
    | Misconfigured               // attribute access on a null integration: 500
    | AccessToken(token: Option<string>)  // 200 with the client's access token (null after a failure)

  /** The new account table, the reply, and the exchange the view requested. */
  datatype Step = Step(accounts: map<nat, Account>, reply: CallbackReply, sent: Option<TokenRequest>)

  /** The `error_desc` written when the exchange fails. */
  function ErrorDescription(statusCode: nat, content: string): string {
    "status_code=" + Text.NatToString(statusCode) + ", error=" + content
  }

  /** The status code and the body can both be read back from the description. */
  lemma ErrorDescriptionInjective(s1: nat, c1: string, s2: nat, c2: string)
    requires ErrorDescription(s1, c1) == ErrorDescription(s2, c2)
    ensures s1 == s2 && c1 == c2
  {
    var n1, n2 := Text.NatToString(s1), Text.NatToString(s2);
    var d := ErrorDescription(s1, c1);
    var p := |"status_code="|;
    var tail1, tail2 := ", error=" + c1, ", error=" + c2;
    assert d[p..] == n1 + tail1 && d[p..] == n2 + tail2;
    Text.LeadingDigitsOf(n1, tail1);
    Text.LeadingDigitsOf(n2, tail2);
    assert n1 == d[p..][..|n1|] == n2;
    Text.NatToStringInjective(s1, s2);
    assert c1 == d[p + |n1| + |", error="|..] == c2;
  }

  predicate HasParameters(query: map<string, string>) {
    "state" in query && "code" in query && "realmId" in query
  }

  /** `QuickbooksAuthResponseView.get` as a function of the old table: the
      code and realm are written to the record whose id is `state` (if any),
      the callback is refused when there is no such record, and otherwise the
      exchange either writes the tokens and authenticates or writes the error
      description and time. */
  function Callback(accounts: map<nat, Account>, integrations: map<nat, Integration>, appUrl: string,
                    query: map<string, string>, now: Timestamp, exchange: TokenRequest -> Exchange): Step
  {
    if !HasParameters(query) then Step(accounts, MissingParameter, None)
    else
      var code, realm := query["code"], query["realmId"];
      match Text.ParseInt(query["state"])
      case None => Step(accounts, MalformedState, None)
      case Some(state) =>
        if state < 0 || state !in accounts then Step(accounts, UnknownState, None)
        else
          var id: nat := state;
          var written := accounts[id := Apply(accounts[id], SetCodeAndRealm(code, realm))];
          if INTEGRATION !in integrations then Step(written, Misconfigured, None)
          else
            var integration := integrations[INTEGRATION];
            var request := TokenRequest(integration.clientId, integration.clientSecret, RedirectUri(appUrl), code, realm);
            match exchange(request)
            case Granted(t) =>
              var update := SetQuickbooksTokens(t.accessToken, t.expiresIn, t.refreshToken, t.xRefreshTokenExpiresIn, t.idToken);
              Step(written[id := Apply(written[id], update)], AccessToken(t.accessToken), Some(request))
            case AuthClientError(status, content) =>
              var update := SetError(ErrorDescription(status, content), now);
              Step(written[id := Apply(written[id], update)], AccessToken(None), Some(request))
  }

  /** The view itself, writing the table step by step as the source does. */
  method AuthResponse(store: AccountStore, integrations: map<nat, Integration>, appUrl: string,
                      query: map<string, string>, now: Timestamp, exchange: TokenRequest -> Exchange)
    returns (reply: CallbackReply, sent: Option<TokenRequest>)
    requires store.Valid()
    modifies store
    ensures store.Valid() && store.nextId == old(store.nextId)
    ensures Step(store.accounts, reply, sent) == Callback(old(store.accounts), integrations, appUrl, query, now, exchange)
  {
    sent := None;
    if !HasParameters(query) {
      return MissingParameter, None;
    }
    var state, code, realm := query["state"], query["code"], query["realmId"];
    var parsed := Text.ParseInt(state);
    if parsed.None? {
      return MalformedState, None;
    }
    if parsed.value >= 0 {
      var rows := store.Update(parsed.value, SetCodeAndRealm(code, realm));
    }
    var account := if parsed.value >= 0 then store.Get(parsed.value) else None;
    if account.None? {
      return UnknownState, None;
    }
    var id: nat := parsed.value;
    if INTEGRATION !in integrations {
      return Misconfigured, None;
    }
    var integration := integrations[INTEGRATION];
    var request := TokenRequest(integration.clientId, integration.clientSecret, RedirectUri(appUrl), code, realm);
    sent := Some(request);
    var outcome := exchange(request);
    match outcome
    case Granted(t) =>
      var rows := store.Update(id, SetQuickbooksTokens(t.accessToken, t.expiresIn, t.refreshToken,
                                                       t.xRefreshTokenExpiresIn, t.idToken));
      reply := AccessToken(t.accessToken);
    case AuthClientError(status, content) =>
      var rows := store.Update(id, SetError(ErrorDescription(status, content), now));
      reply := AccessToken(None);
  }

  // ---------------------------------------------------------------------------
  // Properties of the callback
  // ---------------------------------------------------------------------------

  /** A `state` that names no record: 400, no record written, nothing exchanged. */
  lemma CallbackUnknownState(accounts: map<nat, Account>, integrations: map<nat, Integration>, appUrl: string,
                             query: map<string, string>, now: Timestamp, exchange: TokenRequest -> Exchange, state: int)
    requires HasParameters(query) && Text.ParseInt(query["state"]) == Some(state)
    requires state < 0 || state !in accounts
    ensures Callback(accounts, integrations, appUrl, query, now, exchange) == Step(accounts, UnknownState, None)
  {
  }

  /** The callback never adds or removes a record. */
  lemma CallbackKeepsIds(accounts: map<nat, Account>, integrations: map<nat, Integration>, appUrl: string,
                         query: map<string, string>, now: Timestamp, exchange: TokenRequest -> Exchange)
    ensures Callback(accounts, integrations, appUrl, query, now, exchange).accounts.Keys == accounts.Keys
  {
  }

  /** Only the record named by `state` may change, and no record is added or removed. */
  lemma CallbackFrame(accounts: map<nat, Account>, integrations: map<nat, Integration>, appUrl: string,
                      query: map<string, string>, now: Timestamp, exchange: TokenRequest -> Exchange, other: nat)
    requires other in accounts
    requires HasParameters(query) ==> Text.ParseInt(query["state"]) != Some(other)
    ensures var after := Callback(accounts, integrations, appUrl, query, now, exchange).accounts;
            after.Keys == accounts.Keys && after[other] == accounts[other]
  {
  }

  /** A known `state`: the code and realm are stored whatever the exchange does. */
  lemma CallbackStoresCode(accounts: map<nat, Account>, integrations: map<nat, Integration>, appUrl: string,
                           query: map<string, string>, now: Timestamp, exchange: TokenRequest -> Exchange, id: nat)
    requires HasParameters(query) && Text.ParseInt(query["state"]) == Some(id) && id in accounts
    ensures var after := Callback(accounts, integrations, appUrl, query, now, exchange).accounts;
            id in after && after[id].authorizationCode == Some(query["code"]) &&
            after[id].realmId == Some(query["realmId"])
  {
  }

  /** The code that is exchanged is the code the provider sent, with the
      callback's own redirect URI and the integration's credentials. */
  lemma CallbackSendsCode(accounts: map<nat, Account>, integrations: map<nat, Integration>, appUrl: string,
                          query: map<string, string>, now: Timestamp, exchange: TokenRequest -> Exchange, id: nat)
    requires HasParameters(query) && Text.ParseInt(query["state"]) == Some(id) && id in accounts
    requires INTEGRATION in integrations
    ensures Callback(accounts, integrations, appUrl, query, now, exchange).sent ==
            Some(TokenRequest(integrations[INTEGRATION].clientId, integrations[INTEGRATION].clientSecret,
                              appUrl + "/api/quickbooks/auth/response", query["code"], query["realmId"]))
  {
  }

  /** A granted exchange stores the five token attributes and authenticates. */
  lemma CallbackGranted(accounts: map<nat, Account>, integrations: map<nat, Integration>, appUrl: string,
                        query: map<string, string>, now: Timestamp, exchange: TokenRequest -> Exchange,
                        id: nat, t: Tokens)
    requires HasParameters(query) && Text.ParseInt(query["state"]) == Some(id) && id in accounts
    requires INTEGRATION in integrations
    requires exchange(Callback(accounts, integrations, appUrl, query, now, exchange).sent.value) == Granted(t)
    ensures var s := Callback(accounts, integrations, appUrl, query, now, exchange);
            && s.reply == AccessToken(t.accessToken)
            && s.accounts[id].isAuthenticated
            && s.accounts[id].accessToken == t.accessToken && s.accounts[id].expiresIn == t.expiresIn
            && s.accounts[id].refreshToken == t.refreshToken
            && s.accounts[id].xRefreshTokenExpiresIn == t.xRefreshTokenExpiresIn
            && s.accounts[id].idToken == t.idToken
            && s.accounts[id].errorDesc == accounts[id].errorDesc
            && s.accounts[id].errorAt == accounts[id].errorAt
            && s.accounts == accounts[id := accounts[id].(
                 authorizationCode := Some(query["code"]), realmId := Some(query["realmId"]),
                 accessToken := t.accessToken, expiresIn := t.expiresIn, refreshToken := t.refreshToken,
                 xRefreshTokenExpiresIn := t.xRefreshTokenExpiresIn, idToken := t.idToken,
                 isAuthenticated := true)]
  {
  }

  /** A refused exchange records the status and body and the time, and keeps
      the tokens, the authentication flag and every other column the record
      had. */
  lemma CallbackRefused(accounts: map<nat, Account>, integrations: map<nat, Integration>, appUrl: string,
                        query: map<string, string>, now: Timestamp, exchange: TokenRequest -> Exchange,
                        id: nat, status: nat, content: string)
    requires HasParameters(query) && Text.ParseInt(query["state"]) == Some(id) && id in accounts
    requires INTEGRATION in integrations
    requires exchange(Callback(accounts, integrations, appUrl, query, now, exchange).sent.value) ==
             AuthClientError(status, content)
    ensures var s := Callback(accounts, integrations, appUrl, query, now, exchange);
            var before := accounts[id];
            && s.reply == AccessToken(None)
            && s.accounts[id].errorDesc == Some("status_code=" + Text.NatToString(status) + ", error=" + content)
            && s.accounts[id].errorAt == Some(now)
            && s.accounts[id].isAuthenticated == before.isAuthenticated
            && s.accounts[id].accessToken == before.accessToken && s.accounts[id].expiresIn == before.expiresIn
            && s.accounts[id].refreshToken == before.refreshToken
            && s.accounts[id].xRefreshTokenExpiresIn == before.xRefreshTokenExpiresIn
            && s.accounts[id].idToken == before.idToken
            && s.accounts == accounts[id := before.(
                 authorizationCode := Some(query["code"]), realmId := Some(query["realmId"]),
                 errorDesc := Some(ErrorDescription(status, content)), errorAt := Some(now))]
  {
  }
}
