/** The records of app/core/models.py: users and their manager, the
    provisioned integrations, and the account table that links a user to an
    integration, with its uniqueness constraint on (integration, user). */
module Models {
  import opened Wrappers

  /** A wall-clock reading, supplied by the caller. */
  type Timestamp = nat

  // ---------------------------------------------------------------------------
  // Integration
  // ---------------------------------------------------------------------------

  /** A provider's registered client credentials; both may be null. */
  datatype Integration = Integration(name: string, clientId: Option<string>, clientSecret: Option<string>)

  // ---------------------------------------------------------------------------
  // Account
  // ---------------------------------------------------------------------------

  /** The choices of `token_type`: Bearer is the only one. */
  datatype TokenType = Bearer

  /** The two-letter code stored for a token type. */
  function TokenTypeCode(t: TokenType): string {
    match t
    case Bearer => "BR"
  }

  /** The token type a stored code stands for, if it is one of the choices. */
  function TokenTypeFromCode(code: string): (r: Option<TokenType>)
    ensures r.Some? <==> code == "BR"
    ensures r.Some? ==> TokenTypeCode(r.value) == code
  {
    if code == TokenTypeCode(Bearer) then Some(Bearer) else None
  }

  /** One user's connection to one provider. The map key of the store is its id. */
  datatype Account = Account(
    integration: nat,
    user: nat,
    authorizationCode: Option<string>,
    scopes: Option<string>,
    accessToken: Option<string>,
    expiresIn: Option<int>,
    refreshToken: Option<string>,
    xRefreshTokenExpiresIn: Option<int>,
    idToken: Option<string>,
    realmId: Option<string>,
    errorDesc: Option<string>,
    errorAt: Option<Timestamp>,
    tokenType: TokenType,
    isAuthenticated: bool)

  /** True when `a` belongs to `user` and `integration`. */
  predicate Owns(a: Account, user: nat, integration: nat) {
    a.integration == integration && a.user == user
  }

  /** The state of a record as the column defaults leave it: not
      authenticated, Bearer, and every code, token and error column null. */
  predicate HasDefaults(a: Account) {
    && !a.isAuthenticated
    && a.tokenType == Bearer
    && a.authorizationCode.None? && a.accessToken.None? && a.expiresIn.None?
    && a.refreshToken.None? && a.xRefreshTokenExpiresIn.None? && a.idToken.None?
    && a.realmId.None? && a.errorDesc.None? && a.errorAt.None?
  }

  /** A record as the column defaults leave it, given its owner and scopes. */
  function NewAccount(integration: nat, user: nat, scopes: Option<string>): (a: Account)
    ensures HasDefaults(a) && Owns(a, user, integration) && a.scopes == scopes
  {
    Account(integration, user, None, scopes, None, None, None, None, None, None, None, None, Bearer, false)
  }

  /** The column assignments the views make through `filter(pk=...).update(...)`. */
  datatype FieldUpdate =
    | SetCode(code: string)
    | SetCodeAndRealm(code: string, realm: string)
    | SetQuickbooksTokens(accessToken: Option<string>, expiresIn: Option<int>, refreshToken: Option<string>,
                          xRefreshTokenExpiresIn: Option<int>, idToken: Option<string>)
    | SetXeroTokens(accessToken: Option<string>, expiresIn: Option<int>, refreshToken: Option<string>)
    | SetError(desc: string, at: Timestamp)

  /** What one update does to one record: the columns it names get the given
      values and every other column keeps its value. No update touches the
      owner, the scopes or the token type; only the token updates
      authenticate; an error update leaves the tokens and the authentication
      flag as they were. */
  function Apply(a: Account, u: FieldUpdate): (b: Account)
    ensures b.integration == a.integration && b.user == a.user
    ensures b.scopes == a.scopes && b.tokenType == a.tokenType
    ensures b.isAuthenticated == (a.isAuthenticated || u.SetQuickbooksTokens? || u.SetXeroTokens?)
    ensures u.SetCode? ==> b == a.(authorizationCode := Some(u.code))
    ensures u.SetCodeAndRealm? ==> b == a.(authorizationCode := Some(u.code), realmId := Some(u.realm))
    ensures u.SetQuickbooksTokens? ==>
              b == a.(accessToken := u.accessToken, expiresIn := u.expiresIn, refreshToken := u.refreshToken,
                      xRefreshTokenExpiresIn := u.xRefreshTokenExpiresIn, idToken := u.idToken,
                      isAuthenticated := true)
    ensures u.SetXeroTokens? ==>
              b == a.(accessToken := u.accessToken, expiresIn := u.expiresIn, refreshToken := u.refreshToken,
                      isAuthenticated := true)
    ensures u.SetError? ==> b == a.(errorDesc := Some(u.desc), errorAt := Some(u.at))
    ensures (u.SetCode? || u.SetCodeAndRealm?) ==> b.authorizationCode == Some(u.code)
    ensures !(u.SetCode? || u.SetCodeAndRealm?) ==> b.authorizationCode == a.authorizationCode
    ensures b.errorDesc == (if u.SetError? then Some(u.desc) else a.errorDesc)
    ensures b.errorAt == (if u.SetError? then Some(u.at) else a.errorAt)
  {
    match u
    case SetCode(code) => a.(authorizationCode := Some(code))
    case SetCodeAndRealm(code, realm) => a.(authorizationCode := Some(code), realmId := Some(realm))
    case SetQuickbooksTokens(access, expires, refresh, xRefresh, idToken) =>
      a.(accessToken := access, expiresIn := expires, refreshToken := refresh,
         xRefreshTokenExpiresIn := xRefresh, idToken := idToken, isAuthenticated := true)
    case SetXeroTokens(access, expires, refresh) =>
      a.(accessToken := access, expiresIn := expires, refreshToken := refresh, isAuthenticated := true)
    case SetError(desc, at) => a.(errorDesc := Some(desc), errorAt := Some(at))
  }

  /** The `unique_together = ('integration', 'user')` constraint. */
  ghost predicate UniqueOwners(m: map<nat, Account>) {
    forall i, j :: i in m && j in m && m[i].integration == m[j].integration && m[i].user == m[j].user ==> i == j
  }

  /** The ids of the records a pair owns. */
  function OwnedIds(m: map<nat, Account>, user: nat, integration: nat): set<nat> {
    set id | id in m && Owns(m[id], user, integration)
  }

  /** Under the constraint a pair owns at most one record. */
  lemma AtMostOneAccount(m: map<nat, Account>, user: nat, integration: nat)
    requires UniqueOwners(m)
    ensures |OwnedIds(m, user, integration)| <= 1
  {
    var ids := OwnedIds(m, user, integration);
    if ids != {} {
      var id :| id in ids;
      assert ids == {id};
    }
  }

  /** Writing any update to a record keeps the constraint. */
  lemma ApplyKeepsUniqueOwners(m: map<nat, Account>, id: nat, u: FieldUpdate)
    requires UniqueOwners(m) && id in m
    ensures UniqueOwners(m[id := Apply(m[id], u)])
  {
    var m' := m[id := Apply(m[id], u)];
    forall i, j | i in m' && j in m' && m'[i].integration == m'[j].integration && m'[i].user == m'[j].user
      ensures i == j
    {
      assert m[i].integration == m'[i].integration && m[i].user == m'[i].user;
      assert m[j].integration == m'[j].integration && m[j].user == m'[j].user;
    }
  }

  /** The answer of `create` on the account table. */
  datatype CreateOutcome =
    | Created(id: nat)         // 201 with {id, is_authenticated: false}
    | Conflict                 // 409: the pair already owns a record
    | IntegrationMissing       // `Integration.objects.get` raised: 500

  /** The account table, with ids handed out by an auto-increment counter. */
  class AccountStore {
    var accounts: map<nat, Account>
    var nextId: nat

    ghost predicate Valid()
      reads this
    {
      && 1 <= nextId
      && (forall id :: id in accounts ==> 1 <= id < nextId)
      && UniqueOwners(accounts)
    }

    constructor ()
      ensures Valid() && accounts == map[] && nextId == 1
    {
      accounts := map[];
      nextId := 1;
    }

    /** `Account.objects.filter(user=user, integration=integration).exists()`. */
    predicate HasAccount(user: nat, integration: nat)
      reads this
    {
      exists id :: id in accounts && Owns(accounts[id], user, integration)
    }

    /** `.filter(user=user, integration=integration).first()`: the one record
        the pair owns, if any. */
    function AccountOf(user: nat, integration: nat): (r: Option<nat>)
      reads this
      requires Valid()
      ensures r.Some? <==> HasAccount(user, integration)
      ensures r.Some? ==> r.value in accounts && Owns(accounts[r.value], user, integration)
      ensures forall id :: id in accounts && Owns(accounts[id], user, integration) ==> r == Some(id)
    {
      if HasAccount(user, integration) then
        Some(var id :| id in accounts && Owns(accounts[id], user, integration); id)
      else None
    }

    /** `Account.objects.filter(pk=id).first()`. */
    function Get(id: nat): (r: Option<Account>)
      reads this
      ensures r.Some? <==> id in accounts
      ensures r.Some? ==> r.value == accounts[id]
    {
      if id in accounts then Some(accounts[id]) else None
    }

    /** The provider views' `create`: refuse a second record for the pair,
        else insert one with the column defaults and the given scopes. The
        record is saved only if the integration row exists. */
    method Create(user: nat, integration: nat, scopes: string, integrations: map<nat, Integration>)
      returns (r: CreateOutcome)
      requires Valid()
      modifies this
      ensures Valid()
      ensures old(HasAccount(user, integration)) ==>
                r == Conflict && accounts == old(accounts) && nextId == old(nextId)
      ensures !old(HasAccount(user, integration)) && integration !in integrations ==>
                r == IntegrationMissing && accounts == old(accounts) && nextId == old(nextId)
      ensures !old(HasAccount(user, integration)) && integration in integrations ==>
                && r == Created(old(nextId))
                && old(nextId) !in old(accounts)
                && accounts == old(accounts)[old(nextId) := NewAccount(integration, user, Some(scopes))]
                && nextId == old(nextId) + 1
    {
      if HasAccount(user, integration) {
        return Conflict;
      }
      if integration !in integrations {
        return IntegrationMissing;
      }
      var id := nextId;
      accounts := accounts[id := NewAccount(integration, user, Some(scopes))];
      nextId := nextId + 1;
      r := Created(id);
    }

    /** `Account.objects.filter(pk=id).update(...)`: writes the record with
        that id, if there is one, and returns the number of rows matched. */
    method Update(id: nat, u: FieldUpdate) returns (rows: nat)
      requires Valid()
      modifies this
      ensures Valid() && nextId == old(nextId)
      ensures rows == (if id in old(accounts) then 1 else 0)
      ensures accounts == (if id in old(accounts) then old(accounts)[id := Apply(old(accounts)[id], u)]
                           else old(accounts))
    {
      if id in accounts {
        ApplyKeepsUniqueOwners(accounts, id, u);
        accounts := accounts[id := Apply(accounts[id], u)];
        rows := 1;
      } else {
        rows := 0;
      }
    }
  }

  // ---------------------------------------------------------------------------
  // User and UserManager
  // ---------------------------------------------------------------------------

  /** A user; `is_superuser` comes from Django's permissions mixin. */
  datatype User = User(email: string, name: string, isActive: bool, isStaff: bool, isSuperuser: bool)

  /** The keyword arguments `create_user` may receive; `None` means "not given". */
  datatype UserFields = UserFields(name: Option<string>, isActive: Option<bool>, isStaff: Option<bool>,
                                   isSuperuser: Option<bool>)

  /** No keyword arguments, as `create_superuser` calls `create_user`. */
  function NoFields(): UserFields {
    UserFields(None, None, None, None)
  }

  function GetOr<T>(o: Option<T>, default: T): T {
    if o.Some? then o.value else default
  }

  /** A user object built from an email and keyword arguments: the fields not
      given take their column defaults (empty name, active, neither staff nor
      superuser). */
  function BuildUser(email: string, fields: UserFields): (u: User)
    ensures u.email == email
    ensures u.isActive == (fields.isActive != Some(false))
    ensures u.isStaff == (fields.isStaff == Some(true))
    ensures u.isSuperuser == (fields.isSuperuser == Some(true))
    ensures fields.name.Some? ==> u.name == fields.name.value
    ensures fields.name.None? ==> u.name == ""
    ensures fields == NoFields() ==> u == User(email, "", true, false, false)
  {
    User(email, GetOr(fields.name, ""), GetOr(fields.isActive, true), GetOr(fields.isStaff, false),
         GetOr(fields.isSuperuser, false))
  }

  datatype UserError =
    | MissingEmail     // ValueError('User must have an email address')
    | DuplicateEmail   // the `unique=True` constraint on email refused the save

  /** The user table. */
  class UserStore {
    var users: map<nat, User>
    var nextId: nat

    ghost predicate Valid()
      reads this
    {
      && 1 <= nextId
      && (forall id :: id in users ==> 1 <= id < nextId)
      && (forall i, j :: i in users && j in users && users[i].email == users[j].email ==> i == j)
    }

    constructor ()
      ensures Valid() && users == map[] && nextId == 1
    {
      users := map[];
      nextId := 1;
    }

    predicate EmailTaken(email: string)
      reads this
    {
      exists id :: id in users && users[id].email == email
    }

    /** `UserManager.create_user`: a missing or empty email is refused before
        anything is stored; otherwise the built user is saved under a new id. */
    method CreateUser(email: Option<string>, fields: UserFields) returns (r: Result<nat, UserError>)
      requires Valid()
      modifies this
      ensures Valid()
      ensures (email.None? || email == Some("")) ==>
                r == Err(MissingEmail) && users == old(users) && nextId == old(nextId)
      ensures email.Some? && email != Some("") && old(EmailTaken(email.value)) ==>
                r == Err(DuplicateEmail) && users == old(users) && nextId == old(nextId)
      ensures email.Some? && email != Some("") && !old(EmailTaken(email.value)) ==>
                && r == Ok(old(nextId))
                && old(nextId) !in old(users)
                && users == old(users)[old(nextId) := BuildUser(email.value, fields)]
                && nextId == old(nextId) + 1
    {
      if email.None? || email.value == "" {
        return Err(MissingEmail);
      }
      if EmailTaken(email.value) {
        return Err(DuplicateEmail);
      }
      var id := nextId;
      users := users[id := BuildUser(email.value, fields)];
      nextId := nextId + 1;
      r := Ok(id);
    }

    /** `UserManager.create_superuser`: `create_user` without keyword
        arguments, then the staff and superuser flags set and saved again. */
    method CreateSuperuser(email: Option<string>) returns (r: Result<nat, UserError>)
      requires Valid()
      modifies this
      ensures Valid()
      ensures r.Err? ==> users == old(users) && nextId == old(nextId)
      ensures (email.None? || email == Some("")) ==> r == Err(MissingEmail)
      ensures email.Some? && email != Some("") && old(EmailTaken(email.value)) ==> r == Err(DuplicateEmail)
      ensures email.Some? && email != Some("") && !old(EmailTaken(email.value)) ==>
                && r == Ok(old(nextId))
                && users == old(users)[old(nextId) := User(email.value, "", true, true, true)]
                && nextId == old(nextId) + 1
    {
      r := CreateUser(email, NoFields());
      if r.Ok? {
        var id := r.value;
        users := users[id := users[id].(isStaff := true, isSuperuser := true)];
      }
    }
  }
}
