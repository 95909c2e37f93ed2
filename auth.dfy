/**
 * `getUser`: who is asking.  A request is answered for exactly one tenant company:
 * the one named by the Whop user behind its token, or, in development mode and only
 * when no token was sent, a configured development company.  The users row of that
 * company is found or created; every failure yields "no user".
 *
 * Request headers are a map from lower-case header name to value; a header that is
 * absent and one that is empty are both "" (both are falsy in the source).  The Whop
 * API's answer for `users.retrieve('me')` under the request's token is a parameter.
 */
module Auth {
  import opened Wrappers
  import opened Schema
  import opened Store

  const TokenHeader: string := "x-whop-user-token"
  const AuthorizationHeader: string := "authorization"
  const BearerPrefix: string := "Bearer "

  const DevUserId: string := "dev_user"
  const DevEmail: string := "dev@example.com"
  const DevUsername: string := "Dev Admin"
  const DevTier: string := "pro"
  const TenantTier: string := "free"
  const DefaultTenantUsername: string := "User"

  /** The value of a header, "" when it is absent. */
  function Header(headers: map<string, string>, name: string): string {
    if name in headers then headers[name] else ""
  }

  /** The process environment the function reads. */
  datatype Env = Env(development: bool, devCompanyId: string, whopCompanyId: string)

  /** The Whop user record `users.retrieve('me')` returns for a token. */
  datatype WhopUser = WhopUser(id: string, email: string, username: string, company_id: string, companyId: string)

  /** What `getUser` returns: a users row and the token to call Whop with. */
  datatype Identity = Identity(
    id: Id,
    whopUserId: string,
    whopCompanyId: string,
    username: string,
    email: string,
    token: string)

  /**
   * The token of a request: a non-empty `x-whop-user-token` header, else the rest of an
   * `Authorization: Bearer …` header, else "" (none).  No request means no token.
   */
  function ExtractToken(headers: Option<map<string, string>>): (token: string)
    ensures headers.None? ==> token == ""
    ensures headers.Some? && Header(headers.value, TokenHeader) != "" ==> token == Header(headers.value, TokenHeader)
    ensures headers.Some? && Header(headers.value, TokenHeader) == "" && token != "" ==>
              Header(headers.value, AuthorizationHeader) == BearerPrefix + token
    ensures headers.Some? && Header(headers.value, TokenHeader) == "" && token == "" ==>
              forall t :: t != "" ==> Header(headers.value, AuthorizationHeader) != BearerPrefix + t
  {
    if headers.None? then ""
    else
      var token := Header(headers.value, TokenHeader);
      if token != "" then token
      else
        var auth := Header(headers.value, AuthorizationHeader);
        if StartsWith(auth, BearerPrefix) then
          assert auth == BearerPrefix + auth[|BearerPrefix|..];
          auth[|BearerPrefix|..]
        else ""
  }

  /** `getCompanyIdFromToken`: `company_id`, else `companyId`; None when the lookup fails or both are empty. */
  function CompanyIdFromToken(me: Option<WhopUser>): (c: Option<string>)
    ensures c.Some? ==> me.Some? && c.value != ""
    ensures c.Some? ==> c.value == (if me.value.company_id != "" then me.value.company_id else me.value.companyId)
    ensures me.Some? && (me.value.company_id != "" || me.value.companyId != "") ==> c.Some?
  {
    match me
    case None => None
    case Some(u) =>
      var c := OrElse(u.company_id, u.companyId);
      if c == "" then None else Some(c)
  }

  /** Which way a request is admitted, and for which company. */
  datatype Access =
    | Denied
    | DevAccess(company: string)
    | TokenAccess(company: string, token: string)
  {
    /** The token the identity carries: "" in development mode. */
    function Token(): string {
      if TokenAccess? then token else ""
    }
  }

  /**
   * The admission decision of `getUser`: no token in development mode admits the
   * configured company (`DEV_COMPANY_ID`, else `WHOP_COMPANY_ID`, else an error); no
   * token otherwise, or a token whose company cannot be found, admits nobody.
   */
  function AccessOf(headers: Option<map<string, string>>, env: Env, me: Option<WhopUser>): (a: Access)
    ensures a.DevAccess? <==> ExtractToken(headers) == "" && env.development && (env.devCompanyId != "" || env.whopCompanyId != "")
    ensures a.DevAccess? ==> a.company == (if env.devCompanyId != "" then env.devCompanyId else env.whopCompanyId)
    ensures a.TokenAccess? <==> ExtractToken(headers) != "" && CompanyIdFromToken(me).Some?
    ensures a.TokenAccess? ==> a.token == ExtractToken(headers) && a.company == CompanyIdFromToken(me).value
    ensures !a.Denied? ==> a.company != ""
  {
    var token := ExtractToken(headers);
    if token == "" && env.development then
      var c := OrElse(env.devCompanyId, env.whopCompanyId);
      if c == "" then Denied else DevAccess(c)
    else if token == "" then Denied
    else
      match CompanyIdFromToken(me)
      case None => Denied
      case Some(c) => TokenAccess(c, token)
  }

  /** A request that carries a token is never admitted through the development path. */
  lemma TokenNeverTakesDevPath(headers: Option<map<string, string>>, env: Env, me: Option<WhopUser>)
    requires ExtractToken(headers) != ""
    ensures AccessOf(headers, env, me).DevAccess? == false
    ensures AccessOf(headers, env, me).Denied? <==> CompanyIdFromToken(me).None?
  {
  }

  /** Outside development mode a request without a token is refused, whatever the environment names. */
  lemma NoTokenOutsideDevelopmentDenied(headers: Option<map<string, string>>, env: Env, me: Option<WhopUser>)
    requires ExtractToken(headers) == "" && !env.development
    ensures AccessOf(headers, env, me) == Denied
  {
  }

  /** The key and row a first request of a company inserts into `users`. */
  function NewUserRow(a: Access, me: Option<WhopUser>): (r: (string, User))
    requires !a.Denied?
    requires a.TokenAccess? ==> me.Some?
    ensures r.1.whopCompanyId == a.company
    ensures r.1.subscriptionStatus == DefaultSubscriptionStatus
    ensures a.DevAccess? ==> r.0 == DevUserId && r.1.subscriptionTier == DevTier
    ensures a.DevAccess? ==> r.1.email == DevEmail && r.1.username == DevUsername
    ensures a.TokenAccess? ==> r.0 == me.value.id && r.1.subscriptionTier == TenantTier && r.1.email == me.value.email
    ensures a.TokenAccess? ==> r.1.username != "" && (me.value.username != "" ==> r.1.username == me.value.username)
    ensures a.TokenAccess? && me.value.username == "" ==> r.1.username == DefaultTenantUsername
  {
    match a
    case DevAccess(c) => (DevUserId, User(0, c, DevEmail, DevUsername, DevTier, DefaultSubscriptionStatus))
    case TokenAccess(c, _) =>
      (me.value.id, User(0, c, me.value.email, OrElse(me.value.username, DefaultTenantUsername), TenantTier, DefaultSubscriptionStatus))
  }

  /** The identity built from users row `row` with key `whopUserId`. */
  function IdentityOf(whopUserId: string, row: User, token: string): Identity {
    Identity(row.id, whopUserId, row.whopCompanyId, row.username, row.email, token)
  }

  /** True when some users row belongs to `company`. */
  ghost predicate HasCompany(users: map<string, User>, company: string) {
    exists w :: w in users && users[w].whopCompanyId == company
  }

  /**
   * `getUser`: admit the request, then return the company's users row, inserting one
   * when the company has none.  The insert fails, and the result is None, when its
   * `whop_user_id` is already taken by a row of another company.
   */
  method GetUser(db: Db, headers: Option<map<string, string>>, env: Env, me: Option<WhopUser>)
    returns (u: Option<Identity>)
    requires db.Valid()
    modifies db
    ensures db.Valid()
    ensures AccessOf(headers, env, me).Denied? ==> u.None? && db.State() == old(db.State())
    ensures u.Some? ==>
      var a := AccessOf(headers, env, me);
      && !a.Denied?
      && u.value.whopCompanyId == a.company
      && u.value.token == a.Token()
      && u.value.whopUserId in db.users
      && u.value == IdentityOf(u.value.whopUserId, db.users[u.value.whopUserId], a.Token())
    ensures !AccessOf(headers, env, me).Denied? && HasCompany(old(db.users), AccessOf(headers, env, me).company) ==>
      u.Some? && db.State() == old(db.State())
    ensures !AccessOf(headers, env, me).Denied? && !HasCompany(old(db.users), AccessOf(headers, env, me).company) ==>
      var row := NewUserRow(AccessOf(headers, env, me), me);
      && (u.Some? <==> row.0 !in old(db.users))
      && (u.Some? ==> u.value.whopUserId == row.0 && db.State() == Schema.InsertUser(old(db.State()), row.0, row.1).value)
      && (u.None? ==> db.State() == old(db.State()))
  {
    var a := AccessOf(headers, env, me);
    if a.Denied? {
      return None;
    }
    var k := db.FindUserByCompany(a.company);
    if k.Some? {
      return Some(IdentityOf(k.value, db.users[k.value], a.Token()));
    }
    var row := NewUserRow(a, me);
    var ok := db.InsertUser(row.0, row.1);
    if !ok {
      return None;
    }
    u := Some(IdentityOf(row.0, db.users[row.0], a.Token()));
  }
}
