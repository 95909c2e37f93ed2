/**
 * The edge middleware: every API request except webhooks must carry an
 * `x-whop-user-token` header outside development mode; all other paths pass.
 */
module Middleware {
  import opened Wrappers
  import opened Auth

  /** What the middleware does with a request. */
  datatype Decision =
    | Pass                                   // `NextResponse.next()` unchanged
    | Forward(headers: map<string, string>)  // `next` with these request headers
    | Unauthorized                           // 401, missing token

  /** Paths that are never checked: static assets, webhooks, the icon, and anything outside `/api`. */
  predicate Skipped(path: string) {
    || StartsWith(path, "/_next")
    || StartsWith(path, "/static")
    || StartsWith(path, "/api/webhooks")
    || path == "/favicon.ico"
    || !StartsWith(path, "/api")
  }

  function Decide(path: string, headers: map<string, string>, development: bool): (d: Decision)
    ensures Skipped(path) ==> d == Pass
    ensures d.Unauthorized? <==> !Skipped(path) && Header(headers, TokenHeader) == "" && !development
    ensures d.Forward? <==> !Skipped(path) && Header(headers, TokenHeader) != ""
    ensures d.Forward? ==> d.headers == headers
  {
    if Skipped(path) then Pass
    else
      var token := Header(headers, TokenHeader);
      if token == "" && development then Pass
      else if token == "" then Unauthorized
      else Forward(headers[TokenHeader := token])
  }

  /** Only `/api` paths can be refused, and never the webhook endpoints. */
  lemma OnlyApiRequestsRefused(path: string, headers: map<string, string>, development: bool)
    requires Decide(path, headers, development).Unauthorized?
    ensures StartsWith(path, "/api") && !StartsWith(path, "/api/webhooks")
  {
  }

  /**
   * A forwarded request reaches `getUser` with the token the middleware saw, and
   * passes the middleware again unchanged.
   */
  lemma ForwardedTokenReachesGetUser(path: string, headers: map<string, string>, development: bool)
    ensures Decide(path, headers, development).Forward? ==>
              ExtractToken(Some(Decide(path, headers, development).headers)) == Header(headers, TokenHeader)
    ensures Decide(path, headers, development).Forward? ==>
              Decide(path, Decide(path, headers, development).headers, development) == Decide(path, headers, development)
  {
  }

  /**
   * Only `x-whop-user-token` is read: a request whose token header is absent or empty
   * is decided as one with no headers at all, whatever else it carries.  In
   * particular a request with only `Authorization: Bearer <t>` is refused on an API path
   * outside development mode, although `getUser` alone would accept `t`.
   */
  lemma BearerOnlyRequestRefused(path: string, headers: map<string, string>, development: bool)
    requires Header(headers, TokenHeader) == ""
    ensures Decide(path, headers, development) == Decide(path, map[], development)
    ensures Decide(path, headers, development) == if Skipped(path) || development then Pass else Unauthorized
    ensures forall t :: t != "" && Header(headers, AuthorizationHeader) == BearerPrefix + t ==>
              ExtractToken(Some(headers)) == t
  {
    forall t | t != "" && Header(headers, AuthorizationHeader) == BearerPrefix + t
      ensures ExtractToken(Some(headers)) == t
    {
      assert (BearerPrefix + t)[..|BearerPrefix|] == BearerPrefix;
      assert (BearerPrefix + t)[|BearerPrefix|..] == t;
    }
  }
}
