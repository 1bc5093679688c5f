/**
 * The authenticated base query of src/redux/fetch-auth-query.ts.
 *
 * Every request is sent with an `Authorization: Bearer <token>` header
 * (the bearer scheme of section 2.1 of RFC 6750) when a token is cached, to
 * the API URL followed by the API's own base path; a `token` header on the
 * response replaces the cached token. The network call is abstracted: the
 * response arrives as an input.
 */
module AuthQuery {
  import opened Wrappers

  /** Header names to values, as a plain object. */
  type Headers = map<string, string>

  const AuthorizationHeader: string := "Authorization"
  const BearerPrefix: string := "Bearer "
  /** The response header that carries a fresh token (Fetch `Headers` names are lower case). */
  const TokenHeader: string := "token"

  /** The object form of a request: `{ url, method, body, headers }` (`method` is `verb` here). */
  datatype FetchArgs = FetchArgs(url: string, verb: Option<string>, body: Option<string>, headers: Option<Headers>)

  /** The options given to `fetchBaseQuery`; only `baseUrl` is read here. */
  datatype BaseArgs = BaseArgs(baseUrl: Option<string>)

  /**
   * What the base query resolves to: its data or error, and the headers of
   * the HTTP response when there was one (`result.meta?.response?.headers`).
   */
  datatype QueryResult = QueryResult(data: Option<string>, error: Option<string>, responseHeaders: Option<Headers>)

  /** What is handed to `fetchBaseQuery`: its base URL and the request. */
  datatype Request = Request(baseUrl: string, args: FetchArgs)

  /** A token is used only when it is truthy: present and non-empty. */
  predicate HasToken(token: Option<string>)
    ensures !HasToken(token) <==> token == None || token == Some("")
  {
    token.Some? && token.value != ""
  }

  /** `{ ...(headers && headers) }`: missing headers spread to an empty object. */
  function BaseHeaders(headers: Option<Headers>): (h: Headers)
    ensures headers.Some? ==> h == headers.value
    ensures headers.None? ==> h == map[]
  {
    headers.GetOr(map[])
  }

  /** The header value of the bearer scheme. */
  function Bearer(token: string): (v: string)
    ensures |v| == |BearerPrefix| + |token|
    ensures v[..|BearerPrefix|] == BearerPrefix && v[|BearerPrefix|..] == token
  {
    BearerPrefix + token
  }

  /** Reads the token back out of an `Authorization` value of the bearer scheme. */
  function BearerToken(v: string): (t: Option<string>)
    ensures t.Some? <==> |v| >= |BearerPrefix| && v[..|BearerPrefix|] == BearerPrefix
    ensures t.Some? ==> v == BearerPrefix + t.value
  {
    if |v| >= |BearerPrefix| && v[..|BearerPrefix|] == BearerPrefix then Some(v[|BearerPrefix|..]) else None
  }

  /** The headers sent with a request, given the incoming headers and the cached token. */
  function AuthHeaders(headers: Option<Headers>, token: Option<string>): (h: Headers)
    ensures HasToken(token) ==> h.Keys == BaseHeaders(headers).Keys + {AuthorizationHeader}
    ensures HasToken(token) ==> h[AuthorizationHeader] == Bearer(token.value)
    ensures HasToken(token) ==> forall k :: k in BaseHeaders(headers) && k != AuthorizationHeader ==> h[k] == BaseHeaders(headers)[k]
    ensures !HasToken(token) ==> h == BaseHeaders(headers)
  {
    if HasToken(token) then BaseHeaders(headers)[AuthorizationHeader := Bearer(token.value)]
    else BaseHeaders(headers)
  }

  /** `params`: the request with its headers replaced by the authenticated ones. */
  function Prepare(args: FetchArgs, token: Option<string>): (p: FetchArgs)
    ensures p.url == args.url && p.verb == args.verb && p.body == args.body
    ensures p.headers == Some(AuthHeaders(args.headers, token))
    ensures HasToken(token) ==> AuthorizationHeader in p.headers.value && BearerToken(p.headers.value[AuthorizationHeader]) == token
    ensures !HasToken(token) ==> p.headers.value == BaseHeaders(args.headers)
  {
    args.(headers := Some(AuthHeaders(args.headers, token)))
  }

  /** The base URL of an API: the API URL followed by its non-empty `baseUrl`. */
  function BaseUrl(apiUrl: string, baseArgs: Option<BaseArgs>): (u: string)
    ensures |u| >= |apiUrl| && u[..|apiUrl|] == apiUrl
    ensures baseArgs.Some? && baseArgs.value.baseUrl.Some? ==> u[|apiUrl|..] == baseArgs.value.baseUrl.value
    ensures !(baseArgs.Some? && baseArgs.value.baseUrl.Some?) ==> u == apiUrl
  {
    var suffix := if baseArgs.Some? && baseArgs.value.baseUrl.Some? then baseArgs.value.baseUrl.value else "";
    apiUrl + suffix
  }

  /**
   * The base URL `getBaseQuery` ends up with, as written:
   * `{ baseUrl: args.baseUrl || apiUrl, ...args }`. The spread puts back a
   * present `baseUrl` even when it is empty.
   */
  function GetBaseQueryUrlAsWritten(args: BaseArgs, apiUrl: string): (u: string)
    ensures args.baseUrl.Some? ==> u == args.baseUrl.value
    ensures args.baseUrl.None? ==> u == apiUrl
  {
    var defaulted := if args.baseUrl.Some? && args.baseUrl.value != "" then args.baseUrl.value else apiUrl;
    if args.baseUrl.Some? then args.baseUrl.value else defaulted
  }

  /** The base URL `getBaseQuery` evidently intends: the given one, or the API URL when it is missing or empty. */
  function GetBaseQueryUrl(args: BaseArgs, apiUrl: string): (u: string)
    ensures args.baseUrl.Some? && args.baseUrl.value != "" ==> u == args.baseUrl.value
    ensures !(args.baseUrl.Some? && args.baseUrl.value != "") ==> u == apiUrl
  {
    if args.baseUrl.Some? && args.baseUrl.value != "" then args.baseUrl.value else apiUrl
  }

  /** An empty `baseUrl` is kept by the code as written instead of falling back to the API URL. */
  lemma EmptyBaseUrlOverridesDefault(apiUrl: string)
    requires apiUrl != ""
    ensures GetBaseQueryUrlAsWritten(BaseArgs(Some("")), apiUrl) == ""
    ensures GetBaseQueryUrl(BaseArgs(Some("")), apiUrl) == apiUrl
  {
  }

  /** Within the authenticated query both readings agree: the composed base URL is used. */
  lemma ComposedBaseUrlUsed(apiUrl: string, baseArgs: Option<BaseArgs>)
    ensures GetBaseQueryUrl(BaseArgs(Some(BaseUrl(apiUrl, baseArgs))), apiUrl) == BaseUrl(apiUrl, baseArgs)
    ensures GetBaseQueryUrlAsWritten(BaseArgs(Some(BaseUrl(apiUrl, baseArgs))), apiUrl) == BaseUrl(apiUrl, baseArgs)
  {
  }

  /** The token a response carries: its non-empty `token` header, if any. */
  function ResponseToken(result: QueryResult): (t: Option<string>)
    ensures t.Some? <==> result.responseHeaders.Some? && TokenHeader in result.responseHeaders.value && result.responseHeaders.value[TokenHeader] != ""
    ensures t.Some? ==> t.value == result.responseHeaders.value[TokenHeader] && t.value != ""
  {
    if result.responseHeaders.Some? && TokenHeader in result.responseHeaders.value && result.responseHeaders.value[TokenHeader] != "" then
      Some(result.responseHeaders.value[TokenHeader])
    else
      None
  }

  /** The cached token after a response: the response's token if it carries one, the old cache otherwise. */
  function Captured(token: Option<string>, result: QueryResult): (t: Option<string>)
    ensures ResponseToken(result).Some? ==> t == ResponseToken(result)
    ensures ResponseToken(result).None? ==> t == token
  {
    if ResponseToken(result).Some? then ResponseToken(result) else token
  }

  /** A response never clears a cached token: it is either kept or replaced by a non-empty one. */
  lemma CapturedKeepsToken(token: Option<string>, result: QueryResult)
    requires HasToken(token)
    ensures HasToken(Captured(token, result))
  {
  }

  /** A token captured from a response is sent as the bearer credential of the next request. */
  lemma NextRequestCarriesCapturedToken(token: Option<string>, result: QueryResult, args: FetchArgs)
    requires ResponseToken(result).Some?
    ensures var p := Prepare(args, Captured(token, result));
      AuthorizationHeader in p.headers.value &&
      p.headers.value[AuthorizationHeader] == BearerPrefix + result.responseHeaders.value[TokenHeader]
  {
  }

  /** Preparing an already prepared request leaves it as it is. */
  lemma {:induction false} PrepareIdempotent(args: FetchArgs, token: Option<string>)
    ensures Prepare(Prepare(args, token), token) == Prepare(args, token)
  {
    var h := AuthHeaders(args.headers, token);
    if HasToken(token) {
      assert AuthHeaders(Some(h), token) == h;
    }
  }

  /**
   * The token store read by `getToken` and written by `setToken`, shared by
   * every API that uses the authenticated query.
   */
  class TokenStore {
    var token: Option<string>

    constructor (stored: Option<string>)
      ensures token == stored
    {
      token := stored;
    }

    /**
     * The first half of one call of the query built by `fetchAuthQuery(baseArgs)`:
     * the cached token is read and the request for `args` is handed to
     * `fetchBaseQuery`. Nothing is written.
     */
    method Send(apiUrl: string, baseArgs: Option<BaseArgs>, args: FetchArgs) returns (sent: Request)
      ensures sent.baseUrl == BaseUrl(apiUrl, baseArgs)
      ensures sent.args == Prepare(args, token)
      ensures HasToken(token) ==> AuthorizationHeader in sent.args.headers.value && BearerToken(sent.args.headers.value[AuthorizationHeader]) == token
    {
      var current := token;
      var params := Prepare(args, current);
      var baseUrl := GetBaseQueryUrlAsWritten(BaseArgs(Some(BaseUrl(apiUrl, baseArgs))), apiUrl);
      ComposedBaseUrlUsed(apiUrl, baseArgs);
      sent := Request(baseUrl, params);
    }

    /**
     * The second half, once `fetchBaseQuery` has resolved to `response`: a
     * token the response carries is stored, and the response is handed back
     * as it is.
     */
    method Receive(response: QueryResult) returns (result: QueryResult)
      modifies this
      ensures token == Captured(old(token), response)
      ensures result == response
    {
      result := response;
      var received := ResponseToken(result);
      if received.Some? {
        token := received;
      }
    }

    /**
     * One call of the query with nothing in between its two halves: the
     * request is built from the token cached before the call, and the
     * cache then holds what the response carried.
     */
    method FetchAuthQuery(apiUrl: string, baseArgs: Option<BaseArgs>, args: FetchArgs, response: QueryResult)
      returns (sent: Request, result: QueryResult)
      modifies this
      ensures sent.baseUrl == BaseUrl(apiUrl, baseArgs)
      ensures sent.args == Prepare(args, old(token))
      ensures token == Captured(old(token), response)
      ensures result == response
    {
      sent := Send(apiUrl, baseArgs, args);
      result := Receive(response);
    }
  }

  /**
   * Two queries in flight at once: both are sent before either response
   * arrives, so both carry the token cached at the start, and the
   * responses are then taken in the order they resolve.
   */
  method Overlapping(store: TokenStore, apiUrl: string, baseArgs: Option<BaseArgs>, first: FetchArgs, second: FetchArgs, firstResponse: QueryResult, secondResponse: QueryResult)
    returns (sentFirst: Request, sentSecond: Request)
    modifies store
    ensures sentFirst.args == Prepare(first, old(store.token)) && sentSecond.args == Prepare(second, old(store.token))
    ensures store.token == Captured(Captured(old(store.token), firstResponse), secondResponse)
  {
    sentFirst := store.Send(apiUrl, baseArgs, first);
    sentSecond := store.Send(apiUrl, baseArgs, second);
    var _ := store.Receive(firstResponse);
    var _ := store.Receive(secondResponse);
  }

  /**
   * With responses that resolve one after the other, the token of the one
   * that resolves last wins; a token the first one carried survives only
   * when the last carries none.
   */
  lemma LastResponseWins(token: Option<string>, firstResponse: QueryResult, secondResponse: QueryResult)
    ensures ResponseToken(secondResponse).Some? ==> Captured(Captured(token, firstResponse), secondResponse) == ResponseToken(secondResponse)
    ensures ResponseToken(secondResponse).None? && ResponseToken(firstResponse).Some? ==>
      Captured(Captured(token, firstResponse), secondResponse) == ResponseToken(firstResponse)
    ensures ResponseToken(secondResponse).None? && ResponseToken(firstResponse).None? ==>
      Captured(Captured(token, firstResponse), secondResponse) == token
  {
  }

  /**
   * A login through one API followed by a request through another: the token
   * the login response carried is sent with the second request.
   */
  method LoginThenFetch(store: TokenStore, apiUrl: string, login: FetchArgs, loginResponse: QueryResult, next: FetchArgs, nextResponse: QueryResult)
    returns (sent: Request)
    requires ResponseToken(loginResponse).Some?
    modifies store
    ensures sent.baseUrl == apiUrl + "/admin/orgs"
    ensures sent.args.headers.Some? && AuthorizationHeader in sent.args.headers.value
    ensures BearerToken(sent.args.headers.value[AuthorizationHeader]) == ResponseToken(loginResponse)
    ensures store.token == Captured(ResponseToken(loginResponse), nextResponse)
  {
    var _, _ := store.FetchAuthQuery(apiUrl, Some(BaseArgs(Some("/admin"))), login, loginResponse);
    var r;
    sent, r := store.FetchAuthQuery(apiUrl, Some(BaseArgs(Some("/admin/orgs"))), next, nextResponse);
  }
}
