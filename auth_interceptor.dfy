/**
 * The access-token lifecycle of src/api/FirstViewClient.ts: `refreshAuthToken`
 * exchanges the stored login token and email for a fresh access token, and
 * `authRequestInterceptor` runs before every call to the tracking backend,
 * refreshing an absent or expired access token once and attaching
 * `Authorization: Bearer <token>` when it ends up with one.
 *
 * `Refresh` and `Intercept` state each operation's effect on the store;
 * `RefreshAuthToken` and `AuthRequestInterceptor` perform it step by step on a
 * `Storage` object and are proved to have exactly that effect.
 */
module AuthInterceptor {
  import opened Wrappers
  import opened CredentialStore
  import opened AuthApi
  import opened Jwt

  type Headers = map<string, string>

  const AUTHORIZATION: string := "Authorization"

  /** The token `refreshAuthToken` returns, the store after it, and the exchange request it sent (if any). */
  datatype Refreshed = Refreshed(token: string, items: Items, sent: Option<TokenRequest>)

  /**
   * `refreshAuthToken()` with `outcome` standing for what `AuthService.getToken`
   * would yield. Without a stored login token and email nothing is sent and
   * `''` comes back; otherwise exactly one exchange is sent with the stored
   * values, and only a non-empty `auth_token` in the answer is stored (under
   * `auth_token` alone) and returned. Every other answer, failures included,
   * returns `''` and leaves the store as it was.
   */
  function Refresh(items: Items, outcome: TokenOutcome): (r: Refreshed)
    ensures r.sent.None? <==> ReadOrEmpty(items, LOGIN_TOKEN) == "" || ReadOrEmpty(items, EMAIL) == ""
    ensures r.sent.Some? ==>
      r.sent.value == TokenRequest(ReadOrEmpty(items, EMAIL), ReadOrEmpty(items, LOGIN_TOKEN))
    ensures r.token != "" <==>
      r.sent.Some? && outcome.TokenResponse? && outcome.authToken.Some? && outcome.authToken.value != ""
    ensures r.token != "" ==> r.token == outcome.authToken.value && r.items == items[AUTH_TOKEN := r.token]
    ensures r.token == "" ==> r.items == items
  {
    var loginToken := ReadOrEmpty(items, LOGIN_TOKEN);
    var email := ReadOrEmpty(items, EMAIL);
    if loginToken == "" || email == "" then Refreshed("", items, None)
    else
      var request := TokenRequest(email, loginToken);
      match outcome
      case TokenResponse(Some(token)) =>
        if token != "" then Refreshed(token, items[AUTH_TOKEN := token], Some(request))
        else Refreshed("", items, Some(request))
      case _ => Refreshed("", items, Some(request))
  }

  /** `refreshAuthToken()`, performed on the shared store. */
  method RefreshAuthToken(store: Storage, outcome: TokenOutcome) returns (token: string, sent: Option<TokenRequest>)
    modifies store
    ensures Refreshed(token, store.items, sent) == Refresh(old(store.items), outcome)
  {
    var loginToken := store.GetOrEmpty(LOGIN_TOKEN);
    var email := store.GetOrEmpty(EMAIL);
    if loginToken == "" || email == "" {
      return "", None;
    }
    sent := Some(TokenRequest(email, loginToken));
    token := "";
    match outcome {
      case TokenCallFailed =>
      case TokenResponse(authToken) =>
        if authToken.Some? && authToken.value != "" {
          store.SetItem(AUTH_TOKEN, authToken.value);
          token := authToken.value;
        }
    }
  }

  /** `if (token && config.headers) config.headers['Authorization'] = `Bearer ${token}``. */
  function AttachBearer(token: string, headers: Option<Headers>): (h: Option<Headers>)
    ensures h.Some? <==> headers.Some?
    ensures headers.Some? ==> h.value - {AUTHORIZATION} == headers.value - {AUTHORIZATION}
    ensures headers.Some? && token != "" ==>
      AUTHORIZATION in h.value && h.value[AUTHORIZATION] == "Bearer " + token
    ensures token == "" ==> h == headers
  {
    if token != "" && headers.Some? then Some(headers.value[AUTHORIZATION := "Bearer " + token]) else headers
  }

  /** The outcome of one `authRequestInterceptor` call. */
  datatype Intercepted = Intercepted(token: string, headers: Option<Headers>, items: Items, sent: Option<TokenRequest>)

  /** `!token || isTokenExpired(token)` for the stored access token. */
  predicate NeedsRefresh(items: Items, now: int, rt: JsRuntime) {
    var stored := ReadOrEmpty(items, AUTH_TOKEN);
    stored == "" || IsTokenExpired(stored, now, rt)
  }

  /**
   * `authRequestInterceptor(config)` at time `now` (`Date.now()`), with
   * `outcome` standing for what the exchange call would yield. A stored,
   * unexpired access token is used as it is and nothing is sent; otherwise one
   * refresh is made and its result is used. The bearer header is set exactly
   * when the final token is non-empty and the request has headers; no other
   * header changes.
   */
  function Intercept(items: Items, headers: Option<Headers>, now: int, rt: JsRuntime, outcome: TokenOutcome): (r: Intercepted)
    ensures !NeedsRefresh(items, now, rt) ==>
      r.sent.None? && r.items == items && r.token == ReadOrEmpty(items, AUTH_TOKEN) && r.token != ""
    ensures NeedsRefresh(items, now, rt) ==>
      var refreshed := Refresh(items, outcome);
      r.token == refreshed.token && r.items == refreshed.items && r.sent == refreshed.sent
    ensures r.headers == AttachBearer(r.token, headers)
  {
    var stored := ReadOrEmpty(items, AUTH_TOKEN);
    if stored == "" || IsTokenExpired(stored, now, rt) then
      var refreshed := Refresh(items, outcome);
      Intercepted(refreshed.token, AttachBearer(refreshed.token, headers), refreshed.items, refreshed.sent)
    else
      Intercepted(stored, AttachBearer(stored, headers), items, None)
  }

  /** An outgoing request's `config`, whose `headers` object is updated in place. */
  class RequestConfig {
    var headers: Option<Headers>

    constructor (headers: Option<Headers>)
      ensures this.headers == headers
    {
      this.headers := headers;
    }
  }

  /** `authRequestInterceptor(config)`, performed on the shared store and the request's config. */
  method AuthRequestInterceptor(store: Storage, config: RequestConfig, now: int, rt: JsRuntime, outcome: TokenOutcome)
    returns (sent: Option<TokenRequest>)
    modifies store, config
    ensures var r := Intercept(old(store.items), old(config.headers), now, rt, outcome);
      config.headers == r.headers && store.items == r.items && sent == r.sent
  {
    var token := store.GetOrEmpty(AUTH_TOKEN);
    sent := None;
    if token == "" || IsTokenExpired(token, now, rt) {
      token, sent := RefreshAuthToken(store, outcome);
    }
    if token != "" && config.headers.Some? {
      config.headers := Some(config.headers.value[AUTHORIZATION := "Bearer " + token]);
    }
  }

  /**
   * Whatever the exchange would answer, an interceptor call whose stored
   * access token is present and unexpired neither sends an exchange nor
   * touches the store, and attaches that very token.
   */
  lemma ValidTokenIsReused(items: Items, headers: Headers, now: int, rt: JsRuntime, o1: TokenOutcome, o2: TokenOutcome)
    requires !NeedsRefresh(items, now, rt)
    ensures Intercept(items, Some(headers), now, rt, o1) == Intercept(items, Some(headers), now, rt, o2)
    ensures Intercept(items, Some(headers), now, rt, o1).headers.value[AUTHORIZATION] ==
      "Bearer " + items[AUTH_TOKEN]
  {
  }

  /** A token the refresh stores is the one a following interceptor call finds. */
  lemma RefreshedTokenIsStored(items: Items, outcome: TokenOutcome)
    requires Refresh(items, outcome).token != ""
    ensures ReadOrEmpty(Refresh(items, outcome).items, AUTH_TOKEN) == Refresh(items, outcome).token
    ensures ReadOrEmpty(Refresh(items, outcome).items, LOGIN_TOKEN) == ReadOrEmpty(items, LOGIN_TOKEN)
    ensures ReadOrEmpty(Refresh(items, outcome).items, EMAIL) == ReadOrEmpty(items, EMAIL)
  {
  }
}
