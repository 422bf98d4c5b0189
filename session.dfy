/**
 * The session provider of src/utils/authContext.tsx: sign-in stores the login
 * token and email the refresh logic later reads, sign-out removes every
 * credential, and the startup load restores the session from storage.
 *
 * The React state (`isReady`, `isLoggedIn`, `loginToken`, `email`) is the
 * fields of an `AuthProvider`, which shares the one `Storage` object with the
 * token refresh logic. `SignInItems` and `SignOutItems` state what each
 * transition does to the store, so the lemmas at the end can follow a
 * transition with a refresh.
 */
module Session {
  import opened Wrappers
  import opened CredentialStore
  import opened AuthApi
  import opened AuthInterceptor

  /** The store after a granted sign-in: `login_token` and `email` written, nothing else changed. */
  function SignInItems(items: Items, loginToken: string, email: string): (r: Items)
    ensures LOGIN_TOKEN in r && r[LOGIN_TOKEN] == loginToken
    ensures EMAIL in r && r[EMAIL] == email
    ensures r - {LOGIN_TOKEN, EMAIL} == items - {LOGIN_TOKEN, EMAIL}
  {
    items[LOGIN_TOKEN := loginToken][EMAIL := email]
  }

  /**
   * The store after sign-out: `login_token`, `auth_token` and `email` are
   * gone and every other key is kept. From such a store no refresh can send
   * an exchange, whatever the backend would answer.
   */
  function SignOutItems(items: Items): (r: Items)
    ensures LOGIN_TOKEN !in r && AUTH_TOKEN !in r && EMAIL !in r
    ensures r.Keys == items.Keys - {LOGIN_TOKEN, AUTH_TOKEN, EMAIL}
    ensures forall k :: k in r ==> r[k] == items[k]
    ensures forall o :: Refresh(r, o) == Refreshed("", r, None)
  {
    items - {LOGIN_TOKEN, AUTH_TOKEN, EMAIL}
  }

  class AuthProvider {
    const storage: Storage
    var isReady: bool
    var isLoggedIn: bool
    var loginToken: string
    var email: string

    /** The provider as first rendered: every `useState` at its initial value. */
    constructor (storage: Storage)
      ensures this.storage == storage
      ensures !isReady && !isLoggedIn && loginToken == "" && email == ""
    {
      this.storage := storage;
      isReady, isLoggedIn, loginToken, email := false, false, "", "";
    }

    /**
     * `signIn(email, password)` with the device's build id and the login
     * call's outcome as parameters. Returns the request sent and whether the
     * call's failure propagates (`raised`). Only a non-empty `login_token`
     * changes anything: it and the email are stored and the session becomes
     * logged in. A response without one changes nothing and raises nothing.
     */
    method SignIn(email: string, password: string, buildId: Option<string>, outcome: LoginOutcome)
      returns (request: LoginRequest, raised: bool)
      modifies this, storage
      ensures request == MakeLoginRequest(email, password, buildId)
      ensures raised <==> outcome.LoginCallFailed?
      ensures GrantsLoginToken(outcome) ==>
        && storage.items == SignInItems(old(storage.items), outcome.loginToken.value, email)
        && isLoggedIn && this.email == email && loginToken == outcome.loginToken.value
        && isReady == old(isReady)
      ensures !GrantsLoginToken(outcome) ==> unchanged(this) && storage.items == old(storage.items)
    {
      request := MakeLoginRequest(email, password, buildId);
      raised := false;
      match outcome {
        case LoginCallFailed =>
          raised := true;
        case LoginResponse(token) =>
          if token.Some? && token.value != "" {
            storage.SetItem(LOGIN_TOKEN, token.value);
            storage.SetItem(EMAIL, email);
            isLoggedIn := true;
            this.email := email;
            loginToken := token.value;
          }
      }
    }

    /**
     * `signOut()`: removes `login_token`, `auth_token` and `email` and marks
     * the session logged out. The `loginToken` and `email` fields keep their
     * values; only `isLoggedIn` changes.
     */
    method SignOut()
      modifies this, storage
      ensures storage.items == SignOutItems(old(storage.items))
      ensures !isLoggedIn
      ensures loginToken == old(loginToken) && email == old(email) && isReady == old(isReady)
    {
      storage.RemoveItem(LOGIN_TOKEN);
      storage.RemoveItem(AUTH_TOKEN);
      storage.RemoveItem(EMAIL);
      isLoggedIn := false;
    }

    /**
     * The startup `getAuthFromStorage` effect; `readFails` says whether a
     * storage read rejects. Both reads fall back to `''`, so the
     * `loginToken !== null` test always passes and its `else` branch is
     * unreachable: after a successful read the session is logged in even when
     * nothing was stored. A failed read is logged and leaves the state as it
     * was. Either way the provider becomes ready.
     */
    method LoadFromStorage(readFails: bool)
      modifies this
      ensures isReady
      ensures !readFails ==>
        && isLoggedIn
        && loginToken == ReadOrEmpty(storage.items, LOGIN_TOKEN)
        && email == ReadOrEmpty(storage.items, EMAIL)
      ensures readFails ==>
        isLoggedIn == old(isLoggedIn) && loginToken == old(loginToken) && email == old(email)
    {
      if !readFails {
        var storedToken := storage.GetOrEmpty(LOGIN_TOKEN);
        var storedEmail := storage.GetOrEmpty(EMAIL);
        isLoggedIn := true;
        loginToken := storedToken;
        email := storedEmail;
      }
      isReady := true;
    }
  }

  /**
   * After a granted sign-in with a non-empty email, a refresh sends exactly
   * the email and login token the sign-in stored.
   */
  lemma SignInThenRefresh(items: Items, loginToken: string, email: string, outcome: TokenOutcome)
    requires loginToken != "" && email != ""
    ensures Refresh(SignInItems(items, loginToken, email), outcome).sent == Some(TokenRequest(email, loginToken))
  {
  }

  /**
   * After sign-out the interceptor sends no exchange and attaches no
   * credential, at any time and whatever the backend would answer.
   */
  lemma SignOutThenIntercept(items: Items, headers: Option<Headers>, now: int, rt: Jwt.JsRuntime, outcome: TokenOutcome)
    ensures var r := Intercept(SignOutItems(items), headers, now, rt, outcome);
      r.sent.None? && r.token == "" && r.headers == headers && r.items == SignOutItems(items)
  {
  }

  /** The request the refresh logic sends after `SignIn` on the real objects. */
  method SignInThenRefreshScenario(provider: AuthProvider, email: string, password: string, buildId: Option<string>,
                                   token: string, exchange: TokenOutcome)
    returns (sent: Option<TokenRequest>)
    requires token != "" && email != ""
    modifies provider, provider.storage
    ensures sent == Some(TokenRequest(email, token))
  {
    var _, _ := provider.SignIn(email, password, buildId, LoginResponse(Some(token)));
    var _, request := RefreshAuthToken(provider.storage, exchange);
    sent := request;
  }
}
