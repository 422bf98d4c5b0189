/**
 * The older session code of app/_layout.tsx. It uses the same storage keys as
 * src/utils/authContext.tsx but keeps only `userToken` (`null` when signed
 * out) and `loading`. Its sign-out removes `login_token` and `email` but not
 * `auth_token`.
 */
module LegacySession {
  import opened Wrappers
  import opened CredentialStore
  import opened AuthApi
  import opened AuthInterceptor
  import Session
  import Jwt

  /** The store after the legacy sign-out: `login_token` and `email` gone, `auth_token` kept. */
  function LegacySignOutItems(items: Items): (r: Items)
    ensures LOGIN_TOKEN !in r && EMAIL !in r
    ensures r.Keys == items.Keys - {LOGIN_TOKEN, EMAIL}
    ensures forall k :: k in r ==> r[k] == items[k]
    ensures AUTH_TOKEN in items ==> AUTH_TOKEN in r && r[AUTH_TOKEN] == items[AUTH_TOKEN]
  {
    items - {LOGIN_TOKEN, EMAIL}
  }

  class RootLayout {
    const storage: Storage
    var userToken: Option<string>
    var loading: bool

    /** The layout as first rendered: no user token, still loading. */
    constructor (storage: Storage)
      ensures this.storage == storage && userToken.None? && loading
    {
      this.storage := storage;
      userToken, loading := None, true;
    }

    /**
     * The startup effect: `userToken` becomes the stored `login_token`, or
     * `null` when there is none; a rejected read leaves it as it was. In both
     * cases loading ends (`finally`).
     */
    method LoadFromStorage(readFails: bool)
      modifies this
      ensures !loading
      ensures !readFails ==> userToken == (if LOGIN_TOKEN in storage.items then Some(storage.items[LOGIN_TOKEN]) else None)
      ensures readFails ==> userToken == old(userToken)
    {
      if !readFails {
        var token := storage.GetItem(LOGIN_TOKEN);
        userToken := token;
      }
      loading := false;
    }

    /**
     * The legacy `signIn(email, pass)`: the same login request as the newer
     * provider; a non-empty `login_token` is stored with the email and becomes
     * `userToken`. Any other response changes nothing; a failed call raises.
     */
    method SignIn(email: string, pass: string, buildId: Option<string>, outcome: LoginOutcome)
      returns (request: LoginRequest, raised: bool)
      modifies this, storage
      ensures request == MakeLoginRequest(email, pass, buildId)
      ensures raised <==> outcome.LoginCallFailed?
      ensures GrantsLoginToken(outcome) ==>
        && storage.items == Session.SignInItems(old(storage.items), outcome.loginToken.value, email)
        && userToken == Some(outcome.loginToken.value) && loading == old(loading)
      ensures !GrantsLoginToken(outcome) ==> unchanged(this) && storage.items == old(storage.items)
    {
      request := MakeLoginRequest(email, pass, buildId);
      raised := false;
      match outcome {
        case LoginCallFailed =>
          raised := true;
        case LoginResponse(token) =>
          if token.Some? && token.value != "" {
            storage.SetItem(LOGIN_TOKEN, token.value);
            storage.SetItem(EMAIL, email);
            userToken := Some(token.value);
          }
      }
    }

    /** The legacy `signOut()`: removes `login_token` and `email` and clears `userToken`. */
    method SignOut()
      modifies this, storage
      ensures storage.items == LegacySignOutItems(old(storage.items))
      ensures userToken.None? && loading == old(loading)
    {
      storage.RemoveItem(LOGIN_TOKEN);
      storage.RemoveItem(EMAIL);
      userToken := None;
    }
  }

  /**
   * Because the legacy sign-out keeps `auth_token`, an access token that was
   * stored and unexpired before it is still attached by the interceptor
   * afterwards, with no exchange sent.
   */
  lemma LegacySignOutKeepsAccessToken(items: Items, headers: Headers, now: int, rt: Jwt.JsRuntime, outcome: TokenOutcome)
    requires !NeedsRefresh(items, now, rt)
    ensures var r := Intercept(LegacySignOutItems(items), Some(headers), now, rt, outcome);
      r.sent.None? && r.headers.value[AUTHORIZATION] == "Bearer " + items[AUTH_TOKEN]
  {
  }

  /** Once that access token expires, the legacy signed-out store can no longer refresh it. */
  lemma LegacySignOutCannotRefresh(items: Items, headers: Headers, now: int, rt: Jwt.JsRuntime, outcome: TokenOutcome)
    requires NeedsRefresh(items, now, rt)
    ensures var r := Intercept(LegacySignOutItems(items), Some(headers), now, rt, outcome);
      r.sent.None? && r.headers == Some(headers)
  {
  }
}
