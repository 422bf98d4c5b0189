/**
 * The request and response shapes of the authentication backend
 * (`LoginRequest`, `LoginResponse`, `TokenRequest`, `TokenResponse` in
 * src/api/FirstViewClient.ts). The HTTP calls themselves are not modelled:
 * each call's outcome is a parameter of the operation that makes it.
 */
module AuthApi {
  import opened Wrappers

  /** Body of `POST v1/sign-in`. */
  datatype LoginRequest = LoginRequest(
    emailOrPhone: string,
    password: string,
    rememberMe: bool,
    deviceName: string,
    deviceUid: string)

  /** What `AuthService.login` yields: a rejected call, or the response's `login_token`. */
  datatype LoginOutcome = LoginCallFailed | LoginResponse(loginToken: Option<string>)

  /** Body of `POST v1/get-token`. */
  datatype TokenRequest = TokenRequest(email: string, loginToken: string)

  /** What `AuthService.getToken` yields: a rejected call, or the response's `auth_token`. */
  datatype TokenOutcome = TokenCallFailed | TokenResponse(authToken: Option<string>)

  /**
   * The login request both sign-in implementations send: always remembered,
   * device name `'android'`, and the device's build id, or `'noid'` when the
   * platform reports none (`Device.osInternalBuildId ?? 'noid'`; an empty id is kept).
   */
  function MakeLoginRequest(email: string, password: string, buildId: Option<string>): (request: LoginRequest)
    ensures request.emailOrPhone == email && request.password == password
    ensures request.rememberMe
    ensures request.deviceName == "android"
    ensures buildId.Some? ==> request.deviceUid == buildId.value
    ensures buildId.None? ==> request.deviceUid == "noid"
  {
    LoginRequest(email, password, true, "android", buildId.GetOr("noid"))
  }

  /** `if (resp.login_token)`: the login token a response carries, when it is non-empty. */
  predicate GrantsLoginToken(outcome: LoginOutcome) {
    outcome.LoginResponse? && outcome.loginToken.Some? && outcome.loginToken.value != ""
  }
}
