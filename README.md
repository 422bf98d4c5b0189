# FirstView credential lifecycle — a Dafny model

FirstView is a mobile client that shows school-bus and stop locations. It
authenticates with two credentials. The **login token** is long-lived: sign-in
obtains it and sign-out removes it. The **auth token** (the access token) is a
short-lived JWT. It is exchanged for the login token and the account email
whenever it is absent or expired.

This project models that lifecycle on one shared key–value store:

- the JWT helpers (`parseJwtPayload`, `getExpireTimeFromJwt`, `isTokenExpired`);
- the refresh (`refreshAuthToken`) and the request interceptor (`authRequestInterceptor`);
- the session transitions of both sign-in implementations, the newer
  `AuthProvider` and the older `RootLayout`;
- the rider-naming helpers (`getStudentName`, `getStudentId`);
- the name-to-colour hash (`hashCode`, the hue, `getHslColor`).

Modules, one per source concern:

| module | file | source |
|---|---|---|
| `Wrappers` | wrappers.dfy | `T \| undefined`, `??` |
| `Decimal` | decimal.dfy | `Number.prototype.toString` on integers |
| `Jwt` | jwt.dfy | JWT utilities of src/api/FirstViewClient.ts |
| `Students` | students.dfy | `getStudentName`, `getStudentId` |
| `CredentialStore` | credential_store.dfy | `AsyncStorage`, `PREFS` |
| `AuthApi` | auth_api.dfy | login / token request and response shapes |
| `AuthInterceptor` | auth_interceptor.dfy | `refreshAuthToken`, `authRequestInterceptor` |
| `Session` | session.dfy | src/utils/authContext.tsx |
| `LegacySession` | legacy_session.dfy | app/_layout.tsx |
| `Color` | color.dfy | src/ui/Color.ts |

Inputs that come from outside the program are parameters:

- the outcome of each backend call (a failure, or a response with or without its token);
- `Date.now()` (`now`, in milliseconds);
- the device build id;
- whether a startup storage read rejects.

"No exchange call" is an out-parameter `sent == None`. `sent` is a single
`Option`, so "at most one exchange per interceptor call" holds by its type.

The store is a `Storage` object with one `map<string, string>` field. The
token logic and both session classes share this one object. The refresh, the
interceptor and the sign-in and sign-out transitions each have two forms. A
pure function (`Refresh`, `Intercept`, `SignInItems`, `SignOutItems`,
`LegacySignOutItems`) states the transition's effect on the store. A method
performs it step by step and is proved to have exactly that effect; both
sign-in methods use `SignInItems`. The two startup loads only read the store
and are stated directly on the session fields. The cross-file lemmas combine
the pure functions.

The model follows the code, including these behaviours that differ from what the names suggest:

- `getStudentName` does not turn absent name parts into empty text. JavaScript
  writes them as `undefined` (or `null`).
- A token whose `exp` is 0 counts as expired (`!exp`).
- On startup the newer provider marks the session logged in even when nothing
  is stored.
- The newer `signOut` leaves the in-memory `loginToken` and `email` as they were.
- The legacy `signOut` leaves `auth_token` in the store.

## Model

| member | source | states |
|---|---|---|
| `Decimal.NatToDecimal` | src/api/FirstViewClient.ts:59 | the decimal text of a natural number is canonical (digits only, no leading zero) and reads back as the number |
| `Decimal.IntToDecimal` | src/api/FirstViewClient.ts:59 | `toString` of an integer is never empty, starts with `-` exactly for negatives, and parses back to the same integer |
| `Students.JsToString` | src/api/FirstViewClient.ts:54 | string concatenation writes an absent field as `undefined`, a `null` one as `null`, and a string as itself |
| `Students.GetStudentName` | src/api/FirstViewClient.ts:53-55 | with a student the name is its first name, a space and its last name, each part written as JavaScript converts it (`undefined` when absent, `null` when null); with no student it is `undefined undefined` |
| `Students.GetStudentId` | src/api/FirstViewClient.ts:57-60 | with a present id the key is the id's decimal text and parses back to the id (id 0 included); otherwise the key is the student's name |
| `Students.SameKeyIffSameId` | src/api/FirstViewClient.ts:57-60 | two records with ids get the same key exactly when their ids are equal |
| `Students.IdKeyIsNeverNameKey` | src/api/FirstViewClient.ts:53-60 | a key built from an id never equals a key built from a name |
| `Jwt.Split` | src/api/FirstViewClient.ts:148 | `split('.')` gives at least one segment, no segment contains a dot, and joining the segments with dots gives back the input |
| `Jwt.SplitJoin` | src/api/FirstViewClient.ts:148 | splitting dot-free segments joined by dots gives back those segments |
| `Jwt.ReplaceAll` | src/api/FirstViewClient.ts:150 | a global one-character replace keeps the length and changes exactly the occurrences of the pattern |
| `Jwt.Base64UrlToBase64` | src/api/FirstViewClient.ts:150 | every `-` becomes `+` and every `_` becomes `/`, and no other character changes; base64url text (RFC 4648 section 5) becomes base64 text (section 4) |
| `Jwt.Base64UrlRoundTrip` | src/api/FirstViewClient.ts:150 | on base64url text the reverse translation restores the original segment |
| `Jwt.PayloadSegment` | src/api/FirstViewClient.ts:148 | a second segment exists exactly when the token contains a dot; the segment is dot-free and shorter than the token |
| `Jwt.CompactPayload` | src/api/FirstViewClient.ts:148 | for a compact `header.payload.signature` token the selected segment is `payload` |
| `Jwt.ParseJwtPayload` | src/api/FirstViewClient.ts:146-156 | the function is total; the result is `None` with no second segment; when there is one and `atob` accepts its translation, the result is exactly what JSON parsing of the decoded text gives; a present result implies both steps succeeded |
| `Jwt.ExpireTimeFromJwt` | src/api/FirstViewClient.ts:158-163 | an expiry exists exactly when the payload parses and `exp` is a number; it equals `exp * 1000` |
| `Jwt.IsTokenExpired` | src/api/FirstViewClient.ts:165-168 | no readable `exp`, or `exp` of 0, means expired; otherwise the token is expired exactly when `now > exp * 1000`, so at `now == exp * 1000` it is valid |
| `Jwt.CompactTokenExpiry` | src/api/FirstViewClient.ts:146-168 | for a `header.payload.signature` token whose payload decodes to a numeric `exp` of `t` seconds, the token is expired exactly when `t` is 0 or `now > t * 1000` |
| `Jwt.ExpiredStaysExpired` | src/api/FirstViewClient.ts:165-168 | once a token is expired it stays expired at every later time |
| `CredentialStore.ReadOrEmpty` | src/api/FirstViewClient.ts:135-140 | a `PREFS` getter returns the stored value, or `''` when the key is missing |
| `CredentialStore.Storage.GetOrEmpty` | src/api/FirstViewClient.ts:136-139 | reading a key with a `''` fallback returns `ReadOrEmpty` of the current store |
| `AuthApi.MakeLoginRequest` | src/utils/authContext.tsx:34-40 | the login request carries the email and password, `remember_me` true, `device_name` `'android'`, and the build id or `'noid'` when there is none |
| `AuthInterceptor.Refresh` | src/api/FirstViewClient.ts:174-189 | an exchange is sent exactly when the stored login token and email are both non-empty, and it carries them; a non-empty token is returned exactly when the answer has a non-empty `auth_token`; then that token is stored under `auth_token` and nothing else changes; every other path returns `''` and leaves the store unchanged |
| `AuthInterceptor.RefreshAuthToken` | src/api/FirstViewClient.ts:174-189 | the token returned, the exchange sent and the new store are exactly those `Refresh` gives for the old store |
| `AuthInterceptor.AttachBearer` | src/api/FirstViewClient.ts:200-202 | `Authorization` becomes `Bearer <token>` when the token is non-empty and the request has headers; no other header changes; with an empty token the headers are untouched |
| `AuthInterceptor.Intercept` | src/api/FirstViewClient.ts:195-204 | a stored, unexpired, non-empty access token is used as it is, with no exchange and no store change; otherwise the token, the store and the exchange are those of one refresh; the headers are then those `AttachBearer` gives for the final token |
| `AuthInterceptor.AuthRequestInterceptor` | src/api/FirstViewClient.ts:195-204 | the request headers, the new store and the exchange sent are exactly those `Intercept` gives for the old state |
| `AuthInterceptor.ValidTokenIsReused` | src/api/FirstViewClient.ts:196-202 | with a valid stored access token the result does not depend on the backend's answer, and the header carries that stored token |
| `AuthInterceptor.RefreshedTokenIsStored` | src/api/FirstViewClient.ts:181-183 | after a successful refresh the store holds the new access token; the login token and email are unchanged |
| `Session.SignInItems` | src/utils/authContext.tsx:41-43 | a granted sign-in (in either session implementation) writes `login_token` and `email`; all other keys are unchanged |
| `Session.SignOutItems` | src/utils/authContext.tsx:50-53 | sign-out removes exactly `login_token`, `auth_token` and `email`; a refresh from the resulting store sends nothing and returns `''` for every backend answer |
| `Session.AuthProvider.constructor` | src/utils/authContext.tsx:26-29 | the provider starts not ready and not logged in, with empty `loginToken` and `email` |
| `Session.AuthProvider.SignIn` | src/utils/authContext.tsx:33-49 | the login request is `MakeLoginRequest`; a failed call raises; a non-empty `login_token` is stored with the email and the provider becomes logged in with both; any other response changes neither the provider nor the store |
| `Session.AuthProvider.SignOut` | src/utils/authContext.tsx:50-56 | the store becomes `SignOutItems` of the old store and the session is logged out; `loginToken`, `email` and `isReady` keep their values |
| `Session.AuthProvider.LoadFromStorage` | src/utils/authContext.tsx:58-78 | the provider is ready afterwards whatever happens; after a successful read it is logged in, with the stored login token and email or `''`; a failed read leaves the session fields unchanged |
| `Session.SignInThenRefresh` | src/utils/authContext.tsx:41-43 | after a granted sign-in with a non-empty email, a refresh sends exactly the stored email and login token |
| `Session.SignOutThenIntercept` | src/utils/authContext.tsx:50-53 | after sign-out the interceptor sends no exchange, attaches nothing, and leaves the store unchanged |
| `Session.SignInThenRefreshScenario` | src/utils/authContext.tsx:41-43 | on the real objects, `SignIn` followed by `RefreshAuthToken` sends the signed-in email and token |
| `LegacySession.LegacySignOutItems` | app/_layout.tsx:42-45 | the legacy sign-out removes `login_token` and `email` and keeps every other key, `auth_token` included, with its value |
| `LegacySession.RootLayout.constructor` | app/_layout.tsx:16-17 | the layout starts with no user token, still loading |
| `LegacySession.RootLayout.LoadFromStorage` | app/_layout.tsx:19-23 | loading ends afterwards; after a successful read `userToken` is the stored `login_token`, or `null` when absent; a failed read leaves it unchanged |
| `LegacySession.RootLayout.SignIn` | app/_layout.tsx:27-41 | the login request is `MakeLoginRequest`; a non-empty `login_token` is stored with the email and becomes `userToken`; any other response changes nothing |
| `LegacySession.RootLayout.SignOut` | app/_layout.tsx:42-46 | the store becomes `LegacySignOutItems` of the old store and `userToken` is `null` |
| `LegacySession.LegacySignOutKeepsAccessToken` | app/_layout.tsx:42-46 | after the legacy sign-out, an access token that was valid before is still attached, with no exchange |
| `LegacySession.LegacySignOutCannotRefresh` | app/_layout.tsx:42-46 | after the legacy sign-out, a missing or expired access token can no longer be refreshed and nothing is attached |
| `Color.HashFromSnoc` | src/ui/Color.ts:15-17 | hashing one more code unit is one more step `(hash * 33) ^ code` on 32-bit patterns |
| `Color.HashCode` | src/ui/Color.ts:13-19 | `hashCode` returns a value in `[0, 2^32)`, equal to the unsigned reading of the 32-bit djb2-xor fold over the UTF-16 code units; the empty string gives 5381 |
| `Color.JsRem` | src/ui/Color.ts:22 | JavaScript's `%` has the sign of the dividend and a magnitude below the divisor's; it is the remainder of truncated division (`a == trunc(a / b) * b + r`), so `-7 % 3` is -1; on non-negative operands it agrees with the mathematical remainder |
| `Color.TruncatedDivision` | src/ui/Color.ts:22 | dividing the magnitudes and restoring the signs gives the truncated quotient and remainder of `a` by `b` |
| `Color.HashHue` | src/ui/Color.ts:21-29 | the hue that both colour functions compute lies in `[0, 359]` and equals `(hash mod 1000) mod 360`, so `Math.abs` changes nothing |
| `Color.GetHslColor` | src/ui/Color.ts:27-30 | the colour text is `hsl(` plus one to three digits plus `, 100%, 50%)`, and those digits read back as the hue |

## Left out

- HTTP transport is not modelled: the axios clients, `BASE_URL`, `AuthService` and `FirstViewService`. Each call's outcome is a parameter.
- The logging interceptor and its `NODE_ENV` check are left out. They only write to the console.
- `mock` is left out. It uses `Math.random` and its call is commented out.
- `hsvToHex` is left out. It is floating-point `% 6`, `Math.round` and hex formatting. Only the hue it receives (`Color.HashHue`) is modelled.
- `atob` and `JSON.parse` are abstract: they are the two functions of a `Jwt.JsRuntime` value. `None` stands for a throw. For `JSON.parse`, `None` also stands for a falsy result.
- `Jwt.ExpireTimeFromJwt`: `exp` is modelled as an integer. Fractional, infinite and very large values, and double rounding of `exp * 1000`, are not modelled.
- `Decimal.IntToDecimal`: only integers up to 2^53 in magnitude are printed as JavaScript prints them. Above 2^53 JavaScript may print rounded digits padded with zeros (2^64 prints as 18446744073709552000), and from 10^21 up it uses exponent form; the model prints the exact integer. Non-integral ids are not modelled either.
- `Color.HashCode`: the model works on 32-bit patterns directly. The step from JavaScript's double-precision `hash * 33`, which is exact while `hash` is an int32, to a wrapping `bv32` multiply is argued in the module comment, not proved.
- Storage writes that fail are not modelled; every `setItem` and `removeItem` succeeds.
- Rejected storage reads in `refreshAuthToken` and `authRequestInterceptor` are not modelled. In the source these reads sit outside any `try` (src/api/FirstViewClient.ts:175-176, 196), so a rejected read makes the outgoing request fail. The model has no such path: `AuthInterceptor.RefreshAuthToken` and `AuthInterceptor.AuthRequestInterceptor` always read successfully. Only the failure of the startup reads is a parameter.
- Asynchronous interleaving of storage calls, React state scheduling, `SplashScreen`, router navigation and the sign-in screens are not modelled. The model runs each operation to completion.
- The map screen's viewport fitting and rider grouping are not part of this model. Only the grouping key (`getStudentId`) is modelled.
