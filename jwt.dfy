/**
 * The JWT helpers of src/api/FirstViewClient.ts: pick the payload segment of
 * a compact `header.payload.signature` token (section 7.1 of RFC 7515),
 * translate it from the base64url alphabet (section 5 of RFC 4648) to the
 * base64 alphabet (section 4 of RFC 4648), decode and JSON-parse it, and read
 * its `exp` NumericDate (section 4.1.4 of RFC 7519, in seconds). The signature
 * is never checked.
 *
 * `atob` and `JSON.parse` are not modelled; they are the two functions of a
 * `JsRuntime` value, each returning `None` where the JavaScript one throws.
 */
module Jwt {
  import opened Wrappers

  /**
   * What the model keeps of a parsed payload: `exp` is `Some` exactly when
   * `typeof payload.exp === 'number'`. A parse that throws, or that yields a
   * falsy value (`null`, `0`, `false`, `""`), is `None` of `jsonParse`.
   */
  datatype Claims = Claims(exp: Option<int>)

  datatype JsRuntime = JsRuntime(atob: string -> Option<string>, jsonParse: string -> Option<Claims>)

  //---------------------------------------------------------------------------
  // String.prototype.split('.')
  //---------------------------------------------------------------------------

  /** The inverse of `split('.')`: segments glued back with dots. */
  function Join(segments: seq<string>): string
    requires |segments| >= 1
  {
    if |segments| == 1 then segments[0] else segments[0] + "." + Join(segments[1..])
  }

  /** `s.split('.')`: the maximal dot-free pieces of `s`, in order. */
  function Split(s: string): (segments: seq<string>)
    ensures |segments| >= 1
    ensures forall i :: 0 <= i < |segments| ==> '.' !in segments[i]
    ensures Join(segments) == s
    ensures '.' !in s <==> |segments| == 1
  {
    if s == [] then [""]
    else
      var rest := Split(s[1..]);
      if s[0] == '.' then
        assert s == "." + s[1..];
        [""] + rest
      else
        var segments := [[s[0]] + rest[0]] + rest[1..];
        assert segments[1..] == rest[1..];
        segments
  }

  /** Splitting what `Join` glued gives back the same dot-free segments. */
  lemma {:induction false} SplitJoin(segments: seq<string>)
    requires |segments| >= 1
    requires forall i :: 0 <= i < |segments| ==> '.' !in segments[i]
    ensures Split(Join(segments)) == segments
    decreases |Join(segments)|, |segments|
  {
    var s := Join(segments);
    var first := segments[0];
    if |segments| == 1 {
      // a single dot-free segment splits to itself
    } else if first == [] {
      assert s == "." + Join(segments[1..]);
      assert s[1..] == Join(segments[1..]);
      SplitJoin(segments[1..]);
      assert segments == [""] + segments[1..];
    } else {
      var shorter := [first[1..]] + segments[1..];
      assert shorter[1..] == segments[1..];
      assert Join(shorter) == s[1..];
      SplitJoin(shorter);
      assert [first[0]] + first[1..] == first;
    }
  }


  //---------------------------------------------------------------------------
  // base64url -> base64
  //---------------------------------------------------------------------------

  /** `s.replace(/from/g, to)` for a one-character pattern. */
  function ReplaceAll(s: string, from: char, to: char): (r: string)
    ensures |r| == |s|
    ensures forall i :: 0 <= i < |s| ==> r[i] == if s[i] == from then to else s[i]
  {
    if s == [] then [] else [if s[0] == from then to else s[0]] + ReplaceAll(s[1..], from, to)
  }

  predicate IsAlphaNumeric(c: char) {
    'A' <= c <= 'Z' || 'a' <= c <= 'z' || '0' <= c <= '9'
  }

  /** Text over the base64url alphabet of section 5 of RFC 4648, with `=` padding. */
  predicate IsBase64UrlText(s: string) {
    forall i :: 0 <= i < |s| ==> IsAlphaNumeric(s[i]) || s[i] in "-_="
  }

  /** Text over the base64 alphabet of section 4 of RFC 4648, with `=` padding. */
  predicate IsBase64Text(s: string) {
    forall i :: 0 <= i < |s| ==> IsAlphaNumeric(s[i]) || s[i] in "+/="
  }

  /** `payload.replace(/-/g, '+').replace(/_/g, '/')`. */
  function Base64UrlToBase64(payload: string): (b: string)
    ensures |b| == |payload|
    ensures forall i :: 0 <= i < |payload| ==>
      b[i] == match payload[i] { case '-' => '+' case '_' => '/' case c => c }
    ensures IsBase64UrlText(payload) ==> IsBase64Text(b)
  {
    ReplaceAll(ReplaceAll(payload, '-', '+'), '_', '/')
  }

  /** The opposite translation, from the base64 to the base64url alphabet. */
  function Base64ToBase64Url(b: string): string {
    ReplaceAll(ReplaceAll(b, '+', '-'), '/', '_')
  }

  /** On base64url text the translation loses nothing: translating back restores it. */
  lemma Base64UrlRoundTrip(payload: string)
    requires IsBase64UrlText(payload)
    ensures Base64ToBase64Url(Base64UrlToBase64(payload)) == payload
  {
  }

  //---------------------------------------------------------------------------
  // parseJwtPayload, getExpireTimeFromJwt, isTokenExpired
  //---------------------------------------------------------------------------

  /** `token.split('.')[1]`, `None` where JavaScript yields `undefined`. */
  function PayloadSegment(token: string): (p: Option<string>)
    ensures p.None? <==> '.' !in token
    ensures p.Some? ==> '.' !in p.value && |p.value| < |token|
  {
    var segments := Split(token);
    if |segments| >= 2 then
      assert |Join(segments)| > |segments[1]| by { JoinLength(segments); }
      Some(segments[1])
    else None
  }

  lemma JoinLength(segments: seq<string>)
    requires |segments| >= 2
    ensures |Join(segments)| > |segments[1]|
  {
  }

  /** The payload segment of a compact `header.payload.signature` token is its middle part. */
  lemma CompactPayload(header: string, payload: string, signature: string)
    requires '.' !in header && '.' !in payload && '.' !in signature
    ensures PayloadSegment(header + "." + payload + "." + signature) == Some(payload)
  {
    var segments := [header, payload, signature];
    assert Join(segments[2..]) == signature;
    assert Join(segments[1..]) == payload + "." + signature;
    assert Join(segments) == header + "." + payload + "." + signature;
    SplitJoin(segments);
  }

  /**
   * `parseJwtPayload(token)`: never throws; `None` (JavaScript `null`) when the
   * token has no second segment, when `atob` rejects the translated segment,
   * or when the JSON parse fails.
   */
  function ParseJwtPayload(token: string, rt: JsRuntime): (claims: Option<Claims>)
    ensures '.' !in token ==> claims.None?
    ensures PayloadSegment(token).Some? && rt.atob(Base64UrlToBase64(PayloadSegment(token).value)).Some? ==>
      claims == rt.jsonParse(rt.atob(Base64UrlToBase64(PayloadSegment(token).value)).value)
    ensures claims.Some? ==>
      rt.atob(Base64UrlToBase64(PayloadSegment(token).value)).Some? &&
      claims == rt.jsonParse(rt.atob(Base64UrlToBase64(PayloadSegment(token).value)).value)
  {
    match PayloadSegment(token)
    case None => None
    case Some(payload) =>
      match rt.atob(Base64UrlToBase64(payload))
      case None => None
      case Some(json) => rt.jsonParse(json)
  }

  /** The `exp` claim in seconds, when the payload parses and `exp` is a number. */
  function ExpClaim(token: string, rt: JsRuntime): Option<int> {
    match ParseJwtPayload(token, rt)
    case None => None
    case Some(claims) => claims.exp
  }

  /** `getExpireTimeFromJwt(token)`: the expiry in milliseconds, `exp * 1000`. */
  function ExpireTimeFromJwt(token: string, rt: JsRuntime): (ms: Option<int>)
    ensures ms.Some? <==> ParseJwtPayload(token, rt).Some? && ParseJwtPayload(token, rt).value.exp.Some?
    ensures ms.Some? ==> ms.value == ParseJwtPayload(token, rt).value.exp.value * 1000 && ms.value % 1000 == 0
  {
    match ExpClaim(token, rt)
    case None => None
    case Some(exp) => Some(exp * 1000)
  }

  /**
   * `isTokenExpired(token)` with `Date.now()` passed as `now`: `!exp || now > exp`.
   * A token whose expiry cannot be read, or reads as 0, is expired; otherwise it
   * is expired exactly when `now` is past `exp * 1000`, so at `now == exp * 1000`
   * it is still valid.
   */
  function IsTokenExpired(token: string, now: int, rt: JsRuntime): (expired: bool)
    ensures ExpClaim(token, rt).None? ==> expired
    ensures ExpClaim(token, rt) == Some(0) ==> expired
    ensures ExpClaim(token, rt).Some? && ExpClaim(token, rt).value != 0 ==>
      (expired <==> now > ExpClaim(token, rt).value * 1000)
  {
    var exp := ExpireTimeFromJwt(token, rt);
    exp.None? || exp.value == 0 || now > exp.value
  }

  /**
   * End to end on a compact token: when the middle segment decodes and parses
   * to a numeric `exp` of `t` seconds, the token is expired exactly when `t`
   * is 0 or `now` is past `t * 1000`.
   */
  lemma CompactTokenExpiry(header: string, payload: string, signature: string, json: string, t: int, now: int, rt: JsRuntime)
    requires '.' !in header && '.' !in payload && '.' !in signature
    requires rt.atob(Base64UrlToBase64(payload)) == Some(json)
    requires rt.jsonParse(json) == Some(Claims(Some(t)))
    ensures IsTokenExpired(header + "." + payload + "." + signature, now, rt) <==> t == 0 || now > t * 1000
  {
    CompactPayload(header, payload, signature);
  }

  /** Expiry is monotone in time: once expired, a token stays expired. */
  lemma ExpiredStaysExpired(token: string, now: int, later: int, rt: JsRuntime)
    requires IsTokenExpired(token, now, rt) && now <= later
    ensures IsTokenExpired(token, later, rt)
  {
  }
}
