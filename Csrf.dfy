/** The double-submit CSRF guard (backend/middleware/csrf.js). */
module Csrf {
  import opened Maybe
  import opened Json
  import opened Http

  /** `crypto.randomBytes(32).toString("hex")`: 64 lower-case hexadecimal digits. */
  predicate IsHexToken(t: string) {
    |t| == 64 && forall i :: 0 <= i < |t| ==> ('0' <= t[i] <= '9') || ('a' <= t[i] <= 'f')
  }

  const CsrfCookie := "csrfToken"

  /** Readable by the page's script (so it can be echoed in a header), sent only over HTTPS,
      never on cross-site requests, for one hour. */
  const CsrfCookieOptions := CookieOptions(false, true, Strict, OneHourMillis)

  /** `generateCsrfToken`: sets the token as a cookie and sends the same token in the body. */
  method GenerateCsrfToken(res: Response, token: string)
    requires IsHexToken(token)
    modifies res
    ensures res.cookies == old(res.cookies)[CsrfCookie := SetCookie(token, CsrfCookieOptions)]
    ensures res.body == Some(Obj(map[CsrfCookie := Str(token)]))
    ensures res.status == old(res.status)
  {
    res.cookies := res.cookies[CsrfCookie := SetCookie(token, CsrfCookieOptions)];
    res.body := Some(Obj(map[CsrfCookie := Str(token)]));
  }

  /** The methods that pass without any token. */
  const SafeMethods := {"GET", "HEAD", "OPTIONS"}

  datatype Verdict = Next | Forbidden(status: nat, error: string)

  const CsrfFailed := "CSRF validation failed"

  /** A header token or cookie token counts only if present and non-empty (JavaScript
      truthiness of a string). */
  predicate Present(t: Option<string>) {
    t.Some? && t.value != ""
  }

  /** `validateCsrf`: safe methods pass; any other method passes exactly when the
      `X-CSRF-Token` header and the `csrfToken` cookie are both present and equal. */
  function ValidateCsrf(verb: string, headerToken: Option<string>, cookieToken: Option<string>): (v: Verdict)
    ensures verb in SafeMethods ==> v == Next
    ensures verb !in SafeMethods ==>
      (v == Next <==> headerToken.Some? && headerToken.value != "" && cookieToken == headerToken)
    ensures v.Forbidden? ==> v == Forbidden(403, CsrfFailed)
  {
    if verb in SafeMethods then Next
    else if !Present(headerToken) || !Present(cookieToken) || headerToken != cookieToken then
      Forbidden(403, CsrfFailed)
    else Next
  }

  /** The token `generateCsrfToken` hands out validates any HTTP method once the client echoes the
      body's token in the header while the browser sends the cookie back. */
  method IssuedTokenValidates(token: string, verb: string) returns (v: Verdict)
    requires IsHexToken(token)
    ensures v == Next
  {
    var res := new Response();
    GenerateCsrfToken(res, token);
    var echoed := res.body.value.props[CsrfCookie].s;
    var cookie := res.cookies[CsrfCookie].value;
    v := ValidateCsrf(verb, Some(echoed), Some(cookie));
  }
}
