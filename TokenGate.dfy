/** The bearer-token gate in front of authenticated routes (backend/middleware/auth.js). */
module TokenGate {
  import opened Maybe
  import opened Text

  /** The claims a session token carries: the account id and user type it was issued for, and
      its issue and expiry times in seconds. */
  datatype Claims = Claims(id: nat, userType: string, iat: int, exp: int)

  /** What `jwt.verify` reports: the decoded claims, or one of its two failures. */
  datatype TokenCheck = Decoded(claims: Claims) | BadSignature | Expired

  /** The signing secret used when `JWT_SECRET` is not configured. */
  const DefaultSecret := "somekey"

  /** `process.env.JWT_SECRET || "somekey"`: an unset or empty setting falls back to the default,
      so the secret in use is never empty. */
  function JwtSecret(env: Option<string>): (secret: string)
    ensures secret != ""
    ensures env.Some? && env.value != "" ==> secret == env.value
    ensures env.None? || env.value == "" ==> secret == DefaultSecret
  {
    if env.Some? && env.value != "" then env.value else DefaultSecret
  }

  /** The outcome of the gate: `next()` is called once with `req.user` bound to the claims, or
      the request ends with status 401 and the given error. */
  datatype GateResult = Next(user: Claims) | Unauthorized(error: string)

  const NoTokenProvided := "Unauthorized: No token provided"
  const TokenMissing := "Unauthorized: Token missing"
  const InvalidOrExpired := "Invalid or expired token"

  /** `authHeader.split(" ")[1]`: the second space-separated piece, if the header has one. */
  function SecondPiece(header: string): (r: Option<string>)
    ensures r.Some? <==> ' ' in header
    ensures r.Some? ==> ' ' !in r.value
  {
    var pieces := Split(header, ' ');
    SplitCount(header, ' ');
    if |pieces| > 1 then Some(pieces[1]) else None
  }

  /** `verifyToken`: only the `Authorization` header is read. */
  function VerifyToken(authorization: Option<string>, secret: string,
                       verify: (string, string) -> TokenCheck): (r: GateResult)
    ensures r.Next? <==>
      && authorization.Some? && SecondPiece(authorization.value).Some?
      && SecondPiece(authorization.value).value != ""
      && verify(SecondPiece(authorization.value).value, secret).Decoded?
    ensures r.Next? ==> verify(SecondPiece(authorization.value).value, secret) == Decoded(r.user)
    ensures authorization.None? || authorization.value == "" ==> r == Unauthorized(NoTokenProvided)
    ensures r.Unauthorized? ==> r.error in {NoTokenProvided, TokenMissing, InvalidOrExpired}
  {
    if authorization.None? || authorization.value == "" then Unauthorized(NoTokenProvided)
    else
      var token := SecondPiece(authorization.value);
      if token.None? || token.value == "" then Unauthorized(TokenMissing)
      else match verify(token.value, secret)
        case Decoded(claims) => Next(claims)
        case _ => Unauthorized(InvalidOrExpired)
  }

  lemma {:induction false} SplitAfterFirstSeparator(a: string, b: string, sep: char)
    requires sep !in a
    ensures Split(a + [sep] + b, sep) == [a] + Split(b, sep)
  {
    if a == [] {
      assert [sep] + b == a + [sep] + b;
      assert ([sep] + b)[1..] == b;
    } else {
      var s := a + [sep] + b;
      assert s[0] == a[0] && s[1..] == a[1..] + [sep] + b;
      SplitAfterFirstSeparator(a[1..], b, sep);
      var rest := Split(s[1..], sep);
      assert rest[0] == a[1..] && rest[1..] == Split(b, sep);
      assert Split(s, sep) == [[a[0]] + a[1..]] + Split(b, sep);
      assert [a[0]] + a[1..] == a;
    }
  }

  /** A header `<scheme> <token>` hands exactly `<token>` to `jwt.verify`. */
  lemma BearerHeaderGivesToken(scheme: string, token: string)
    requires ' ' !in scheme && ' ' !in token && token != ""
    ensures SecondPiece(scheme + " " + token) == Some(token)
  {
    SplitAfterFirstSeparator(scheme, token, ' ');
    assert Split(token, ' ') == [token] by {
      JoinSplit(token, ' ');
      SplitCount(token, ' ');
      assert multiset(token)[' '] == 0;
    }
  }

  /** A bad signature and an expired token end the same way: 401 with one shared message, and
      `next` is not called. */
  lemma BadAndExpiredLookAlike(header: string, secret: string,
                               verify1: (string, string) -> TokenCheck,
                               verify2: (string, string) -> TokenCheck)
    requires SecondPiece(header).Some? && SecondPiece(header).value != ""
    requires verify1(SecondPiece(header).value, secret) == BadSignature
    requires verify2(SecondPiece(header).value, secret) == Expired
    ensures VerifyToken(Some(header), secret, verify1) == Unauthorized(InvalidOrExpired)
    ensures VerifyToken(Some(header), secret, verify1) == VerifyToken(Some(header), secret, verify2)
  {
  }
}
