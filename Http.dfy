/** The parts of an HTTP response the middleware writes: cookies with their options and a
    JSON body. */
module Http {
  import opened Maybe
  import opened Json

  datatype SameSite = Strict | Lax | NoRestriction

  datatype CookieOptions = CookieOptions(httpOnly: bool, secure: bool, sameSite: SameSite, maxAge: nat)

  /** One hour in milliseconds, the `maxAge` of every cookie the core sets. */
  const OneHourMillis: nat := 60 * 60 * 1000

  datatype SetCookie = SetCookie(value: string, options: CookieOptions)

  /** An Express response under construction. */
  class Response {
    var status: nat
    var cookies: map<string, SetCookie>
    var body: Option<Json>

    constructor ()
      ensures status == 200 && cookies == map[] && body == None
    {
      status := 200;
      cookies := map[];
      body := None;
    }
  }
}
