/** What the account handlers of backend/routes/auth.js promise across requests: the order of
    their checks, what each one changes in the store, the lockout after repeated failures, and
    how a session ends. */
module AuthProperties {
  import opened Maybe
  import opened Text
  import opened Json
  import opened Sanitize
  import opened UserModel
  import opened TokenGate
  import opened Http
  import opened AuthRoutes

  // ---------------------------------------------------------------------------------------
  // Register

  /** The early replies of `/register` come in the order of its handler: a missing field, then
      an unknown user type, then a short password. Whatever is admitted arrived as strings: an
      object sent as the email or the user type (a query operator, say) never reaches the store,
      and the admitted values are the trimmed, filtered strings that were sent. */
  lemma AdmissionOrder(body: Body, xss: string -> string)
    ensures var r := AdmitRegistration(body, xss);
      && (!AllPresent(body) ==> r == Rejected(Failure(400, AllFieldsRequired)))
      && (AllPresent(body) && UserTypeOf(SanitizeInput(body.userType, xss).value).None? ==>
            r == Rejected(Failure(400, InvalidUserType)))
      && (AllPresent(body) && UserTypeOf(SanitizeInput(body.userType, xss).value).Some? ==>
            (LengthBelowMinimum(body.password.value) ==> r == Rejected(Failure(400, PasswordTooShort))))
      && (r.Admitted? ==>
            && AllPresent(body) && !LengthBelowMinimum(body.password.value)
            && body.email.value.Str? && r.email == xss(Trim(body.email.value.s))
            && body.userType.value.Str? && xss(Trim(body.userType.value.s)) == Name(r.userType)
            && r.password == body.password.value)
  {
    var r := AdmitRegistration(body, xss);
    if r.Admitted? {
      var ut := SanitizeInput(body.userType, xss).value;
      assert ut.Str? && ut == Str(Name(r.userType));
      assert !body.userType.value.Str? ==> Clean(ut);
    }
  }

  /** Past the early checks, `/register` creates an account exactly when no account holds the
      lower-cased email, the password is a string and the schema accepts the record; the new
      record sits under the next id, unverified, holding the fresh token, and the warning appears
      exactly when the email could not be sent. An email some account already holds answers 400
      "User already exists!"; a new email that is not stored answers 500. Every failure leaves
      the store as it was. */
  lemma RegisterOutcomes(accounts: map<Id, Account>, nextId: Id, body: Body, hashed: string,
                         freshToken: string, emailSent: bool, xss: string -> string)
    ensures var o := RegisterSpec(accounts, nextId, body, hashed, freshToken, emailSent, xss);
      var r := AdmitRegistration(body, xss);
      && (o.reply.Failure? <==> !o.reply.Created?)
      && (o.reply.Failure? ==> o.accounts == accounts)
      && (r.Admitted? && FindByEmail(accounts, Lower(r.email)).Some? ==>
            o == Outcome(Failure(400, UserExists), accounts))
      && (r.Admitted? && FindByEmail(accounts, Lower(r.email)).None? && !o.reply.Created? ==>
            o == Outcome(Failure(500, InternalError), accounts))
      && (o.reply.Created? <==>
            && r.Admitted?
            && FindByEmail(accounts, Lower(r.email)).None?
            && r.password.Str?
            && IsEmail(Lower(r.email))
            && |hashed| >= StoredPasswordMinLength)
      && (o.reply.Created? ==>
            && o.accounts == accounts[nextId := NewAccount(Lower(r.email), hashed, r.userType, freshToken)]
            && (o.reply.warning.None? <==> emailSent))
  {
  }

  /** Once an email is registered, a second registration under the same address in any mix of
      letter case fails with "User already exists!" and leaves the store as it was. */
  lemma CaseVariantRejected(accounts: map<Id, Account>, nextId: Id, first: Body, second: Body,
                            hashed1: string, hashed2: string, token1: string, token2: string,
                            sent1: bool, sent2: bool, xss: string -> string)
    requires RegisterSpec(accounts, nextId, first, hashed1, token1, sent1, xss).reply.Created?
    requires AdmitRegistration(second, xss).Admitted?
    requires Lower(AdmitRegistration(second, xss).email) == Lower(AdmitRegistration(first, xss).email)
    ensures var after := RegisterSpec(accounts, nextId, first, hashed1, token1, sent1, xss).accounts;
      RegisterSpec(after, nextId + 1, second, hashed2, token2, sent2, xss) ==
        Outcome(Failure(400, UserExists), after)
  {
    RegisterOutcomes(accounts, nextId, first, hashed1, token1, sent1, xss);
    var after := RegisterSpec(accounts, nextId, first, hashed1, token1, sent1, xss).accounts;
    var key := Lower(AdmitRegistration(first, xss).email);
    assert nextId in after && after[nextId].email == key;
  }

  // ---------------------------------------------------------------------------------------
  // Verify

  /** `/verify` redirects to the success page exactly when the sanitised token is a non-empty
      string some account is waiting on; that account becomes verified and drops its token, and
      nothing else changes. Every other request redirects to the failure page and changes
      nothing. */
  lemma VerifyOutcomes(accounts: map<Id, Account>, token: Option<Json>, frontendUrl: Option<string>,
                       xss: string -> string)
    ensures var o := VerifySpec(accounts, token, frontendUrl, xss);
      var t := SanitizeInput(token, xss);
      var redeemed := Truthy(t) && t.value.Str? && FindByToken(accounts, t.value.s).Some?;
      && o.reply == Redirect(VerifyLocation(frontendUrl, redeemed))
      && (!redeemed ==> o.accounts == accounts)
      && (redeemed ==>
            var id := FindByToken(accounts, t.value.s).value;
            o.accounts == accounts[id := accounts[id].(verified := true, verificationToken := None)])
  {
  }

  /** A verification link works once: the same request made again redirects to the failure page. */
  lemma VerifyTwiceFails(accounts: map<Id, Account>, nextId: Id, token: Option<Json>,
                         frontendUrl: Option<string>, xss: string -> string)
    requires StoreInvariant(accounts, nextId)
    ensures var after := VerifySpec(accounts, token, frontendUrl, xss).accounts;
      VerifySpec(after, token, frontendUrl, xss) == Outcome(Redirect(VerifyLocation(frontendUrl, false)), after)
  {
    var t := SanitizeInput(token, xss);
    if Truthy(t) && t.value.Str? && FindByToken(accounts, t.value.s).Some? {
      var id := FindByToken(accounts, t.value.s).value;
      var after := VerifySpec(accounts, token, frontendUrl, xss).accounts;
      assert after == accounts[id := accounts[id].(verified := true, verificationToken := None)];
      forall other | other in after
        ensures after[other].verificationToken != Some(t.value.s)
      {
        if other != id {
          assert accounts[other].verificationToken != accounts[id].verificationToken;
        }
      }
    }
  }

  // ---------------------------------------------------------------------------------------
  // Login

  /** `/login` checks in the order of its handler and changes nothing on the way: a missing field
      (400), a non-string email (500), an unknown email (400 "Invalid credentials!", the same
      words as a wrong password), then for a known account a lock (423) before the verified
      flag (400) and both before the password is compared. */
  lemma LoginOrder(accounts: map<Id, Account>, body: Body, now: int, matches: (string, string) -> bool,
                   sign: Claims -> string, xss: string -> string)
    ensures var o := LoginSpec(accounts, body, now, matches, sign, xss);
      var email := SanitizeInput(body.email, xss);
      && (!AllPresent(body) ==> o == Outcome(Failure(400, AllFieldsRequired), accounts))
      && (AllPresent(body) && !email.value.Str? ==> o == Outcome(Failure(500, InternalError), accounts))
      && (AllPresent(body) && email.value.Str? && FindByEmail(accounts, Lower(email.value.s)).None? ==>
            o == Outcome(Failure(400, InvalidCredentials), accounts))
      && (AllPresent(body) && email.value.Str? && FindByEmail(accounts, Lower(email.value.s)).Some? ==>
            var user := accounts[FindByEmail(accounts, Lower(email.value.s)).value];
            && (IsLocked(user, now) ==> o == Outcome(Failure(423, AccountLocked), accounts))
            && (!IsLocked(user, now) && !user.verified ==>
                  o == Outcome(Failure(400, VerifyEmailFirst), accounts)))
  {
  }

  /** A wrong password on an open, verified account answers 400 "Invalid credentials!", counts
      one more failure and, from the fifth failure on, sets the lock to thirty minutes after
      `now`; below five the lock is left as it was. No other field and no other record changes. */
  lemma WrongPasswordCounts(accounts: map<Id, Account>, id: Id, password: string, userType: Json,
                            now: int, matches: (string, string) -> bool, sign: Claims -> string)
    requires id in accounts
    requires !IsLocked(accounts[id], now) && accounts[id].verified
    requires !matches(password, accounts[id].password)
    ensures var o := CheckCredentials(accounts, id, Str(password), userType, now, matches, sign);
      var user := accounts[id];
      && o.reply == Failure(400, InvalidCredentials)
      && o.accounts == accounts[id := user.(loginAttempts := user.loginAttempts + 1,
                                            lockUntil := if user.loginAttempts + 1 >= MaxLoginAttempts
                                                         then Some(now + LockMillis) else user.lockUntil)]
  {
  }

  /** A correct password with the wrong user type answers 400 "Invalid user type!" and saves
      nothing: the failure count is neither raised nor reset. */
  lemma UserTypeMismatchKeepsRecord(accounts: map<Id, Account>, id: Id, password: string, userType: Json,
                                    now: int, matches: (string, string) -> bool, sign: Claims -> string)
    requires id in accounts
    requires !IsLocked(accounts[id], now) && accounts[id].verified
    requires matches(password, accounts[id].password)
    requires userType != Str(Name(accounts[id].userType))
    ensures CheckCredentials(accounts, id, Str(password), userType, now, matches, sign) ==
      Outcome(Failure(400, InvalidUserType), accounts)
  {
  }

  /** A successful login resets the failure count and the lock, marks the account logged in, and
      sets the `token` cookie to a token signed over the account's id and type that expires one
      hour after it was issued, with the cookie options of the route. No other record changes. */
  lemma LoginSuccess(accounts: map<Id, Account>, id: Id, password: string, now: int,
                     matches: (string, string) -> bool, sign: Claims -> string)
    requires id in accounts
    requires !IsLocked(accounts[id], now) && accounts[id].verified
    requires matches(password, accounts[id].password)
    ensures var user := accounts[id];
      var o := CheckCredentials(accounts, id, Str(password), Str(Name(user.userType)), now, matches, sign);
      var claims := SessionClaims(id, user.userType, now);
      && o.reply == LoggedIn(SessionCookie, SetCookie(sign(claims), SessionCookieOptions), LoginSuccessful)
      && claims.id == id && claims.userType == Name(user.userType)
      && claims.exp - claims.iat == TokenLifetimeSeconds
      && o.accounts == accounts[id := user.(loginAttempts := 0, lockUntil := None, isLoggedIn := true)]
      && SessionCookieOptions.httpOnly && SessionCookieOptions.secure
      && SessionCookieOptions.sameSite == Strict && SessionCookieOptions.maxAge == OneHourMillis
  {
  }

  /** The store after a run of login attempts for account `id`, one at each of the times in
      `times`, all with the same password and user type. */
  function Attempts(accounts: map<Id, Account>, id: Id, password: Json, userType: Json, times: seq<int>,
                    matches: (string, string) -> bool, sign: Claims -> string): (r: map<Id, Account>)
    requires id in accounts
    ensures r.Keys == accounts.Keys
    decreases |times|
  {
    if times == [] then accounts
    else
      var next := CheckCredentials(accounts, id, password, userType, times[0], matches, sign).accounts;
      Attempts(next, id, password, userType, times[1..], matches, sign)
  }

  /** Starting from a record without a lock, a run of wrong passwords that does not go past the
      fifth failure is counted one by one and is never refused as locked; the lock appears with
      the fifth failure, thirty minutes after it. */
  lemma {:induction false} FailuresAccumulate(accounts: map<Id, Account>, id: Id, password: string,
                                              userType: Json, times: seq<int>,
                                              matches: (string, string) -> bool, sign: Claims -> string)
    requires id in accounts && accounts[id].verified && accounts[id].lockUntil.None?
    requires !matches(password, accounts[id].password)
    requires accounts[id].loginAttempts < MaxLoginAttempts
    requires accounts[id].loginAttempts + |times| <= MaxLoginAttempts
    ensures var a := Attempts(accounts, id, Str(password), userType, times, matches, sign)[id];
      && a.loginAttempts == accounts[id].loginAttempts + |times|
      && a.lockUntil == (if a.loginAttempts >= MaxLoginAttempts then Some(times[|times| - 1] + LockMillis) else None)
      && a.password == accounts[id].password && a.verified
    decreases |times|
  {
    if times != [] {
      var next := CheckCredentials(accounts, id, Str(password), userType, times[0], matches, sign).accounts;
      WrongPasswordCounts(accounts, id, password, userType, times[0], matches, sign);
      if |times| == 1 {
        assert Attempts(next, id, Str(password), userType, times[1..], matches, sign) == next;
      } else {
        FailuresAccumulate(next, id, password, userType, times[1..], matches, sign);
        assert times[1..][|times[1..]| - 1] == times[|times| - 1];
      }
    }
  }

  /** Five wrong passwords in a row on a fresh record lock the account: for thirty minutes after
      the fifth, every login answers 423, even with the correct password and user type. */
  lemma LockoutAfterFiveFailures(accounts: map<Id, Account>, id: Id, wrong: string, userType: Json,
                                 times: seq<int>, later: int, password: Json, laterType: Json,
                                 matches: (string, string) -> bool, sign: Claims -> string)
    requires id in accounts && accounts[id].verified
    requires accounts[id].loginAttempts == 0 && accounts[id].lockUntil.None?
    requires !matches(wrong, accounts[id].password)
    requires |times| == MaxLoginAttempts
    requires times[|times| - 1] <= later < times[|times| - 1] + LockMillis
    ensures var after := Attempts(accounts, id, Str(wrong), userType, times, matches, sign);
      CheckCredentials(after, id, password, laterType, later, matches, sign) ==
        Outcome(Failure(423, AccountLocked), after)
  {
    FailuresAccumulate(accounts, id, wrong, userType, times, matches, sign);
  }

  /** Nothing clears the failure count when a lock runs out: on an account that has failed five
      times, the first wrong password after the lock has lapsed locks it again at once, for
      thirty minutes from that attempt. */
  lemma RelockAfterExpiry(accounts: map<Id, Account>, id: Id, nextId: Id, wrong: string, userType: Json,
                          now: int, matches: (string, string) -> bool, sign: Claims -> string)
    requires StoreInvariant(accounts, nextId) && id in accounts && accounts[id].verified
    requires accounts[id].loginAttempts >= MaxLoginAttempts && !IsLocked(accounts[id], now)
    requires !matches(wrong, accounts[id].password)
    ensures var o := CheckCredentials(accounts, id, Str(wrong), userType, now, matches, sign);
      && o.reply == Failure(400, InvalidCredentials)
      && o.accounts[id].lockUntil == Some(now + LockMillis)
      && IsLocked(o.accounts[id], now)
  {
    WrongPasswordCounts(accounts, id, wrong, userType, now, matches, sign);
  }

  // ---------------------------------------------------------------------------------------
  // Me and logout

  /** The session cookie alone does not authenticate: without an `Authorization` header `/me`
      and `/logout` answer 401 "Unauthorized: No token provided", whatever cookies are sent, and
      the store is left as it was. */
  lemma CookieAloneIsRejected(accounts: map<Id, Account>, req: Request, secret: string,
                              verify: (string, string) -> TokenCheck)
    requires req.authorization.None?
    ensures MeRoute(accounts, req, secret, verify) == Failure(401, NoTokenProvided)
    ensures LogoutRoute(accounts, req, secret, verify) == Outcome(Failure(401, NoTokenProvided), accounts)
  {
  }

  /** A token the gate accepts is not enough for `/me`: an id the store no longer holds gives 404
      and an account that is logged out gives 401, however valid the token. */
  lemma MeNeedsLiveSession(accounts: map<Id, Account>, req: Request, secret: string,
                           verify: (string, string) -> TokenCheck, claims: Claims)
    requires VerifyToken(req.authorization, secret, verify) == Next(claims)
    ensures claims.id !in accounts ==> MeRoute(accounts, req, secret, verify) == Failure(404, UserNotFound)
    ensures claims.id in accounts && !accounts[claims.id].isLoggedIn ==>
      MeRoute(accounts, req, secret, verify) == Failure(401, SessionExpired)
    ensures MeRoute(accounts, req, secret, verify).Profile? <==> claims.id in accounts && accounts[claims.id].isLoggedIn
  {
  }

  /** After a successful login, `/me` with a token for that account reports its email, its type,
      that it is verified and that it is logged in. */
  lemma MeAfterLogin(accounts: map<Id, Account>, id: Id, password: string, now: int,
                     matches: (string, string) -> bool, sign: Claims -> string)
    requires id in accounts
    requires !IsLocked(accounts[id], now) && accounts[id].verified
    requires matches(password, accounts[id].password)
    ensures var user := accounts[id];
      var after := CheckCredentials(accounts, id, Str(password), Str(Name(user.userType)), now, matches, sign).accounts;
      MeHandler(after, id) == Profile(user.email, Name(user.userType), true, true)
  {
  }

  /** Logging out ends the session on the server even though the token stays valid: the same
      request to `/me` afterwards answers 401 "Session expired. Please login again.". */
  lemma LogoutEndsSession(accounts: map<Id, Account>, req: Request, secret: string,
                          verify: (string, string) -> TokenCheck)
    requires LogoutRoute(accounts, req, secret, verify).reply.LoggedOut?
    ensures MeRoute(LogoutRoute(accounts, req, secret, verify).accounts, req, secret, verify) ==
      Failure(401, SessionExpired)
  {
  }

  /** A logout for an id the store does not hold answers 400 "User not found!" and changes
      nothing; otherwise only that record's `isLoggedIn` changes, to false, and the reply clears
      the `token` cookie. */
  lemma LogoutOutcomes(accounts: map<Id, Account>, id: Id)
    ensures var o := LogoutHandler(accounts, id);
      && (id !in accounts <==> o.reply == Failure(400, LogoutUserNotFound))
      && (o.reply.Failure? ==> o.accounts == accounts)
      && (id in accounts ==>
            && o.reply.LoggedOut?
            && o.reply.clearedCookie == SessionCookie
            && o.accounts == accounts[id := accounts[id].(isLoggedIn := false)])
  {
  }

  // ---------------------------------------------------------------------------------------
  // A whole session

  /** The body a user sends to `/register` and `/login`: address, password and the name of a
      user type. */
  function SessionBody(email: string, password: string, kind: UserType): (b: Body)
    ensures b.email == Some(Str(email)) && b.password == Some(Str(password))
    ensures b.userType == Some(Str(Name(kind)))
  {
    Body(Some(Str(email)), Some(Str(password)), Some(Str(Name(kind))))
  }

  /** A body with a non-empty address and password has every field present. */
  lemma SessionBodyPresent(email: string, password: string, kind: UserType)
    requires email != [] && password != []
    ensures AllPresent(SessionBody(email, password, kind))
  {
  }

  /** Trimming and the `xss` filter leave the address and the name of the user type as they
      are. */
  predicate Settled(email: string, kind: UserType, xss: string -> string)
  {
    && email != [] && !IsJsSpace(email[0]) && !IsJsSpace(email[|email| - 1])
    && xss(email) == email && xss(Name(kind)) == Name(kind)
  }

  /** A user-type name has no white space at either end. */
  lemma NameIsTrimmed(kind: UserType)
    ensures var n := Name(kind); n != [] && !IsJsSpace(n[0]) && !IsJsSpace(n[|n| - 1])
  {
  }

  /** A string with no white space at either end that the filter leaves alone passes
      `sanitizeInput` unchanged. */
  lemma UntouchedInput(s: string, xss: string -> string)
    requires s != [] && !IsJsSpace(s[0]) && !IsJsSpace(s[|s| - 1]) && xss(s) == s
    ensures SanitizeInput(Some(Str(s)), xss) == Some(Str(s))
  {
    TrimKeepsTrimmed(s);
  }

  /** The name of a user type passes `sanitizeInput` unchanged when the filter leaves it
      alone. */
  lemma NameSanitized(kind: UserType, xss: string -> string)
    requires xss(Name(kind)) == Name(kind)
    ensures SanitizeInput(Some(Str(Name(kind))), xss) == Some(Str(Name(kind)))
  {
    NameIsTrimmed(kind);
    UntouchedInput(Name(kind), xss);
  }

  /** A password of at least six UTF-16 code units is long enough. */
  lemma PasswordLongEnough(password: string)
    requires Utf16Length(password) >= MinPasswordLength
    ensures !LengthBelowMinimum(Str(password))
  {
  }

  /** A settled body with a long enough password passes the early checks of `/register`
      unchanged. */
  lemma SessionBodyAdmitted(email: Email, password: string, kind: UserType, xss: string -> string)
    requires Settled(email, kind, xss) && Utf16Length(password) >= MinPasswordLength
    ensures AdmitRegistration(SessionBody(email, password, kind), xss) == Admitted(email, kind, Str(password))
  {
    SessionBodyPresent(email, password, kind);
    UntouchedInput(email, xss);
    NameSanitized(kind, xss);
    ParseNameRoundTrip(kind, Name(kind));
    PasswordLongEnough(password);
  }

  /** Registering a settled body in an empty store creates account 0, unverified. */
  lemma SessionRegisters(email: Email, password: string, kind: UserType, hashed: string, token: string,
                         emailSent: bool, xss: string -> string)
    requires Settled(email, kind, xss) && Utf16Length(password) >= MinPasswordLength
    requires |hashed| >= StoredPasswordMinLength
    ensures var o := RegisterSpec(map[], 0, SessionBody(email, password, kind), hashed, token, emailSent, xss);
      o.reply.Created? && o.accounts == map[0 := NewAccount(email, hashed, kind, token)]
  {
    SessionBodyAdmitted(email, password, kind, xss);
    FirstAccountStored(email, password, kind, hashed, token, emailSent);
  }

  /** An admitted address lands in an empty store as account 0. */
  lemma FirstAccountStored(email: Email, password: string, kind: UserType, hashed: string, token: string,
                           emailSent: bool)
    requires |hashed| >= StoredPasswordMinLength
    ensures var o := StoreRegistration(map[], 0, email, kind, Str(password), hashed, token, emailSent);
      o.reply.Created? && o.accounts == map[0 := NewAccount(email, hashed, kind, token)]
  {
    LowerFixesLower(email);
    assert FindByEmail(map[], email) == None;
    assert CreateAccount(email, hashed, kind, token) == Some(NewAccount(email, hashed, kind, token));
  }

  /** A login whose sanitised email is a string that finds account `id` is decided by the
      credential checks of that account, on the password as sent and the sanitised user type. */
  lemma LoginReachesAccount(accounts: map<Id, Account>, body: Body, email: string, id: Id, now: int,
                            matches: (string, string) -> bool, sign: Claims -> string,
                            xss: string -> string)
    requires AllPresent(body) && SanitizeInput(body.email, xss) == Some(Str(email))
    requires FindByEmail(accounts, Lower(email)) == Some(id)
    ensures LoginSpec(accounts, body, now, matches, sign, xss) ==
      CheckCredentials(accounts, id, body.password.value, SanitizeInput(body.userType, xss).value,
                       now, matches, sign)
  {
  }

  /** A settled address and user-type name pass `sanitizeInput` unchanged. */
  lemma SettledInputs(email: string, kind: UserType, xss: string -> string)
    requires Settled(email, kind, xss)
    ensures SanitizeInput(Some(Str(email)), xss) == Some(Str(email))
    ensures SanitizeInput(Some(Str(Name(kind))), xss) == Some(Str(Name(kind)))
  {
    UntouchedInput(email, xss);
    NameSanitized(kind, xss);
  }

  /** A lower-case address is its own lookup key, so it finds the only account when that
      account holds it. */
  lemma OnlyAccountFound(account: Account, email: string)
    requires IsLower(email) && account.email == email
    ensures FindByEmail(map[0 := account], Lower(email)) == Some(0)
  {
    LowerFixesLower(email);
    FindByEmailUnique(map[0 := account], email, 0);
  }

  /** What `/login` reads from a settled body sent for the only account: every field present,
      the address itself, which finds that account, and the name of the user type. */
  lemma SessionLoginInputs(account: Account, email: string, password: string, kind: UserType,
                           xss: string -> string)
    requires IsLower(email) && Settled(email, kind, xss) && password != [] && account.email == email
    ensures AllPresent(SessionBody(email, password, kind))
    ensures SanitizeInput(Some(Str(email)), xss) == Some(Str(email))
    ensures FindByEmail(map[0 := account], Lower(email)) == Some(0)
    ensures SanitizeInput(Some(Str(Name(kind))), xss) == Some(Str(Name(kind)))
  {
    SessionBodyPresent(email, password, kind);
    SettledInputs(email, kind, xss);
    OnlyAccountFound(account, email);
  }

  /** Logging in with a settled body reaches the credential checks of the account holding the
      address. */
  lemma SessionLoginFindsAccount(account: Account, email: string, password: string, kind: UserType,
                                 now: int, matches: (string, string) -> bool, sign: Claims -> string,
                                 xss: string -> string)
    requires IsLower(email) && Settled(email, kind, xss) && password != [] && account.email == email
    ensures LoginSpec(map[0 := account], SessionBody(email, password, kind), now, matches, sign, xss) ==
      CheckCredentials(map[0 := account], 0, Str(password), Str(Name(kind)), now, matches, sign)
  {
    SessionLoginInputs(account, email, password, kind, xss);
    LoginReachesAccount(map[0 := account], SessionBody(email, password, kind), email, 0, now, matches, sign, xss);
  }

  /** Before the link is followed, login with the right address is refused with 400 and changes
      nothing. */
  lemma SessionLoginBeforeVerify(account: Account, email: string, password: string, kind: UserType, now: int,
                                 matches: (string, string) -> bool, sign: Claims -> string,
                                 xss: string -> string)
    requires IsLower(email) && Settled(email, kind, xss) && Utf16Length(password) >= MinPasswordLength
    requires account.email == email && !account.verified && account.lockUntil.None?
    ensures LoginSpec(map[0 := account], SessionBody(email, password, kind), now, matches, sign, xss) ==
      Outcome(Failure(400, VerifyEmailFirst), map[0 := account])
  {
    SessionLoginFindsAccount(account, email, password, kind, now, matches, sign, xss);
  }

  /** Following the link with the account's token verifies it and spends the token. */
  lemma SessionVerifies(account: Account, token: string, xss: string -> string)
    requires token != [] && !IsJsSpace(token[0]) && !IsJsSpace(token[|token| - 1]) && xss(token) == token
    requires account.verificationToken == Some(token)
    ensures VerifySpec(map[0 := account], Some(Str(token)), None, xss) ==
      Outcome(Redirect(VerifyLocation(None, true)), map[0 := account.(verified := true, verificationToken := None)])
  {
    TrimKeepsTrimmed(token);
    FindByTokenUnique(map[0 := account], token, 0);
  }

  /** Once verified, login with the account's own type succeeds; `/me` with a bearer token for
      the account then shows it verified and logged in, and after `/logout` the same request
      answers 401. */
  lemma SessionLoginAfterVerify(account: Account, email: string, password: string, kind: UserType, now: int,
                                matches: (string, string) -> bool, sign: Claims -> string,
                                xss: string -> string, header: string, secret: string,
                                verify: (string, string) -> TokenCheck)
    requires IsLower(email) && Settled(email, kind, xss) && Utf16Length(password) >= MinPasswordLength
    requires account.email == email && account.verified && account.lockUntil.None?
    requires account.userType == kind && matches(password, account.password)
    requires VerifyToken(Some(header), secret, verify).Next? && VerifyToken(Some(header), secret, verify).user.id == 0
    ensures
      var login := LoginSpec(map[0 := account], SessionBody(email, password, kind), now, matches, sign, xss);
      var req := Request(Some(header), map[]);
      var logout := LogoutRoute(login.accounts, req, secret, verify);
      && login.reply.LoggedIn?
      && MeRoute(login.accounts, req, secret, verify) == Profile(email, Name(kind), true, true)
      && logout.reply.LoggedOut?
      && MeRoute(logout.accounts, req, secret, verify) == Failure(401, SessionExpired)
  {
    var accounts := map[0 := account];
    SessionLoginFindsAccount(account, email, password, kind, now, matches, sign, xss);
    MeAfterLogin(accounts, 0, password, now, matches, sign);
    LoginSuccess(accounts, 0, password, now, matches, sign);
  }

  /** Register, log in too early, verify, log in, read the profile, log out, read it again: a new
      address is accepted (201), login before verification is refused (400), the link verifies,
      the second login succeeds, `/me` with a bearer token for the account shows it verified and
      logged in, and after logout the same request answers 401 "Session expired". */
  lemma SessionLifecycle(email: Email, password: string, kind: UserType, hashed: string, token: string,
                         emailSent: bool, xss: string -> string, now1: int, now2: int,
                         matches: (string, string) -> bool, sign: Claims -> string, header: string,
                         secret: string, verify: (string, string) -> TokenCheck)
    requires Settled(email, kind, xss) && Utf16Length(password) >= MinPasswordLength
    requires |hashed| >= StoredPasswordMinLength && matches(password, hashed)
    requires token != [] && !IsJsSpace(token[0]) && !IsJsSpace(token[|token| - 1]) && xss(token) == token
    requires VerifyToken(Some(header), secret, verify).Next? && VerifyToken(Some(header), secret, verify).user.id == 0
    ensures
      var body := SessionBody(email, password, kind);
      var registered := RegisterSpec(map[], 0, body, hashed, token, emailSent, xss);
      var early := LoginSpec(registered.accounts, body, now1, matches, sign, xss);
      var verified := VerifySpec(early.accounts, Some(Str(token)), None, xss);
      var login := LoginSpec(verified.accounts, body, now2, matches, sign, xss);
      var req := Request(Some(header), map[]);
      var logout := LogoutRoute(login.accounts, req, secret, verify);
      && registered.reply.Created?
      && early.reply == Failure(400, VerifyEmailFirst)
      && verified.reply == Redirect(VerifyLocation(None, true))
      && login.reply.LoggedIn?
      && MeRoute(login.accounts, req, secret, verify) == Profile(email, Name(kind), true, true)
      && logout.reply.LoggedOut?
      && MeRoute(logout.accounts, req, secret, verify) == Failure(401, SessionExpired)
  {
    var account := NewAccount(email, hashed, kind, token);
    SessionRegisters(email, password, kind, hashed, token, emailSent, xss);
    SessionLoginBeforeVerify(account, email, password, kind, now1, matches, sign, xss);
    SessionVerifies(account, token, xss);
    var verifiedAccount := account.(verified := true, verificationToken := None);
    SessionLoginAfterVerify(verifiedAccount, email, password, kind, now2, matches, sign, xss, header, secret, verify);
  }
}
