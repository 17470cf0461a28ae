/** The account handlers (backend/routes/auth.js): register, verify, login, me and logout over a
    store of account records. */
module AuthRoutes {
  import opened Maybe
  import opened Text
  import opened Json
  import opened Sanitize
  import opened UserModel
  import opened TokenGate
  import opened Http

  /** A document id. */
  type Id = nat

  /** Failed password checks that lock an account. */
  const MaxLoginAttempts: nat := 5
  /** How long a lock lasts: thirty minutes, in milliseconds. */
  const LockMillis: nat := 30 * 60 * 1000
  /** Session tokens expire one hour after issue (`expiresIn: "1h"`). */
  const TokenLifetimeSeconds: nat := 60 * 60
  const MinPasswordLength: nat := 6

  const SessionCookie := "token"
  const SessionCookieOptions := CookieOptions(true, true, Strict, OneHourMillis)
  const DefaultFrontendUrl := "http://localhost:5173"
  const VerifiedPath := "/verify?status=success"
  const NotVerifiedPath := "/verify?status=failed"

  const AllFieldsRequired := "All fields are required!"
  const InvalidUserType := "Invalid user type!"
  const PasswordTooShort := "Password must be at least 6 characters long!"
  const UserExists := "User already exists!"
  const InternalError := "Internal server error!"
  const Registered := "User registered! Check email to verify."
  const RegisteredNoEmail := "User registered, but email verification failed. Please contact support."
  const EmailUnavailable := "Email service temporarily unavailable"
  const InvalidCredentials := "Invalid credentials!"
  const AccountLocked := "Account temporarily locked due to too many failed attempts!"
  const VerifyEmailFirst := "Please verify your email before logging in!"
  const LoginSuccessful := "Login successful!"
  const UserNotFound := "User not found"
  const SessionExpired := "Session expired. Please login again."
  const LogoutUserNotFound := "User not found!"
  const LoggedOutMessage := "Logged out successfully!"

  /** The JSON body of `/register` and `/login`; an absent field is `None` (`undefined`). */
  datatype Body = Body(email: Option<Json>, password: Option<Json>, userType: Option<Json>)

  /** What an authenticated route sees of a request: its `Authorization` header and its cookies. */
  datatype Request = Request(authorization: Option<string>, cookies: map<string, string>)

  datatype Reply =
    | Failure(status: nat, error: string)
    | Created(message: string, warning: Option<string>)
    | Redirect(location: string)
    | LoggedIn(cookieName: string, cookie: SetCookie, message: string)
    | Profile(email: string, userType: string, verified: bool, isLoggedIn: bool)
    | LoggedOut(clearedCookie: string, message: string)

  /** The reply and the store after a request. */
  datatype Outcome = Outcome(reply: Reply, accounts: map<Id, Account>)

  // ---------------------------------------------------------------------------------------
  // The store's invariant: what the schema and the handlers together keep true.

  predicate IdsBelow(accounts: map<Id, Account>, nextId: Id) {
    forall id :: id in accounts ==> id < nextId
  }

  /** The unique index on `email`. */
  predicate UniqueEmails(accounts: map<Id, Account>) {
    forall i, j :: i in accounts && j in accounts && i != j ==> accounts[i].email != accounts[j].email
  }

  /** No two accounts wait on the same verification token. */
  predicate UniqueTokens(accounts: map<Id, Account>) {
    forall i, j :: i in accounts && j in accounts && i != j && accounts[i].verificationToken.Some? ==>
      accounts[i].verificationToken != accounts[j].verificationToken
  }

  /** What the schema validates on every save, beyond the email that the `Email` type already
      guarantees: a stored password of at least six characters. */
  predicate SchemaValid(a: Account) {
    |a.password| >= StoredPasswordMinLength
  }

  /** A verified account holds no verification token, and an account carries a lock time exactly
      when it has failed at least five times since its last successful login. */
  predicate AccountInvariant(a: Account) {
    && SchemaValid(a)
    && (a.verified ==> a.verificationToken.None?)
    && (a.loginAttempts >= MaxLoginAttempts <==> a.lockUntil.Some?)
  }

  predicate StoreInvariant(accounts: map<Id, Account>, nextId: Id) {
    && IdsBelow(accounts, nextId)
    && UniqueEmails(accounts)
    && UniqueTokens(accounts)
    && (forall id :: id in accounts ==> AccountInvariant(accounts[id]))
  }

  // ---------------------------------------------------------------------------------------
  // Queries: `findOne` on the email and on the verification token.

  ghost function FindByEmail(accounts: map<Id, Account>, email: string): (r: Option<Id>)
    ensures r.Some? ==> r.value in accounts && accounts[r.value].email == email
    ensures r.None? ==> forall id :: id in accounts ==> accounts[id].email != email
  {
    if exists id :: id in accounts && accounts[id].email == email then
      Some(var id :| id in accounts && accounts[id].email == email; id)
    else None
  }

  ghost function FindByToken(accounts: map<Id, Account>, token: string): (r: Option<Id>)
    ensures r.Some? ==> r.value in accounts && accounts[r.value].verificationToken == Some(token)
    ensures r.None? ==> forall id :: id in accounts ==> accounts[id].verificationToken != Some(token)
  {
    if exists id :: id in accounts && accounts[id].verificationToken == Some(token) then
      Some(var id :| id in accounts && accounts[id].verificationToken == Some(token); id)
    else None
  }

  lemma FindByEmailUnique(accounts: map<Id, Account>, email: string, id: Id)
    requires UniqueEmails(accounts) && id in accounts && accounts[id].email == email
    ensures FindByEmail(accounts, email) == Some(id)
  {
  }

  lemma FindByTokenUnique(accounts: map<Id, Account>, token: string, id: Id)
    requires UniqueTokens(accounts) && id in accounts && accounts[id].verificationToken == Some(token)
    ensures FindByToken(accounts, token) == Some(id)
  {
  }

  // ---------------------------------------------------------------------------------------
  // Input checks shared by register and login.

  predicate AllPresent(body: Body) {
    Truthy(body.email) && Truthy(body.password) && Truthy(body.userType)
  }

  /** `validUserTypes.includes(sanitizedUserType)`: strict equality, so only a string naming one
      of the four types passes. */
  function UserTypeOf(v: Json): (r: Option<UserType>)
    ensures r.Some? <==> v.Str? && v.s in {"buyer", "seller", "admin", "client"}
    ensures r.Some? ==> v == Str(Name(r.value))
  {
    if v.Str? then ParseUserType(v.s) else None
  }

  /** `password.length < 6` for a present password: a string by its UTF-16 length, an array by
      its length, an object by its numeric, boolean or null `length` property; a number or
      `true` has no length. */
  predicate LengthBelowMinimum(v: Json): (below: bool)
    ensures v.Str? && |v.s| >= MinPasswordLength ==> !below
    ensures v.Str? && 2 * |v.s| < MinPasswordLength ==> below
    ensures v.Str? && (forall i :: 0 <= i < |v.s| ==> v.s[i] < '\U{10000}') ==> (below <==> |v.s| < MinPasswordLength)
    ensures v.Null? || v.Bool? || v.Num? ==> !below
    ensures v.Str? ==> (below <==> Utf16Length(v.s) < MinPasswordLength)
    ensures v.Arr? ==> (below <==> |v.items| < MinPasswordLength)
  {
    match v
    case Str(s) => Utf16LengthCountsSurrogates(s); Utf16Length(s) < MinPasswordLength
    case Arr(a) => |a| < MinPasswordLength
    case Obj(m) =>
      "length" in m && (
        match m["length"]
        case Num(x) => x < MinPasswordLength as real
        case Null => true
        case Bool(_) => true
        case _ => false)
    case _ => false
  }

  /** The length check counts UTF-16 code units: three emoji make a long enough password, while
      three plain letters do not. */
  lemma PasswordLengthInCodeUnits()
    ensures !LengthBelowMinimum(Str("\U{1F600}\U{1F600}\U{1F600}"))
    ensures LengthBelowMinimum(Str("abc"))
  {
    ThreeEmojiAreSixUnits();
  }

  /** Where `/verify` redirects: `FRONTEND_URL`, or the development default, then the status. */
  function VerifyLocation(frontendUrl: Option<string>, success: bool): (loc: string)
    ensures frontendUrl.Some? && frontendUrl.value != "" ==> frontendUrl.value <= loc
    ensures frontendUrl.None? || frontendUrl.value == "" ==> DefaultFrontendUrl <= loc
    ensures success ==> |loc| >= |VerifiedPath| && loc[|loc| - |VerifiedPath|..] == VerifiedPath
    ensures !success ==> |loc| >= |NotVerifiedPath| && loc[|loc| - |NotVerifiedPath|..] == NotVerifiedPath
    ensures |loc| == (if frontendUrl.Some? && frontendUrl.value != "" then |frontendUrl.value| else |DefaultFrontendUrl|)
                     + (if success then |VerifiedPath| else |NotVerifiedPath|)
  {
    var base := if frontendUrl.Some? && frontendUrl.value != "" then frontendUrl.value else DefaultFrontendUrl;
    base + (if success then VerifiedPath else NotVerifiedPath)
  }

  /** For one configuration the two redirects of `/verify` differ, so the page can tell a
      verified link from a failed one. */
  lemma VerifyLocationsDiffer(frontendUrl: Option<string>)
    ensures VerifyLocation(frontendUrl, true) != VerifyLocation(frontendUrl, false)
  {
    assert |VerifiedPath| != |NotVerifiedPath|;
  }

  // ---------------------------------------------------------------------------------------
  // The handlers as functions of the store: the specifications of the methods below.

  /** What `/register` makes of a request before it consults the store: an early reply, or the
      sanitised email, the user type and the password as sent. */
  datatype Admission = Rejected(reply: Reply) | Admitted(email: string, userType: UserType, password: Json)

  /** The checks of `/register` ahead of the store, in the order of the handler: every field present,
      a known user type, a long enough password, and an email `toLowerCase` can be called on. */
  function AdmitRegistration(body: Body, xss: string -> string): (r: Admission)
    ensures r.Rejected? ==> r.reply.Failure?
  {
    if !AllPresent(body) then Rejected(Failure(400, AllFieldsRequired))
    else
      var email := SanitizeInput(body.email, xss).value;
      var userType := UserTypeOf(SanitizeInput(body.userType, xss).value);
      if userType.None? then Rejected(Failure(400, InvalidUserType))
      else if LengthBelowMinimum(body.password.value) then Rejected(Failure(400, PasswordTooShort))
      else if !email.Str? then Rejected(Failure(500, InternalError))
      else Admitted(email.s, userType.value, body.password.value)
  }

  /** The rest of `/register` once the input is admitted: the duplicate check on the lower-cased
      email, hashing (which fails on a non-string password), and the save, which the schema may
      refuse. `hashed` is the bcrypt hash, `freshToken` the random verification token and
      `emailSent` what the mailer reported. */
  ghost function StoreRegistration(accounts: map<Id, Account>, nextId: Id, email: string, userType: UserType,
                                   password: Json, hashed: string, freshToken: string, emailSent: bool): Outcome
  {
    if FindByEmail(accounts, Lower(email)).Some? then Outcome(Failure(400, UserExists), accounts)
    else if !password.Str? then Outcome(Failure(500, InternalError), accounts)
    else
      match CreateAccount(email, hashed, userType, freshToken)
      case None => Outcome(Failure(500, InternalError), accounts)
      case Some(account) =>
        if emailSent then Outcome(Created(Registered, None), accounts[nextId := account])
        else Outcome(Created(RegisteredNoEmail, Some(EmailUnavailable)), accounts[nextId := account])
  }

  /** `POST /register`. */
  ghost function RegisterSpec(accounts: map<Id, Account>, nextId: Id, body: Body, hashed: string,
                              freshToken: string, emailSent: bool, xss: string -> string): Outcome
  {
    match AdmitRegistration(body, xss)
    case Rejected(reply) => Outcome(reply, accounts)
    case Admitted(email, userType, password) =>
      StoreRegistration(accounts, nextId, email, userType, password, hashed, freshToken, emailSent)
  }

  /** `GET /verify?token=...`. */
  ghost function VerifySpec(accounts: map<Id, Account>, token: Option<Json>, frontendUrl: Option<string>,
                            xss: string -> string): Outcome
  {
    var sanitized := SanitizeInput(token, xss);
    if !Truthy(sanitized) || !sanitized.value.Str? then
      Outcome(Redirect(VerifyLocation(frontendUrl, false)), accounts)
    else
      match FindByToken(accounts, sanitized.value.s)
      case None => Outcome(Redirect(VerifyLocation(frontendUrl, false)), accounts)
      case Some(id) =>
        Outcome(Redirect(VerifyLocation(frontendUrl, true)),
                accounts[id := accounts[id].(verified := true, verificationToken := None)])
  }

  /** The claims of a session token issued at `now` (milliseconds). */
  function SessionClaims(id: Id, userType: UserType, now: int): (c: Claims)
    ensures c.id == id && c.userType == Name(userType)
    ensures c.exp - c.iat == TokenLifetimeSeconds
    ensures c.iat * 1000 <= now < (c.iat + 1) * 1000
  {
    Claims(id, Name(userType), now / 1000, now / 1000 + TokenLifetimeSeconds)
  }

  /** `POST /login` at time `now`. `matches` is bcrypt's comparison and `sign` the token signer. */
  ghost function LoginSpec(accounts: map<Id, Account>, body: Body, now: int, matches: (string, string) -> bool,
                           sign: Claims -> string, xss: string -> string): Outcome
  {
    if !AllPresent(body) then Outcome(Failure(400, AllFieldsRequired), accounts)
    else
      var email := SanitizeInput(body.email, xss).value;
      if !email.Str? then Outcome(Failure(500, InternalError), accounts)
      else match FindByEmail(accounts, Lower(email.s))
        case None => Outcome(Failure(400, InvalidCredentials), accounts)
        case Some(id) =>
          CheckCredentials(accounts, id, body.password.value, SanitizeInput(body.userType, xss).value,
                           now, matches, sign)
  }

  /** The part of `/login` after the account `id` has been found: the lock, then the verified
      flag, then the password, then the user type. */
  function CheckCredentials(accounts: map<Id, Account>, id: Id, password: Json, userType: Json, now: int,
                            matches: (string, string) -> bool, sign: Claims -> string): (o: Outcome)
    requires id in accounts
    ensures o.accounts.Keys == accounts.Keys
  {
    var user := accounts[id];
    if IsLocked(user, now) then Outcome(Failure(423, AccountLocked), accounts)
    else if !user.verified then Outcome(Failure(400, VerifyEmailFirst), accounts)
    else if !password.Str? then Outcome(Failure(500, InternalError), accounts)
    else if !matches(password.s, user.password) then
      var attempts := user.loginAttempts + 1;
      var lock := if attempts >= MaxLoginAttempts then Some(now + LockMillis) else user.lockUntil;
      Outcome(Failure(400, InvalidCredentials),
              accounts[id := user.(loginAttempts := attempts, lockUntil := lock)])
    else if userType != Str(Name(user.userType)) then Outcome(Failure(400, InvalidUserType), accounts)
    else
      var token := sign(SessionClaims(id, user.userType, now));
      Outcome(LoggedIn(SessionCookie, SetCookie(token, SessionCookieOptions), LoginSuccessful),
              accounts[id := user.(loginAttempts := 0, lockUntil := None, isLoggedIn := true)])
  }

  /** `GET /me` once the gate has let the request through with the claims' `id`. */
  function MeHandler(accounts: map<Id, Account>, id: Id): (r: Reply)
    ensures id !in accounts <==> r == Failure(404, UserNotFound)
    ensures id in accounts && !accounts[id].isLoggedIn <==> r == Failure(401, SessionExpired)
    ensures r.Profile? ==>
              && id in accounts && accounts[id].isLoggedIn
              && r == Profile(accounts[id].email, Name(accounts[id].userType), accounts[id].verified, true)
  {
    if id !in accounts then Failure(404, UserNotFound)
    else
      var user := accounts[id];
      if !user.isLoggedIn then Failure(401, SessionExpired)
      else Profile(user.email, Name(user.userType), user.verified, user.isLoggedIn)
  }

  /** `POST /logout` once the gate has let the request through: `findByIdAndUpdate`. */
  function LogoutHandler(accounts: map<Id, Account>, id: Id): (o: Outcome)
    ensures id !in accounts ==> o == Outcome(Failure(400, LogoutUserNotFound), accounts)
    ensures id in accounts ==>
              && o.reply == LoggedOut(SessionCookie, LoggedOutMessage)
              && o.accounts == accounts[id := accounts[id].(isLoggedIn := false)]
  {
    if id !in accounts then Outcome(Failure(400, LogoutUserNotFound), accounts)
    else Outcome(LoggedOut(SessionCookie, LoggedOutMessage), accounts[id := accounts[id].(isLoggedIn := false)])
  }

  /** The gate followed by a handler: a rejected token ends the request with 401. */
  function MeRoute(accounts: map<Id, Account>, req: Request, secret: string,
                   verify: (string, string) -> TokenCheck): Reply
  {
    match VerifyToken(req.authorization, secret, verify)
    case Unauthorized(error) => Failure(401, error)
    case Next(claims) => MeHandler(accounts, claims.id)
  }

  function LogoutRoute(accounts: map<Id, Account>, req: Request, secret: string,
                       verify: (string, string) -> TokenCheck): Outcome
  {
    match VerifyToken(req.authorization, secret, verify)
    case Unauthorized(error) => Outcome(Failure(401, error), accounts)
    case Next(claims) => LogoutHandler(accounts, claims.id)
  }

  // ---------------------------------------------------------------------------------------
  // The store: handlers that update a record field by field and then save it.

  class AccountStore {
    var accounts: map<Id, Account>
    var nextId: Id

    ghost predicate Valid()
      reads this
    {
      StoreInvariant(accounts, nextId)
    }

    constructor ()
      ensures Valid() && accounts == map[] && nextId == 0
    {
      accounts := map[];
      nextId := 0;
    }

    /** `User.findOne({ email })`. */
    method FindOneByEmail(email: string) returns (found: Option<Id>)
      requires Valid()
      ensures found == FindByEmail(accounts, email)
    {
      if exists id :: id in accounts && accounts[id].email == email {
        var id :| id in accounts && accounts[id].email == email;
        FindByEmailUnique(accounts, email, id);
        found := Some(id);
      } else {
        found := None;
      }
    }

    /** `User.findOne({ verificationToken })`. */
    method FindOneByToken(token: string) returns (found: Option<Id>)
      requires Valid()
      ensures found == FindByToken(accounts, token)
    {
      if exists id :: id in accounts && accounts[id].verificationToken == Some(token) {
        var id :| id in accounts && accounts[id].verificationToken == Some(token);
        FindByTokenUnique(accounts, token, id);
        found := Some(id);
      } else {
        found := None;
      }
    }

    method Register(body: Body, hashed: string, freshToken: string, emailSent: bool, xss: string -> string)
      returns (reply: Reply)
      requires Valid()
      requires forall id :: id in accounts ==> accounts[id].verificationToken != Some(freshToken)
      modifies this
      ensures Valid()
      ensures Outcome(reply, accounts) == RegisterSpec(old(accounts), old(nextId), body, hashed, freshToken, emailSent, xss)
      ensures nextId == if reply.Created? then old(nextId) + 1 else old(nextId)
    {
      if !Truthy(body.email) || !Truthy(body.password) || !Truthy(body.userType) {
        return Failure(400, AllFieldsRequired);
      }
      var sanitizedEmail := SanitizeInput(body.email, xss).value;
      var sanitizedUserType := SanitizeInput(body.userType, xss).value;
      var userType := UserTypeOf(sanitizedUserType);
      if userType.None? {
        return Failure(400, InvalidUserType);
      }
      var password := body.password.value;
      if LengthBelowMinimum(password) {
        return Failure(400, PasswordTooShort);
      }
      if !sanitizedEmail.Str? {
        // `toLowerCase` is not a function of a non-string
        return Failure(500, InternalError);
      }
      var existing := FindOneByEmail(Lower(sanitizedEmail.s));
      if existing.Some? {
        return Failure(400, UserExists);
      }
      if !password.Str? {
        // bcrypt rejects a non-string password
        return Failure(500, InternalError);
      }
      var created := CreateAccount(sanitizedEmail.s, hashed, userType.value, freshToken);
      if created.None? {
        // the schema's validation fails the save
        return Failure(500, InternalError);
      }
      var newUser := created.value;
      InsertPreservesInvariant(accounts, nextId, newUser);
      accounts := accounts[nextId := newUser];
      nextId := nextId + 1;
      if emailSent {
        reply := Created(Registered, None);
      } else {
        reply := Created(RegisteredNoEmail, Some(EmailUnavailable));
      }
    }

    method Verify(token: Option<Json>, frontendUrl: Option<string>, xss: string -> string) returns (reply: Reply)
      requires Valid()
      modifies this
      ensures Valid() && nextId == old(nextId)
      ensures Outcome(reply, accounts) == VerifySpec(old(accounts), token, frontendUrl, xss)
    {
      var sanitizedToken := SanitizeInput(token, xss);
      if !Truthy(sanitizedToken) || !sanitizedToken.value.Str? {
        return Redirect(VerifyLocation(frontendUrl, false));
      }
      var found := FindOneByToken(sanitizedToken.value.s);
      if found.None? {
        return Redirect(VerifyLocation(frontendUrl, false));
      }
      var id := found.value;
      var user := accounts[id];
      user := user.(verified := true);
      user := user.(verificationToken := None);
      UpdatePreservesInvariant(accounts, nextId, id, user);
      accounts := accounts[id := user];
      reply := Redirect(VerifyLocation(frontendUrl, true));
    }

    method Login(body: Body, now: int, matches: (string, string) -> bool, sign: Claims -> string,
                 xss: string -> string) returns (reply: Reply)
      requires Valid()
      modifies this
      ensures Valid() && nextId == old(nextId)
      ensures Outcome(reply, accounts) == LoginSpec(old(accounts), body, now, matches, sign, xss)
    {
      if !Truthy(body.email) || !Truthy(body.password) || !Truthy(body.userType) {
        return Failure(400, AllFieldsRequired);
      }
      var sanitizedEmail := SanitizeInput(body.email, xss).value;
      var sanitizedUserType := SanitizeInput(body.userType, xss).value;
      if !sanitizedEmail.Str? {
        // `toLowerCase` is not a function of a non-string
        return Failure(500, InternalError);
      }
      var found := FindOneByEmail(Lower(sanitizedEmail.s));
      if found.None? {
        return Failure(400, InvalidCredentials);
      }
      reply := CheckCredentialsOf(found.value, body.password.value, sanitizedUserType, now, matches, sign);
    }

    /** Login once the account is found: each failed password check is counted and saved. */
    method CheckCredentialsOf(id: Id, password: Json, userType: Json, now: int,
                              matches: (string, string) -> bool, sign: Claims -> string) returns (reply: Reply)
      requires Valid() && id in accounts
      modifies this
      ensures Valid() && nextId == old(nextId)
      ensures Outcome(reply, accounts) == CheckCredentials(old(accounts), id, password, userType, now, matches, sign)
    {
      var user := accounts[id];
      if IsLocked(user, now) {
        return Failure(423, AccountLocked);
      }
      if !user.verified {
        return Failure(400, VerifyEmailFirst);
      }
      if !password.Str? {
        // bcrypt rejects a non-string password
        return Failure(500, InternalError);
      }
      var isMatch := matches(password.s, user.password);
      if !isMatch {
        var attempts := user.loginAttempts + 1;
        var lock := user.lockUntil;
        if attempts >= MaxLoginAttempts {
          lock := Some(now + LockMillis);
        }
        var failed := user.(loginAttempts := attempts, lockUntil := lock);
        UpdatePreservesInvariant(accounts, nextId, id, failed);
        assert CheckCredentials(accounts, id, password, userType, now, matches, sign) ==
          Outcome(Failure(400, InvalidCredentials), accounts[id := failed]);
        accounts := accounts[id := failed];
        return Failure(400, InvalidCredentials);
      }
      if userType != Str(Name(user.userType)) {
        return Failure(400, InvalidUserType);
      }
      var loggedIn := user.(loginAttempts := 0, lockUntil := None, isLoggedIn := true);
      UpdatePreservesInvariant(accounts, nextId, id, loggedIn);
      var token := sign(SessionClaims(id, user.userType, now));
      reply := LoggedIn(SessionCookie, SetCookie(token, SessionCookieOptions), LoginSuccessful);
      assert CheckCredentials(accounts, id, password, userType, now, matches, sign) ==
        Outcome(reply, accounts[id := loggedIn]);
      accounts := accounts[id := loggedIn];
    }

    method Me(req: Request, secret: string, verify: (string, string) -> TokenCheck) returns (reply: Reply)
      requires Valid()
      ensures reply == MeRoute(accounts, req, secret, verify)
    {
      var gate := VerifyToken(req.authorization, secret, verify);
      if gate.Unauthorized? {
        return Failure(401, gate.error);
      }
      var id := gate.user.id;
      if id !in accounts {
        return Failure(404, UserNotFound);
      }
      var user := accounts[id];
      if !user.isLoggedIn {
        return Failure(401, SessionExpired);
      }
      reply := Profile(user.email, Name(user.userType), user.verified, user.isLoggedIn);
    }

    method Logout(req: Request, secret: string, verify: (string, string) -> TokenCheck) returns (reply: Reply)
      requires Valid()
      modifies this
      ensures Valid() && nextId == old(nextId)
      ensures Outcome(reply, accounts) == LogoutRoute(old(accounts), req, secret, verify)
    {
      var gate := VerifyToken(req.authorization, secret, verify);
      if gate.Unauthorized? {
        return Failure(401, gate.error);
      }
      var id := gate.user.id;
      if id !in accounts {
        return Failure(400, LogoutUserNotFound);
      }
      UpdatePreservesInvariant(accounts, nextId, id, accounts[id].(isLoggedIn := false));
      accounts := accounts[id := accounts[id].(isLoggedIn := false)];
      reply := LoggedOut(SessionCookie, LoggedOutMessage);
    }
  }

  // ---------------------------------------------------------------------------------------
  // Every handler keeps the store's invariant.

  /** Saving a record that keeps its email and either keeps or drops its verification token,
      and is itself well formed, keeps the store's invariant. */
  lemma UpdatePreservesInvariant(accounts: map<Id, Account>, nextId: Id, id: Id, a: Account)
    requires StoreInvariant(accounts, nextId) && id in accounts
    requires a.email == accounts[id].email
    requires a.verificationToken == accounts[id].verificationToken || a.verificationToken.None?
    requires AccountInvariant(a)
    ensures StoreInvariant(accounts[id := a], nextId)
  {
    var m := accounts[id := a];
    forall i, j | i in m && j in m && i != j ensures m[i].email != m[j].email {
      assert m[i].email == accounts[i].email && m[j].email == accounts[j].email;
    }
    forall i, j | i in m && j in m && i != j && m[i].verificationToken.Some?
      ensures m[i].verificationToken != m[j].verificationToken
    {
      if i == id {
        assert accounts[i].verificationToken == m[i].verificationToken;
      } else if j == id {
        assert m[j].verificationToken == accounts[j].verificationToken || m[j].verificationToken.None?;
      }
    }
  }

  /** Inserting a well-formed record under a fresh id, with an email and a token no record
      holds, keeps the store's invariant. */
  lemma InsertPreservesInvariant(accounts: map<Id, Account>, nextId: Id, a: Account)
    requires StoreInvariant(accounts, nextId)
    requires AccountInvariant(a)
    requires forall id :: id in accounts ==> accounts[id].email != a.email
    requires forall id :: id in accounts ==> a.verificationToken.None? || accounts[id].verificationToken != a.verificationToken
    ensures StoreInvariant(accounts[nextId := a], nextId + 1)
  {
    var m := accounts[nextId := a];
    assert nextId !in accounts;
    forall i, j | i in m && j in m && i != j && m[i].verificationToken.Some?
      ensures m[i].verificationToken != m[j].verificationToken
    {
    }
  }

  lemma RegisterPreservesInvariant(accounts: map<Id, Account>, nextId: Id, body: Body, hashed: string,
                                   freshToken: string, emailSent: bool, xss: string -> string)
    requires StoreInvariant(accounts, nextId)
    requires forall id :: id in accounts ==> accounts[id].verificationToken != Some(freshToken)
    ensures var o := RegisterSpec(accounts, nextId, body, hashed, freshToken, emailSent, xss);
      StoreInvariant(o.accounts, if o.reply.Created? then nextId + 1 else nextId)
  {
    match AdmitRegistration(body, xss)
    case Rejected(_) =>
    case Admitted(email, userType, password) =>
      var o := StoreRegistration(accounts, nextId, email, userType, password, hashed, freshToken, emailSent);
      if o.reply.Created? {
        var a := CreateAccount(email, hashed, userType, freshToken).value;
        assert o.accounts == accounts[nextId := a];
        InsertPreservesInvariant(accounts, nextId, a);
      }
  }

  lemma VerifyPreservesInvariant(accounts: map<Id, Account>, nextId: Id, token: Option<Json>,
                                 frontendUrl: Option<string>, xss: string -> string)
    requires StoreInvariant(accounts, nextId)
    ensures StoreInvariant(VerifySpec(accounts, token, frontendUrl, xss).accounts, nextId)
  {
    var sanitized := SanitizeInput(token, xss);
    if Truthy(sanitized) && sanitized.value.Str? && FindByToken(accounts, sanitized.value.s).Some? {
      var id := FindByToken(accounts, sanitized.value.s).value;
      var user := accounts[id].(verified := true, verificationToken := None);
      assert VerifySpec(accounts, token, frontendUrl, xss).accounts == accounts[id := user];
      UpdatePreservesInvariant(accounts, nextId, id, user);
    } else {
      assert VerifySpec(accounts, token, frontendUrl, xss).accounts == accounts;
    }
  }

  lemma LoginPreservesInvariant(accounts: map<Id, Account>, nextId: Id, body: Body, now: int,
                                matches: (string, string) -> bool, sign: Claims -> string, xss: string -> string)
    requires StoreInvariant(accounts, nextId)
    ensures StoreInvariant(LoginSpec(accounts, body, now, matches, sign, xss).accounts, nextId)
  {
    if AllPresent(body) {
      var email := SanitizeInput(body.email, xss).value;
      if email.Str? && FindByEmail(accounts, Lower(email.s)).Some? {
        var id := FindByEmail(accounts, Lower(email.s)).value;
        CheckCredentialsPreservesInvariant(accounts, nextId, id, body.password.value,
          SanitizeInput(body.userType, xss).value, now, matches, sign);
      }
    }
  }

  lemma CheckCredentialsPreservesInvariant(accounts: map<Id, Account>, nextId: Id, id: Id, password: Json,
                                           userType: Json, now: int, matches: (string, string) -> bool,
                                           sign: Claims -> string)
    requires StoreInvariant(accounts, nextId) && id in accounts
    ensures StoreInvariant(CheckCredentials(accounts, id, password, userType, now, matches, sign).accounts, nextId)
  {
    var user := accounts[id];
    var after := CheckCredentials(accounts, id, password, userType, now, matches, sign).accounts;
    if IsLocked(user, now) || !user.verified || !password.Str? {
      assert after == accounts;
    } else if !matches(password.s, user.password) {
      var attempts := user.loginAttempts + 1;
      var lock := if attempts >= MaxLoginAttempts then Some(now + LockMillis) else user.lockUntil;
      var failed := user.(loginAttempts := attempts, lockUntil := lock);
      assert after == accounts[id := failed];
      UpdatePreservesInvariant(accounts, nextId, id, failed);
    } else if userType != Str(Name(user.userType)) {
      assert after == accounts;
    } else {
      var loggedIn := user.(loginAttempts := 0, lockUntil := None, isLoggedIn := true);
      assert after == accounts[id := loggedIn];
      UpdatePreservesInvariant(accounts, nextId, id, loggedIn);
    }
  }

  lemma LogoutPreservesInvariant(accounts: map<Id, Account>, nextId: Id, id: Id)
    requires StoreInvariant(accounts, nextId)
    ensures StoreInvariant(LogoutHandler(accounts, id).accounts, nextId)
  {
    if id in accounts {
      UpdatePreservesInvariant(accounts, nextId, id, accounts[id].(isLoggedIn := false));
    }
  }
}
