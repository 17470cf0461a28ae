# Auction-Website authentication core, modelled in Dafny

This project models the authentication and request-hardening core of the Auction-Website
backend and the toast hook of its frontend:

- the account handlers `/register`, `/verify`, `/login`, `/me` and `/logout` over a store of
  account records (`AuthRoutes`, with cross-request properties in `AuthProperties`);
- the account schema: fields, defaults, the user-type enumeration, the email pattern, the
  `lowercase` setter and the `isLocked` virtual (`UserModel`);
- the bearer-token gate in front of `/me` and `/logout` and its secret fallback (`TokenGate`);
- the double-submit CSRF guard and the token issuer (`Csrf`);
- the query-injection sanitiser `sanitizeMongo` and the input dispatcher `sanitizeInput`
  (`Sanitize`);
- `useToast`: the throttle, the repeat check, the dismiss timer and the style fallback (`Toast`).

Supporting modules hold the JavaScript behaviour the core relies on (`Text`: `trim`,
`toLowerCase`, `split`, `replace(/[$]/g, '')`), request values (`Json`: JSON with JavaScript
truthiness), the response parts the middleware writes (`Http`) and `Option` (`Maybe`).

The account store is a class, `AuthRoutes.AccountStore`, whose methods update a record field by
field and save it, as the handlers do. Each method is proved equal to a specification function of
the old store: `RegisterSpec`, `VerifySpec`, `LoginSpec` (through `CheckCredentials`), `MeRoute`
and `LogoutRoute`. The store keeps an invariant:

- ids lie below the next id;
- emails are unique;
- live verification tokens are unique;
- every stored email is lower-case and matches the schema's pattern (the `Email` type);
- stored passwords are at least six characters long;
- a verified account holds no token;
- an account carries a lock time exactly when it has failed five or more times.

Collaborators the core calls but does not define are parameters:

- the `xss` filter is a function `string -> string`;
- bcrypt's hash is the string `hashed`, and its comparison is `matches`;
- `jwt.sign` and `jwt.verify` are `sign` and `verify`;
- `crypto.randomBytes` is a fresh token, which no account holds yet;
- the mailer's report is `emailSent`;
- `Date.now()` is `now`.

Details of the code that the model keeps as written:

- A user-type mismatch at login answers "Invalid user type!" (backend/routes/auth.js:137-139).
- `loginAttempts` is never reset when a lock runs out. Every failure at five or more re-arms
  the lock, so the first wrong password after a lock has lapsed locks the account again at once
  (`AuthProperties.RelockAfterExpiry`).
- `/register` checks that the email is a string only where it calls `toLowerCase` on it, after
  the user-type and length checks. An email sent as an object therefore gets 500, not 400.
- A password sent as a number passes the length check, because `undefined < 6` is false. It
  then fails in bcrypt, which gives 500.
- The session token is read only from the `Authorization` header (backend/middleware/auth.js:5-17).
  The `token` cookie set at login is never read, so `/me` with the cookie alone answers 401
  (`AuthProperties.CookieAloneIsRejected`).
- The lock is not set once and cleared on expiry: each failure from the fifth on sets it anew
  (backend/routes/auth.js:127-134), and the counter is reset only by a successful login.

## Model

| member | source | states |
|---|---|---|
| `Text.Trim` | backend/middleware/sanitize.js:21 | `input.trim()`: the result is a slice of the input whose cut-off prefix and suffix are all white space, and it neither starts nor ends with white space |
| `Text.TrimIdempotent` | backend/middleware/sanitize.js:21 | trimming twice is trimming once |
| `Text.TrimKeepsTrimmed` | backend/middleware/sanitize.js:21 | a string without white space at either end is its own trim |
| `Text.Lower` | backend/routes/auth.js:42 | `toLowerCase` on the letters that lower into ASCII (`A`-`Z` and the KELVIN SIGN, which becomes `k`): same length, none of those letters left, each character lowered in place |
| `Text.Utf16Length` | backend/routes/auth.js:38 | `length` of a string counts UTF-16 code units: at least one and at most two per character |
| `Text.Utf16LengthOfChar` | backend/routes/auth.js:38 | a character outside the Basic Multilingual Plane is two code units, any other character one |
| `Text.Utf16LengthConcat` | backend/routes/auth.js:38 | the code units of a concatenation add up, so with the one-character values the count of every string is fixed |
| `Text.EmojiAndTwoLettersAreFourUnits` | backend/routes/auth.js:38 | an emoji followed by two plain letters is four code units |
| `Text.Utf16LengthCountsSurrogates` | backend/routes/auth.js:38 | the code-unit count equals the character count exactly when no character lies outside the Basic Multilingual Plane |
| `Text.ThreeEmojiAreSixUnits` | backend/routes/auth.js:38 | three emoji are six code units long |
| `Text.LowerFixesLower` | backend/models/User.js:8 | lowering a lower-case string changes nothing |
| `Text.LowerIdentifiesCaseVariants` | backend/routes/auth.js:113 | two addresses that differ only in letter case look up the same key |
| `Text.StripDollar` | backend/middleware/sanitize.js:5 | `replace(/[$]/g, '')` leaves no `$` and never lengthens the string |
| `Text.StripDollarRemovesOnlyDollars` | backend/middleware/sanitize.js:5 | only `$` characters go: the result is a subsequence of the input with every other character kept as often as before |
| `Text.StripDollarKeepsCleanStrings` | backend/middleware/sanitize.js:5 | a string without `$` comes back unchanged |
| `Text.Split` | backend/middleware/auth.js:12 | `split(" ")` gives at least one piece and no piece holds the separator |
| `Text.JoinSplit` | backend/middleware/auth.js:12 | joining the pieces with the separator gives the header back |
| `Text.SplitCount` | backend/middleware/auth.js:12 | the number of pieces is one more than the number of separators |
| `Sanitize.SanitizeMongo` | backend/middleware/sanitize.js:3-17 | the recursive walk over an object's keys (and an array's indices) returns exactly `Sanitized(v)` |
| `Sanitize.SanitizedIsClean` | backend/middleware/sanitize.js:3-17 | after sanitising, no key at any depth starts with `$` or contains `.`, and no string holds `$` |
| `Sanitize.CleanIsFixed` | backend/middleware/sanitize.js:3-17 | a value that is already clean comes back unchanged |
| `Sanitize.SanitizeIdempotent` | backend/middleware/sanitize.js:3-17 | sanitising twice gives the same value as sanitising once |
| `Sanitize.SanitizedAt` | backend/middleware/sanitize.js:8-13 | following any path through the sanitised value reaches the sanitised version of what the same path reaches in the input, and a path through a forbidden key reaches nothing: surviving keys keep their names and only forbidden keys are deleted, at every depth |
| `Sanitize.SanitizedScalars` | backend/middleware/sanitize.js:4-7 | numbers, booleans and null come back unchanged; a string comes back as a `$`-free subsequence of itself |
| `Sanitize.SanitizeInput` | backend/middleware/sanitize.js:19-24 | an absent input stays absent; a string becomes `xss(trim(s))`; anything else is sanitised and comes back clean |
| `Sanitize.SanitizeInputKeepsDollarInStrings` | backend/middleware/sanitize.js:20-21 | the string branch keeps `$`: a padded operator name such as `" $ne "` comes back trimmed with its `$` in place under a filter that leaves it alone |
| `UserModel.ParseUserType` | backend/models/User.js:12-16 | a user type is accepted exactly when it is one of buyer, seller, admin, client |
| `UserModel.ParseNameRoundTrip` | backend/models/User.js:12-16 | naming and parsing a user type are inverse |
| `UserModel.NewAccount` | backend/models/User.js:17-21 | a new record is unverified, logged out, has no failed attempts and no lock, and holds the given email, hash, type and token |
| `UserModel.CreateAccount` | backend/models/User.js:4-11 | the save succeeds exactly when the lower-cased email matches the pattern and the stored password has at least six characters; any valid email succeeds in any letter case; the record holds the lower-cased email |
| `UserModel.IsLocked` | backend/models/User.js:24-26 | no lock time, no lock; with a lock time, locked exactly while `now` is before it |
| `UserModel.LockLapses` | backend/models/User.js:24-26 | a lock that holds later held earlier, lapses at `lockUntil` with no write, and a new record is never locked |
| `UserModel.EmailFromSplit` | backend/models/User.js:9 | the pattern matches exactly when some `@` splits the string into a dotted word and a domain ending in a two- or three-character label |
| `UserModel.LowerKeepsEmail` | backend/models/User.js:8-9 | lower-casing an address the pattern matches gives one it still matches |
| `UserModel.LowerSlices` | backend/models/User.js:8 | lower-casing commutes with cutting at the `@` |
| `UserModel.LowerKeepsDottedWord` | backend/models/User.js:9 | lower-casing keeps `\w+([.-]?\w+)*` matched |
| `UserModel.LowerKeepsDomain` | backend/models/User.js:9 | lower-casing keeps the domain part matched |
| `UserModel.ExampleAddressMatches` | backend/models/User.js:9 | an address of the usual shape, a word character followed by `@b.com`, matches |
| `UserModel.KelvinAddressSavedLowered` | backend/models/User.js:8-9 | an address written with the KELVIN SIGN does not match the pattern itself but lowers to `k@b.com`, which does, so the save succeeds under the ASCII spelling |
| `UserModel.ExampleEmailWithoutTopLevel` | backend/models/User.js:9 | `a@b` does not match |
| `UserModel.ExampleEmailLongTopLevel` | backend/models/User.js:9 | `a@b.info` does not match: the last label must have two or three characters |
| `TokenGate.JwtSecret` | backend/middleware/auth.js:3 | the secret is `JWT_SECRET` when set and non-empty, otherwise "somekey", so it is never empty |
| `TokenGate.SecondPiece` | backend/middleware/auth.js:12 | the second space-separated piece exists exactly when the header holds a space, and holds no space |
| `TokenGate.VerifyToken` | backend/middleware/auth.js:5-24 | `next` is reached with the decoded claims exactly when the header is present, its second piece is non-empty and verifies; a missing header gives "Unauthorized: No token provided"; every rejection is one of the three 401 messages |
| `TokenGate.SplitAfterFirstSeparator` | backend/middleware/auth.js:12 | splitting at the first separator puts the part before it first |
| `TokenGate.BearerHeaderGivesToken` | backend/middleware/auth.js:12-17 | a header `<scheme> <token>` hands exactly `<token>` to the verifier |
| `TokenGate.BadAndExpiredLookAlike` | backend/middleware/auth.js:17-23 | a bad signature and an expired token give the same 401 "Invalid or expired token" |
| `Csrf.GenerateCsrfToken` | backend/middleware/csrf.js:3-12 | the `csrfToken` cookie (not httpOnly, secure, strict, one hour) and the body's `csrfToken` carry the same token; nothing else on the response changes |
| `Csrf.ValidateCsrf` | backend/middleware/csrf.js:14-27 | GET, HEAD and OPTIONS pass; any other method passes exactly when the header token is non-empty and the cookie token equals it; every refusal is 403 "CSRF validation failed" |
| `Csrf.IssuedTokenValidates` | backend/middleware/csrf.js:3-27 | the token the issuer hands out, echoed in the header with the cookie sent back, passes for every method |
| `AuthRoutes.FindByEmail` | backend/routes/auth.js:42 | `findOne({ email })` finds a record holding the email, or reports that none does |
| `AuthRoutes.FindByToken` | backend/routes/auth.js:84 | `findOne({ verificationToken })` finds a record holding the token, or reports that none does |
| `AuthRoutes.FindByEmailUnique` | backend/models/User.js:7 | with unique emails, the lookup finds the one record holding the email |
| `AuthRoutes.FindByTokenUnique` | backend/routes/auth.js:84 | with unique live tokens, the lookup finds the one record holding the token |
| `AuthRoutes.UserTypeOf` | backend/routes/auth.js:33-34 | `includes` with strict equality: only a string naming one of the four types passes |
| `AuthRoutes.LengthBelowMinimum` | backend/routes/auth.js:38 | a string is too short exactly when it has fewer than six UTF-16 code units, and an array exactly when it has fewer than six items; so six or more characters always pass, two or fewer always fail, and without characters outside the Basic Multilingual Plane the count is in characters; a number, a boolean or null has no length and passes |
| `AuthRoutes.PasswordLengthInCodeUnits` | backend/routes/auth.js:38-40 | the length check counts UTF-16 code units: three emoji pass it, three letters do not |
| `AuthRoutes.VerifyLocation` | backend/routes/auth.js:76-98 | the redirect starts with `FRONTEND_URL` when it is set and non-empty, otherwise with `http://localhost:5173`, and ends with `/verify?status=success` or `/verify?status=failed`, with nothing between the two |
| `AuthRoutes.VerifyLocationsDiffer` | backend/routes/auth.js:81-98 | for one configuration the success and failure redirects differ |
| `AuthRoutes.SessionClaims` | backend/routes/auth.js:146 | the token carries the account's id and type name, is issued at `now` in whole seconds and expires one hour (3600 s) later |
| `AuthRoutes.AdmitRegistration` | backend/routes/auth.js:26-42 | the checks ahead of the store reject only with failures |
| `AuthRoutes.CheckCredentials` | backend/routes/auth.js:119-149 | the checks after the account is found keep the set of ids |
| `AuthRoutes.MeHandler` | backend/routes/auth.js:158-173 | 404 exactly when the id is gone, 401 exactly when the account is logged out, otherwise its profile |
| `AuthRoutes.LogoutHandler` | backend/routes/auth.js:182-189 | an unknown id gives 400 "User not found!" and no change; otherwise only `isLoggedIn` is cleared and the `token` cookie is cleared |
| `AuthRoutes.AccountStore.FindOneByEmail` | backend/routes/auth.js:42 | the query returns what `FindByEmail` specifies |
| `AuthRoutes.AccountStore.FindOneByToken` | backend/routes/auth.js:84 | the query returns what `FindByToken` specifies |
| `AuthRoutes.AccountStore.Register` | backend/routes/auth.js:22-71 | the reply and the new store are `RegisterSpec` of the old store; the invariant is kept; the next id moves on exactly when an account is created |
| `AuthRoutes.AccountStore.Verify` | backend/routes/auth.js:73-100 | the reply and the new store are `VerifySpec` of the old store; the invariant is kept |
| `AuthRoutes.AccountStore.Login` | backend/routes/auth.js:102-154 | the reply and the new store are `LoginSpec` of the old store; the invariant is kept |
| `AuthRoutes.AccountStore.CheckCredentialsOf` | backend/routes/auth.js:119-149 | the field-by-field update and save give `CheckCredentials` of the old store; the invariant is kept |
| `AuthRoutes.AccountStore.Me` | backend/routes/auth.js:156-178 | the reply is the gate followed by `MeHandler` |
| `AuthRoutes.AccountStore.Logout` | backend/routes/auth.js:180-194 | the reply and the new store are the gate followed by `LogoutHandler`; the invariant is kept |
| `AuthRoutes.UpdatePreservesInvariant` | backend/routes/auth.js:90-92 | saving a well-formed record that keeps its email and keeps or drops its token keeps the store invariant |
| `AuthRoutes.InsertPreservesInvariant` | backend/routes/auth.js:49-55 | inserting a well-formed record with a new email and an unheld token under the next id keeps the store invariant |
| `AuthRoutes.RegisterPreservesInvariant` | backend/routes/auth.js:22-71 | registration keeps the store invariant, given a fresh verification token |
| `AuthRoutes.VerifyPreservesInvariant` | backend/routes/auth.js:73-100 | verification keeps the store invariant |
| `AuthRoutes.LoginPreservesInvariant` | backend/routes/auth.js:102-154 | login keeps the store invariant, including "locked exactly when five or more failures" |
| `AuthRoutes.CheckCredentialsPreservesInvariant` | backend/routes/auth.js:119-149 | each outcome of the credential checks keeps the store invariant |
| `AuthRoutes.LogoutPreservesInvariant` | backend/routes/auth.js:182 | logout keeps the store invariant |
| `AuthProperties.AdmissionOrder` | backend/routes/auth.js:26-40 | register answers 400 for a missing field, then for an unknown user type, then for a short password; whatever is admitted arrived as strings and is the trimmed, filtered input |
| `AuthProperties.RegisterOutcomes` | backend/routes/auth.js:42-66 | every failure leaves the store as it was; an account is created exactly when the email is new (lower-cased), the password is a string and the schema accepts it; the new record is unverified, under the next id, with the fresh token; the warning appears exactly when the email was not sent |
| `AuthProperties.CaseVariantRejected` | backend/routes/auth.js:42-43 | after a registration, a second one under any case variant of the address gets 400 "User already exists!" and changes nothing |
| `AuthProperties.VerifyOutcomes` | backend/routes/auth.js:78-94 | verify redirects to success exactly when the sanitised token is a non-empty string some account holds; that account becomes verified with no token; otherwise nothing changes |
| `AuthProperties.VerifyTwiceFails` | backend/routes/auth.js:84-94 | a second redemption of the same token redirects to failure |
| `AuthProperties.LoginOrder` | backend/routes/auth.js:106-125 | login answers a missing field (400), a non-string email (500), an unknown email (400 "Invalid credentials!"), a lock (423) and then a missing verification (400), all before the password is compared and without changing the store |
| `AuthProperties.WrongPasswordCounts` | backend/routes/auth.js:127-134 | a wrong password answers 400, adds exactly one failure and sets the lock to thirty minutes after now from the fifth failure on; nothing else in the record changes |
| `AuthProperties.UserTypeMismatchKeepsRecord` | backend/routes/auth.js:137-139 | a correct password with the wrong type answers 400 "Invalid user type!" and saves nothing |
| `AuthProperties.LoginSuccess` | backend/routes/auth.js:141-149 | success resets the failures and the lock, sets `isLoggedIn`, and sets the `token` cookie to a token over the account's id and type expiring one hour after issue, httpOnly, secure, strict, one hour |
| `AuthProperties.Attempts` | backend/routes/auth.js:102-154 | a run of login attempts keeps the set of ids |
| `AuthProperties.FailuresAccumulate` | backend/routes/auth.js:127-134 | up to five wrong passwords from an unlocked record are counted one by one, and the lock appears with the fifth, thirty minutes after it |
| `AuthProperties.LockoutAfterFiveFailures` | backend/routes/auth.js:119-134 | after five wrong passwords on a fresh record, every login in the next thirty minutes answers 423, even with the right password |
| `AuthProperties.RelockAfterExpiry` | backend/routes/auth.js:129-131 | once a lock has lapsed, one more wrong password locks the account again at once |
| `AuthProperties.CookieAloneIsRejected` | backend/middleware/auth.js:7-10 | without an Authorization header, `/me` and `/logout` answer 401 whatever cookies are sent, and nothing changes |
| `AuthProperties.MeNeedsLiveSession` | backend/routes/auth.js:158-166 | with a valid token, `/me` answers 404 for a removed account and 401 for a logged-out one; it shows a profile exactly when the account exists and is logged in |
| `AuthProperties.MeAfterLogin` | backend/routes/auth.js:141-173 | after a successful login, `/me` reports the account's email and type, verified and logged in |
| `AuthProperties.LogoutEndsSession` | backend/routes/auth.js:164-182 | after logout, the same request to `/me` answers 401 "Session expired. Please login again." |
| `AuthProperties.LogoutOutcomes` | backend/routes/auth.js:182-189 | logout of an unknown id answers 400 and changes nothing; otherwise it clears the `token` cookie, and the new store is the old one with only that record's `isLoggedIn` set to false |
| `AuthProperties.UntouchedInput` | backend/middleware/sanitize.js:19-21 | a string with no white space at either end that the filter leaves alone passes `sanitizeInput` unchanged |
| `AuthProperties.NameIsTrimmed` | backend/models/User.js:12-16 | the name of every user type is non-empty with no white space at either end |
| `AuthProperties.NameSanitized` | backend/middleware/sanitize.js:19-21 | a user-type name that the filter leaves alone passes `sanitizeInput` unchanged |
| `AuthProperties.PasswordLongEnough` | backend/routes/auth.js:38 | a password of six or more UTF-16 code units passes the length check |
| `AuthProperties.SessionBodyPresent` | backend/routes/auth.js:26-28 | a body with a non-empty address and password has every field present |
| `AuthProperties.SettledInputs` | backend/middleware/sanitize.js:19-21 | a settled address and user-type name pass `sanitizeInput` unchanged |
| `AuthProperties.SessionBodyAdmitted` | backend/routes/auth.js:26-40 | a trimmed address that the filter leaves alone, the name of any user type and a password of six or more code units pass every check ahead of the store unchanged |
| `AuthProperties.FirstAccountStored` | backend/routes/auth.js:42-60 | an admitted address in an empty store becomes account 0: a new, unverified record holding the hash and the fresh token, answered with 201 |
| `AuthProperties.SessionRegisters` | backend/routes/auth.js:22-60 | registering such a body in an empty store answers 201 and creates exactly account 0 |
| `AuthProperties.OnlyAccountFound` | backend/routes/auth.js:113 | a lower-case address finds the only account when that account holds it |
| `AuthProperties.SessionLoginInputs` | backend/routes/auth.js:106-113 | for such a body sent to the only account, every field is present, the address and type name come through sanitising unchanged and the address finds the account |
| `AuthProperties.LoginReachesAccount` | backend/routes/auth.js:106-117 | a login whose sanitised address is a string that finds an account is decided by that account's credential checks, on the password as sent and the sanitised type |
| `AuthProperties.SessionLoginFindsAccount` | backend/routes/auth.js:106-117 | logging in with that body reaches the credential checks of the account holding the address |
| `AuthProperties.SessionLoginBeforeVerify` | backend/routes/auth.js:106-125 | login before the link is followed answers 400 "Please verify your email before logging in!" and changes nothing |
| `AuthProperties.SessionVerifies` | backend/routes/auth.js:78-94 | following the link with the account's token redirects to success, verifies the account and spends the token |
| `AuthProperties.SessionLoginAfterVerify` | backend/routes/auth.js:102-194 | once verified, login succeeds; `/me` with a bearer token for the account shows it verified and logged in; after `/logout` the same request answers 401 "Session expired" |
| `AuthProperties.SessionLifecycle` | backend/routes/auth.js:22-194 | the whole session: register (201), an early login (400), verify (success redirect), login (cookie set), `/me` (profile), logout, `/me` again (401) |
| `Toast.InitialInvariant` | frontend/src/Toast.jsx:121-124 | the hook starts with no toast, `lastCallTime` 0, nothing blocked, and its invariant holding |
| `Toast.ShowIgnored` | frontend/src/Toast.jsx:129-131 | a call changes nothing exactly when it comes less than 500 ms after the last accepted call or repeats the blocked message |
| `Toast.ShowAccepted` | frontend/src/Toast.jsx:126-143 | an accepted call records now and the message, shows `{ id: now, message, type }` with type defaulting to "info", cancels the earlier timer and leaves only its own pending, due 3400 ms later |
| `Toast.ShowKeepsInvariant` | frontend/src/Toast.jsx:126-144 | `showToast` keeps the hook's invariant |
| `Toast.RemoveOutcome` | frontend/src/Toast.jsx:146-150 | `removeToast` clears the toast and the blocked message, leaves no timer pending and keeps `lastCallTime` |
| `Toast.FireOutcome` | frontend/src/Toast.jsx:141-143 | a timer that runs clears only the blocked message, never earlier than 3400 ms after the last accepted call; a cancelled timer does nothing |
| `Toast.RunKeepsInvariant` | frontend/src/Toast.jsx:120-153 | any run of calls and timer events keeps the invariant |
| `Toast.AcceptedCallsAreSpaced` | frontend/src/Toast.jsx:127-133 | over any run, accepted calls are at least 500 ms apart, and `lastCallTime` moves only with accepted calls |
| `Toast.RepeatScenario` | frontend/src/Toast.jsx:126-143 | a repeat within the block, or another message within 500 ms, is ignored; after the timer runs, the message shows again |
| `Toast.StyleFor` | frontend/src/Toast.jsx:62 | the four known types pick their own style and any other type falls back to info |
| `Toast.ToastHook.constructor` | frontend/src/Toast.jsx:121-124 | the refs start as the initial state |
| `Toast.ToastHook.ShowToast` | frontend/src/Toast.jsx:126-144 | the step-by-step updates of the refs and the state give `Show` of the old state; the invariant is kept |
| `Toast.ToastHook.RemoveToast` | frontend/src/Toast.jsx:146-150 | the updates give `Remove` of the old state; the invariant is kept |
| `Toast.ToastHook.TimerFires` | frontend/src/Toast.jsx:141-143 | the timeout callback gives `Fire` of the old state; the invariant is kept |

## Left out

- Password hashing, token signing and verification, random tokens, the `xss` library, the mailer
  and the clock are parameters (see above). Their own behaviour is not part of this model.
- The rate limiter applied to `/register` and `/login` is not part of this model. Its module is
  not among the files modelled.
- Persistence is a map from id to record. The non-atomic read-modify-write of `loginAttempts`
  under concurrent requests is not modelled. Neither are database errors, cast errors of
  `findById` on malformed ids, or a missing request body. The catch blocks that turn these into
  500 (or a failed redirect) are modelled only where the model itself throws.
- An array sent as the `/verify` token: the database driver may read it as a list of candidate
  tokens. The model treats every non-string token as a failed redirect.
- `Text.Lower`: apart from `A`-`Z` and the KELVIN SIGN, no letter is lowered. `toLowerCase`
  also lowers other scripts, but none of those letters lowers to a string made only of the
  characters the email pattern admits (ASCII word characters, `.`, `-`, `@`). An address holding one is refused by the
  pattern whether or not it is lowered, and it cannot equal a stored address. So the model
  saves, refuses and finds the same addresses as the code.
- `UserModel.CreateAccount`: the schema's `minlength` on the stored password is counted in
  characters, not UTF-16 code units. The stored value is a bcrypt hash, which is ASCII, so the
  two counts agree.
- `AuthRoutes.LengthBelowMinimum`: an object whose `length` property is a string, an array or an
  object is compared with 6 after JavaScript's conversion to a number, so `"5"` and `[]` count as
  below six. The model counts every such `length` as not below six.
- `Sanitize.SanitizeMongo`: the source mutates the object it is given and returns the same
  object. The model works on values, so identity and aliasing of the input are not captured. Key
  order is also left out, because a map has none.
- `Toast.StyleFor`: a type named like an inherited object property (`toString`, `constructor`)
  finds a function in `typeStyles`, and the source then renders with missing classes. The model
  treats such a type as unknown and gives it the info style.
- The toast component's enter and leave animation timers, and its close button calling
  `removeToast` after 400 ms, are presentation. `removeToast` is modelled as an event.
- React re-rendering, and the identity of `showToast` and `removeToast` across renders
  (`useCallback`), are not modelled.
- The express `clearCookie` options and the response status of a redirect are result values
  only.
- The copy of register and login in the root `server.js` is not part of this model. The backend
  mounts the routes in backend/routes/auth.js.
