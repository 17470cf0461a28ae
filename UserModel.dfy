/** The account schema (backend/models/User.js): fields and defaults, the user-type enumeration,
    the email pattern the schema validates, and the `isLocked` virtual. */
module UserModel {
  import opened Maybe
  import opened Text

  /** The four values the `userType` field admits. */
  datatype UserType = Buyer | Seller | Admin | Client

  function Name(t: UserType): string {
    match t
    case Buyer => "buyer"
    case Seller => "seller"
    case Admin => "admin"
    case Client => "client"
  }

  /** The user type a string names, if it names one of the four (exact, case-sensitive match). */
  function ParseUserType(s: string): (r: Option<UserType>)
    ensures r.Some? <==> s in {"buyer", "seller", "admin", "client"}
  {
    if s == "buyer" then Some(Buyer)
    else if s == "seller" then Some(Seller)
    else if s == "admin" then Some(Admin)
    else if s == "client" then Some(Client)
    else None
  }

  /** Parsing and naming are inverse to each other. */
  lemma ParseNameRoundTrip(t: UserType, s: string)
    ensures ParseUserType(Name(t)) == Some(t)
    ensures ParseUserType(s) == Some(t) ==> Name(t) == s
  {
  }

  /** An account record. `password` holds the salted hash, never the password itself;
      `lockUntil` is a time in milliseconds. */
  datatype Account = Account(
    email: Email,
    password: string,
    userType: UserType,
    verified: bool,
    verificationToken: Option<string>,
    isLoggedIn: bool,
    loginAttempts: nat,
    lockUntil: Option<int>)

  /** An email as the schema stores it: lower-cased by the `lowercase` setter and matching the
      pattern the schema validates. */
  type Email = s: string | IsLower(s) && IsEmail(s) witness (ExampleAddressMatches("a"); "a@b.com")

  /** A new account holding an email that passed the schema: the defaults are unverified, logged
      out, no failed attempts and no lock. */
  function NewAccount(email: Email, hash: string, userType: UserType, token: string): (a: Account)
    ensures a.email == email && a.password == hash && a.userType == userType
    ensures a.verificationToken == Some(token)
    ensures !a.verified && !a.isLoggedIn && a.loginAttempts == 0 && a.lockUntil.None?
  {
    Account(email, hash, userType, false, Some(token), false, 0, None)
  }

  /** The schema's `minlength` on the stored password. */
  const StoredPasswordMinLength: nat := 6

  /** `new User({...}).save()`: the `lowercase` setter lowers the email, then validation accepts
      the record only if the email matches the pattern and the stored password is long enough.
      The case of the letters never decides: an email the pattern accepts is accepted in any case. */
  function CreateAccount(email: string, hash: string, userType: UserType, token: string): (r: Option<Account>)
    ensures r.Some? <==> IsEmail(Lower(email)) && |hash| >= StoredPasswordMinLength
    ensures IsEmail(email) && |hash| >= StoredPasswordMinLength ==> r.Some?
    ensures r.Some? ==> r.value == NewAccount(Lower(email), hash, userType, token)
  {
    var key := Lower(email);
    assert IsEmail(email) ==> IsEmail(key) by {
      if IsEmail(email) { LowerKeepsEmail(email); }
    }
    if IsEmail(key) && |hash| >= StoredPasswordMinLength then Some(NewAccount(key, hash, userType, token))
    else None
  }

  /** The `isLocked` virtual: a lock time is set and lies strictly after `now`. */
  predicate IsLocked(a: Account, now: int): (locked: bool)
    ensures a.lockUntil.None? ==> !locked
    ensures a.lockUntil.Some? ==> (locked <==> now < a.lockUntil.value)
  {
    a.lockUntil.Some? && a.lockUntil.value > now
  }

  /** A lock lapses by the passage of time alone, at `lockUntil`, and never comes back for the
      same record; a fresh account is never locked. */
  lemma LockLapses(a: Account, now: int, later: int)
    requires now <= later
    ensures IsLocked(a, later) ==> IsLocked(a, now)
    ensures a.lockUntil.Some? && later >= a.lockUntil.value ==> !IsLocked(a, later)
    ensures !IsLocked(NewAccount(a.email, a.password, a.userType, ""), now)
  {
  }

  /** `\w`: ASCII letters, digits and underscore. */
  predicate IsWordChar(c: char) {
    ('a' <= c <= 'z') || ('A' <= c <= 'Z') || ('0' <= c <= '9') || c == '_'
  }

  predicate IsSeparator(c: char) {
    c == '.' || c == '-'
  }

  /** The strings `\w+([.-]?\w+)*` matches: word characters with single dots or hyphens between
      them, beginning and ending with a word character. */
  predicate IsDottedWord(s: string) {
    && |s| > 0
    && IsWordChar(s[0]) && IsWordChar(s[|s| - 1])
    && (forall i :: 0 <= i < |s| ==> IsWordChar(s[i]) || IsSeparator(s[i]))
    && (forall i :: 0 <= i < |s| - 1 ==> !(IsSeparator(s[i]) && IsSeparator(s[i + 1])))
  }

  /** `s` ends with a dot followed by exactly `n` word characters, with something before the dot. */
  predicate EndsWithSuffix(s: string, n: nat) {
    && |s| > n + 1
    && s[|s| - n - 1] == '.'
    && (forall k :: |s| - n <= k < |s| ==> IsWordChar(s[k]))
  }

  /** The strings `\w+([.-]?\w+)*(\.\w{2,3})+` matches: a dotted word whose last separator is a
      dot followed by two or three word characters. */
  predicate IsDomain(d: string) {
    IsDottedWord(d) && (EndsWithSuffix(d, 2) || EndsWithSuffix(d, 3))
  }

  /** The schema's email pattern `^\w+([.-]?\w+)*@\w+([.-]?\w+)*(\.\w{2,3})+$`. */
  predicate IsEmail(s: string) {
    EmailFrom(s, 0)
  }

  /** Some position from `i` on holds the `@` that splits `s` into a local part and a domain. */
  predicate EmailFrom(s: string, i: nat)
    decreases |s| - i
  {
    i < |s| && (EmailSplitAt(s, i) || EmailFrom(s, i + 1))
  }

  /** The search finds exactly the splitting positions: `IsEmail(s)` holds iff some `@` in `s`
      splits it into a dotted word and a domain. */
  lemma {:induction false} EmailFromSplit(s: string, i: nat)
    ensures EmailFrom(s, i) <==> exists k :: i <= k < |s| && EmailSplitAt(s, k)
    decreases |s| - i
  {
    if i < |s| {
      EmailFromSplit(s, i + 1);
      if !EmailSplitAt(s, i) && exists k :: i <= k < |s| && EmailSplitAt(s, k) {
        var k :| i <= k < |s| && EmailSplitAt(s, k);
        assert i + 1 <= k;
      }
    }
  }

  /** The pattern only involves `\w`, `.`, `-` and `@`, so lower-casing keeps a match a match. */
  lemma LowerKeepsEmail(s: string)
    requires IsEmail(s)
    ensures IsEmail(Lower(s))
  {
    EmailFromSplit(s, 0);
    var i :| 0 <= i < |s| && EmailSplitAt(s, i);
    var l := Lower(s);
    LowerSlices(s, i);
    LowerKeepsDottedWord(s[..i]);
    LowerKeepsDomain(s[i + 1..]);
    assert EmailSplitAt(l, i);
    EmailFromSplit(l, 0);
  }

  predicate EmailSplitAt(s: string, i: int) {
    0 <= i < |s| && s[i] == '@' && IsDottedWord(s[..i]) && IsDomain(s[i + 1..])
  }

  lemma LowerSlices(s: string, i: int)
    requires 0 <= i < |s|
    ensures Lower(s)[..i] == Lower(s[..i]) && Lower(s)[i + 1..] == Lower(s[i + 1..])
    ensures Lower(s)[i] == LowerChar(s[i])
  {
  }

  lemma LowerKeepsDottedWord(s: string)
    requires IsDottedWord(s)
    ensures IsDottedWord(Lower(s))
  {
  }

  lemma LowerKeepsDomain(d: string)
    requires IsDomain(d)
    ensures IsDomain(Lower(d))
  {
    LowerKeepsDottedWord(d);
    var l := Lower(d);
    if EndsWithSuffix(d, 2) {
      assert EndsWithSuffix(l, 2);
    } else {
      assert EndsWithSuffix(l, 3);
    }
  }

  /** The KELVIN SIGN lowers to `k` before validation, so an address written with it is saved
      under its ASCII spelling although it does not match the pattern itself. */
  lemma KelvinAddressSavedLowered(email: string)
    requires email == [Kelvin] + "@b.com"
    ensures !IsEmail(email)
    ensures Lower(email) == "k@b.com" && IsEmail(Lower(email))
  {
    assert !IsWordChar(email[0]);
    EmailFromSplit(email, 0);
    assert Lower(email) == "k@b.com";
    ExampleAddressMatches("k");
  }

  /** An address of the usual shape, `<letter>@b.com`, matches. */
  lemma ExampleAddressMatches(w: string)
    requires |w| == 1 && IsWordChar(w[0])
    ensures IsEmail(w + "@b.com")
  {
    var s := w + "@b.com";
    assert s[..1] == w && s[2..] == "b.com";
    assert IsDomain("b.com") by {
      assert EndsWithSuffix("b.com", 3);
    }
    assert EmailSplitAt(s, 1);
    EmailFromSplit(s, 0);
  }

  /** A domain without a dot does not match. */
  lemma ExampleEmailWithoutTopLevel()
    ensures !IsEmail("a@b")
  {
    EmailFromSplit("a@b", 0);
  }

  /** A top-level label of four characters does not match: the pattern allows two or three. */
  lemma ExampleEmailLongTopLevel()
    ensures !IsEmail("a@b.info")
  {
    var s := "a@b.info";
    EmailFromSplit(s, 0);
    forall k | 0 <= k < |s| ensures !EmailSplitAt(s, k) {
      if k == 1 {
        assert s[2..] == "b.info";
        assert !EndsWithSuffix("b.info", 2) && !EndsWithSuffix("b.info", 3);
      }
    }
  }
}
