/** The query-injection sanitiser (backend/middleware/sanitize.js). */
module Sanitize {
  import opened Maybe
  import opened Text
  import opened Json

  /** A key MongoDB could read as an operator (`$gt`) or as a path into a sub-document (`a.b`). */
  predicate ForbiddenKey(key: string) {
    StartsWithDollar(key) || '.' in key
  }

  /** What `sanitizeMongo` turns a value into. */
  function Sanitized(v: Json): Json {
    match v
    case Str(s) => Str(StripDollar(s))
    case Arr(a) => Arr(seq(|a|, i requires 0 <= i < |a| => Sanitized(a[i])))
    case Obj(m) => Obj(map k | k in m && !ForbiddenKey(k) :: Sanitized(m[k]))
    case _ => v
  }

  /** No forbidden key at any depth and no `$` in any string. */
  predicate Clean(v: Json) {
    match v
    case Str(s) => '$' !in s
    case Arr(a) => forall i :: 0 <= i < |a| ==> Clean(a[i])
    case Obj(m) => forall k :: k in m ==> !ForbiddenKey(k) && Clean(m[k])
    case _ => true
  }

  /** The properties the loop of `sanitizeMongo` has produced once it has visited `done`:
      visited forbidden keys are deleted, visited allowed keys hold sanitised values, and the
      rest is as it was. */
  function PartlySanitized(m: map<string, Json>, done: set<string>): map<string, Json> {
    map k | k in m && !(k in done && ForbiddenKey(k)) :: if k in done then Sanitized(m[k]) else m[k]
  }

  /** `sanitizeMongo(value)`: a string loses its `$` characters; an object (arrays included) is
      walked key by key over a snapshot of its keys, deleting forbidden keys and replacing every
      other value by its sanitised self; any other value is returned as it is. */
  method SanitizeMongo(v: Json) returns (r: Json)
    ensures r == Sanitized(v)
    decreases v
  {
    match v {
      case Str(s) =>
        r := Str(StripDollar(s));
      case Arr(a) =>
        var items := a;
        var i := 0;
        while i < |items|
          invariant |items| == |a| && 0 <= i <= |a|
          invariant forall j :: 0 <= j < i ==> items[j] == Sanitized(a[j])
          invariant forall j :: i <= j < |a| ==> items[j] == a[j]
        {
          var child := SanitizeMongo(items[i]);
          items := items[i := child];
          i := i + 1;
        }
        r := Arr(items);
      case Obj(m) =>
        var props := m;
        var keys := m.Keys;
        while keys != {}
          invariant keys <= m.Keys
          invariant props == PartlySanitized(m, m.Keys - keys)
          decreases keys
        {
          var key :| key in keys;
          if ForbiddenKey(key) {
            props := props - {key};
          } else {
            var child := SanitizeMongo(props[key]);
            props := props[key := child];
          }
          keys := keys - {key};
        }
        assert m.Keys - keys == m.Keys;
        r := Obj(props);
      case _ =>
        r := v;
    }
  }

  /** After sanitising, no key anywhere starts with `$` or contains `.`, and no string holds `$`. */
  lemma {:induction false} SanitizedIsClean(v: Json)
    ensures Clean(Sanitized(v))
  {
    match v
    case Arr(a) =>
      forall i | 0 <= i < |a| ensures Clean(Sanitized(a[i])) {
        SanitizedIsClean(a[i]);
      }
    case Obj(m) =>
      forall k | k in m ensures Clean(Sanitized(m[k])) {
        SanitizedIsClean(m[k]);
      }
    case _ =>
  }

  /** A value that is already clean is left exactly as it is. */
  lemma {:induction false} CleanIsFixed(v: Json)
    requires Clean(v)
    ensures Sanitized(v) == v
  {
    match v
    case Str(s) =>
      StripDollarKeepsCleanStrings(s);
    case Arr(a) =>
      forall i | 0 <= i < |a| ensures Sanitized(a[i]) == a[i] {
        CleanIsFixed(a[i]);
      }
      assert Sanitized(v).items == a;
    case Obj(m) =>
      forall k | k in m ensures Sanitized(m[k]) == m[k] {
        CleanIsFixed(m[k]);
      }
      assert Sanitized(v).props == m;
    case _ =>
  }

  /** Sanitising twice gives the same value as sanitising once. */
  lemma SanitizeIdempotent(v: Json)
    ensures Sanitized(Sanitized(v)) == Sanitized(v)
  {
    SanitizedIsClean(v);
    CleanIsFixed(Sanitized(v));
  }

  /** Every step of the path is allowed: no key on it is forbidden. */
  predicate AllowedPath(path: seq<Step>) {
    forall n :: 0 <= n < |path| ==> !(path[n].Key? && ForbiddenKey(path[n].key))
  }

  /** Sanitising commutes with navigation: following an allowed path through the sanitised value
      reaches the sanitised version of what the same path reaches in the original, and a path
      through a forbidden key reaches nothing. So surviving keys keep their names, nothing but
      forbidden keys is deleted, and the values below them are sanitised at every depth. */
  lemma {:induction false} SanitizedAt(v: Json, path: seq<Step>)
    ensures At(Sanitized(v), path) ==
      if AllowedPath(path) && At(v, path).Some? then Some(Sanitized(At(v, path).value)) else None
    decreases |path|
  {
    if path != [] {
      assert AllowedPath(path) <==> !(path[0].Key? && ForbiddenKey(path[0].key)) && AllowedPath(path[1..]) by {
        if !(path[0].Key? && ForbiddenKey(path[0].key)) && AllowedPath(path[1..]) {
          forall n | 0 <= n < |path| ensures !(path[n].Key? && ForbiddenKey(path[n].key)) {
            if n > 0 { assert path[n] == path[1..][n - 1]; }
          }
        }
      }
      match (v, path[0])
      case (Obj(m), Key(k)) =>
        if k in m { SanitizedAt(m[k], path[1..]); }
      case (Arr(a), Index(i)) =>
        if i < |a| { SanitizedAt(a[i], path[1..]); }
      case _ =>
    }
  }

  /** Numbers, booleans and null come back unchanged; a string comes back without its `$`. */
  lemma SanitizedScalars(v: Json)
    ensures v.Null? || v.Bool? || v.Num? ==> Sanitized(v) == v
    ensures v.Str? ==>
              && Sanitized(v).Str? && '$' !in Sanitized(v).s
              && IsSubsequence(Sanitized(v).s, v.s)
  {
    if v.Str? {
      StripDollarRemovesOnlyDollars(v.s);
    }
  }

  /** `sanitizeInput(input)`: a string is trimmed and passed through the `xss` filter (its `$`
      characters are kept); anything else goes to `sanitizeMongo`. */
  function SanitizeInput(input: Option<Json>, xss: string -> string): (r: Option<Json>)
    ensures input.None? <==> r.None?
    ensures input.Some? && input.value.Str? ==> r == Some(Str(xss(Trim(input.value.s))))
    ensures input.Some? && !input.value.Str? ==> r == Some(Sanitized(input.value)) && Clean(r.value)
  {
    match input
    case None => None
    case Some(Str(s)) => Some(Str(xss(Trim(s))))
    case Some(v) => SanitizedIsClean(v); Some(Sanitized(v))
  }

  /** The string branch does not strip `$`: with a filter that leaves it alone, a padded
      operator name such as `" $ne "` comes back trimmed with its `$` in place. */
  lemma SanitizeInputKeepsDollarInStrings(s: string)
    requires s != [] && s[0] == '$' && !IsJsSpace(s[|s| - 1])
    ensures SanitizeInput(Some(Str(" " + s + " ")), x => x) == Some(Str(s))
  {
    var padded := " " + s + " ";
    assert padded[1..] == s + " ";
    assert TrimStart(padded) == s + " ";
    assert (s + " ")[..|s|] == s;
    assert TrimEnd(s + " ") == s;
  }
}
