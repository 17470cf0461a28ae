/** String operations of the JavaScript runtime that the authentication core relies on:
    `String.prototype.trim`, `toLowerCase` (ASCII letters only), `split(" ")`,
    `replace(/[$]/g, '')`, `startsWith` and `includes`. */
module Text {

  /** The characters `String.prototype.trim` strips: white space and line terminators. */
  predicate IsJsSpace(c: char) {
    c == '\t' || c == '\n' || c == '\U{000B}' || c == '\U{000C}' || c == '\r' || c == ' ' ||
    c == '\U{00A0}' || c == '\U{1680}' || ('\U{2000}' <= c <= '\U{200A}') ||
    c == '\U{2028}' || c == '\U{2029}' || c == '\U{202F}' || c == '\U{205F}' || c == '\U{3000}' ||
    c == '\U{FEFF}'
  }

  function TrimStart(s: string): (r: string)
    ensures |r| <= |s| && r == s[|s| - |r|..]
    ensures r == [] || !IsJsSpace(r[0])
    ensures forall i :: 0 <= i < |s| - |r| ==> IsJsSpace(s[i])
  {
    if s != [] && IsJsSpace(s[0]) then TrimStart(s[1..]) else s
  }

  function TrimEnd(s: string): (r: string)
    ensures |r| <= |s| && r == s[..|r|]
    ensures r == [] || !IsJsSpace(r[|r| - 1])
    ensures forall i :: |r| <= i < |s| ==> IsJsSpace(s[i])
  {
    if s != [] && IsJsSpace(s[|s| - 1]) then TrimEnd(s[..|s| - 1]) else s
  }

  /** `s.trim()`: the longest slice of `s` that neither starts nor ends with white space. */
  function Trim(s: string): (r: string)
    ensures exists i, j ::
              && 0 <= i <= j <= |s| && r == s[i..j]
              && (forall k :: 0 <= k < i ==> IsJsSpace(s[k]))
              && (forall k :: j <= k < |s| ==> IsJsSpace(s[k]))
    ensures r == [] || (!IsJsSpace(r[0]) && !IsJsSpace(r[|r| - 1]))
  {
    var t := TrimStart(s);
    var r := TrimEnd(t);
    assert r == s[|s| - |t|..|s| - |t| + |r|];
    r
  }

  lemma TrimIdempotent(s: string)
    ensures Trim(Trim(s)) == Trim(s)
  {
    var r := Trim(s);
    assert TrimStart(r) == r;
    assert TrimEnd(r) == r;
  }

  /** A string that neither starts nor ends with white space is its own trim. */
  lemma TrimKeepsTrimmed(s: string)
    requires s == [] || (!IsJsSpace(s[0]) && !IsJsSpace(s[|s| - 1]))
    ensures Trim(s) == s
  {
  }

  /** The KELVIN SIGN, which `toLowerCase` maps to the ASCII letter `k`. */
  const Kelvin: char := '\U{212A}'

  function LowerChar(c: char): (d: char)
    ensures 'A' <= c <= 'Z' ==> d as int == c as int + 32
    ensures c == Kelvin ==> d == 'k'
    ensures !('A' <= c <= 'Z') && c != Kelvin ==> d == c
  {
    if 'A' <= c <= 'Z' then (c as int + 32) as char
    else if c == Kelvin then 'k'
    else c
  }

  predicate IsLower(s: string) {
    forall i :: 0 <= i < |s| ==> !('A' <= s[i] <= 'Z') && s[i] != Kelvin
  }

  /** `s.toLowerCase()` restricted to the letters that lower into ASCII: `A`-`Z` and the
      KELVIN SIGN (see the README). */
  function Lower(s: string): (r: string)
    ensures |r| == |s| && IsLower(r)
    ensures forall i :: 0 <= i < |s| ==> r[i] == LowerChar(s[i])
  {
    seq(|s|, i requires 0 <= i < |s| => LowerChar(s[i]))
  }

  lemma LowerFixesLower(s: string)
    requires IsLower(s)
    ensures Lower(s) == s
  {
  }

  /** Two strings that differ only in the case of their ASCII letters lower to the same key. */
  lemma LowerIdentifiesCaseVariants(s: string, t: string)
    requires |s| == |t|
    requires forall i :: 0 <= i < |s| ==> LowerChar(s[i]) == LowerChar(t[i])
    ensures Lower(s) == Lower(t)
  {
  }

  /** `s.length` in JavaScript: the number of UTF-16 code units, so a character outside the
      Basic Multilingual Plane counts twice. */
  function Utf16Length(s: string): (n: nat)
    ensures |s| <= n <= 2 * |s|
  {
    if s == [] then 0
    else (if s[0] >= '\U{10000}' then 2 else 1) + Utf16Length(s[1..])
  }

  /** A string without characters outside the Basic Multilingual Plane has as many code units
      as characters, and one that holds such a character has more. */
  lemma {:induction false} Utf16LengthCountsSurrogates(s: string)
    ensures (forall i :: 0 <= i < |s| ==> s[i] < '\U{10000}') <==> Utf16Length(s) == |s|
  {
    if s != [] {
      Utf16LengthCountsSurrogates(s[1..]);
      assert forall i :: 1 <= i < |s| ==> s[i] == s[1..][i - 1];
    }
  }

  /** A character outside the Basic Multilingual Plane is two code units, any other is one. */
  lemma Utf16LengthOfChar(c: char)
    ensures Utf16Length([c]) == if c >= '\U{10000}' then 2 else 1
  {
  }

  /** The code units of a concatenation are those of its parts: with `Utf16LengthOfChar` this
      fixes the count of every string, one character at a time. */
  lemma {:induction false} Utf16LengthConcat(a: string, b: string)
    ensures Utf16Length(a + b) == Utf16Length(a) + Utf16Length(b)
  {
    if a == [] {
      assert a + b == b;
    } else {
      assert (a + b)[0] == a[0];
      assert (a + b)[1..] == a[1..] + b;
      Utf16LengthConcat(a[1..], b);
    }
  }

  /** One character outside the Basic Multilingual Plane and two plain letters are four code
      units. */
  lemma EmojiAndTwoLettersAreFourUnits(c: char, x: char, y: char)
    requires c >= '\U{10000}' && x < '\U{10000}' && y < '\U{10000}'
    ensures Utf16Length([c, x, y]) == 4
  {
    assert [c, x, y] == [c] + [x, y];
    Utf16LengthConcat([c], [x, y]);
    assert [x, y][1..] == [y];
  }

  /** Three emoji are six code units long. */
  lemma ThreeEmojiAreSixUnits()
    ensures Utf16Length("\U{1F600}\U{1F600}\U{1F600}") == 6
  {
    var e := "\U{1F600}\U{1F600}\U{1F600}";
    assert e[1..] == "\U{1F600}\U{1F600}" && e[1..][1..] == "\U{1F600}";
  }

  /** `s.replace(/[$]/g, '')`. */
  function StripDollar(s: string): (r: string)
    ensures '$' !in r
    ensures |r| <= |s|
  {
    if s == [] then []
    else if s[0] == '$' then StripDollar(s[1..])
    else [s[0]] + StripDollar(s[1..])
  }

  /** `sub` is obtained from `s` by deleting some characters, keeping the order of the rest. */
  predicate IsSubsequence(sub: string, s: string)
    decreases |s|
  {
    if sub == [] then true
    else if s == [] then false
    else if sub[0] == s[0] then IsSubsequence(sub[1..], s[1..])
    else IsSubsequence(sub, s[1..])
  }

  /** Only `$` characters are removed: the rest keeps its order and its multiplicity. */
  lemma {:induction false} StripDollarRemovesOnlyDollars(s: string)
    ensures IsSubsequence(StripDollar(s), s)
    ensures forall c :: c != '$' ==> multiset(StripDollar(s))[c] == multiset(s)[c]
  {
    if s != [] {
      StripDollarRemovesOnlyDollars(s[1..]);
      assert s == [s[0]] + s[1..];
      if s[0] != '$' {
        assert StripDollar(s)[1..] == StripDollar(s[1..]);
      }
    }
  }

  lemma {:induction false} StripDollarKeepsCleanStrings(s: string)
    requires '$' !in s
    ensures StripDollar(s) == s
  {
    if s != [] {
      assert '$' !in s[1..];
      StripDollarKeepsCleanStrings(s[1..]);
    }
  }

  predicate StartsWithDollar(s: string) {
    |s| > 0 && s[0] == '$'
  }

  /** The pieces of `s.split(sep)`: maximal runs without `sep`; `k` separators give `k + 1` pieces. */
  function Split(s: string, sep: char): (pieces: seq<string>)
    ensures |pieces| >= 1
    ensures forall p :: p in pieces ==> sep !in p
  {
    if s == [] then [[]]
    else
      var rest := Split(s[1..], sep);
      if s[0] == sep then [[]] + rest
      else [[s[0]] + rest[0]] + rest[1..]
  }

  /** `pieces.join(sep)`. */
  function Join(pieces: seq<string>, sep: char): string
    requires |pieces| >= 1
  {
    if |pieces| == 1 then pieces[0] else pieces[0] + [sep] + Join(pieces[1..], sep)
  }

  /** Splitting loses nothing: joining the pieces with the separator gives the input back. */
  lemma {:induction false} JoinSplit(s: string, sep: char)
    ensures Join(Split(s, sep), sep) == s
  {
    if s != [] {
      JoinSplit(s[1..], sep);
      var rest := Split(s[1..], sep);
      if s[0] == sep {
        assert Split(s, sep)[1..] == rest;
      } else {
        var ps := Split(s, sep);
        assert ps[1..] == rest[1..];
        if |rest| > 1 {
          assert Join(rest, sep) == rest[0] + [sep] + Join(rest[1..], sep);
        }
      }
    }
  }

  /** The number of pieces is one more than the number of separators. */
  lemma {:induction false} SplitCount(s: string, sep: char)
    ensures |Split(s, sep)| == multiset(s)[sep] + 1
  {
    if s != [] {
      SplitCount(s[1..], sep);
      assert s == [s[0]] + s[1..];
    }
  }
}
