// The handful of JavaScript string operations the core relies on: `trim`, the
// truthiness of a string in `s || fallback`, upper-casing of join codes and the
// order the default `Array.prototype.sort` puts strings in.

module JsStrings {
  import opened Types
  import opened Sorting

  /** The characters `String.prototype.trim` strips: the ECMAScript WhiteSpace
      code points (tab, vertical tab, form feed, space, no-break space, the byte
      order mark and the Unicode space separators) and the line terminators. */
  predicate IsWhitespace(c: char)
  {
    c == '\t' || c == '\n' || c == '\U{000B}' || c == '\U{000C}' || c == '\r' || c == ' '
    || c == '\U{00A0}' || c == '\U{1680}' || ('\U{2000}' <= c <= '\U{200A}')
    || c == '\U{2028}' || c == '\U{2029}' || c == '\U{202F}' || c == '\U{205F}'
    || c == '\U{3000}' || c == '\U{FEFF}'
  }

  /** How many whitespace characters `s` starts with. */
  function LeadingSpace(s: string): (n: nat)
    ensures n <= |s|
    ensures forall k :: 0 <= k < n ==> IsWhitespace(s[k])
    ensures n == |s| || !IsWhitespace(s[n])
  {
    if s != [] && IsWhitespace(s[0]) then 1 + LeadingSpace(s[1..]) else 0
  }

  /** How many whitespace characters `s` ends with. */
  function TrailingSpace(s: string): (n: nat)
    ensures n <= |s|
    ensures forall k :: |s| - n <= k < |s| ==> IsWhitespace(s[k])
    ensures n == |s| || !IsWhitespace(s[|s| - n - 1])
  {
    if s != [] && IsWhitespace(s[|s| - 1]) then 1 + TrailingSpace(s[..|s| - 1]) else 0
  }

  /** Drops leading whitespace: the result is a suffix of `s`, what was dropped is
      all whitespace, and the result does not start with whitespace. */
  function TrimStart(s: string): (r: string)
    ensures |r| <= |s| && r == s[|s| - |r|..]
    ensures forall k :: 0 <= k < |s| - |r| ==> IsWhitespace(s[k])
    ensures r == [] || !IsWhitespace(r[0])
  {
    s[LeadingSpace(s)..]
  }

  /** Drops trailing whitespace: the result is a prefix of `s`, what was dropped is
      all whitespace, and the result does not end with whitespace. */
  function TrimEnd(s: string): (r: string)
    ensures |r| <= |s| && r == s[..|r|]
    ensures forall k :: |r| <= k < |s| ==> IsWhitespace(s[k])
    ensures r == [] || !IsWhitespace(r[|r| - 1])
  {
    s[..|s| - TrailingSpace(s)]
  }

  /** `s.trim()`. */
  function Trim(s: string): (r: string)
  {
    TrimEnd(TrimStart(s))
  }

  /** What `trim` keeps is the piece of the input between offset `i` and
      `i + |r|`, everything outside it is whitespace, it neither starts nor ends
      with whitespace, and it is empty exactly when the input is all whitespace. */
  lemma TrimSpec(s: string)
    ensures var r := Trim(s); var i := |s| - |TrimStart(s)|;
      && 0 <= i <= i + |r| <= |s| && r == s[i..i + |r|]
      && (forall k :: 0 <= k < i ==> IsWhitespace(s[k]))
      && (forall k :: i + |r| <= k < |s| ==> IsWhitespace(s[k]))
      && (r == [] || (!IsWhitespace(r[0]) && !IsWhitespace(r[|r| - 1])))
      && (r == [] <==> forall k :: 0 <= k < |s| ==> IsWhitespace(s[k]))
  {
    var t := TrimStart(s);
    var r := TrimEnd(t);
    var i := |s| - |t|;
    assert Trim(s) == r;
    assert 0 <= i <= i + |r| <= |s| && r == s[i..i + |r|] by { TrimParts(s, t, r); }
    assert forall k :: i + |r| <= k < |s| ==> IsWhitespace(s[k]) by { TrimParts(s, t, r); }
    assert r == [] || (!IsWhitespace(r[0]) && !IsWhitespace(r[|r| - 1])) by { TrimParts(s, t, r); }
    assert r == [] <==> forall k :: 0 <= k < |s| ==> IsWhitespace(s[k]) by { TrimParts(s, t, r); }
  }

  /** The facts `TrimStart` and `TrimEnd` promise, put together: a suffix `t`
      after leading whitespace, and a prefix `r` of it before trailing
      whitespace. */
  lemma TrimParts(s: string, t: string, r: string)
    requires |t| <= |s| && t == s[|s| - |t|..]
    requires forall k :: 0 <= k < |s| - |t| ==> IsWhitespace(s[k])
    requires t == [] || !IsWhitespace(t[0])
    requires |r| <= |t| && r == t[..|r|]
    requires forall k :: |r| <= k < |t| ==> IsWhitespace(t[k])
    requires r == [] || !IsWhitespace(r[|r| - 1])
    ensures var i := |s| - |t|;
      && 0 <= i <= i + |r| <= |s| && r == s[i..i + |r|]
      && (forall k :: i + |r| <= k < |s| ==> IsWhitespace(s[k]))
      && (r == [] || (!IsWhitespace(r[0]) && !IsWhitespace(r[|r| - 1])))
      && (r == [] <==> forall k :: 0 <= k < |s| ==> IsWhitespace(s[k]))
  {
    var i := |s| - |t|;
    assert forall k :: 0 <= k < |r| ==> r[k] == t[k] == s[i + k];
    assert r == s[i..i + |r|];
    forall k | i + |r| <= k < |s| ensures IsWhitespace(s[k]) {
      assert s[k] == t[k - i];
      assert IsWhitespace(t[k - i]);
    }
    if r != [] {
      assert r[0] == t[0];
      assert s[i] == r[0];
    }
  }

  /** Trimming twice is trimming once. */
  lemma TrimIdempotent(s: string)
    ensures Trim(Trim(s)) == Trim(s)
  {
    var r := Trim(s);
    TrimSpec(s);
    if r != [] {
      assert TrimStart(r) == r;
      assert TrimEnd(r) == r;
    }
  }

  /** The JavaScript test `!s` on a possibly-undefined string: absent or empty. */
  predicate IsFalsy(s: Option<string>)
  {
    s.None? || s.value == ""
  }

  /** `s || fallback` on a possibly-undefined string. */
  function OrElse(s: Option<string>, fallback: string): (r: string)
    ensures IsFalsy(s) ==> r == fallback
    ensures !IsFalsy(s) ==> r == s.value
  {
    if IsFalsy(s) then fallback else s.value
  }

  /** `s?.trim() || fallback`. */
  function TrimmedOrElse(s: Option<string>, fallback: string): (r: string)
    ensures s.Some? && Trim(s.value) != "" ==> r == Trim(s.value)
    ensures (s.None? || Trim(s.value) == "") ==> r == fallback
  {
    if s.None? then fallback else OrElse(Some(Trim(s.value)), fallback)
  }

  /** `toUpperCase` on the ASCII letters; every other character is kept. */
  function UpperAscii(c: char): (u: char)
    ensures 'a' <= c <= 'z' ==> 'A' <= u <= 'Z' && u as int == c as int - 32
    ensures !('a' <= c <= 'z') ==> u == c
  {
    if 'a' <= c <= 'z' then (c as int - 32) as char else c
  }

  /** The characters outside ASCII whose upper case is made of ASCII capitals
      only: the dotless i, the long s, the sharp s and the Latin ligatures
      U+FB00 to U+FB06. */
  predicate UpperCasedToAscii(c: char)
  {
    c == '\U{0131}' || c == '\U{017F}' || c == '\U{00DF}' || '\U{FB00}' <= c <= '\U{FB06}'
  }

  /** `toUpperCase` of one character: ASCII lower-case letters and the
      characters of `UpperCasedToAscii` become ASCII capitals (one, two or
      three of them), every other character is kept. */
  function UpperOf(c: char): (r: string)
    ensures |r| >= 1
    ensures !UpperCasedToAscii(c) ==> r == [UpperAscii(c)]
    ensures UpperCasedToAscii(c) ==> forall k :: 0 <= k < |r| ==> 'A' <= r[k] <= 'Z'
  {
    if c == '\U{0131}' then "I"
    else if c == '\U{017F}' then "S"
    else if c == '\U{00DF}' then "SS"
    else if c == '\U{FB00}' then "FF"
    else if c == '\U{FB01}' then "FI"
    else if c == '\U{FB02}' then "FL"
    else if c == '\U{FB03}' then "FFI"
    else if c == '\U{FB04}' then "FFL"
    else if c == '\U{FB05}' || c == '\U{FB06}' then "ST"
    else [UpperAscii(c)]
  }

  predicate IsAscii(s: string)
  {
    forall k :: 0 <= k < |s| ==> s[k] < 128 as char
  }

  /** `toUpperCase`: each character's upper case, in order. On ASCII text the
      length is kept and only the lower-case letters change. */
  function ToUpperCase(s: string): (r: string)
    ensures |r| >= |s|
    ensures IsAscii(s) ==> |r| == |s| && forall k :: 0 <= k < |s| ==> r[k] == UpperAscii(s[k])
  {
    if s == [] then [] else UpperOf(s[0]) + ToUpperCase(s[1..])
  }

  /** Upper-casing works character by character, so it distributes over
      concatenation. */
  lemma {:induction false} ToUpperCaseConcat(a: string, b: string)
    ensures ToUpperCase(a + b) == ToUpperCase(a) + ToUpperCase(b)
  {
    if a == [] {
      assert a + b == b;
    } else {
      assert (a + b)[0] == a[0];
      assert (a + b)[1..] == a[1..] + b;
      ToUpperCaseConcat(a[1..], b);
    }
  }

  /** The default `sort()` comparison: lexicographic on the character codes, a
      proper prefix coming first. */
  predicate CodeUnitLess(a: string, b: string)
  {
    if a == [] then b != []
    else if b == [] then false
    else if a[0] != b[0] then a[0] < b[0]
    else CodeUnitLess(a[1..], b[1..])
  }

  lemma {:induction false} CodeUnitLessIrreflexive(a: string)
    ensures !CodeUnitLess(a, a)
  {
    if a != [] {
      CodeUnitLessIrreflexive(a[1..]);
    }
  }

  lemma {:induction false} CodeUnitLessTransitive(a: string, b: string, c: string)
    requires CodeUnitLess(a, b) && CodeUnitLess(b, c)
    ensures CodeUnitLess(a, c)
  {
    if a != [] && b != [] && c != [] && a[0] == b[0] && b[0] == c[0] {
      CodeUnitLessTransitive(a[1..], b[1..], c[1..]);
    }
  }

  lemma {:induction false} CodeUnitLessTotal(a: string, b: string)
    requires a != b
    ensures CodeUnitLess(a, b) || CodeUnitLess(b, a)
  {
    if a != [] && b != [] && a[0] == b[0] {
      assert a == [a[0]] + a[1..] && b == [b[0]] + b[1..];
      CodeUnitLessTotal(a[1..], b[1..]);
    }
  }

  /** The default string order is a strict total order, so `sort()` on distinct
      names has exactly one result. */
  lemma CodeUnitOrderIsStrictTotal()
    ensures IsStrictTotalOrder(CodeUnitLess)
  {
    forall a ensures !CodeUnitLess(a, a) {
      CodeUnitLessIrreflexive(a);
    }
    forall a, b, c | CodeUnitLess(a, b) && CodeUnitLess(b, c) ensures CodeUnitLess(a, c) {
      CodeUnitLessTransitive(a, b, c);
    }
    forall a, b | a != b ensures CodeUnitLess(a, b) || CodeUnitLess(b, a) {
      CodeUnitLessTotal(a, b);
    }
  }
}
