/**
 The few ECMAScript string operations the core relies on: `trim`, the
 regular-expression classes `\s` and `\w`, `toLowerCase` and `includes`.
 Strings are sequences of code points. Every character that can decide a trim,
 the fence pattern or a curriculum match is in the Basic Multilingual Plane,
 so UTF-16 code units and code points agree on those.
 */
module Strings {

  /** ECMAScript WhiteSpace and LineTerminator code points. `String.prototype.trim`
      and the regular-expression class `\s` both use exactly this set. */
  predicate IsWhitespace(c: char) {
    || c == '\t' || c == '\n' || c == '\U{000B}' || c == '\U{000C}' || c == '\r'
    || c == ' ' || c == '\U{00A0}' || c == '\U{1680}'
    || ('\U{2000}' <= c <= '\U{200A}')
    || c == '\U{2028}' || c == '\U{2029}' || c == '\U{202F}' || c == '\U{205F}'
    || c == '\U{3000}' || c == '\U{FEFF}'
  }

  /** The regular-expression class `\w` without the `u` flag: `[A-Za-z0-9_]`. */
  predicate IsWordChar(c: char) {
    ('a' <= c <= 'z') || ('A' <= c <= 'Z') || ('0' <= c <= '9') || c == '_'
  }

  lemma WhitespaceIsNotWordChar(c: char)
    requires IsWhitespace(c)
    ensures !IsWordChar(c)
  {
  }

  ghost predicate AllWhitespace(s: string) {
    forall i :: 0 <= i < |s| ==> IsWhitespace(s[i])
  }

  ghost predicate AllWordChars(s: string) {
    forall i :: 0 <= i < |s| ==> IsWordChar(s[i])
  }

  /** Neither end of `s` is whitespace: what `trim` leaves behind. */
  predicate IsTrimmed(s: string) {
    s == "" || (!IsWhitespace(s[0]) && !IsWhitespace(s[|s| - 1]))
  }

  /** `s` with its maximal run of leading whitespace removed. */
  function TrimStart(s: string): (r: string)
    ensures |r| <= |s| && r == s[|s| - |r|..]
    ensures AllWhitespace(s[..|s| - |r|])
    ensures r == "" || !IsWhitespace(r[0])
  {
    if s == "" || !IsWhitespace(s[0]) then s else TrimStart(s[1..])
  }

  /** `s` with its maximal run of trailing whitespace removed. */
  function TrimEnd(s: string): (r: string)
    ensures |r| <= |s| && r == s[..|r|]
    ensures AllWhitespace(s[|r|..])
    ensures r == "" || !IsWhitespace(r[|r| - 1])
  {
    if s == "" || !IsWhitespace(s[|s| - 1]) then s else TrimEnd(s[..|s| - 1])
  }

  /** `String.prototype.trim`. */
  function Trim(s: string): (r: string)
    ensures IsTrimmed(r)
    ensures |r| <= |s|
  {
    TrimEnd(TrimStart(s))
  }

  /** Length of the maximal run of `\w` characters at the start of `s`. */
  function WordRun(s: string): (n: nat)
    ensures n <= |s|
    ensures AllWordChars(s[..n])
    ensures n == |s| || !IsWordChar(s[n])
  {
    if s == "" || !IsWordChar(s[0]) then 0 else 1 + WordRun(s[1..])
  }

  /** Leading whitespace is skipped by `TrimStart`, whatever follows it. */
  lemma {:induction false} TrimStartSkips(a: string, x: string)
    requires AllWhitespace(a)
    ensures TrimStart(a + x) == TrimStart(x)
    decreases |a|
  {
    if a != "" {
      assert (a + x)[1..] == a[1..] + x;
      TrimStartSkips(a[1..], x);
    } else {
      assert a + x == x;
    }
  }

  /** Trailing whitespace is skipped by `TrimEnd`, whatever precedes it. */
  lemma {:induction false} TrimEndSkips(x: string, b: string)
    requires AllWhitespace(b)
    ensures TrimEnd(x + b) == TrimEnd(x)
    decreases |b|
  {
    if b != "" {
      assert (x + b)[..|x + b| - 1] == x + b[..|b| - 1];
      TrimEndSkips(x, b[..|b| - 1]);
    } else {
      assert x + b == x;
    }
  }

  /** `trim` is the identity exactly on trimmed strings. */
  lemma TrimIdentity(s: string)
    ensures Trim(s) == s <==> IsTrimmed(s)
  {
    if IsTrimmed(s) && s != "" {
      assert TrimStart(s) == s;
      assert TrimEnd(s) == s;
    }
  }

  /** Every string is its trimmed form padded with whitespace on both sides. */
  lemma TrimSplit(x: string) returns (a: string, b: string)
    ensures AllWhitespace(a) && AllWhitespace(b)
    ensures x == a + Trim(x) + b
  {
    var t := TrimStart(x);
    var r := TrimEnd(t);
    a := x[..|x| - |t|];
    b := t[|r|..];
    SplitAt(x, |x| - |t|);
    SplitAt(t, |r|);
    Regroup3(x, a, t, r, b);
  }

  lemma SplitAt(x: string, k: nat)
    requires k <= |x|
    ensures x == x[..k] + x[k..]
  {
  }

  lemma Regroup3(x: string, a: string, t: string, r: string, b: string)
    requires x == a + t && t == r + b
    ensures x == a + r + b
  {
  }

  /** Whitespace added around a string does not change what `trim` returns. */
  lemma TrimAbsorbsPadding(a: string, x: string, b: string)
    requires AllWhitespace(a) && AllWhitespace(b)
    ensures Trim(a + x + b) == Trim(x)
  {
    var a', b' := TrimSplit(x);
    var m := Trim(x);
    Regroup(a, a', m, b', b);
    WhitespaceConcat(a, a');
    WhitespaceConcat(b', b);
    TrimOfPadded(a + a', m, b' + b);
  }

  lemma Regroup(a: string, a': string, m: string, b': string, b: string)
    ensures a + (a' + m + b') + b == (a + a') + m + (b' + b)
  {
  }

  lemma WhitespaceConcat(x: string, y: string)
    requires AllWhitespace(x) && AllWhitespace(y)
    ensures AllWhitespace(x + y)
  {
    forall i | 0 <= i < |x + y| ensures IsWhitespace((x + y)[i]) {
      if i >= |x| { assert (x + y)[i] == y[i - |x|]; }
    }
  }

  /** A trimmed core padded with whitespace trims back to the core. */
  lemma TrimOfPadded(a: string, m: string, b: string)
    requires AllWhitespace(a) && AllWhitespace(b) && IsTrimmed(m)
    ensures Trim(a + m + b) == m
  {
    assert a + m + b == a + (m + b);
    TrimStartSkips(a, m + b);
    if m == "" {
      assert m + b == b;
      assert b == b + "";
      TrimStartSkips(b, "");
    } else {
      assert TrimStart(m + b) == m + b;
      TrimEndSkips(m, b);
      assert TrimEnd(m) == m;
    }
  }

  /** A whitespace-only string trims to the empty string. */
  lemma TrimOfWhitespace(w: string)
    requires AllWhitespace(w)
    ensures Trim(w) == ""
  {
    assert w + "" + "" == w;
    TrimOfPadded(w, "", "");
  }

  /** `WordRun` stops exactly at the end of a `\w` prefix followed by a non-word character. */
  lemma {:induction false} WordRunStops(a: string, b: string)
    requires AllWordChars(a)
    requires b == "" || !IsWordChar(b[0])
    ensures WordRun(a + b) == |a|
    decreases |a|
  {
    if a == "" {
      assert a + b == b;
    } else {
      assert (a + b)[1..] == a[1..] + b;
      WordRunStops(a[1..], b);
    }
  }

  // ---------------------------------------------------------------------------
  // toLowerCase

  const KelvinSign: char := '\U{212A}'

  /** `toLowerCase` on one code point, as far as the core can observe it: ASCII
      capitals become small letters, and KELVIN SIGN becomes `k` (the one
      non-ASCII code point whose lower case is a single ASCII letter). Other
      code points are left as they are. */
  function LowerChar(c: char): (d: char)
    ensures 'A' <= c <= 'Z' ==> d as int == c as int + 32
    ensures c == KelvinSign ==> d == 'k'
    ensures !('A' <= c <= 'Z') && c != KelvinSign ==> d == c
  {
    if 'A' <= c <= 'Z' then (c as int + 32) as char
    else if c == KelvinSign then 'k'
    else c
  }

  /** `String.prototype.toLowerCase`, one code point at a time. */
  function ToLower(s: string): (r: string)
    ensures |r| == |s|
    ensures forall i :: 0 <= i < |s| ==> r[i] == LowerChar(s[i])
  {
    seq(|s|, i requires 0 <= i < |s| => LowerChar(s[i]))
  }

  /** No code point of `s` is changed by `toLowerCase`. */
  predicate IsLowercase(s: string) {
    forall i :: 0 <= i < |s| ==> !('A' <= s[i] <= 'Z') && s[i] != KelvinSign
  }

  lemma LowercaseFixed(s: string)
    requires IsLowercase(s)
    ensures ToLower(s) == s
  {
  }

  /** The output of `toLowerCase` is lower case, so lowering twice changes nothing. */
  lemma ToLowerIdempotent(s: string)
    ensures IsLowercase(ToLower(s))
    ensures ToLower(ToLower(s)) == ToLower(s)
  {
  }

  // ---------------------------------------------------------------------------
  // includes

  /** `hay.includes(needle)`: `needle` occurs in `hay` at some offset. */
  predicate Includes(hay: string, needle: string) {
    exists i | 0 <= i <= |hay| - |needle| :: OccursAt(hay, needle, i)
  }

  predicate OccursAt(hay: string, needle: string, i: int) {
    0 <= i <= |hay| - |needle| && hay[i..i + |needle|] == needle
  }

  /** A needle whose first character never appears in `hay` does not occur in it. */
  lemma NotIncluded(hay: string, needle: string)
    requires needle != "" && needle[0] !in hay
    ensures !Includes(hay, needle)
  {
    forall i | 0 <= i <= |hay| - |needle| ensures !OccursAt(hay, needle, i) {
      assert hay[i..i + |needle|][0] == hay[i];
    }
  }
}
