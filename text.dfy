/**
 * The JavaScript string operations the element matchers use: `trim()`,
 * `toLowerCase()` (ASCII letters only) and `startsWith()`.
 */
module Text {

  /** The code points `String.prototype.trim` strips: ECMAScript WhiteSpace and LineTerminator. */
  predicate IsWhiteSpace(c: char)
  {
    c == '\t' || c == '\n' || c == '\U{000B}' || c == '\U{000C}' || c == '\r' || c == ' '
    || c == '\U{00A0}' || c == '\U{1680}' || ('\U{2000}' <= c <= '\U{200A}')
    || c == '\U{2028}' || c == '\U{2029}' || c == '\U{202F}' || c == '\U{205F}'
    || c == '\U{3000}' || c == '\U{FEFF}'
  }

  predicate AllWhiteSpace(s: string)
  {
    forall k :: 0 <= k < |s| ==> IsWhiteSpace(s[k])
  }

  /** A string with no white space at either end: what `trim()` can return. */
  predicate Trimmed(s: string)
  {
    s == [] || (!IsWhiteSpace(s[0]) && !IsWhiteSpace(s[|s| - 1]))
  }

  /** `trimStart()`: the suffix of `s` left after removing its leading white space. */
  function DropLeading(s: string): (r: string)
    ensures |r| <= |s| && r == s[|s| - |r|..]
    ensures forall k :: 0 <= k < |s| - |r| ==> IsWhiteSpace(s[k])
    ensures r == [] || !IsWhiteSpace(r[0])
  {
    if s != [] && IsWhiteSpace(s[0]) then
      DropLeading(s[1..])
    else
      s
  }

  /** `trimEnd()`: the prefix of `s` left after removing its trailing white space. */
  function DropTrailing(s: string): (r: string)
    ensures |r| <= |s| && r == s[..|r|]
    ensures forall k :: |r| <= k < |s| ==> IsWhiteSpace(s[k])
    ensures r == [] || !IsWhiteSpace(r[|r| - 1])
  {
    if s != [] && IsWhiteSpace(s[|s| - 1]) then
      DropTrailing(s[..|s| - 1])
    else
      s
  }

  /** `trim()`: white space removed at both ends. */
  function Trim(s: string): (r: string)
    ensures Trimmed(r)
    ensures |r| <= |s|
  {
    DropTrailing(DropLeading(s))
  }

  /** `toLowerCase()` on one character, for the ASCII letters A-Z. */
  function LowerChar(c: char): (r: char)
  {
    if 'A' <= c <= 'Z' then (c as int - 'A' as int + 'a' as int) as char else c
  }

  function ToLower(s: string): (r: string)
    ensures |r| == |s|
    ensures forall k :: 0 <= k < |s| ==> r[k] == LowerChar(s[k])
  {
    seq(|s|, k requires 0 <= k < |s| => LowerChar(s[k]))
  }

  /** `s.startsWith(p)`. */
  predicate StartsWith(s: string, p: string)
  {
    |p| <= |s| && s[..|p|] == p
  }

  /** Leading white space is dropped and whatever follows it is kept. */
  lemma {:induction false} DropLeadingPadded(a: string, rest: string)
    requires AllWhiteSpace(a)
    ensures DropLeading(a + rest) == DropLeading(rest)
  {
    if a == [] {
      assert a + rest == rest;
    } else {
      assert (a + rest)[0] == a[0] && IsWhiteSpace(a[0]);
      assert (a + rest)[1..] == a[1..] + rest;
      DropLeadingPadded(a[1..], rest);
    }
  }

  /** Trailing white space is dropped and whatever precedes it is kept. */
  lemma {:induction false} DropTrailingPadded(rest: string, b: string)
    requires AllWhiteSpace(b)
    ensures DropTrailing(rest + b) == DropTrailing(rest)
  {
    if b == [] {
      assert rest + b == rest;
    } else {
      assert (rest + b)[|rest + b| - 1] == b[|b| - 1] && IsWhiteSpace(b[|b| - 1]);
      assert (rest + b)[..|rest + b| - 1] == rest + b[..|b| - 1];
      DropTrailingPadded(rest, b[..|b| - 1]);
    }
  }

  /**
   * `trim()` is characterised by its result alone: padding a trimmed string on
   * both sides with white space and trimming gives the string back.
   */
  lemma TrimPadded(a: string, m: string, b: string)
    requires AllWhiteSpace(a) && AllWhiteSpace(b) && Trimmed(m)
    ensures Trim(a + m + b) == m
  {
    assert a + m + b == a + (m + b);
    DropLeadingPadded(a, m + b);
    if m == [] {
      assert m + b == [] + b;
      DropTrailingPadded([], b);
      DropLeadingPadded(b, []);
      assert b + [] == b;
    } else {
      DropTrailingPadded(m, b);
    }
  }

  /** Every string is its trimmed form with white space around it. */
  lemma TrimSplits(s: string) returns (i: nat)
    ensures i + |Trim(s)| <= |s| && Trim(s) == s[i..i + |Trim(s)|]
    ensures forall k :: 0 <= k < i ==> IsWhiteSpace(s[k])
    ensures forall k :: i + |Trim(s)| <= k < |s| ==> IsWhiteSpace(s[k])
  {
    var d := DropLeading(s);
    i := |s| - |d|;
    var t := DropTrailing(d);
    forall k | i + |t| <= k < |s| ensures IsWhiteSpace(s[k]) {
      assert s[k] == d[k - i];
    }
  }

  /** Trimming twice is trimming once. */
  lemma TrimIdempotent(s: string)
    ensures Trim(Trim(s)) == Trim(s)
  {
    var t := Trim(s);
    TrimPadded([], t, []);
    assert [] + t + [] == t;
  }
}
