/**
 * The two Python string built-ins the handler relies on, restricted to the
 * way it calls them: `str.strip()` with no argument, and
 * `str.replace(old, new, count)` with a one-character `old` and `new`.
 */
module Text {

  /**
   * The 29 characters for which Python's `str.isspace` holds, listed one by
   * one: the characters `str.strip()` removes.
   */
  const PythonWhitespace: set<char> := {
    '\t', '\n', '\U{0B}', '\U{0C}', '\r', '\U{1C}', '\U{1D}', '\U{1E}', '\U{1F}', ' ',
    '\U{85}', '\U{A0}', '\U{1680}',
    '\U{2000}', '\U{2001}', '\U{2002}', '\U{2003}', '\U{2004}', '\U{2005}',
    '\U{2006}', '\U{2007}', '\U{2008}', '\U{2009}', '\U{200A}',
    '\U{2028}', '\U{2029}', '\U{202F}', '\U{205F}', '\U{3000}'
  }

  /** Python's `str.isspace` for one character, by ranges; it agrees with the list above. */
  predicate IsSpace(c: char)
    ensures IsSpace(c) <==> c in PythonWhitespace
  {
    || '\t' <= c <= '\r'                   // tab, line feed, vertical tab, form feed, carriage return
    || '\U{1C}' <= c <= '\U{1F}'           // file, group, record and unit separators
    || c == ' ' || c == '\U{85}' || c == '\U{A0}' || c == '\U{1680}'
    || '\U{2000}' <= c <= '\U{200A}'
    || c == '\U{2028}' || c == '\U{2029}' || c == '\U{202F}' || c == '\U{205F}' || c == '\U{3000}'
  }

  /** True when `s[lo..hi]` is all whitespace. */
  predicate SpacesBetween(s: string, lo: nat, hi: nat)
    requires lo <= hi <= |s|
  {
    forall k :: lo <= k < hi ==> IsSpace(s[k])
  }

  /** True when every character of `s` is whitespace. */
  predicate AllSpace(s: string)
  {
    SpacesBetween(s, 0, |s|)
  }

  /** How many whitespace characters `s` starts with. */
  function LeadingSpaces(s: string): (n: nat)
    ensures n <= |s|
    ensures SpacesBetween(s, 0, n)
    ensures n < |s| ==> !IsSpace(s[n])
  {
    if s != [] && IsSpace(s[0]) then
      var n := 1 + LeadingSpaces(s[1..]);
      assert forall k :: 1 <= k < n ==> s[k] == s[1..][k - 1];
      n
    else 0
  }

  /** How many whitespace characters `s` ends with. */
  function TrailingSpaces(s: string): (n: nat)
    ensures n <= |s|
    ensures SpacesBetween(s, |s| - n, |s|)
    ensures n < |s| ==> !IsSpace(s[|s| - n - 1])
  {
    if s != [] && IsSpace(s[|s| - 1]) then
      var n := 1 + TrailingSpaces(s[..|s| - 1]);
      assert forall k :: |s| - n <= k < |s| - 1 ==> s[k] == s[..|s| - 1][k];
      n
    else 0
  }

  /**
   * `s.strip()`: the slice of `s` that starts after the leading whitespace,
   * with nothing but whitespace after it, and neither starting nor ending
   * with whitespace.
   */
  function Strip(s: string): (r: string)
    ensures LeadingSpaces(s) + |r| <= |s|
    ensures r == s[LeadingSpaces(s)..LeadingSpaces(s) + |r|]
    ensures SpacesBetween(s, LeadingSpaces(s) + |r|, |s|)
    ensures r != [] ==> !IsSpace(r[0]) && !IsSpace(r[|r| - 1])
  {
    var i := LeadingSpaces(s);
    if i == |s| then []
    else
      var j := |s| - TrailingSpaces(s);
      assert !IsSpace(s[i]);
      s[i..j]
  }

  /** `s.strip()` is empty exactly when `s` is nothing but whitespace. */
  lemma StripEmpty(s: string)
    ensures Strip(s) == [] <==> AllSpace(s)
  {
    if Strip(s) != [] {
      assert s[LeadingSpaces(s)] == Strip(s)[0];
    }
  }

  /** Stripping twice is stripping once. */
  lemma StripIdempotent(s: string)
    ensures Strip(Strip(s)) == Strip(s)
  {
    StripKeepsTrimmed(Strip(s));
  }

  /** A string that neither starts nor ends with whitespace is left as it is. */
  lemma StripKeepsTrimmed(s: string)
    requires s != [] ==> !IsSpace(s[0]) && !IsSpace(s[|s| - 1])
    ensures Strip(s) == s
  {
    assert LeadingSpaces(s) == 0;
    assert TrailingSpaces(s) == 0;
  }

  /** How many times `c` occurs in `s`. */
  function Occurrences(s: string, c: char): (n: nat)
    ensures n <= |s|
    ensures n == 0 <==> c !in s
  {
    if s == [] then 0
    else (if s[0] == c then 1 else 0) + Occurrences(s[1..], c)
  }

  function Min(a: nat, b: nat): nat
  {
    if a <= b then a else b
  }

  /**
   * `s.replace(from, to, n)` for one-character `from` and `to`: the first `n`
   * occurrences of `from`, scanning left to right, become `to`.
   */
  function ReplaceFirst(s: string, from: char, to: char, n: nat): (r: string)
    ensures |r| == |s|
  {
    if s == [] then []
    else if s[0] == from && n > 0 then [to] + ReplaceFirst(s[1..], from, to, n - 1)
    else [s[0]] + ReplaceFirst(s[1..], from, to, n)
  }

  /**
   * Position by position: a character becomes `to` exactly when it is `from`
   * and fewer than `n` occurrences of `from` come before it; every other
   * character is left alone.
   */
  lemma {:induction false} ReplaceFirstAt(s: string, from: char, to: char, n: nat, k: nat)
    requires k < |s|
    ensures ReplaceFirst(s, from, to, n)[k] ==
      if s[k] == from && Occurrences(s[..k], from) < n then to else s[k]
  {
    if k > 0 {
      var m := if s[0] == from && n > 0 then n - 1 else n;
      ReplaceFirstAt(s[1..], from, to, m, k - 1);
      assert s[..k] == [s[0]] + s[1..][..k - 1];
      assert s[..k][1..] == s[1..][..k - 1];
    }
  }

  /** With `from` different from `to`, exactly min(n, count) occurrences of `from` disappear. */
  lemma {:induction false} ReplaceFirstCount(s: string, from: char, to: char, n: nat)
    requires from != to
    ensures Occurrences(ReplaceFirst(s, from, to, n), from) ==
      Occurrences(s, from) - Min(n, Occurrences(s, from))
  {
    if s != [] {
      var m := if s[0] == from && n > 0 then n - 1 else n;
      ReplaceFirstCount(s[1..], from, to, m);
      var r := ReplaceFirst(s, from, to, n);
      assert r[1..] == ReplaceFirst(s[1..], from, to, m);
    }
  }

  /** A string without `from` comes back unchanged. */
  lemma {:induction false} ReplaceFirstAbsent(s: string, from: char, to: char, n: nat)
    requires from !in s
    ensures ReplaceFirst(s, from, to, n) == s
  {
    if s != [] {
      assert from !in s[1..];
      ReplaceFirstAbsent(s[1..], from, to, n);
    }
  }

  /** A prefix without `from` is copied as it is and does not use up the count. */
  lemma {:induction false} ReplaceFirstSkip(a: string, b: string, from: char, to: char, n: nat)
    requires from !in a
    ensures ReplaceFirst(a + b, from, to, n) == a + ReplaceFirst(b, from, to, n)
  {
    if a != [] {
      var s := a + b;
      assert s[0] == a[0] && a[0] != from && s[1..] == a[1..] + b;
      assert ReplaceFirst(s, from, to, n) == [s[0]] + ReplaceFirst(s[1..], from, to, n);
      assert from !in a[1..];
      ReplaceFirstSkip(a[1..], b, from, to, n);
      assert a == [a[0]] + a[1..];
    } else {
      assert a + b == b;
    }
  }

  /** In `a + from + b + from + rest` with no `from` in `a` or `b`, replacing the first two changes exactly those two. */
  lemma ReplaceFirstTwo(a: string, b: string, rest: string, from: char, to: char)
    requires from !in a && from !in b
    ensures ReplaceFirst(a + ([from] + (b + ([from] + rest))), from, to, 2) == a + ([to] + (b + ([to] + rest)))
  {
    var tail := [from] + rest;
    assert tail[0] == from && tail[1..] == rest;
    ReplaceFirstNone(rest, from, to);
    assert ReplaceFirst(tail, from, to, 1) == [to] + rest;
    ReplaceFirstSkip(b, tail, from, to, 1);
    var middle := [from] + (b + tail);
    assert middle[0] == from && middle[1..] == b + tail;
    assert ReplaceFirst(middle, from, to, 2) == [to] + (b + ([to] + rest));
    ReplaceFirstSkip(a, middle, from, to, 2);
  }

  /** A count of zero replaces nothing. */
  lemma {:induction false} ReplaceFirstNone(s: string, from: char, to: char)
    ensures ReplaceFirst(s, from, to, 0) == s
  {
    if s != [] {
      ReplaceFirstNone(s[1..], from, to);
    }
  }

  /** Replacing the first m and then the first n of what is left is replacing the first m + n. */
  lemma {:induction false} ReplaceFirstSplit(s: string, from: char, to: char, m: nat, n: nat)
    requires from != to
    ensures ReplaceFirst(ReplaceFirst(s, from, to, m), from, to, n) == ReplaceFirst(s, from, to, m + n)
  {
    if m == 0 {
      ReplaceFirstNone(s, from, to);
    } else if s != [] {
      var once := ReplaceFirst(s, from, to, m);
      if s[0] == from {
        ReplaceFirstSplit(s[1..], from, to, m - 1, n);
        assert once == [to] + ReplaceFirst(s[1..], from, to, m - 1);
        assert once[1..] == ReplaceFirst(s[1..], from, to, m - 1);
      } else {
        ReplaceFirstSplit(s[1..], from, to, m, n);
        assert once[0] == s[0] && once[1..] == ReplaceFirst(s[1..], from, to, m);
      }
    }
  }
}
