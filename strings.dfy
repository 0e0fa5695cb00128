/**
 * The handful of Python `str` operations the core relies on, written out on
 * `seq<char>`: prefix and suffix tests, substring search, ASCII lower-casing,
 * `strip`, `replace`, `split` and `join`.
 */
module Strings {

  predicate StartsWith(s: string, prefix: string) {
    |prefix| <= |s| && s[..|prefix|] == prefix
  }

  predicate EndsWith(s: string, suffix: string) {
    |suffix| <= |s| && s[|s| - |suffix|..] == suffix
  }

  /** Python's `sub in s`. */
  predicate Contains(s: string, sub: string)
    decreases |s|
  {
    StartsWith(s, sub) || (|s| > 0 && Contains(s[1..], sub))
  }

  lemma {:induction false} ContainsAt(s: string, sub: string, i: nat)
    requires i + |sub| <= |s| && s[i..i + |sub|] == sub
    ensures Contains(s, sub)
    decreases i
  {
    if i > 0 {
      assert s[1..][i - 1..i - 1 + |sub|] == sub;
      ContainsAt(s[1..], sub, i - 1);
    }
  }

  function LowerChar(c: char): char {
    if 'A' <= c <= 'Z' then (c as int + 32) as char else c
  }

  /** `str.lower()`, on the ASCII letters. */
  function Lower(s: string): (r: string)
    ensures |r| == |s|
    ensures forall i :: 0 <= i < |s| ==> r[i] == LowerChar(s[i])
  {
    seq(|s|, i requires 0 <= i < |s| => LowerChar(s[i]))
  }

  /** `s.lstrip(c)`: drops every leading `c`. */
  function LStrip(s: string, c: char): (r: string)
    ensures |r| <= |s| && r == s[|s| - |r|..]
    ensures r == [] || r[0] != c
    ensures forall i :: 0 <= i < |s| - |r| ==> s[i] == c
    decreases |s|
  {
    if |s| > 0 && s[0] == c then LStrip(s[1..], c) else s
  }

  /** `s.rstrip(c)`: drops every trailing `c`. */
  function RStrip(s: string, c: char): (r: string)
    ensures |r| <= |s| && r == s[..|r|]
    ensures r == [] || r[|r| - 1] != c
    ensures forall i :: |r| <= i < |s| ==> s[i] == c
    decreases |s|
  {
    if |s| > 0 && s[|s| - 1] == c then RStrip(s[..|s| - 1], c) else s
  }

  /** `s.strip(c)`. */
  function Strip(s: string, c: char): string {
    RStrip(LStrip(s, c), c)
  }

  lemma StripEnds(s: string, c: char)
    ensures var r := Strip(s, c); r == [] || (r[0] != c && r[|r| - 1] != c)
  {
    var l := LStrip(s, c);
    var r := RStrip(l, c);
    if r != [] {
      assert r[0] == l[0];
    }
  }

  /**
   * The characters `str.strip()` removes when called without an argument,
   * restricted to the ASCII range.
   */
  predicate IsSpace(c: char) {
    c == ' ' || c == '\t' || c == '\n' || c == '\r' || c == '\U{B}' || c == '\U{C}'
    || ('\U{1C}' <= c <= '\U{1F}')
  }

  function LStripSpace(s: string): (r: string)
    ensures |r| <= |s| && r == s[|s| - |r|..]
    ensures r == [] || !IsSpace(r[0])
    decreases |s|
  {
    if |s| > 0 && IsSpace(s[0]) then LStripSpace(s[1..]) else s
  }

  function RStripSpace(s: string): (r: string)
    ensures |r| <= |s| && r == s[..|r|]
    ensures r == [] || !IsSpace(r[|r| - 1])
    decreases |s|
  {
    if |s| > 0 && IsSpace(s[|s| - 1]) then RStripSpace(s[..|s| - 1]) else s
  }

  /** `s.strip()`. */
  function StripSpace(s: string): string {
    RStripSpace(LStripSpace(s))
  }

  /**
   * `s.replace(pattern, replacement)`: scans left to right and replaces every
   * non-overlapping occurrence of `pattern`.
   */
  function ReplaceAll(s: string, pattern: string, replacement: string): string
    requires pattern != []
    decreases |s|
  {
    if |s| < |pattern| then s
    else if s[..|pattern|] == pattern then replacement + ReplaceAll(s[|pattern|..], pattern, replacement)
    else [s[0]] + ReplaceAll(s[1..], pattern, replacement)
  }

  /** Replacing one character by another maps the string character by character. */
  lemma {:induction false} ReplaceCharAt(s: string, a: char, b: char)
    ensures |ReplaceAll(s, [a], [b])| == |s|
    ensures forall i :: 0 <= i < |s| ==> ReplaceAll(s, [a], [b])[i] == if s[i] == a then b else s[i]
    decreases |s|
  {
    if |s| > 0 {
      ReplaceCharAt(s[1..], a, b);
      var rest := ReplaceAll(s[1..], [a], [b]);
      assert ReplaceAll(s, [a], [b]) == [if s[0] == a then b else s[0]] + rest;
    }
  }

  /** A string without any occurrence of the pattern comes back unchanged. */
  lemma {:induction false} ReplaceAllAbsent(s: string, pattern: string, replacement: string)
    requires pattern != [] && !Contains(s, pattern)
    ensures ReplaceAll(s, pattern, replacement) == s
    decreases |s|
  {
    if |s| >= |pattern| {
      assert !StartsWith(s, pattern);
      ReplaceAllAbsent(s[1..], pattern, replacement);
      assert s == [s[0]] + s[1..];
    }
  }

  /** A prefix in which no occurrence of the pattern starts passes through unchanged. */
  lemma {:induction false} ReplaceAllAfterPrefix(a: string, s: string, pattern: string, replacement: string)
    requires pattern != []
    requires forall i :: 0 <= i < |a| ==> !StartsWith((a + s)[i..], pattern)
    ensures ReplaceAll(a + s, pattern, replacement) == a + ReplaceAll(s, pattern, replacement)
    decreases |a|
  {
    if a == [] {
      assert a + s == s;
    } else if |a + s| < |pattern| {
      assert ReplaceAll(s, pattern, replacement) == s;
    } else {
      assert !StartsWith((a + s)[0..], pattern);
      assert (a + s)[0..] == a + s;
      assert (a + s)[1..] == a[1..] + s;
      forall i | 0 <= i < |a[1..]| ensures !StartsWith((a[1..] + s)[i..], pattern) {
        assert (a[1..] + s)[i..] == (a + s)[i + 1..];
      }
      ReplaceAllAfterPrefix(a[1..], s, pattern, replacement);
      assert a == [a[0]] + a[1..];
    }
  }

  /** Every character of the result comes from the input or from the replacement. */
  lemma {:induction false} ReplaceAllChars(s: string, pattern: string, replacement: string)
    requires pattern != []
    ensures forall i :: 0 <= i < |ReplaceAll(s, pattern, replacement)| ==>
      ReplaceAll(s, pattern, replacement)[i] in s || ReplaceAll(s, pattern, replacement)[i] in replacement
    decreases |s|
  {
    if |s| >= |pattern| {
      if s[..|pattern|] == pattern {
        ReplaceAllChars(s[|pattern|..], pattern, replacement);
        var rest := ReplaceAll(s[|pattern|..], pattern, replacement);
        forall i | 0 <= i < |rest| ensures rest[i] in s || rest[i] in replacement {
          if rest[i] in s[|pattern|..] {
            var k :| 0 <= k < |s[|pattern|..]| && s[|pattern|..][k] == rest[i];
            assert s[|pattern| + k] == rest[i];
          }
        }
      } else {
        ReplaceAllChars(s[1..], pattern, replacement);
        var rest := ReplaceAll(s[1..], pattern, replacement);
        forall i | 0 <= i < |rest| ensures rest[i] in s || rest[i] in replacement {
          if rest[i] in s[1..] {
            var k :| 0 <= k < |s[1..]| && s[1..][k] == rest[i];
            assert s[1 + k] == rest[i];
          }
        }
      }
    }
  }

  /** `sep.join(parts)`. */
  function Join(parts: seq<string>, sep: string): string
    decreases |parts|
  {
    if |parts| == 0 then ""
    else if |parts| == 1 then parts[0]
    else parts[0] + sep + Join(parts[1..], sep)
  }

  /**
   * `s.split(sep)` for a one-character separator: the pieces between the
   * separators, empty pieces included, so there is always at least one.
   */
  function Split(s: string, sep: char): (r: seq<string>)
    ensures |r| >= 1
    ensures forall k :: 0 <= k < |r| ==> sep !in r[k]
    ensures Join(r, [sep]) == s
    decreases |s|
  {
    if |s| == 0 then [""]
    else
      var rest := Split(s[1..], sep);
      if s[0] == sep then
        assert Join([""] + rest, [sep]) == [sep] + Join(rest, [sep]) by {
          assert ([""] + rest)[1..] == rest;
        }
        [""] + rest
      else
        var r := [[s[0]] + rest[0]] + rest[1..];
        assert Join(r, [sep]) == [s[0]] + Join(rest, [sep]) by {
          if |rest| > 1 {
            assert r[1..] == rest[1..];
          }
        }
        r
  }

  /**
   * What `s.split(sep)[1]` yields for a line that starts with `sep`, applied
   * to the text after that prefix: everything up to the next `sep`.
   */
  function TextUntil(s: string, sep: string): (r: string)
    requires sep != []
    ensures StartsWith(s, r)
    decreases |s|
  {
    if |s| < |sep| then s
    else if s[..|sep|] == sep then ""
    else [s[0]] + TextUntil(s[1..], sep)
  }
}
