/** Text helpers shared by the rewrite scripts and the pages: the JavaScript and
    Python notions of whitespace, prefix and substring tests, ASCII case mapping,
    trimming, splitting and joining. Strings are sequences of characters; a
    character is one Unicode scalar value, and `Utf16Length` gives the length a JavaScript
    string of those characters reports. */
module Strings {

  datatype Option<+T> = None | Some(value: T)

  /** Characters matched by JavaScript's `\s` and removed by `String.prototype.trim`. */
  predicate IsJsSpace(c: char) {
    ('\t' <= c <= '\r') || c == ' ' || c == '\U{00A0}' || c == '\U{1680}' ||
    ('\U{2000}' <= c <= '\U{200A}') || c == '\U{2028}' || c == '\U{2029}' ||
    c == '\U{202F}' || c == '\U{205F}' || c == '\U{3000}' || c == '\U{FEFF}'
  }

  /** Characters matched by Python's `\s` on `str` patterns (those for which `str.isspace` holds). */
  predicate IsPySpace(c: char) {
    ('\t' <= c <= '\r') || ('\U{001C}' <= c <= '\U{001F}') || c == ' ' || c == '\U{0085}' ||
    c == '\U{00A0}' || c == '\U{1680}' || ('\U{2000}' <= c <= '\U{200A}') ||
    c == '\U{2028}' || c == '\U{2029}' || c == '\U{202F}' || c == '\U{205F}' || c == '\U{3000}'
  }

  predicate StartsWith(s: string, p: string) {
    |p| <= |s| && s[..|p|] == p
  }

  /** `p` occurs in `t` starting at index `k`. */
  ghost predicate OccursAt(t: string, p: string, k: int) {
    0 <= k && k + |p| <= |t| && t[k..k + |p|] == p
  }

  /** `t.includes(p)` / `p in t`, computed by scanning. */
  predicate Contains(t: string, p: string)
    decreases |t|
  {
    StartsWith(t, p) || (|t| > 0 && Contains(t[1..], p))
  }

  lemma {:induction false} ContainsIffOccurs(t: string, p: string)
    ensures Contains(t, p) <==> exists k :: OccursAt(t, p, k)
    decreases |t|
  {
    if StartsWith(t, p) {
      assert OccursAt(t, p, 0);
    } else if |t| > 0 {
      ContainsIffOccurs(t[1..], p);
      if Contains(t[1..], p) {
        var k :| OccursAt(t[1..], p, k);
        assert t[1..][k..k + |p|] == t[k + 1..k + 1 + |p|];
        assert OccursAt(t, p, k + 1);
      } else {
        forall k | 0 < k ensures !OccursAt(t, p, k) {
          if k + |p| <= |t| {
            assert !OccursAt(t[1..], p, k - 1);
            assert t[1..][k - 1..k - 1 + |p|] == t[k..k + |p|];
          }
        }
      }
    }
  }

  /** Containment is transitive: a text holding a class name `q` also holds every part `p` of it;
      so a text in which `p` does not occur has no occurrence of any longer name built around `p`. */
  lemma ContainsTransitive(t: string, q: string, p: string)
    requires Contains(t, q) && Contains(q, p)
    ensures Contains(t, p)
  {
    ContainsIffOccurs(q, p);
    var j :| OccursAt(q, p, j);
    ContainsIffOccurs(t, q);
    var k :| OccursAt(t, q, k);
    forall i | 0 <= i < |p| ensures t[k + j + i] == p[i] {
      assert q[j + i] == p[i];
      assert t[k..k + |q|][j + i] == t[k + j + i];
    }
    assert t[k + j..k + j + |p|] == p;
    assert OccursAt(t, p, k + j);
    ContainsIffOccurs(t, p);
  }

  /** A text ending in `b` contains `b`. */
  lemma ContainsSuffix(a: string, b: string)
    ensures Contains(a + b, b)
  {
    ContainsIffOccurs(a + b, b);
    assert (a + b)[|a|..|a| + |b|] == b;
    assert OccursAt(a + b, b, |a|);
  }

  /** ASCII-only `toLowerCase` / `toUpperCase`; other characters are left as they are. */
  function LowerChar(c: char): char {
    if 'A' <= c <= 'Z' then (c as int + 32) as char else c
  }

  function UpperChar(c: char): char {
    if 'a' <= c <= 'z' then (c as int - 32) as char else c
  }

  function Lower(s: string): (r: string)
    ensures |r| == |s| && forall i :: 0 <= i < |s| ==> r[i] == LowerChar(s[i])
  {
    seq(|s|, i requires 0 <= i < |s| => LowerChar(s[i]))
  }

  function Upper(s: string): (r: string)
    ensures |r| == |s| && forall i :: 0 <= i < |s| ==> r[i] == UpperChar(s[i])
  {
    seq(|s|, i requires 0 <= i < |s| => UpperChar(s[i]))
  }

  /** Index of the first character that is not JavaScript whitespace (|s| when there is none). */
  function LeadingSpaces(s: string): (n: nat)
    ensures n <= |s|
    ensures forall i :: 0 <= i < n ==> IsJsSpace(s[i])
    ensures n < |s| ==> !IsJsSpace(s[n])
    decreases |s|
  {
    if |s| > 0 && IsJsSpace(s[0]) then 1 + LeadingSpaces(s[1..]) else 0
  }

  /** Number of JavaScript whitespace characters at the end of `s`. */
  function TrailingSpaces(s: string): (n: nat)
    ensures n <= |s|
    ensures forall i :: |s| - n <= i < |s| ==> IsJsSpace(s[i])
    ensures n < |s| ==> !IsJsSpace(s[|s| - 1 - n])
    decreases |s|
  {
    if |s| > 0 && IsJsSpace(s[|s| - 1]) then 1 + TrailingSpaces(s[..|s| - 1]) else 0
  }

  /** `String.prototype.trim`. */
  function Trim(s: string): (r: string)
  {
    var a := LeadingSpaces(s);
    var b := TrailingSpaces(s[a..]);
    s[a..][..|s[a..]| - b]
  }

  /** `trim()` yields "" exactly when the text is empty or made only of whitespace. */
  lemma TrimEmptyIffBlank(s: string)
    ensures Trim(s) == "" <==> forall i :: 0 <= i < |s| ==> IsJsSpace(s[i])
  {
    var a := LeadingSpaces(s);
    var t := s[a..];
    var b := TrailingSpaces(t);
    if Trim(s) == "" {
      assert a == |s|;
    } else {
      assert a < |s|;
    }
  }

  /** `s.split(sep)` for a one-character separator: the fields between separators, in order. */
  function Split(s: string, sep: char): (r: seq<string>)
    ensures |r| > 0
    decreases |s|
  {
    if s == [] then [""]
    else
      var rest := Split(s[1..], sep);
      if s[0] == sep then [""] + rest else [[s[0]] + rest[0]] + rest[1..]
  }

  /** `fields.join(sep)`. */
  function Join(fields: seq<string>, sep: string): string
    decreases |fields|
  {
    if fields == [] then ""
    else if |fields| == 1 then fields[0]
    else fields[0] + sep + Join(fields[1..], sep)
  }

  function CountChar(s: string, c: char): nat
    decreases |s|
  {
    if s == [] then 0 else (if s[0] == c then 1 else 0) + CountChar(s[1..], c)
  }

  /** Splitting on a character yields one more field than there are separators. */
  lemma {:induction false} SplitLength(s: string, sep: char)
    ensures |Split(s, sep)| == CountChar(s, sep) + 1
    decreases |s|
  {
    if s != [] { SplitLength(s[1..], sep); }
  }

  /** No field contains the separator, and joining the fields back restores the text. */
  lemma {:induction false} SplitJoin(s: string, sep: char)
    ensures Join(Split(s, sep), [sep]) == s
    ensures forall i :: 0 <= i < |Split(s, sep)| ==> sep !in Split(s, sep)[i]
    decreases |s|
  {
    if s != [] {
      var rest := Split(s[1..], sep);
      SplitJoin(s[1..], sep);
      if s[0] == sep {
        assert Split(s, sep)[1..] == rest;
      } else {
        var r := Split(s, sep);
        assert r[0] == [s[0]] + rest[0];
        if |rest| == 1 {
          assert Join(r, [sep]) == r[0];
        } else {
          assert r[1..] == rest[1..];
          assert Join(rest, [sep]) == rest[0] + [sep] + Join(rest[1..], [sep]);
        }
        forall i | 0 <= i < |r| ensures sep !in r[i] {
          if i > 0 { assert r[i] == rest[i]; }
        }
      }
    }
  }

  /** JavaScript's `length`: the number of UTF-16 code units, two for a character outside the
      Basic Multilingual Plane. */
  function Utf16Length(s: string): (n: nat)
    ensures |s| <= n <= 2 * |s|
    ensures n == 0 <==> s == []
    decreases |s|
  {
    if s == [] then 0
    else Utf16Length(s[..|s| - 1]) + (if s[|s| - 1] as int > 0xFFFF then 2 else 1)
  }

  function Min(a: int, b: int): int { if a < b then a else b }

  /** `s.substring(0, n)` for n >= 0. */
  function Prefix(s: string, n: nat): (r: string)
    ensures |r| == Min(n, |s|) && StartsWith(s, r)
  {
    if n < |s| then s[..n] else s
  }
}
