/** One rewrite rule applied to a whole text the way the color-migration scripts apply it:
    JavaScript `text.replace(/p/g, r)` together with `text.match(/p/g).length`, Python
    `re.sub(p, r, text)` together with `len(re.findall(p, text))`, and Python
    `text.replace(p, r)` together with `text.count(p)`. All of them scan from the left,
    take the leftmost match, resume right after it and never let two matches overlap.

    Every pattern in the scripts is a literal class name once its escapes are read, except two:
    Python `text-white(?!\S)` and `bg-white\s+text-black` (in both languages). */
module Rewrite {
  import opened Strings

  datatype Dialect = Js | Py

  /** The `\s` class of the regex dialect. */
  predicate IsSpace(d: Dialect, c: char) {
    match d
    case Js => IsJsSpace(c)
    case Py => IsPySpace(c)
  }

  datatype Pattern =
    | /** An escaped regex or a plain string: matches exactly `text`. */
      Literal(text: string)
    | /** Python `text(?!\S)`: `text` not followed by a non-whitespace character. */
      NotBeforeNonSpace(text: string)
    | /** `left\s+right`: `left`, one or more whitespace characters, then `right`. */
      SpaceGap(left: string, right: string, dialect: Dialect)

  /** The patterns the scripts use: never empty, and the part after `\s+` does not itself
      start with whitespace. */
  predicate ValidPattern(pat: Pattern) {
    match pat
    case Literal(p) => |p| > 0
    case NotBeforeNonSpace(p) => |p| > 0
    case SpaceGap(l, r, d) => |l| > 0 && |r| > 0 && !IsSpace(d, r[0])
  }

  /** Length of the run of whitespace at the start of `s`. */
  function SpaceRun(s: string, d: Dialect): (n: nat)
    ensures n <= |s|
    ensures forall i :: 0 <= i < n ==> IsSpace(d, s[i])
    ensures n < |s| ==> !IsSpace(d, s[n])
    decreases |s|
  {
    if |s| > 0 && IsSpace(d, s[0]) then 1 + SpaceRun(s[1..], d) else 0
  }

  /** The length of the match of `pat` that starts at the beginning of `s`, if there is one.
      `\s+` is greedy; since `right` does not start with whitespace only the whole run can
      be followed by `right`, so no backtracking is needed (see `SpaceGapMeaning`). */
  function MatchLen(s: string, pat: Pattern): (r: Option<nat>)
    requires ValidPattern(pat)
    ensures r.Some? ==> 0 < r.value <= |s|
  {
    match pat
    case Literal(p) =>
      if StartsWith(s, p) then Some(|p|) else None
    case NotBeforeNonSpace(p) =>
      if StartsWith(s, p) && (|s| == |p| || IsPySpace(s[|p|])) then Some(|p|) else None
    case SpaceGap(l, r, d) =>
      if !StartsWith(s, l) then None
      else
        var g := SpaceRun(s[|l|..], d);
        if g > 0 && StartsWith(s[|l| + g..], r) then Some(|l| + g + |r|) else None
  }

  /** A gap of `g` whitespace characters after `left`, followed by `right`, fits at the start of `s`. */
  ghost predicate GapFits(s: string, l: string, r: string, d: Dialect, g: int) {
    0 < g && |l| + g <= |s| && StartsWith(s, l) && StartsWith(s[|l| + g..], r) &&
    forall i :: |l| <= i < |l| + g ==> IsSpace(d, s[i])
  }

  /** `left\s+right` matches at the start of `s` exactly when some non-empty whitespace gap
      between `left` and `right` fits there, and the match then covers that gap. */
  lemma SpaceGapMeaning(s: string, l: string, r: string, d: Dialect)
    requires ValidPattern(SpaceGap(l, r, d))
    ensures MatchLen(s, SpaceGap(l, r, d)).Some? <==> exists g :: GapFits(s, l, r, d, g)
    ensures MatchLen(s, SpaceGap(l, r, d)).Some? ==>
      forall g :: GapFits(s, l, r, d, g) ==> MatchLen(s, SpaceGap(l, r, d)).value == |l| + g + |r|
  {
    if StartsWith(s, l) {
      var t := s[|l|..];
      var run := SpaceRun(t, d);
      forall g | GapFits(s, l, r, d, g) ensures g == run {
        assert s[|l| + g..][0] == r[0];
      }
      if MatchLen(s, SpaceGap(l, r, d)).Some? {
        assert s[|l| + run..] == t[run..];
        forall i | |l| <= i < |l| + run ensures IsSpace(d, s[i]) {
          assert t[i - |l|] == s[i];
        }
        assert GapFits(s, l, r, d, run);
      }
    }
  }

  /** `text(?!\S)` matches exactly when `text` is next and is followed by whitespace or the end. */
  lemma NotBeforeNonSpaceMeaning(s: string, p: string)
    requires |p| > 0
    ensures MatchLen(s, NotBeforeNonSpace(p)).Some? <==>
      StartsWith(s, p) && !(|s| > |p| && !IsPySpace(s[|p|]))
  {
  }

  /** All non-overlapping matches replaced, scanning from the left. */
  function Replace(s: string, pat: Pattern, rep: string): string
    requires ValidPattern(pat)
    decreases |s|
  {
    if s == [] then []
    else
      match MatchLen(s, pat)
      case Some(n) => rep + Replace(s[n..], pat, rep)
      case None => [s[0]] + Replace(s[1..], pat, rep)
  }

  /** Number of non-overlapping matches found by the same scan. */
  function Count(s: string, pat: Pattern): nat
    requires ValidPattern(pat)
    decreases |s|
  {
    if s == [] then 0
    else
      match MatchLen(s, pat)
      case Some(n) => 1 + Count(s[n..], pat)
      case None => Count(s[1..], pat)
  }

  /** No match begins anywhere in `s`. */
  ghost predicate NoMatch(s: string, pat: Pattern)
    requires ValidPattern(pat)
  {
    forall k :: 0 <= k < |s| ==> MatchLen(s[k..], pat).None?
  }

  /** The count is zero exactly when the pattern matches nowhere in the text. */
  lemma {:induction false} CountZeroIffNoMatch(s: string, pat: Pattern)
    requires ValidPattern(pat)
    ensures Count(s, pat) == 0 <==> NoMatch(s, pat)
    decreases |s|
  {
    if s != [] {
      CountZeroIffNoMatch(s[1..], pat);
      if MatchLen(s, pat).None? {
        if NoMatch(s[1..], pat) {
          forall k | 0 <= k < |s| ensures MatchLen(s[k..], pat).None? {
            if k > 0 { assert s[k..] == s[1..][k - 1..]; }
          }
        } else {
          var k :| 0 <= k < |s[1..]| && MatchLen(s[1..][k..], pat).Some?;
          assert s[1..][k..] == s[k + 1..];
        }
      } else {
        assert s[0..] == s;
      }
    }
  }

  /** A rule whose pattern matches nowhere leaves the text unchanged. */
  lemma {:induction false} NoMatchUnchanged(s: string, pat: Pattern, rep: string)
    requires ValidPattern(pat)
    requires Count(s, pat) == 0
    ensures Replace(s, pat, rep) == s
    decreases |s|
  {
    if s != [] {
      assert MatchLen(s, pat).None?;
      NoMatchUnchanged(s[1..], pat, rep);
    }
  }

  /** A literal pattern matches nowhere exactly when the class name does not occur in the text. */
  lemma LiteralNoMatchIffAbsent(s: string, p: string)
    requires |p| > 0
    ensures NoMatch(s, Literal(p)) <==> !Contains(s, p)
  {
    ContainsIffOccurs(s, p);
    if NoMatch(s, Literal(p)) {
      forall k | 0 <= k && k + |p| <= |s| ensures !OccursAt(s, p, k) {
        assert s[k..][..|p|] == s[k..k + |p|];
      }
    } else {
      var k :| 0 <= k < |s| && MatchLen(s[k..], Literal(p)).Some?;
      assert s[k..][..|p|] == s[k..k + |p|];
      assert OccursAt(s, p, k);
    }
  }

  /** For literal patterns: the count is zero exactly when the class name is absent. */
  lemma LiteralCountZeroIffAbsent(s: string, p: string)
    requires |p| > 0
    ensures Count(s, Literal(p)) == 0 <==> !Contains(s, p)
  {
    CountZeroIffNoMatch(s, Literal(p));
    LiteralNoMatchIffAbsent(s, p);
  }

  /** One step of the scan for a literal class name. */
  lemma LiteralStep(s: string, p: string, rep: string)
    requires |p| > 0 && s != []
    ensures StartsWith(s, p) ==>
      |p| <= |s| &&
      Count(s, Literal(p)) == 1 + Count(s[|p|..], Literal(p)) &&
      Replace(s, Literal(p), rep) == rep + Replace(s[|p|..], Literal(p), rep)
    ensures !StartsWith(s, p) ==>
      Count(s, Literal(p)) == Count(s[1..], Literal(p)) &&
      Replace(s, Literal(p), rep) == [s[0]] + Replace(s[1..], Literal(p), rep)
  {
  }

  lemma MulSucc(c: int, d: int)
    ensures (c + 1) * d == c * d + d
  {
  }

  /** Each literal match swaps |p| characters for |rep| characters. */
  lemma {:induction false} LiteralLength(s: string, p: string, rep: string)
    requires |p| > 0
    ensures |Replace(s, Literal(p), rep)| == |s| + Count(s, Literal(p)) * (|rep| - |p|)
    decreases |s|
  {
    if s != [] {
      LiteralStep(s, p, rep);
      if StartsWith(s, p) {
        LiteralLength(s[|p|..], p, rep);
        MulSucc(Count(s[|p|..], Literal(p)), |rep| - |p|);
      } else {
        LiteralLength(s[1..], p, rep);
      }
    }
  }

  /** Literal matches do not overlap, so they fit in the text side by side. */
  lemma {:induction false} LiteralCountBound(s: string, p: string)
    requires |p| > 0
    ensures Count(s, Literal(p)) * |p| <= |s|
    decreases |s|
  {
    if s != [] {
      LiteralStep(s, p, p);
      if StartsWith(s, p) {
        LiteralCountBound(s[|p|..], p);
        MulSucc(Count(s[|p|..], Literal(p)), |p|);
      } else {
        LiteralCountBound(s[1..], p);
      }
    }
  }

  /** Replacing a class name by itself changes nothing, however many times it occurs. */
  lemma {:induction false} ReplaceBySelf(s: string, p: string)
    requires |p| > 0
    ensures Replace(s, Literal(p), p) == s
    decreases |s|
  {
    if s != [] {
      match MatchLen(s, Literal(p))
      case Some(n) =>
        ReplaceBySelf(s[n..], p);
        assert s == s[..n] + s[n..];
      case None =>
        ReplaceBySelf(s[1..], p);
        assert s == [s[0]] + s[1..];
    }
  }

  /** A text that is exactly one match becomes exactly the replacement, counted once. */
  lemma WholeMatch(p: string, rep: string)
    requires |p| > 0
    ensures Replace(p, Literal(p), rep) == rep
    ensures Count(p, Literal(p)) == 1
  {
    assert StartsWith(p, p);
    assert p[|p|..] == [];
  }

  /** A prefix in which no match can start is copied through unchanged and counts nothing. */
  lemma {:induction false} SkipPrefix(u: string, w: string, pat: Pattern, rep: string)
    requires ValidPattern(pat)
    requires forall k :: 0 <= k < |u| ==> MatchLen((u + w)[k..], pat).None?
    ensures Replace(u + w, pat, rep) == u + Replace(w, pat, rep)
    ensures Count(u + w, pat) == Count(w, pat)
    decreases |u|
  {
    if u != [] {
      assert MatchLen((u + w)[0..], pat).None?;
      assert (u + w)[0..] == u + w;
      assert (u + w)[1..] == u[1..] + w;
      forall k | 0 <= k < |u[1..]| ensures MatchLen((u[1..] + w)[k..], pat).None? {
        assert (u[1..] + w)[k..] == (u + w)[k + 1..];
      }
      SkipPrefix(u[1..], w, pat, rep);
      assert u + Replace(w, pat, rep) == [u[0]] + (u[1..] + Replace(w, pat, rep));
    }
  }

  /** A class name preceded only by characters that differ from its first character is
      matched once, after that prefix, which is copied through. */
  lemma MatchAfterPrefix(u: string, w: string, rep: string)
    requires |w| > 0
    requires forall k :: 0 <= k < |u| ==> u[k] != w[0]
    ensures Replace(u + w, Literal(w), rep) == u + rep
    ensures Count(u + w, Literal(w)) == 1
  {
    forall k | 0 <= k < |u| ensures MatchLen((u + w)[k..], Literal(w)).None? {
      assert (u + w)[k..][0] == u[k];
    }
    SkipPrefix(u, w, Literal(w), rep);
    WholeMatch(w, rep);
  }

  /** A text shorter than a class name contains no match of it. */
  lemma {:induction false} ShortUnchanged(v: string, w: string, rep: string)
    requires |v| < |w|
    ensures Replace(v, Literal(w), rep) == v
    ensures Count(v, Literal(w)) == 0
    decreases |v|
  {
    if v != [] {
      ShortUnchanged(v[1..], w, rep);
    }
  }

  /** A class name at the start of a text is replaced there, and scanning resumes after it. */
  lemma MatchAtStart(w: string, v: string, rep: string)
    requires |w| > 0
    ensures Replace(w + v, Literal(w), rep) == rep + Replace(v, Literal(w), rep)
    ensures Count(w + v, Literal(w)) == 1 + Count(v, Literal(w))
  {
    assert (w + v)[..|w|] == w;
    assert (w + v)[|w|..] == v;
  }

  /** The whitespace run at the start of `ws + r` is exactly `ws` when `r` does not start
      with whitespace. */
  lemma {:induction false} SpaceRunOver(ws: string, r: string, d: Dialect)
    requires forall i :: 0 <= i < |ws| ==> IsSpace(d, ws[i])
    requires |r| > 0 && !IsSpace(d, r[0])
    ensures SpaceRun(ws + r, d) == |ws|
    decreases |ws|
  {
    if ws != [] {
      assert (ws + r)[1..] == ws[1..] + r;
      SpaceRunOver(ws[1..], r, d);
    } else {
      assert ws + r == r;
    }
  }

  /** `left\s+right` around any non-empty run of whitespace matches the whole text once, so
      the run collapses to whatever the replacement puts between the two names. */
  lemma GapCollapses(l: string, ws: string, r: string, d: Dialect, rep: string)
    requires ValidPattern(SpaceGap(l, r, d))
    requires |ws| > 0 && forall i :: 0 <= i < |ws| ==> IsSpace(d, ws[i])
    ensures Replace(l + ws + r, SpaceGap(l, r, d), rep) == rep
    ensures Count(l + ws + r, SpaceGap(l, r, d)) == 1
  {
    var s := l + ws + r;
    assert s[..|l|] == l;
    assert s[|l|..] == ws + r;
    SpaceRunOver(ws, r, d);
    assert s[|l| + |ws|..] == r;
    assert s[|s|..] == [];
  }
}
