/** When can a class name be present after a rule has run? A replacement text that cannot
    overlap a class name `p` in any alignment never creates `p`, so a rule for `p` removes all
    of it and any other rule keeps a `p`-free text `p`-free. These facts show which rules of
    the scripts can never fire. */
module Absence {
  import opened Strings
  import opened Rewrite

  /** `p` placed at offset `d` of `r` (negative: `p` starts before `r`) agrees with `r`
      wherever the two overlap. */
  ghost predicate Agree(p: string, r: string, d: int) {
    forall i :: 0 <= i < |p| && 0 <= d + i < |r| ==> p[i] == r[d + i]
  }

  /** No placement of `p` that shares at least one position with `r` agrees with it: text
      around an inserted `r` can never be completed to a `p` that uses part of `r`. */
  ghost predicate NoOverlap(p: string, r: string) {
    forall d :: -|p| < d < |r| ==> !Agree(p, r, d)
  }

  /** Only placements whose first shared position holds the same character need a witness:
      for `d >= 0` that is `p[0]` against `r[d]`, for `d < 0` it is `p[-d]` against `r[0]`. */
  lemma NoOverlapByAnchors(p: string, r: string)
    requires |p| > 0 && |r| > 0
    requires forall d :: 0 <= d < |r| && r[d] == p[0] ==> !Agree(p, r, d)
    requires forall j :: 0 < j < |p| && p[j] == r[0] ==> !Agree(p, r, -j)
    ensures NoOverlap(p, r)
  {
    forall d | -|p| < d < |r| ensures !Agree(p, r, d) {
      if d >= 0 {
        if r[d] != p[0] { assert p[0] != r[d + 0]; }
      } else {
        if p[-d] != r[0] { assert p[-d] != r[d + -d]; }
      }
    }
  }

  /** A character missing from a slice is missing at every position of it. */
  lemma MissingFrom(s: string, c: char, a: int, b: int)
    requires 0 <= a <= b <= |s| && c !in s[a..b]
    ensures forall d :: a <= d < b ==> s[d] != c
  {
    forall d | a <= d < b ensures s[d] != c {
      assert s[d] == s[a..b][d - a];
    }
  }

  /** A text in which some character of `p` never appears does not contain `p`. */
  lemma AbsentByChar(t: string, p: string, i: int)
    requires 0 <= i < |p| && p[i] !in t
    ensures !Contains(t, p)
  {
    ContainsIffOccurs(t, p);
    forall k | 0 <= k && k + |p| <= |t| ensures !OccursAt(t, p, k) {
      assert t[k..k + |p|][i] == t[k + i];
    }
  }

  /** The same, naming the missing character instead of its position in `p`. */
  lemma AbsentByMissingChar(t: string, p: string, c: char)
    requires c in p && c !in t
    ensures !Contains(t, p)
  {
    var i :| 0 <= i < |p| && p[i] == c;
    AbsentByChar(t, p, i);
  }

  /** No occurrence of `p` in `t` starts before position `n`. */
  ghost predicate FreeBefore(t: string, p: string, n: int) {
    forall k :: 0 <= k < n ==> !OccursAt(t, p, k)
  }

  /** Every occurrence of `p` in `s` is also a place where the rule's pattern matches. */
  ghost predicate CaughtByPattern(s: string, pat: Pattern, p: string)
    requires ValidPattern(pat)
  {
    forall j :: OccursAt(s, p, j) ==> MatchLen(s[j..], pat).Some?
  }

  /** Occurrences that start inside `u` and fit in it are occurrences of `u + s` as well. */
  lemma FreePrefix(u: string, s: string, p: string)
    requires FreeBefore(u + s, p, |u|)
    ensures FreeBefore(u, p, |u|)
  {
    forall k | 0 <= k < |u| ensures !OccursAt(u, p, k) {
      if k + |p| <= |u| {
        assert (u + s)[k..k + |p|] == u[k..k + |p|];
        assert !OccursAt(u + s, p, k);
      }
    }
  }

  /** Appending a replacement that cannot overlap `p` to a `p`-free text creates no `p` that
      starts before the end of the replacement, whatever follows. */
  lemma InsertKeepsFree(u: string, rep: string, w: string, p: string)
    requires |p| > 0 && NoOverlap(p, rep)
    requires FreeBefore(u, p, |u|)
    ensures FreeBefore(u + rep + w, p, |u| + |rep|)
  {
    var t := u + rep + w;
    forall k | 0 <= k < |u| + |rep| ensures !OccursAt(t, p, k) {
      if k + |p| <= |u| {
        assert t[k..k + |p|] == u[k..k + |p|];
        assert !OccursAt(u, p, k);
      } else if k + |p| <= |t| {
        var d := k - |u|;
        assert -|p| < d < |rep|;
        assert !Agree(p, rep, d);
        var i :| 0 <= i < |p| && 0 <= d + i < |rep| && p[i] != rep[d + i];
        assert t[k + i] == rep[d + i];
        assert t[k..k + |p|][i] != p[i];
      }
    }
  }

  /** What remains of the input after a prefix has been read keeps the property. */
  lemma CaughtInSuffix(s: string, pat: Pattern, p: string, n: int)
    requires ValidPattern(pat) && 0 <= n <= |s|
    requires CaughtByPattern(s, pat, p)
    ensures CaughtByPattern(s[n..], pat, p)
  {
    forall j | OccursAt(s[n..], p, j) ensures MatchLen(s[n..][j..], pat).Some? {
      assert s[n + j..n + j + |p|] == s[n..][j..j + |p|];
      assert OccursAt(s, p, n + j);
      assert s[n + j..] == s[n..][j..];
    }
  }

  /** The scan that `Replace` performs, seen halfway: `u` is the output so far, `s` the input
      still to read. If no `p` starts inside `u`, the rule's pattern catches every `p` still in
      `s`, and the replacement cannot overlap `p`, then the finished output has no `p` at all. */
  lemma {:induction false} ScanLeavesNoOccurrence(u: string, s: string, pat: Pattern, rep: string, p: string)
    requires ValidPattern(pat) && |p| > 0 && NoOverlap(p, rep)
    requires FreeBefore(u + s, p, |u|)
    requires CaughtByPattern(s, pat, p)
    ensures FreeBefore(u + Replace(s, pat, rep), p, |u + Replace(s, pat, rep)|)
    decreases |s|
  {
    if s == [] {
      assert u + s == u;
      assert u + Replace(s, pat, rep) == u;
    } else {
      match MatchLen(s, pat)
      case Some(n) =>
        var s' := s[n..];
        MatchStepKeepsFree(u, s, pat, rep, p, n);
        ScanLeavesNoOccurrence(u + rep, s', pat, rep, p);
        assert u + Replace(s, pat, rep) == (u + rep) + Replace(s', pat, rep);
      case None =>
        var u', s' := u + [s[0]], s[1..];
        SkipStepKeepsFree(u, s, pat, p);
        ScanLeavesNoOccurrence(u', s', pat, rep, p);
        assert u + Replace(s, pat, rep) == u' + Replace(s', pat, rep);
    }
  }

  /** After a match of length `n` the scan's invariant holds with the replacement appended to
      the output. */
  lemma MatchStepKeepsFree(u: string, s: string, pat: Pattern, rep: string, p: string, n: nat)
    requires ValidPattern(pat) && |p| > 0 && NoOverlap(p, rep) && 0 < n <= |s|
    requires FreeBefore(u + s, p, |u|)
    requires CaughtByPattern(s, pat, p)
    ensures FreeBefore((u + rep) + s[n..], p, |u + rep|)
    ensures CaughtByPattern(s[n..], pat, p)
  {
    FreePrefix(u, s, p);
    InsertKeepsFree(u, rep, s[n..], p);
    assert u + rep + s[n..] == (u + rep) + s[n..];
    CaughtInSuffix(s, pat, p, n);
  }

  /** Where no match starts, the scan copies one character and its invariant still holds. */
  lemma SkipStepKeepsFree(u: string, s: string, pat: Pattern, p: string)
    requires ValidPattern(pat) && |p| > 0 && |s| > 0 && MatchLen(s, pat).None?
    requires FreeBefore(u + s, p, |u|)
    requires CaughtByPattern(s, pat, p)
    ensures FreeBefore((u + [s[0]]) + s[1..], p, |u| + 1)
    ensures CaughtByPattern(s[1..], pat, p)
  {
    assert (u + [s[0]]) + s[1..] == u + s;
    assert s[0..] == s;
    assert !OccursAt(u + s, p, |u|);
    CaughtInSuffix(s, pat, p, 1);
  }

  /** A rule for class name `p` whose replacement cannot overlap `p` leaves no `p` behind. */
  lemma RuleRemovesItsPattern(s: string, p: string, rep: string)
    requires |p| > 0 && NoOverlap(p, rep)
    ensures !Contains(Replace(s, Literal(p), rep), p)
  {
    forall j | OccursAt(s, p, j) ensures MatchLen(s[j..], Literal(p)).Some? {
      assert s[j..][..|p|] == s[j..j + |p|];
    }
    assert [] + s == s;
    ScanLeavesNoOccurrence([], s, Literal(p), rep, p);
    assert [] + Replace(s, Literal(p), rep) == Replace(s, Literal(p), rep);
    ContainsIffOccurs(Replace(s, Literal(p), rep), p);
  }

  /** Any rule whose replacement cannot overlap `p` keeps a text without `p` without `p`. */
  lemma RuleKeepsAbsent(s: string, pat: Pattern, rep: string, p: string)
    requires ValidPattern(pat) && |p| > 0 && NoOverlap(p, rep)
    requires !Contains(s, p)
    ensures !Contains(Replace(s, pat, rep), p)
  {
    ContainsIffOccurs(s, p);
    assert [] + s == s;
    ScanLeavesNoOccurrence([], s, pat, rep, p);
    assert [] + Replace(s, pat, rep) == Replace(s, pat, rep);
    ContainsIffOccurs(Replace(s, pat, rep), p);
  }

  /** A longer class name built around an absent one cannot match. */
  lemma CountZeroAroundAbsent(t: string, outer: string, inner: string)
    requires |outer| > 0 && Contains(outer, inner) && !Contains(t, inner)
    ensures Count(t, Literal(outer)) == 0
  {
    if Contains(t, outer) {
      ContainsTransitive(t, outer, inner);
    }
    LiteralCountZeroIffAbsent(t, outer);
  }

  /** The class name every match of `pat` starts with. */
  function Lead(pat: Pattern): string {
    match pat
    case Literal(p) => p
    case NotBeforeNonSpace(p) => p
    case SpaceGap(l, _, _) => l
  }

  /** A pattern whose leading class name does not occur in `t` matches nowhere, so its rule
      counts 0 and leaves `t` as it is. */
  lemma NeedsLead(t: string, pat: Pattern, rep: string)
    requires ValidPattern(pat) && !Contains(t, Lead(pat))
    ensures Count(t, pat) == 0
    ensures Replace(t, pat, rep) == t
  {
    var p := Lead(pat);
    ContainsIffOccurs(t, p);
    forall k | 0 <= k < |t| ensures MatchLen(t[k..], pat).None? {
      if k + |p| <= |t| {
        assert t[k..][..|p|] == t[k..k + |p|];
        assert !OccursAt(t, p, k);
      }
    }
    CountZeroIffNoMatch(t, pat);
    NoMatchUnchanged(t, pat, rep);
  }
}
