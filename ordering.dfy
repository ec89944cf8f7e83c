/** Order facts about a rule table: once a rule has removed a class name, later rules whose
    replacements cannot recreate it keep it out, and a later rule for a longer name built
    around it can then never match. */
module Ordering {
  import opened Strings
  import opened Rewrite
  import opened Absence
  import opened Engine

  /** A literal rule whose replacement cannot overlap its own class name removes it. */
  lemma RemovedAt(s: string, rules: seq<Rule>, i: int, p: string)
    requires ValidRules(rules) && 0 <= i < |rules|
    requires rules[i].pattern == Literal(p) && NoOverlap(p, rules[i].replacement)
    ensures !Contains(ApplyRules(s, rules[..i + 1]), p)
  {
    ApplyRulesStep(s, rules, i);
    RuleRemovesItsPattern(ApplyRules(s, rules[..i]), p, rules[i].replacement);
  }

  /** Rules `lo..hi-1` whose replacements cannot overlap `p` keep a `p`-free text `p`-free. */
  lemma {:induction false} AbsentThrough(s: string, rules: seq<Rule>, lo: int, hi: int, p: string)
    requires ValidRules(rules) && 0 <= lo <= hi <= |rules| && |p| > 0
    requires !Contains(ApplyRules(s, rules[..lo]), p)
    requires forall i :: lo <= i < hi ==> NoOverlap(p, rules[i].replacement)
    ensures !Contains(ApplyRules(s, rules[..hi]), p)
    decreases hi - lo
  {
    if lo < hi {
      ApplyRulesStep(s, rules, lo);
      RuleKeepsAbsent(ApplyRules(s, rules[..lo]), rules[lo].pattern, rules[lo].replacement, p);
      AbsentThrough(s, rules, lo + 1, hi, p);
    }
  }

  /** If rule `i` removes `inner`, the rules after it up to `j` cannot recreate it, and rule `j`
      looks for a longer class name containing `inner`, then rule `j` always counts 0. */
  lemma NeverFires(s: string, rules: seq<Rule>, i: int, j: int, inner: string, outer: string)
    requires ValidRules(rules) && 0 <= i < j < |rules| && |inner| > 0
    requires rules[i].pattern == Literal(inner)
    requires forall k :: i <= k < j ==> NoOverlap(inner, rules[k].replacement)
    requires rules[j].pattern == Literal(outer) && Contains(outer, inner)
    ensures Counts(s, rules)[j] == 0
  {
    RemovedAt(s, rules, i, inner);
    AbsentThrough(s, rules, i + 1, j, inner);
    CountsAt(s, rules, j);
    CountZeroAroundAbsent(ApplyRules(s, rules[..j]), outer, inner);
  }

  /** Literal rules whose class names do not occur in the text change nothing and count 0. */
  lemma {:induction false} UntouchedThrough(s: string, rules: seq<Rule>, lo: int, hi: int)
    requires ValidRules(rules) && 0 <= lo <= hi <= |rules|
    requires forall i :: lo <= i < hi ==>
      rules[i].pattern.Literal? && !Contains(ApplyRules(s, rules[..lo]), rules[i].pattern.text)
    ensures ApplyRules(s, rules[..hi]) == ApplyRules(s, rules[..lo])
    ensures forall i :: lo <= i < hi ==> Counts(s, rules)[i] == 0
    decreases hi - lo
  {
    if lo < hi {
      var t := ApplyRules(s, rules[..lo]);
      LiteralCountZeroIffAbsent(t, rules[lo].pattern.text);
      CountsAt(s, rules, lo);
      ZeroCountNoChange(s, rules, lo);
      UntouchedThrough(s, rules, lo + 1, hi);
    }
  }

  /** Rules whose leading class names each have a character that `t` lacks pass `t` through
      untouched: `cs[i]` names that character for rule `i`. */
  lemma {:induction false} SkipsAll(t: string, rules: seq<Rule>, cs: string)
    requires ValidRules(rules) && |cs| == |rules|
    requires forall i :: 0 <= i < |rules| ==> cs[i] in Lead(rules[i].pattern) && cs[i] !in t
    ensures ApplyRules(t, rules) == t
    ensures Sum(Counts(t, rules)) == 0
    decreases |rules|
  {
    if rules != [] {
      var n := |rules| - 1;
      var u := ApplyRules(t, rules[..n]);
      assert u == t && Sum(Counts(t, rules[..n])) == 0 by {
        assert forall i :: 0 <= i < n ==> rules[..n][i] == rules[i] && cs[..n][i] == cs[i];
        SkipsAll(t, rules[..n], cs[..n]);
      }
      assert Count(u, rules[n].pattern) == 0 && Replace(u, rules[n].pattern, rules[n].replacement) == u by {
        AbsentByMissingChar(t, Lead(rules[n].pattern), cs[n]);
        NeedsLead(t, rules[n].pattern, rules[n].replacement);
      }
      assert Counts(t, rules)[..n] == Counts(t, rules[..n]);
    }
  }

  /** Once a first part of the table has left `t`, further rules each lacking a character of
      `t` change nothing and add nothing to the total. */
  lemma SkipsAfter(s: string, a: seq<Rule>, b: seq<Rule>, t: string, n: nat, cs: string)
    requires ValidRules(a) && ValidRules(b) && |cs| == |b|
    requires ApplyRules(s, a) == t && Sum(Counts(s, a)) == n
    requires forall i :: 0 <= i < |b| ==> cs[i] in Lead(b[i].pattern) && cs[i] !in t
    ensures ValidRules(a + b)
    ensures ApplyRules(s, a + b) == t && Sum(Counts(s, a + b)) == n
  {
    RunInParts(s, a, b);
    SkipsAll(t, b, cs);
  }
}
