/** The loop every color-migration script is built on: an ordered table of rules, each run on
    the text left by the rules before it, with the number of matches of each rule taken on that
    same text just before the rule replaces them. The scripts differ only in what they keep of
    the counts, and each shape of loop is one method here. */
module Engine {
  import opened Strings
  import opened Rewrite

  datatype Rule = Rule(pattern: Pattern, replacement: string)

  /** A rule whose pattern is a class name taken literally. */
  function Lit(from: string, to: string): Rule {
    Rule(Literal(from), to)
  }

  predicate ValidRules(rules: seq<Rule>) {
    forall i :: 0 <= i < |rules| ==> ValidPattern(rules[i].pattern)
  }

  /** The text after all rules, applied in table order. */
  function ApplyRules(s: string, rules: seq<Rule>): string
    requires ValidRules(rules)
    decreases |rules|
  {
    if rules == [] then s
    else
      var n := |rules| - 1;
      Replace(ApplyRules(s, rules[..n]), rules[n].pattern, rules[n].replacement)
  }

  /** The count of each rule, measured on the text that rule sees. */
  function Counts(s: string, rules: seq<Rule>): (cs: seq<nat>)
    requires ValidRules(rules)
    ensures |cs| == |rules|
    decreases |rules|
  {
    if rules == [] then []
    else
      var n := |rules| - 1;
      Counts(s, rules[..n]) + [Count(ApplyRules(s, rules[..n]), rules[n].pattern)]
  }

  function Sum(xs: seq<nat>): nat
    decreases |xs|
  {
    if xs == [] then 0 else Sum(xs[..|xs| - 1]) + xs[|xs| - 1]
  }

  /** Rule `i` runs on the text left by rules `0..i-1`. */
  lemma ApplyRulesStep(s: string, rules: seq<Rule>, i: int)
    requires ValidRules(rules) && 0 <= i < |rules|
    ensures ApplyRules(s, rules[..i + 1]) ==
      Replace(ApplyRules(s, rules[..i]), rules[i].pattern, rules[i].replacement)
  {
    assert rules[..i + 1][..i] == rules[..i];
  }

  /** The counts of a prefix of the table are a prefix of the counts. */
  lemma {:induction false} CountsPrefix(s: string, rules: seq<Rule>, i: int)
    requires ValidRules(rules) && 0 <= i <= |rules|
    ensures Counts(s, rules[..i]) == Counts(s, rules)[..i]
    decreases |rules|
  {
    if i < |rules| {
      var n := |rules| - 1;
      assert rules[..n][..i] == rules[..i];
      CountsPrefix(s, rules[..n], i);
    } else {
      assert rules[..i] == rules;
    }
  }

  /** The count recorded for rule `i` is the number of its matches in the text it sees. */
  lemma CountsAt(s: string, rules: seq<Rule>, i: int)
    requires ValidRules(rules) && 0 <= i < |rules|
    ensures Counts(s, rules)[i] == Count(ApplyRules(s, rules[..i]), rules[i].pattern)
  {
    CountsPrefix(s, rules, i + 1);
    assert rules[..i + 1][..i] == rules[..i];
  }

  /** Running a table is running its first part, then the rest on the result. */
  lemma {:induction false} ApplyRulesConcat(s: string, a: seq<Rule>, b: seq<Rule>)
    requires ValidRules(a) && ValidRules(b)
    ensures ValidRules(a + b)
    ensures ApplyRules(s, a + b) == ApplyRules(ApplyRules(s, a), b)
    decreases |b|
  {
    if b == [] {
      assert a + b == a;
    } else {
      var n := |b| - 1;
      assert (a + b)[..|a + b| - 1] == a + b[..n];
      ApplyRulesConcat(s, a, b[..n]);
    }
  }

  /** The counts of a table split in two: the first part's counts on the text, then the
      second part's counts on the text the first part left. */
  lemma {:induction false} CountsConcat(s: string, a: seq<Rule>, b: seq<Rule>)
    requires ValidRules(a) && ValidRules(b)
    ensures ValidRules(a + b)
    ensures Counts(s, a + b) == Counts(s, a) + Counts(ApplyRules(s, a), b)
    decreases |b|
  {
    ApplyRulesConcat(s, a, b);
    if b == [] {
      assert a + b == a;
    } else {
      var n := |b| - 1;
      assert (a + b)[..|a + b| - 1] == a + b[..n];
      CountsConcat(s, a, b[..n]);
      ApplyRulesConcat(s, a, b[..n]);
    }
  }

  lemma {:induction false} SumConcat(xs: seq<nat>, ys: seq<nat>)
    ensures Sum(xs + ys) == Sum(xs) + Sum(ys)
    decreases |ys|
  {
    if ys == [] {
      assert xs + ys == xs;
    } else {
      var n := |ys| - 1;
      assert (xs + ys)[..|xs + ys| - 1] == xs + ys[..n];
      SumConcat(xs, ys[..n]);
    }
  }

  /** Running a table in two parts: the second part works on what the first left, and the
      total is the sum of the two parts' totals. */
  lemma RunInParts(s: string, a: seq<Rule>, b: seq<Rule>)
    requires ValidRules(a) && ValidRules(b)
    ensures ValidRules(a + b)
    ensures ApplyRules(s, a + b) == ApplyRules(ApplyRules(s, a), b)
    ensures Sum(Counts(s, a + b)) == Sum(Counts(s, a)) + Sum(Counts(ApplyRules(s, a), b))
  {
    ApplyRulesConcat(s, a, b);
    CountsConcat(s, a, b);
    SumConcat(Counts(s, a), Counts(ApplyRules(s, a), b));
  }

  /** A rule that found nothing leaves the text as it was. */
  lemma ZeroCountNoChange(s: string, rules: seq<Rule>, i: int)
    requires ValidRules(rules) && 0 <= i < |rules|
    requires Counts(s, rules)[i] == 0
    ensures ApplyRules(s, rules[..i + 1]) == ApplyRules(s, rules[..i])
  {
    CountsAt(s, rules, i);
    ApplyRulesStep(s, rules, i);
    NoMatchUnchanged(ApplyRules(s, rules[..i]), rules[i].pattern, rules[i].replacement);
  }

  /** A total of zero means no rule matched anything, and then the text is unchanged. */
  lemma {:induction false} ZeroTotalNoChange(s: string, rules: seq<Rule>)
    requires ValidRules(rules)
    requires Sum(Counts(s, rules)) == 0
    ensures forall i :: 0 <= i < |rules| ==> Counts(s, rules)[i] == 0
    ensures ApplyRules(s, rules) == s
    decreases |rules|
  {
    if rules != [] {
      var n := |rules| - 1;
      var cs := Counts(s, rules);
      assert cs[..n] == Counts(s, rules[..n]);
      ZeroTotalNoChange(s, rules[..n]);
      NoMatchUnchanged(ApplyRules(s, rules[..n]), rules[n].pattern, rules[n].replacement);
    }
  }

  lemma SumZeroIffAllZero(xs: seq<nat>)
    ensures Sum(xs) == 0 <==> forall i :: 0 <= i < |xs| ==> xs[i] == 0
    decreases |xs|
  {
    if xs != [] {
      SumZeroIffAllZero(xs[..|xs| - 1]);
      assert forall i :: 0 <= i < |xs| - 1 ==> xs[..|xs| - 1][i] == xs[i];
    }
  }

  lemma SumStep(xs: seq<nat>, i: int)
    requires 0 <= i < |xs|
    ensures Sum(xs[..i + 1]) == Sum(xs[..i]) + xs[i]
  {
    assert xs[..i + 1][..i] == xs[..i];
  }

  // ---------------------------------------------------------------------------------------
  // Counts kept only when positive, under the pattern's source text as key
  // (a JavaScript object property or a Python dict item).

  datatype Entry = Entry(key: string, count: nat)

  /** The pattern as written in the script, which is the key the scripts record it under. */
  function PatternSource(pat: Pattern): string {
    match pat
    case Literal(p) => p
    case NotBeforeNonSpace(p) => p + "(?!\\S)"
    case SpaceGap(l, r, _) => l + "\\s+" + r
  }

  /** Some entry is recorded under `key`. */
  predicate HasKey(entries: seq<Entry>, key: string) {
    exists i :: 0 <= i < |entries| && entries[i].key == key
  }

  /** `obj[key] = count` / `d[key] = count`: an existing key keeps its place and takes the new
      value, a new key goes last. */
  function Put(entries: seq<Entry>, key: string, count: nat): (r: seq<Entry>)
    ensures HasKey(entries, key) ==> |r| == |entries|
    ensures !HasKey(entries, key) ==> r == entries + [Entry(key, count)]
    ensures Entry(key, count) in r
    decreases |entries|
  {
    if entries == [] then [Entry(key, count)]
    else if entries[0].key == key then [Entry(key, count)] + entries[1..]
    else
      var rest := Put(entries[1..], key, count);
      assert HasKey(entries, key) <==> HasKey(entries[1..], key) by {
        if HasKey(entries, key) {
          var i :| 0 <= i < |entries| && entries[i].key == key;
          assert entries[1..][i - 1] == entries[i];
        }
        if HasKey(entries[1..], key) {
          var i :| 0 <= i < |entries[1..]| && entries[1..][i].key == key;
          assert entries[i + 1] == entries[1..][i];
        }
      }
      [entries[0]] + rest
  }

  /** What the positive-count scripts have recorded after running `rules`. */
  function Recorded(s: string, rules: seq<Rule>): seq<Entry>
    requires ValidRules(rules)
    decreases |rules|
  {
    if rules == [] then []
    else
      var n := |rules| - 1;
      var c := Count(ApplyRules(s, rules[..n]), rules[n].pattern);
      if c > 0 then Put(Recorded(s, rules[..n]), PatternSource(rules[n].pattern), c)
      else Recorded(s, rules[..n])
  }

  /** Reference definition: the rules with a positive count, in table order, with their counts. */
  function Positives(rules: seq<Rule>, counts: seq<nat>): seq<Entry>
    requires |counts| == |rules|
    decreases |rules|
  {
    if rules == [] then []
    else
      var n := |rules| - 1;
      Positives(rules[..n], counts[..n]) +
        (if counts[n] > 0 then [Entry(PatternSource(rules[n].pattern), counts[n])] else [])
  }

  function EntrySum(entries: seq<Entry>): nat
    decreases |entries|
  {
    if entries == [] then 0 else EntrySum(entries[..|entries| - 1]) + entries[|entries| - 1].count
  }

  /** The rules of a table are recorded under distinct keys. */
  predicate DistinctKeys(rules: seq<Rule>) {
    forall i, j :: 0 <= i < j < |rules| ==> PatternSource(rules[i].pattern) != PatternSource(rules[j].pattern)
  }

  /** Every key recorded for `Positives` is the key of one of its rules. */
  lemma PositivesKeys(rules: seq<Rule>, counts: seq<nat>, k: string)
    requires |counts| == |rules|
    requires HasKey(Positives(rules, counts), k)
    ensures exists i :: 0 <= i < |rules| && PatternSource(rules[i].pattern) == k
    decreases |rules|
  {
    var n := |rules| - 1;
    var before := Positives(rules[..n], counts[..n]);
    var e := Positives(rules, counts);
    var i :| 0 <= i < |e| && e[i].key == k;
    if i < |before| {
      assert e[i] == before[i];
      PositivesKeys(rules[..n], counts[..n], k);
      var j :| 0 <= j < n && PatternSource(rules[..n][j].pattern) == k;
      assert rules[..n][j] == rules[j];
    } else {
      assert PatternSource(rules[n].pattern) == k;
    }
  }

  /** With distinct keys nothing is ever overwritten: the recorded entries are exactly the
      rules that matched, in table order, with their counts. */
  lemma {:induction false} RecordedIsPositives(s: string, rules: seq<Rule>)
    requires ValidRules(rules) && DistinctKeys(rules)
    ensures Recorded(s, rules) == Positives(rules, Counts(s, rules))
    decreases |rules|
  {
    if rules != [] {
      var n := |rules| - 1;
      var cs := Counts(s, rules);
      assert cs[..n] == Counts(s, rules[..n]);
      assert DistinctKeys(rules[..n]);
      RecordedIsPositives(s, rules[..n]);
      var key := PatternSource(rules[n].pattern);
      if HasKey(Positives(rules[..n], cs[..n]), key) {
        PositivesKeys(rules[..n], cs[..n], key);
        assert false;
      }
    }
  }

  /** The recorded counts add up to the total of all counts (zero counts add nothing). */
  lemma {:induction false} PositivesSum(rules: seq<Rule>, counts: seq<nat>)
    requires |counts| == |rules|
    ensures EntrySum(Positives(rules, counts)) == Sum(counts)
    decreases |rules|
  {
    if rules != [] {
      var n := |rules| - 1;
      PositivesSum(rules[..n], counts[..n]);
      var before := Positives(rules[..n], counts[..n]);
      if counts[n] > 0 {
        assert (before + [Entry(PatternSource(rules[n].pattern), counts[n])])[..|before|] == before;
      } else {
        assert before + [] == before;
      }
    }
  }

  /** The number of rules with a positive count. */
  function NumPositive(counts: seq<nat>): nat
    decreases |counts|
  {
    if counts == [] then 0
    else NumPositive(counts[..|counts| - 1]) + (if counts[|counts| - 1] > 0 then 1 else 0)
  }

  lemma {:induction false} PositivesLength(rules: seq<Rule>, counts: seq<nat>)
    requires |counts| == |rules|
    ensures |Positives(rules, counts)| == NumPositive(counts)
    decreases |rules|
  {
    if rules != [] {
      var n := |rules| - 1;
      PositivesLength(rules[..n], counts[..n]);
    }
  }

  // ---------------------------------------------------------------------------------------
  // The loops.

  /** A loop that stores every rule's count in that rule's `count` field (zeros included) and
      keeps a running total. */
  method ApplyCountingEach(content: string, rules: seq<Rule>, counts: array<nat>)
    returns (result: string, total: nat)
    requires ValidRules(rules) && counts.Length == |rules|
    modifies counts
    ensures result == ApplyRules(content, rules)
    ensures counts[..] == Counts(content, rules)
    ensures total == Sum(counts[..])
  {
    result := content;
    total := 0;
    var i := 0;
    while i < |rules|
      invariant 0 <= i <= |rules|
      invariant result == ApplyRules(content, rules[..i])
      invariant counts[..i] == Counts(content, rules)[..i]
      invariant total == Sum(counts[..i])
    {
      var c := Count(result, rules[i].pattern);
      CountsAt(content, rules, i);
      counts[i] := c;
      result := Replace(result, rules[i].pattern, rules[i].replacement);
      ApplyRulesStep(content, rules, i);
      total := total + c;
      SumStep(counts[..], i);
      assert counts[..i + 1][..i] == counts[..i];
      assert counts[..][..i + 1] == counts[..i + 1];
      assert counts[..][..i] == counts[..i];
      i := i + 1;
    }
    assert rules[..i] == rules;
    assert counts[..i] == counts[..];
  }

  /** A loop that only adds each rule's count to a running total. */
  method ApplyCounting(content: string, rules: seq<Rule>) returns (result: string, total: nat)
    requires ValidRules(rules)
    ensures result == ApplyRules(content, rules)
    ensures total == Sum(Counts(content, rules))
  {
    result := content;
    total := 0;
    var i := 0;
    while i < |rules|
      invariant 0 <= i <= |rules|
      invariant result == ApplyRules(content, rules[..i])
      invariant total == Sum(Counts(content, rules)[..i])
    {
      var c := Count(result, rules[i].pattern);
      CountsAt(content, rules, i);
      result := Replace(result, rules[i].pattern, rules[i].replacement);
      ApplyRulesStep(content, rules, i);
      total := total + c;
      SumStep(Counts(content, rules), i);
      i := i + 1;
    }
    assert rules[..i] == rules;
    assert Counts(content, rules)[..i] == Counts(content, rules);
  }

  /** A loop that replaces only when the count is positive, and then records the count under
      the pattern and adds it to the total. */
  method ApplyRecordingPositive(content: string, rules: seq<Rule>)
    returns (result: string, entries: seq<Entry>, total: nat)
    requires ValidRules(rules)
    ensures result == ApplyRules(content, rules)
    ensures entries == Recorded(content, rules)
    ensures total == Sum(Counts(content, rules))
  {
    result := content;
    entries := [];
    total := 0;
    var i := 0;
    while i < |rules|
      invariant 0 <= i <= |rules|
      invariant result == ApplyRules(content, rules[..i])
      invariant entries == Recorded(content, rules[..i])
      invariant total == Sum(Counts(content, rules)[..i])
    {
      var c := Count(result, rules[i].pattern);
      CountsAt(content, rules, i);
      ApplyRulesStep(content, rules, i);
      assert rules[..i + 1][..i] == rules[..i];
      if c > 0 {
        result := Replace(result, rules[i].pattern, rules[i].replacement);
        entries := Put(entries, PatternSource(rules[i].pattern), c);
        total := total + c;
      } else {
        NoMatchUnchanged(result, rules[i].pattern, rules[i].replacement);
      }
      SumStep(Counts(content, rules), i);
      i := i + 1;
    }
    assert rules[..i] == rules;
    assert Counts(content, rules)[..i] == Counts(content, rules);
  }

  /** A loop that keeps only the text. */
  method ApplyAll(content: string, rules: seq<Rule>) returns (result: string)
    requires ValidRules(rules)
    ensures result == ApplyRules(content, rules)
  {
    result := content;
    var i := 0;
    while i < |rules|
      invariant 0 <= i <= |rules|
      invariant result == ApplyRules(content, rules[..i])
    {
      result := Replace(result, rules[i].pattern, rules[i].replacement);
      ApplyRulesStep(content, rules, i);
      i := i + 1;
    }
    assert rules[..i] == rules;
  }

  /** A loop over one file that adds a rule's count and replaces only when the rule matched. */
  method ApplyToFile(content: string, rules: seq<Rule>) returns (result: string, fileCount: nat)
    requires ValidRules(rules)
    ensures result == ApplyRules(content, rules)
    ensures fileCount == Sum(Counts(content, rules))
  {
    result := content;
    fileCount := 0;
    var i := 0;
    while i < |rules|
      invariant 0 <= i <= |rules|
      invariant result == ApplyRules(content, rules[..i])
      invariant fileCount == Sum(Counts(content, rules)[..i])
    {
      var matches := Count(result, rules[i].pattern);
      CountsAt(content, rules, i);
      ApplyRulesStep(content, rules, i);
      if matches > 0 {
        fileCount := fileCount + matches;
        result := Replace(result, rules[i].pattern, rules[i].replacement);
      } else {
        NoMatchUnchanged(result, rules[i].pattern, rules[i].replacement);
      }
      SumStep(Counts(content, rules), i);
      i := i + 1;
    }
    assert rules[..i] == rules;
    assert Counts(content, rules)[..i] == Counts(content, rules);
  }
}
