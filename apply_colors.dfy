/** apply-colors.py: the Python copy of the color table, whose `text-white` rule carries the
    lookahead `(?!\S)` and whose last entry is the whitespace-tolerant special case. Each rule's
    matches are counted with `re.findall` on the current text before `re.sub` replaces them; a
    file is written back only when its text changed, and a file whose read or write raises is
    reported and adds nothing to the total. */
module ApplyColors {
  import opened Strings
  import opened Rewrite
  import opened Engine
  import opened FileRuns
  import opened RegexEscape
  import ColorTable
  import UpdateColors

  /** The special case, the last entry of the list. */
  const Special: Rule := Rule(SpaceGap("bg-white", "text-black", Py), "bg-foreground text-background")

  /** The `replacements` list: the shared table with `text-white(?!\S)` as rule 17, then the
      special case as rule 35. */
  const Replacements: seq<Rule> := ColorTable.Table(NotBeforeNonSpace("text-white")) + [Special]

  lemma ReplacementsValid()
    ensures ValidRules(Replacements) && |Replacements| == 36
    ensures Replacements[..35] == ColorTable.Table(NotBeforeNonSpace("text-white"))
    ensures Replacements[3] == Lit("bg-[#0E0E0E]", "bg-background")
    ensures Replacements[17] == Rule(NotBeforeNonSpace("text-white"), "text-foreground")
    ensures Replacements[35] == Special
  {
    ColorTable.TableFacts(NotBeforeNonSpace("text-white"));
    assert ColorTable.Table(NotBeforeNonSpace("text-white"))[3] == ColorTable.Backgrounds[3];
  }

  /** The list is update-colors.js's table and special case, except that the `text-white`
      rule keeps the lookahead and the special case uses Python's `\s`. */
  lemma SameRulesAsUpdateColors()
    ensures |Replacements| == |UpdateColors.FullTable| == 36
    ensures forall k :: 0 <= k < 35 && k != 17 ==> Replacements[k] == UpdateColors.FullTable[k]
    ensures Replacements[17].pattern == NotBeforeNonSpace("text-white")
    ensures UpdateColors.FullTable[17].pattern == Literal("text-white")
    ensures Replacements[35].pattern == SpaceGap("bg-white", "text-black", Py)
    ensures UpdateColors.FullTable[35].pattern == SpaceGap("bg-white", "text-black", Js)
  {
    ReplacementsValid();
    UpdateColors.FullTableValid();
    ColorTable.TableFacts(Literal("text-white"));
    ColorTable.OnlyTextWhiteDiffers(NotBeforeNonSpace("text-white"), Literal("text-white"));
  }

  /** The count a file contributes when it goes through. */
  function FileCount(content: string): nat {
    ReplacementsValid();
    Sum(Counts(content, Replacements))
  }

  /** The new text of a file. */
  function NewText(content: string): string {
    ReplacementsValid();
    ApplyRules(content, Replacements)
  }

  /** One file's text through the whole list, with its count. */
  method ApplyFile(content: string) returns (result: string, fileReplacements: nat)
    ensures result == NewText(content)
    ensures fileReplacements == FileCount(content)
  {
    ReplacementsValid();
    result, fileReplacements := ApplyToFile(content, Replacements);
  }

  predicate Changed(content: string) {
    NewText(content) != content
  }

  /** The file is read and, if its text changed, written back without error. */
  predicate GoesThrough(f: FileAccess) {
    f.read.Some? && (!Changed(f.read.value) || f.writeOk)
  }

  /** What is written to the file: its new text, only when that differs from the old and the
      write succeeds. */
  function Written(f: FileAccess): Option<string> {
    if f.read.Some? && Changed(f.read.value) && f.writeOk then Some(NewText(f.read.value)) else None
  }

  function Contribution(f: FileAccess): nat {
    if GoesThrough(f) then FileCount(f.read.value) else 0
  }

  /** The script over its list of files: the text written to each file (nothing when it is
      unchanged or its read or write raises) and the grand total. */
  method ApplyAll(files: seq<FileAccess>) returns (written: seq<Option<string>>, total: nat)
    ensures |written| == |files|
    ensures forall i :: 0 <= i < |files| ==> written[i] == Written(files[i])
    ensures total == Total(files, Contribution)
  {
    written := [];
    total := 0;
    var i := 0;
    while i < |files|
      invariant 0 <= i <= |files|
      invariant |written| == i
      invariant forall k :: 0 <= k < i ==> written[k] == Written(files[k])
      invariant total == Total(files[..i], Contribution)
    {
      var f := files[i];
      assert files[..i + 1][..i] == files[..i];
      if f.read.Some? {
        var originalContent := f.read.value;
        var content, fileReplacements := ApplyFile(originalContent);
        if content != originalContent {
          if f.writeOk {
            written := written + [Some(content)];
            total := total + fileReplacements;
          } else {
            written := written + [None];
          }
        } else {
          written := written + [None];
          total := total + fileReplacements;
        }
      } else {
        written := written + [None];
      }
      i := i + 1;
    }
    assert files[..i] == files;
  }

  /** A file whose read raises, or whose changed text cannot be written, adds nothing. */
  lemma FailedFileAddsNothing(files: seq<FileAccess>, i: int)
    requires 0 <= i < |files| && !GoesThrough(files[i])
    ensures Total(files, Contribution) == Total(files[..i] + files[i + 1..], Contribution)
  {
    DroppingSilentFile(files, i, Contribution);
  }

  /** A file in which nothing matched is left as it is, so no write is attempted. */
  lemma ZeroCountNotWritten(content: string)
    requires FileCount(content) == 0
    ensures NewText(content) == content
  {
    ReplacementsValid();
    ZeroTotalNoChange(content, Replacements);
  }

  /** The special case is the last rule: it runs on the text the other 35 rules left. */
  lemma SpecialRunsLast(content: string)
    ensures ValidRules(Replacements[..35])
    ensures NewText(content) ==
      Replace(ApplyRules(content, Replacements[..35]), Special.pattern, Special.replacement)
  {
    ReplacementsValid();
    ApplyRulesStep(content, Replacements, 35);
    assert Replacements[..36] == Replacements;
  }

  /** `hover:bg-white/10` (line 63) never matches, because the `bg-white/10` rule (line 35)
      runs first. */
  lemma HoverBgWhiteNeverFires(s: string)
    ensures ValidRules(Replacements)
    ensures Counts(s, Replacements)[32] == 0
    ensures Replacements[32] == Lit("hover:bg-white/10", "hover:bg-accent")
  {
    ReplacementsValid();
    ColorTable.TableFacts(NotBeforeNonSpace("text-white"));
    ColorTable.HoverBgWhiteNeverFires(s, NotBeforeNonSpace("text-white"));
    CountsPrefix(s, Replacements, 35);
  }

  /** `text-white(?!\S)` leaves `text-white` alone when a non-whitespace character follows it:
      `text-white/75` and `text-white"` do not match. */
  lemma TextWhiteKeptBeforeNonSpace(s: string)
    requires s == "text-white/75" || s == "text-white\""
    ensures Count(s, NotBeforeNonSpace("text-white")) == 0
    ensures Replace(s, NotBeforeNonSpace("text-white"), "text-foreground") == s
  {
    var p := "text-white";
    var pat := NotBeforeNonSpace(p);
    forall k | 0 <= k < |s| ensures MatchLen(s[k..], pat).None? {
      if k == 0 {
        assert s[k..] == s && !IsPySpace(s[10]);
      } else if k < 4 {
        assert s[k..][0] == s[k] != p[0] || s[k..][1] == s[k + 1] != p[1];
      } else {
        assert |s[k..]| < |p|;
      }
    }
    CountZeroIffNoMatch(s, pat);
    NoMatchUnchanged(s, pat, "text-foreground");
  }

  /** `text-white` at the end of the text, or before a whitespace character, is rewritten. */
  lemma TextWhiteRewrittenBeforeSpaceOrEnd(v: string)
    requires v == [] || (|v| == 1 && IsPySpace(v[0]))
    ensures Replace("text-white" + v, NotBeforeNonSpace("text-white"), "text-foreground") == "text-foreground" + v
    ensures Count("text-white" + v, NotBeforeNonSpace("text-white")) == 1
  {
    var p, r := "text-white", "text-foreground";
    var pat, s := NotBeforeNonSpace(p), p + v;
    assert StartsWith(s, p) by {
      assert s[..|p|] == p;
    }
    assert MatchLen(s, pat) == Some(|p|);
    assert s[|p|..] == v;
    assert Replace(v, pat, r) == v && Count(v, pat) == 0 by {
      if v != [] {
        assert v[1..] == [];
      }
    }
  }
}
