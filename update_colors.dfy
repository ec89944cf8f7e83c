/** update-colors.js: the 35-rule regex table run in order over each page file, then the
    whitespace-tolerant `bg-white\s+text-black` rule. A rule adds its number of matches to the
    file's count and replaces them only when it matched; a file whose read or write throws is
    reported and adds nothing to the grand total. */
module UpdateColors {
  import opened Strings
  import opened Rewrite
  import opened Engine
  import opened FileRuns
  import ColorTable

  /** The `replacements` table, with the plain `text-white` class name as rule 17. */
  const Rules: seq<Rule> := ColorTable.Table(Literal("text-white"))

  /** The special case run after the table. */
  const Special: Rule := Rule(SpaceGap("bg-white", "text-black", Js), "bg-foreground text-background")

  /** Everything one file goes through, in order: the table, then the special case. */
  const FullTable: seq<Rule> := Rules + [Special]

  lemma FullTableValid()
    ensures ValidRules(Rules) && |Rules| == 35
    ensures ValidRules(FullTable) && FullTable[..35] == Rules && FullTable[35] == Special
  {
    ColorTable.TableValid(Literal("text-white"));
  }

  /** The count one file contributes when it is read and written back. */
  function FileCount(content: string): nat {
    FullTableValid();
    Sum(Counts(content, FullTable))
  }

  /** The text written back to a file. */
  function NewText(content: string): string {
    FullTableValid();
    ApplyRules(content, FullTable)
  }

  /** One file: the table rules in order, then the special case, on the text the table left;
      the count is the sum of all their match counts. */
  method UpdateFile(content: string) returns (result: string, fileCount: nat)
    ensures result == NewText(content)
    ensures fileCount == FileCount(content)
  {
    FullTableValid();
    result, fileCount := ApplyToFile(content, Rules);
    var m := Count(result, Special.pattern);
    if m > 0 {
      fileCount := fileCount + m;
      result := Replace(result, Special.pattern, Special.replacement);
    } else {
      NoMatchUnchanged(result, Special.pattern, Special.replacement);
    }
    SpecialRunsLast(content);
  }

  /** The special case runs after all 35 table rules, on the text they left, and its matches
      are added to theirs. */
  lemma SpecialRunsLast(content: string)
    ensures ValidRules(Rules) && ValidRules(FullTable)
    ensures ApplyRules(content, FullTable) ==
      Replace(ApplyRules(content, Rules), Special.pattern, Special.replacement)
    ensures FileCount(content) ==
      Sum(Counts(content, Rules)) + Count(ApplyRules(content, Rules), Special.pattern)
  {
    FullTableValid();
    RunInParts(content, Rules, [Special]);
    assert [Special][..0] == [];
  }

  /** A file in which nothing matched is written back exactly as it was read. */
  lemma ZeroCountUnchanged(content: string)
    requires FileCount(content) == 0
    ensures ValidRules(FullTable)
    ensures ApplyRules(content, FullTable) == content
  {
    FullTableValid();
    ZeroTotalNoChange(content, FullTable);
  }

  predicate Succeeds(f: FileAccess) {
    f.read.Some? && f.writeOk
  }

  /** What is written to the file: its new text, unless its read or write throws. */
  function Written(f: FileAccess): Option<string> {
    if Succeeds(f) then Some(NewText(f.read.value)) else None
  }

  /** What one file adds to the grand total: its count when it was read and written back. */
  function Contribution(f: FileAccess): nat {
    if Succeeds(f) then FileCount(f.read.value) else 0
  }

  /** The script over its list of files: what is written to each file (nothing when its read
      or write throws) and the grand total. */
  method UpdateAll(files: seq<FileAccess>) returns (written: seq<Option<string>>, total: nat)
    ensures |written| == |files|
    ensures forall i :: 0 <= i < |files| ==> written[i] == Written(files[i])
    ensures total == Total(files, Contribution)
  {
    written := [];
    total := 0;
    var i := 0;
    while i < |files|
      invariant 0 <= i <= |files|
      invariant |written| == i
      invariant forall k :: 0 <= k < i ==> written[k] == Written(files[k])
      invariant total == Total(files[..i], Contribution)
    {
      var f := files[i];
      assert files[..i + 1][..i] == files[..i];
      if f.read.Some? {
        var result, fileCount := UpdateFile(f.read.value);
        if f.writeOk {
          written := written + [Some(result)];
          total := total + fileCount;
        } else {
          written := written + [None];
        }
      } else {
        written := written + [None];
      }
      i := i + 1;
    }
    assert files[..i] == files;
  }

  /** A file whose read or write throws adds nothing: the total is that of the other files. */
  lemma FailedFileAddsNothing(files: seq<FileAccess>, i: int)
    requires 0 <= i < |files| && !Succeeds(files[i])
    ensures Total(files, Contribution) == Total(files[..i] + files[i + 1..], Contribution)
  {
    DroppingSilentFile(files, i, Contribution);
  }

  /** The `hover:bg-white/10` rule (line 62) never matches: the `bg-white/10` rule (line 34)
      has already rewritten the `bg-white/10` inside it. */
  lemma HoverBgWhiteNeverFires(s: string)
    ensures ValidRules(FullTable)
    ensures Counts(s, FullTable)[32] == 0
    ensures FullTable[32] == Lit("hover:bg-white/10", "hover:bg-accent")
  {
    FullTableValid();
    ColorTable.TableFacts(Literal("text-white"));
    ColorTable.HoverBgWhiteNeverFires(s, Literal("text-white"));
    CountsPrefix(s, FullTable, 35);
  }

  /** The `text-white` rule also matches as the start of a longer class name:
      `text-white/75` becomes `text-foreground/75`. */
  lemma TextWhiteRuleOnPrefix(s: string)
    requires s == "text-white/75"
    ensures Rules[17] == Lit("text-white", "text-foreground")
    ensures Replace(s, Rules[17].pattern, Rules[17].replacement) == "text-foreground/75"
    ensures Count(s, Rules[17].pattern) == 1
  {
    ColorTable.TableFacts(Literal("text-white"));
    var w, v, r := "text-white", "/75", "text-foreground";
    assert w + v == s;
    assert r + v == "text-foreground/75";
    MatchAtStart(w, v, r);
    ShortUnchanged(v, w, r);
  }

  /** The special case: `bg-white`, any non-empty run of whitespace, then `text-black` becomes
      `bg-foreground text-background`, with a single space. */
  lemma SpecialCollapsesWhitespace(ws: string)
    requires |ws| > 0 && forall i :: 0 <= i < |ws| ==> IsJsSpace(ws[i])
    ensures Replace("bg-white" + ws + "text-black", Special.pattern, Special.replacement) == "bg-foreground text-background"
    ensures Count("bg-white" + ws + "text-black", Special.pattern) == 1
  {
    GapCollapses("bg-white", ws, "text-black", Js, Special.replacement);
  }
}
