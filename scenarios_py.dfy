/** replace_scenarios_colors.py: the same ten rules as replace-scenarios-colors-node.js, with
    `str.count` and `str.replace`; a positive count is stored in a dict under the class name,
    and the total is the sum of the dict's values, taken after the loop. */
module ScenariosPy {
  import opened Rewrite
  import opened Engine
  import ScenariosNode

  /** The `replacements` list, in the script's order. */
  const Table: seq<Rule> := [
    Lit("text-dark-primary", "text-foreground"),
    Lit("text-dark-foreground", "text-foreground"),
    Lit("placeholder-gray-500", "placeholder:text-muted-foreground"),
    Lit("hover:ring-dark-primary/20", "hover:ring-foreground/20"),
    Lit("focus:ring-dark-primary/50", "focus:ring-foreground/50"),
    Lit("ring-dark-primary/20", "ring-foreground/20"),
    Lit("text-gray-300", "text-foreground"),
    Lit("text-gray-400", "text-muted-foreground"),
    Lit("text-gray-500", "text-muted-foreground"),
    Lit("text-gray-600", "text-muted-foreground")
  ]

  /** The script: the new text, the dict of positive counts, and the total and number of
      classes it reports, with the same guarantees as the JavaScript version. */
  method Run(content: string) returns (result: string, counts: seq<Entry>, summary: ScenariosNode.Summary)
    ensures result == ApplyRules(content, Table)
    ensures counts == Positives(Table, Counts(content, Table))
    ensures summary.total == Sum(Counts(content, Table))
    ensures summary.classesModified == |counts| == NumPositive(Counts(content, Table))
    ensures summary.updated <==> exists i :: 0 <= i < |Table| && Counts(content, Table)[i] > 0
    ensures !summary.updated ==> result == content
  {
    ScenariosNode.TableValid();
    var running;
    result, counts, running := ApplyRecordingPositive(content, Table);
    ScenariosNode.TableKeysDistinct();
    RecordedIsPositives(content, Table);
    var total := EntrySum(counts);
    PositivesSum(Table, Counts(content, Table));
    PositivesLength(Table, Counts(content, Table));
    SumZeroIffAllZero(Counts(content, Table));
    if total == 0 {
      ZeroTotalNoChange(content, Table);
    }
    summary := ScenariosNode.Summary(total, |counts|, total > 0);
  }

  /** The list is the JavaScript script's, so both leave the same text and record the same
      counts under the same keys. */
  lemma SameAsNode(s: string)
    ensures Table == ScenariosNode.Table
    ensures ApplyRules(s, Table) == ApplyRules(s, ScenariosNode.Table)
    ensures Recorded(s, Table) == Recorded(s, ScenariosNode.Table)
  {
  }
}
