/** replace-scenarios-colors-node.js: ten rules, each escaped into a global regex, counted and
    replaced only when it matched; a positive count is recorded under the class name and
    added to the total, and a summary reports the total and how many classes changed. */
module ScenariosNode {
  import opened Strings
  import opened Rewrite
  import opened Absence
  import opened Engine
  import opened Ordering
  import ClassOverlaps

  /** The `replacements` list, in the script's order. */
  const Table: seq<Rule> := [
    Lit("text-dark-primary", "text-foreground"),
    Lit("text-dark-foreground", "text-foreground"),
    Lit("placeholder-gray-500", "placeholder:text-muted-foreground"),
    Lit("hover:ring-dark-primary/20", "hover:ring-foreground/20"),
    Lit("focus:ring-dark-primary/50", "focus:ring-foreground/50"),
    Lit("ring-dark-primary/20", "ring-foreground/20"),
    Lit("text-gray-300", "text-foreground"),
    Lit("text-gray-400", "text-muted-foreground"),
    Lit("text-gray-500", "text-muted-foreground"),
    Lit("text-gray-600", "text-muted-foreground")
  ]

  lemma TableValid()
    ensures ValidRules(Table)
  {
  }

  /** No two rules share a class name, so no recorded count is ever overwritten. */
  lemma TableKeysDistinct()
    ensures DistinctKeys(Table)
  {
  }

  /** What the script reports: the total and the number of entries of `replacementCounts`,
      and whether it says the file was updated rather than that nothing was needed. */
  datatype Summary = Summary(total: nat, classesModified: nat, updated: bool)

  /** The script: the new page text, the recorded counts and the summary. The recorded counts
      are exactly the rules that matched, in table order; the summary's figures agree with
      them; the file is reported updated exactly when some rule matched, and otherwise the
      text is unchanged. */
  method Run(content: string) returns (result: string, entries: seq<Entry>, summary: Summary)
    ensures result == ApplyRules(content, Table)
    ensures entries == Positives(Table, Counts(content, Table))
    ensures summary.total == EntrySum(entries) == Sum(Counts(content, Table))
    ensures summary.classesModified == |entries| == NumPositive(Counts(content, Table))
    ensures summary.updated <==> exists i :: 0 <= i < |Table| && Counts(content, Table)[i] > 0
    ensures !summary.updated ==> result == content
  {
    TableValid();
    var total;
    result, entries, total := ApplyRecordingPositive(content, Table);
    TableKeysDistinct();
    RecordedIsPositives(content, Table);
    PositivesSum(Table, Counts(content, Table));
    PositivesLength(Table, Counts(content, Table));
    SumZeroIffAllZero(Counts(content, Table));
    if total == 0 {
      ZeroTotalNoChange(content, Table);
    }
    summary := Summary(total, |entries|, total > 0);
  }

  /** The replacements of rules 3 and 4 cannot recreate `hover:ring-dark-primary/20`. */
  lemma HoverRingStaysOut()
    ensures forall k :: 3 <= k < 5 ==> NoOverlap("hover:ring-dark-primary/20", Table[k].replacement)
  {
    ClassOverlaps.HoverRingDarkPrimarySlash20VsHoverRingForegroundSlash20();
    ClassOverlaps.HoverRingDarkPrimarySlash20VsFocusRingForegroundSlash50();
  }

  /** `hover:ring-dark-primary/20` is rewritten by its own rule: the general
      `ring-dark-primary/20` rule never sees it. */
  lemma HoverRingConsumedFirst(s: string)
    ensures !Contains(ApplyRules(s, Table[..5]), "hover:ring-dark-primary/20")
  {
    TableValid();
    HoverRingStaysOut();
    RemovedAt(s, Table, 3, "hover:ring-dark-primary/20");
    AbsentThrough(s, Table, 4, 5, "hover:ring-dark-primary/20");
  }
}
